/**
 * Candidate selection shared, line for line, by dccheck's `scan_path` and
 * monomake's `gather_files`: the argument itself when it is a file with a
 * supported suffix, otherwise every file `os.walk` reports beneath it whose
 * name has one. Suffixes are matched case-sensitively.
 *
 * `os.walk` is given as its output: a sequence of (root, file names) entries
 * in traversal order. A path that does not exist walks to nothing.
 */
module Collector {
  import opened Paths

  const SUPPORTED_SUFFIXES: seq<string> := [".wav", ".WAV", ".aif", ".AIF", ".aiff", ".AIFF", ".flac", ".FLAC"]

  /** `name.endswith(SUPPORTED_EXT)`. */
  predicate Supported(name: string) {
    EndsWithAny(name, SUPPORTED_SUFFIXES)
  }

  /** One `(root, _, files)` triple of `os.walk`. */
  datatype WalkEntry = WalkEntry(root: Path, files: seq<string>)

  /** `[os.path.join(root, f) for f in files if f.endswith(SUPPORTED_EXT)]`. */
  function Matching(root: Path, files: seq<string>): seq<Path> {
    if |files| == 0 then []
    else
      var f := files[|files| - 1];
      Matching(root, files[..|files| - 1]) + (if Supported(f) then [Join(root, f)] else [])
  }

  /** The matches of every walked directory, in walk order. */
  function Walked(walk: seq<WalkEntry>): seq<Path> {
    if |walk| == 0 then []
    else Walked(walk[..|walk| - 1]) + Matching(walk[|walk| - 1].root, walk[|walk| - 1].files)
  }

  /** The files a tool scans for `path`. */
  function Candidates(path: Path, isFile: bool, walk: seq<WalkEntry>): seq<Path> {
    if isFile && Supported(path) then [path] else Walked(walk)
  }

  lemma {:induction false} MatchingMembership(root: Path, files: seq<string>, p: Path)
    ensures p in Matching(root, files) <==>
              exists j :: 0 <= j < |files| && Supported(files[j]) && p == Join(root, files[j])
  {
    if |files| > 0 {
      var pre := files[..|files| - 1];
      MatchingMembership(root, pre, p);
      assert forall j :: 0 <= j < |pre| ==> pre[j] == files[j];
    }
  }

  /** A walked path is collected iff it is the join of a walked root and a
      file name under it with a supported suffix. */
  lemma {:induction false} WalkedMembership(walk: seq<WalkEntry>, p: Path)
    ensures p in Walked(walk) <==>
              exists i, j :: 0 <= i < |walk| && 0 <= j < |walk[i].files| &&
                Supported(walk[i].files[j]) && p == Join(walk[i].root, walk[i].files[j])
  {
    if |walk| > 0 {
      var n := |walk|;
      var pre := walk[..n - 1];
      WalkedMembership(pre, p);
      MatchingMembership(walk[n - 1].root, walk[n - 1].files, p);
      assert forall i :: 0 <= i < |pre| ==> pre[i] == walk[i];
    }
  }

  lemma SupportedJoin(root: Path, f: string)
    requires Supported(f)
    ensures Supported(Join(root, f))
  {
    var k :| 0 <= k < |SUPPORTED_SUFFIXES| && EndsWith(f, SUPPORTED_SUFFIXES[k]);
    JoinEndsWith(root, f);
    EndsWithTrans(Join(root, f), f, SUPPORTED_SUFFIXES[k]);
  }

  /** Selection: a file argument with a supported suffix is taken alone;
      otherwise exactly the walked files with a supported suffix are taken;
      either way every candidate ends in a supported suffix. */
  lemma CandidatesSelection(path: Path, isFile: bool, walk: seq<WalkEntry>)
    ensures isFile && Supported(path) ==> Candidates(path, isFile, walk) == [path]
    ensures !(isFile && Supported(path)) ==> forall p ::
              p in Candidates(path, isFile, walk) <==>
                exists i, j :: 0 <= i < |walk| && 0 <= j < |walk[i].files| &&
                  Supported(walk[i].files[j]) && p == Join(walk[i].root, walk[i].files[j])
    ensures forall p :: p in Candidates(path, isFile, walk) ==> Supported(p)
  {
    forall p | p in Walked(walk) ensures Supported(p) {
      WalkedMembership(walk, p);
      var i, j :| 0 <= i < |walk| && 0 <= j < |walk[i].files| &&
                  Supported(walk[i].files[j]) && p == Join(walk[i].root, walk[i].files[j]);
      SupportedJoin(walk[i].root, walk[i].files[j]);
    }
    forall p ensures p in Walked(walk) <==>
                exists i, j :: 0 <= i < |walk| && 0 <= j < |walk[i].files| &&
                  Supported(walk[i].files[j]) && p == Join(walk[i].root, walk[i].files[j]) {
      WalkedMembership(walk, p);
    }
  }

  /** `gather_files` (and the first half of `scan_path`). */
  method GatherFiles(path: Path, isFile: bool, walk: seq<WalkEntry>) returns (files: seq<Path>)
    ensures files == Candidates(path, isFile, walk)
  {
    files := [];
    if isFile && Supported(path) {
      files := files + [path];
    } else {
      var i := 0;
      while i < |walk|
        invariant 0 <= i <= |walk|
        invariant files == Walked(walk[..i])
      {
        var entry := walk[i];
        var j := 0;
        while j < |entry.files|
          invariant 0 <= j <= |entry.files|
          invariant files == Walked(walk[..i]) + Matching(entry.root, entry.files[..j])
        {
          var f := entry.files[j];
          if Supported(f) {
            files := files + [Join(entry.root, f)];
          }
          assert entry.files[..j + 1][..j] == entry.files[..j];
          j := j + 1;
        }
        assert entry.files[..j] == entry.files;
        assert walk[..i + 1][..i] == walk[..i];
        i := i + 1;
      }
      assert walk[..i] == walk;
    }
  }
}
