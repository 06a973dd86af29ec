/**
 * pcheck: compare every audio file found under the given paths with a master
 * file, classify each as in polarity or inverted by the sign of the sample
 * correlation, and flip the inverted ones, in place or into one `p_fix`
 * folder.
 *
 * The filesystem listing is `tree`, keyed by absolute path: `os.path.isfile`
 * holds for a `RegularFile`, `os.path.isdir` for a `Directory`, whose names
 * are what `glob` sees in it. `cwd` is the working directory `abspath` uses.
 */
module PCheck {
  import opened Wrappers
  import opened Paths
  import opened Audio
  import opened Batch

  const SUPPORTED_EXT: seq<string> := ["wav", "WAV", "aif", "AIF", "aiff", "AIFF", "flac", "FLAC"]
  const FIX_FOLDER: string := "p_fix"
  const FIX_FLAG: string := "--fix"

  datatype Node = RegularFile | Directory(names: seq<string>)

  type Tree = map<Path, Node>

  // ---------------------------------------------------------------------
  // File discovery (find_audio_files)

  /** The name matches the glob pattern `*.ext`: it ends in `.ext` and, like
      every `*` pattern, does not match hidden names starting with '.'. */
  predicate GlobMatch(name: string, ext: string) {
    |name| > 0 && name[0] != '.' && EndsWith(name, "." + ext)
  }

  /** `glob.glob(os.path.join(dir, "*." + ext))`, in listing order. */
  function Glob(dir: Path, names: seq<string>, ext: string): seq<Path> {
    if |names| == 0 then []
    else
      var n := names[|names| - 1];
      Glob(dir, names[..|names| - 1], ext) + (if GlobMatch(n, ext) then [Join(dir, n)] else [])
  }

  /** The matches for each extension in turn. */
  function GlobAll(dir: Path, names: seq<string>, exts: seq<string>): seq<Path> {
    if |exts| == 0 then []
    else GlobAll(dir, names, exts[..|exts| - 1]) + Glob(dir, names, exts[|exts| - 1])
  }

  /** What `find_audio_files` returns for the absolute path `ap`. */
  function AudioFiles(tree: Tree, ap: Path): seq<Path> {
    if ap in tree && tree[ap].RegularFile? then
      (if ExtensionName(ap) in SUPPORTED_EXT then [ap] else [])
    else if ap in tree && tree[ap].Directory? then GlobAll(ap, tree[ap].names, SUPPORTED_EXT)
    else []
  }

  lemma {:induction false} GlobMembership(dir: Path, names: seq<string>, ext: string, p: Path)
    ensures p in Glob(dir, names, ext) <==>
              exists j :: 0 <= j < |names| && GlobMatch(names[j], ext) && p == Join(dir, names[j])
  {
    if |names| > 0 {
      var pre := names[..|names| - 1];
      GlobMembership(dir, pre, ext, p);
      assert forall j :: 0 <= j < |pre| ==> pre[j] == names[j];
    }
  }

  lemma {:induction false} GlobAllMembership(dir: Path, names: seq<string>, exts: seq<string>, p: Path)
    ensures p in GlobAll(dir, names, exts) <==>
              exists k, j :: 0 <= k < |exts| && 0 <= j < |names| && GlobMatch(names[j], exts[k]) && p == Join(dir, names[j])
  {
    if |exts| > 0 {
      var pre := exts[..|exts| - 1];
      GlobAllMembership(dir, names, pre, p);
      GlobMembership(dir, names, exts[|exts| - 1], p);
      assert forall k :: 0 <= k < |pre| ==> pre[k] == exts[k];
    }
  }

  /** A file is taken iff its extension (without the dot) is one of the
      supported ones, compared case-sensitively; a directory yields exactly its
      entries matching `*.ext` for a supported `ext`; anything else yields
      nothing. */
  lemma AudioFilesSelection(tree: Tree, ap: Path, p: Path)
    ensures ap in tree && tree[ap].RegularFile? ==>
              (p in AudioFiles(tree, ap) <==> p == ap && ExtensionName(ap) in SUPPORTED_EXT)
    ensures ap in tree && tree[ap].Directory? ==>
              (p in AudioFiles(tree, ap) <==>
                 exists k, j :: 0 <= k < |SUPPORTED_EXT| && 0 <= j < |tree[ap].names| &&
                   GlobMatch(tree[ap].names[j], SUPPORTED_EXT[k]) && p == Join(ap, tree[ap].names[j]))
    ensures ap !in tree ==> AudioFiles(tree, ap) == []
  {
    if ap in tree && tree[ap].Directory? {
      GlobAllMembership(ap, tree[ap].names, SUPPORTED_EXT, p);
    }
  }

  /** `find_audio_files(path)`. */
  method FindAudioFiles(tree: Tree, cwd: Path, path: Path) returns (files: seq<Path>)
    ensures files == AudioFiles(tree, Abspath(cwd, path))
  {
    var ap := Abspath(cwd, path);
    if ap in tree && tree[ap].RegularFile? {
      var ext := ExtensionName(ap);
      if ext in SUPPORTED_EXT {
        return [ap];
      } else {
        return [];
      }
    } else if ap in tree && tree[ap].Directory? {
      files := [];
      var k := 0;
      while k < |SUPPORTED_EXT|
        invariant 0 <= k <= |SUPPORTED_EXT|
        invariant files == GlobAll(ap, tree[ap].names, SUPPORTED_EXT[..k])
      {
        files := files + Glob(ap, tree[ap].names, SUPPORTED_EXT[k]);
        assert SUPPORTED_EXT[..k + 1][..k] == SUPPORTED_EXT[..k];
        k := k + 1;
      }
      assert SUPPORTED_EXT[..k] == SUPPORTED_EXT;
      return files;
    }
    return [];
  }

  // ---------------------------------------------------------------------
  // Polarity (read_audio, check_polarity, invert_audio)

  lemma FrameValuesAreMeans(b: Buffer)
    ensures forall i :: 0 <= i < |b.frames| ==>
              (if b.channels > 1 then Mean(b.frames[i]) else b.frames[i][0]) == Mean(b.frames[i])
  {
    forall i | 0 <= i < |b.frames| && b.channels == 1
      ensures b.frames[i][0] == Mean(b.frames[i])
    {
      assert b.frames[i] == [b.frames[i][0]];
      MeanOfSingle(b.frames[i][0]);
    }
  }

  /** `read_audio`: one value per frame, the average of the frame's channels
      (a mono file's single column as it is); None when decoding fails. */
  function ReadAudio(d: Option<Buffer>): (r: Option<seq<real>>)
    ensures r.Some? <==> d.Some?
    ensures r.Some? ==> |r.value| == |d.value.frames|
    ensures r.Some? ==> forall i :: 0 <= i < |r.value| ==> r.value[i] == Mean(d.value.frames[i])
  {
    match d
    case None => None
    case Some(b) =>
      FrameValuesAreMeans(b);
      Some(seq(|b.frames|, i requires 0 <= i < |b.frames| =>
        if b.channels > 1 then Mean(b.frames[i]) else b.frames[i][0]))
  }

  function Min(a: int, b: int): int {
    if a < b then a else b
  }

  /** Sum of products of two equally long signals. */
  function Dot(a: seq<real>, b: seq<real>): real
    requires |a| == |b|
  {
    if |a| == 0 then 0.0 else Dot(a[..|a| - 1], b[..|b| - 1]) + a[|a| - 1] * b[|b| - 1]
  }

  /** `check_polarity`: the correlation over the common prefix is not negative. */
  function CheckPolarity(master: seq<real>, test: seq<real>): bool {
    var n := Min(|master|, |test|);
    Dot(master[..n], test[..n]) >= 0.0
  }

  /** A signal's energy, its correlation with itself, is never negative. */
  lemma {:induction false} EnergyNonNegative(a: seq<real>)
    ensures Dot(a, a) >= 0.0
  {
    if |a| > 0 {
      EnergyNonNegative(a[..|a| - 1]);
      SquareNonNegative(a[|a| - 1]);
    }
  }

  lemma SquareNonNegative(x: real)
    ensures x * x >= 0.0
  {
    if x < 0.0 {
      var y := -x;
      assert y * y > 0.0;
      assert x * x == y * y;
    }
  }

  lemma {:induction false} DotNegate(a: seq<real>, b: seq<real>)
    requires |a| == |b|
    ensures Dot(a, NegateAll(b)) == -Dot(a, b)
  {
    if |a| > 0 {
      var n := |a|;
      assert NegateAll(b)[..n - 1] == NegateAll(b[..n - 1]);
      DotNegate(a[..n - 1], b[..n - 1]);
    }
  }

  lemma {:induction false} DotSymmetric(a: seq<real>, b: seq<real>)
    requires |a| == |b|
    ensures Dot(a, b) == Dot(b, a)
  {
    if |a| > 0 {
      DotSymmetric(a[..|a| - 1], b[..|b| - 1]);
    }
  }

  /** A file compared with itself is in polarity. */
  lemma SelfInPolarity(m: seq<real>)
    ensures CheckPolarity(m, m)
  {
    EnergyNonNegative(m);
    assert m[..|m|] == m;
  }

  /** The negation of the master is classified inverted exactly when the
      master carries energy: a zero correlation counts as in polarity. */
  lemma NegationInverted(m: seq<real>)
    ensures !CheckPolarity(m, NegateAll(m)) <==> Dot(m, m) > 0.0
  {
    assert m[..|m|] == m;
    assert NegateAll(m)[..|m|] == NegateAll(m);
    DotNegate(m, m);
    EnergyNonNegative(m);
  }

  /** Classification is symmetric in the two files. */
  lemma PolaritySymmetric(m: seq<real>, t: seq<real>)
    ensures CheckPolarity(m, t) == CheckPolarity(t, m)
  {
    var n := Min(|m|, |t|);
    DotSymmetric(m[..n], t[..n]);
  }

  /** Frames beyond the shorter of the two files play no part. */
  lemma PolarityUsesCommonPrefix(m: seq<real>, t: seq<real>, extra: seq<real>)
    requires |m| <= |t|
    ensures CheckPolarity(m, t + extra) == CheckPolarity(m, t)
  {
    assert (t + extra)[..|m|] == t[..|m|];
  }

  /** Flipping a file that is classified inverted makes it classify in polarity. */
  lemma FlipRestoresPolarity(m: seq<real>, t: seq<real>)
    ensures !CheckPolarity(m, t) ==> CheckPolarity(m, NegateAll(t))
  {
    var n := Min(|m|, |t|);
    assert NegateAll(t)[..n] == NegateAll(t[..n]);
    DotNegate(m[..n], t[..n]);
  }

  /** Reading a flipped file gives the negated per-frame values. */
  lemma ReadNegated(b: Buffer)
    ensures ReadAudio(Some(Negate(b))) == Some(NegateAll(ReadAudio(Some(b)).value))
  {
    var r, s := ReadAudio(Some(Negate(b))).value, NegateAll(ReadAudio(Some(b)).value);
    forall i | 0 <= i < |r| ensures r[i] == s[i] {
      MeanNegate(b.frames[i]);
    }
    assert r == s;
  }

  /** The fix works: once an inverted file has been flipped, pcheck reads it
      back as in polarity with the same master. */
  lemma FlippedFileInPolarity(master: seq<real>, b: Buffer)
    requires !CheckPolarity(master, ReadAudio(Some(b)).value)
    ensures CheckPolarity(master, ReadAudio(Some(Negate(b))).value)
  {
    ReadNegated(b);
    FlipRestoresPolarity(master, ReadAudio(Some(b)).value);
  }

  /** `out_path` when given and non-empty, otherwise the file itself. */
  function Target(filePath: Path, outPath: Option<Path>): (r: Path)
    ensures outPath.Some? && outPath.value != "" ==> r == outPath.value
    ensures outPath.None? || outPath.value == "" ==> r == filePath
  {
    if outPath.Some? && outPath.value != "" then outPath.value else filePath
  }

  /** `invert_audio`: read, negate, write to the target. */
  method InvertAudio(audio: map<Path, Buffer>, filePath: Path, outPath: Option<Path>) returns (result: map<Path, Buffer>)
    requires filePath in audio
    ensures result == Step(audio, Job(filePath, Target(filePath, outPath), Flip))
  {
    var data := audio[filePath];
    data := Negate(data);
    var targetPath := Target(filePath, outPath);
    result := audio[targetPath := data];
  }

  /** Inverting a file in place twice restores it. */
  lemma InvertTwiceRestores(audio: map<Path, Buffer>, f: Path)
    requires f in audio
    ensures Step(Step(audio, Job(f, f, Flip)), Job(f, f, Flip)) == audio
  {
    NegateInvolution(audio[f]);
  }

  // ---------------------------------------------------------------------
  // The command (main)

  /** The arguments after the master that are not `--fix`, in order. */
  function WithoutFix(args: seq<string>): (r: seq<string>)
    ensures |r| <= |args|
  {
    if |args| == 0 then []
    else WithoutFix(args[..|args| - 1]) + (if args[|args| - 1] == FIX_FLAG then [] else [args[|args| - 1]])
  }

  /** `paths` keeps every argument other than `--fix`, and nothing else. */
  lemma {:induction false} WithoutFixMembers(args: seq<string>, x: string)
    ensures x in WithoutFix(args) <==> x in args && x != FIX_FLAG
  {
    if |args| > 0 {
      WithoutFixMembers(args[..|args| - 1], x);
      assert args == args[..|args| - 1] + [args[|args| - 1]];
    }
  }

  /** The argument loop of `main`. */
  method SplitArgs(args: seq<string>) returns (fixMode: bool, paths: seq<string>)
    ensures fixMode <==> FIX_FLAG in args
    ensures paths == WithoutFix(args)
  {
    fixMode := false;
    paths := [];
    var i := 0;
    while i < |args|
      invariant 0 <= i <= |args|
      invariant fixMode <==> FIX_FLAG in args[..i]
      invariant paths == WithoutFix(args[..i])
    {
      if args[i] == FIX_FLAG {
        fixMode := true;
      } else {
        paths := paths + [args[i]];
      }
      assert args[..i + 1] == args[..i] + [args[i]];
      i := i + 1;
    }
    assert args[..i] == args;
  }

  /** Every file found for the paths, path by path. */
  function ScannedFiles(tree: Tree, cwd: Path, paths: seq<string>): seq<Path> {
    if |paths| == 0 then []
    else ScannedFiles(tree, cwd, paths[..|paths| - 1]) + AudioFiles(tree, Abspath(cwd, paths[|paths| - 1]))
  }

  predicate IsInverted(vol: Volume, master: seq<real>, f: Path) {
    f in vol.audio && !CheckPolarity(master, ReadAudio(Read(vol, f)).value)
  }

  /** The files that read and are classified inverted, in scan order. */
  function InvertedFiles(vol: Volume, master: seq<real>, files: seq<Path>): (r: seq<Path>)
    ensures |r| <= |files|
    ensures forall k :: 0 <= k < |r| ==> r[k] in files && IsInverted(vol, master, r[k])
  {
    if |files| == 0 then []
    else
      var f := files[|files| - 1];
      InvertedFiles(vol, master, files[..|files| - 1]) + (if IsInverted(vol, master, f) then [f] else [])
  }

  /** Every scanned file that is classified inverted is collected. */
  lemma {:induction false} InvertedFilesComplete(vol: Volume, master: seq<real>, files: seq<Path>, f: Path)
    requires f in files && IsInverted(vol, master, f)
    ensures f in InvertedFiles(vol, master, files)
  {
    var pre := files[..|files| - 1];
    if f != files[|files| - 1] {
      assert files == pre + [files[|files| - 1]];
      InvertedFilesComplete(vol, master, pre, f);
    }
  }

  /** A file is collected iff it was scanned, reads, and its correlation
      with the master over their common length is negative; a zero
      correlation counts as in polarity. */
  lemma InvertedFilesMembership(vol: Volume, master: seq<real>, files: seq<Path>, f: Path)
    ensures f in InvertedFiles(vol, master, files) <==>
              f in files && f in vol.audio &&
              var test := ReadAudio(Some(vol.audio[f])).value;
              var n := Min(|master|, |test|);
              Dot(master[..n], test[..n]) < 0.0
  {
    if f in files && IsInverted(vol, master, f) {
      InvertedFilesComplete(vol, master, files, f);
    }
  }

  /** The `p_fix` folder: inside the first path if it is a directory, else
      beside it. */
  function FixFolder(tree: Tree, cwd: Path, first: string): Path {
    var firstPath := Abspath(cwd, first);
    var baseFolder := if firstPath in tree && tree[firstPath].Directory? then firstPath else Dirname(firstPath);
    Join(baseFolder, FIX_FOLDER)
  }

  /** The `out_path` `main` passes for `f`: none when overwriting, otherwise
      the file's basename inside the folder. */
  function OutPath(f: Path, folder: Option<Path>): Option<Path> {
    if folder.Some? then Some(Join(folder.value, Basename(f))) else None
  }

  /** Where the flipped copy of `f` is written. */
  function FlippedTo(f: Path, folder: Option<Path>): Path {
    Target(f, OutPath(f, folder))
  }

  /** Flip each inverted file in place (no folder) or into the folder. */
  function FlipJobs(inverted: seq<Path>, folder: Option<Path>): (jobs: seq<Job>)
    ensures |jobs| == |inverted|
    ensures forall k :: 0 <= k < |inverted| ==> jobs[k] == Job(inverted[k], FlippedTo(inverted[k], folder), Flip)
  {
    seq(|inverted|, k requires 0 <= k < |inverted| => Job(inverted[k], FlippedTo(inverted[k], folder), Flip))
  }

  datatype Outcome =
    | ShowHelp
    | MasterUnreadable   // `read_audio(master_file)` raised; nothing was scanned
    | NoneInverted
    | Declined           // the first prompt was not answered 'y'
    | Flipped(count: nat, prompts: nat, folder: Option<Path>)

  predicate WantsHelp(argv: seq<string>) {
    |argv| < 3 || "--help" in argv
  }

  /** The whole run: the new volume and the outcome. */
  function Expected(vol: Volume, tree: Tree, cwd: Path, argv: seq<string>,
                    yesFlip: bool, yesOverwrite: bool): (Volume, Outcome)
  {
    if WantsHelp(argv) then (vol, ShowHelp)
    else
      var master := ReadAudio(Read(vol, argv[1]));
      if master.None? then (vol, MasterUnreadable)
      else
        var paths := WithoutFix(argv[2..]);
        var inverted := InvertedFiles(vol, master.value, ScannedFiles(tree, cwd, paths));
        if |inverted| == 0 then (vol, NoneInverted)
        else if FIX_FLAG in argv[2..] then
          (Volume(RunJobs(vol.audio, FlipJobs(inverted, None)), vol.dirs), Flipped(|inverted|, 0, None))
        else if !yesFlip then (vol, Declined)
        else if yesOverwrite then
          (Volume(RunJobs(vol.audio, FlipJobs(inverted, None)), vol.dirs), Flipped(|inverted|, 2, None))
        else
          var folder := FixFolder(tree, cwd, paths[0]);
          (Volume(RunJobs(vol.audio, FlipJobs(inverted, Some(folder))), vol.dirs + {folder}),
           Flipped(|inverted|, 2, Some(folder)))
  }

  /** The flipping loop of `main`. */
  method FlipAll(audio: map<Path, Buffer>, inverted: seq<Path>, folder: Option<Path>) returns (result: map<Path, Buffer>)
    requires forall k :: 0 <= k < |inverted| ==> inverted[k] in audio
    ensures result == RunJobs(audio, FlipJobs(inverted, folder))
  {
    ghost var jobs := FlipJobs(inverted, folder);
    result := audio;
    var i := 0;
    while i < |inverted|
      invariant 0 <= i <= |inverted|
      invariant result == RunJobs(audio, jobs[..i])
    {
      RunJobsExtend(audio, jobs, i);
      var f := inverted[i];
      var outPath := OutPath(f, folder);
      result := InvertAudio(result, f, outPath);
      i := i + 1;
    }
    assert jobs[..i] == jobs;
  }

  /** The inner loop of the scan: the inverted files among `files` are
      appended to those already found among `scanned`. */
  method CheckFiles(vol: Volume, master: seq<real>, ghost scanned: seq<Path>, found: seq<Path>, files: seq<Path>)
    returns (invertedFiles: seq<Path>)
    requires found == InvertedFiles(vol, master, scanned)
    ensures invertedFiles == InvertedFiles(vol, master, scanned + files)
  {
    invertedFiles := found;
    var j := 0;
    assert scanned + files[..0] == scanned;
    while j < |files|
      invariant 0 <= j <= |files|
      invariant invertedFiles == InvertedFiles(vol, master, scanned + files[..j])
    {
      var f := files[j];
      var testRead := ReadAudio(Read(vol, f));
      if testRead.Some? {
        if !CheckPolarity(master, testRead.value) {
          invertedFiles := invertedFiles + [f];
        }
      }
      assert (scanned + files[..j + 1])[..|scanned + files[..j]|] == scanned + files[..j];
      j := j + 1;
    }
    assert files[..j] == files;
  }

  /** The scanning loop of `main`: every file found for each path in turn is
      read and compared with the master; files that fail to read are skipped. */
  method Scan(vol: Volume, tree: Tree, cwd: Path, master: seq<real>, paths: seq<string>)
    returns (invertedFiles: seq<Path>)
    ensures invertedFiles == InvertedFiles(vol, master, ScannedFiles(tree, cwd, paths))
  {
    invertedFiles := [];
    ghost var scanned: seq<Path> := [];
    var i := 0;
    while i < |paths|
      invariant 0 <= i <= |paths|
      invariant scanned == ScannedFiles(tree, cwd, paths[..i])
      invariant invertedFiles == InvertedFiles(vol, master, scanned)
    {
      var files := FindAudioFiles(tree, cwd, paths[i]);
      invertedFiles := CheckFiles(vol, master, scanned, invertedFiles, files);
      assert paths[..i + 1][..i] == paths[..i];
      scanned := scanned + files;
      i := i + 1;
    }
    assert paths[..i] == paths;
  }

  /** `main`, with `tree` and `cwd` for the filesystem and the two prompt
      answers for "answered y". */
  method Run(vol: Volume, tree: Tree, cwd: Path, argv: seq<string>, yesFlip: bool, yesOverwrite: bool)
    returns (result: Volume, outcome: Outcome)
    ensures (result, outcome) == Expected(vol, tree, cwd, argv, yesFlip, yesOverwrite)
  {
    if |argv| < 3 || "--help" in argv {
      return vol, ShowHelp;
    }
    var masterFile := argv[1];
    var args := argv[2..];
    var fixMode, paths := SplitArgs(args);
    var masterRead := ReadAudio(Read(vol, masterFile));
    if masterRead.None? {
      return vol, MasterUnreadable;
    }
    var masterAudio := masterRead.value;
    var invertedFiles := Scan(vol, tree, cwd, masterAudio, paths);
    if |invertedFiles| == 0 {
      return vol, NoneInverted;
    }
    if fixMode {
      var audio := FlipAll(vol.audio, invertedFiles, None);
      return Volume(audio, vol.dirs), Flipped(|invertedFiles|, 0, None);
    }
    var doFix := yesFlip;
    if !doFix {
      return vol, Declined;
    }
    var overwrite := yesOverwrite;
    var outputFolder: Option<Path> := None;
    var dirs := vol.dirs;
    if !overwrite {
      var firstPath := Abspath(cwd, paths[0]);
      var baseFolder;
      if firstPath in tree && tree[firstPath].Directory? {
        baseFolder := firstPath;
      } else {
        baseFolder := Dirname(firstPath);
      }
      outputFolder := Some(Join(baseFolder, FIX_FOLDER));
      dirs := dirs + {outputFolder.value};
    }
    var audio := FlipAll(vol.audio, invertedFiles, outputFolder);
    return Volume(audio, dirs), Flipped(|invertedFiles|, 2, outputFolder);
  }

  /** Only inverted files are written: every changed path is the target of a
      file classified inverted, in place under `--fix` or an overwrite 'y',
      otherwise in the single `p_fix` folder under the file's basename; a
      declined prompt changes nothing. */
  lemma OnlyInvertedFilesWritten(vol: Volume, tree: Tree, cwd: Path, argv: seq<string>,
                                 yesFlip: bool, yesOverwrite: bool, p: Path)
    requires !WantsHelp(argv)
    ensures var (after, outcome) := Expected(vol, tree, cwd, argv, yesFlip, yesOverwrite);
      (outcome.Declined? || outcome.NoneInverted? || outcome.MasterUnreadable? ==> after == vol) &&
      (outcome.Flipped? && FIX_FLAG in argv[2..] ==> outcome.folder.None?) &&
      (Changed(vol, after, p) ==>
         outcome.Flipped? &&
         exists f :: f in ScannedFiles(tree, cwd, WithoutFix(argv[2..])) &&
                     IsInverted(vol, ReadAudio(Read(vol, argv[1])).value, f) && p == FlippedTo(f, outcome.folder))
  {
    var (after, outcome) := Expected(vol, tree, cwd, argv, yesFlip, yesOverwrite);
    if outcome.Flipped? {
      var master := ReadAudio(Read(vol, argv[1])).value;
      var scanned := ScannedFiles(tree, cwd, WithoutFix(argv[2..]));
      var inverted := InvertedFiles(vol, master, scanned);
      var jobs := FlipJobs(inverted, outcome.folder);
      if !exists f :: f in scanned && IsInverted(vol, master, f) && p == FlippedTo(f, outcome.folder) {
        forall k | 0 <= k < |jobs| ensures jobs[k].dst != p {
          assert inverted[k] in scanned && IsInverted(vol, master, inverted[k]);
        }
        RunJobsFrame(vol.audio, jobs, p);
      }
    }
  }

  /** The decisions of `main` once a master and some paths are given: an
      unreadable master or no inverted file stops the run; `--fix` flips
      every inverted file in place without asking; otherwise a non-'y' first
      answer writes nothing, and after a 'y' the second answer chooses
      between overwriting and the `p_fix` folder. */
  lemma RunDecisions(vol: Volume, tree: Tree, cwd: Path, argv: seq<string>,
                     yesFlip: bool, yesOverwrite: bool)
    requires !WantsHelp(argv)
    ensures var (after, outcome) := Expected(vol, tree, cwd, argv, yesFlip, yesOverwrite);
      var master := ReadAudio(Read(vol, argv[1]));
      (outcome.MasterUnreadable? <==> master.None?) &&
      (master.Some? ==>
         var inverted := InvertedFiles(vol, master.value, ScannedFiles(tree, cwd, WithoutFix(argv[2..])));
         (outcome.NoneInverted? <==> |inverted| == 0) &&
         (|inverted| > 0 ==> (outcome.Declined? <==> FIX_FLAG !in argv[2..] && !yesFlip)) &&
         (outcome.Flipped? ==> outcome.count == |inverted|)) &&
      (FIX_FLAG !in argv[2..] && !yesFlip ==> after == vol) &&
      (outcome.Flipped? ==> (outcome.prompts == 0 <==> FIX_FLAG in argv[2..])) &&
      (outcome.Flipped? && FIX_FLAG in argv[2..] ==> outcome.folder.None?) &&
      (outcome.Flipped? && FIX_FLAG !in argv[2..] ==> yesFlip && (outcome.folder.None? <==> yesOverwrite))
  {
  }

  /** With overwrite declined every flipped file lands in the one folder
      under its own basename. */
  lemma FolderRouting(folder: Path, f: Path)
    requires folder != "" && !EndsWith(folder, "/")
    ensures Dirname(FlippedTo(f, Some(folder))) == folder
    ensures Basename(FlippedTo(f, Some(folder))) == Basename(f)
  {
    BasenameOfJoin(folder, Basename(f));
    DirnameOfJoin(folder, Basename(f));
  }

  /** Flipping distinct files in place leaves each one holding its own
      negation. */
  lemma FlipInPlaceNegates(audio: map<Path, Buffer>, inverted: seq<Path>, k: nat)
    requires forall j :: 0 <= j < |inverted| ==> inverted[j] in audio
    requires forall a, b :: 0 <= a < b < |inverted| ==> inverted[a] != inverted[b]
    requires k < |inverted|
    ensures inverted[k] in RunJobs(audio, FlipJobs(inverted, None))
    ensures RunJobs(audio, FlipJobs(inverted, None))[inverted[k]] == Negate(audio[inverted[k]])
  {
    RunJobsResult(audio, FlipJobs(inverted, None), k);
  }

  /** Flipping into a plain folder files with distinct basenames, none of
      which already lies in that folder, leaves the folder holding each
      file's negation under that file's basename. */
  lemma FlipToFolderNegates(audio: map<Path, Buffer>, inverted: seq<Path>, folder: Path, k: nat)
    requires folder != "" && !EndsWith(folder, "/")
    requires forall j :: 0 <= j < |inverted| ==> inverted[j] in audio
    requires forall a, b :: 0 <= a < b < |inverted| ==> Basename(inverted[a]) != Basename(inverted[b])
    requires forall a :: 0 <= a < |inverted| ==> Dirname(inverted[a]) != folder
    requires k < |inverted|
    ensures FlippedTo(inverted[k], Some(folder)) == Join(folder, Basename(inverted[k]))
    ensures Join(folder, Basename(inverted[k])) in RunJobs(audio, FlipJobs(inverted, Some(folder)))
    ensures RunJobs(audio, FlipJobs(inverted, Some(folder)))[Join(folder, Basename(inverted[k]))] ==
              Negate(audio[inverted[k]])
  {
    var jobs := FlipJobs(inverted, Some(folder));
    forall j | k < j < |jobs| ensures jobs[j].dst != jobs[k].dst {
      FolderRouting(folder, inverted[j]);
      FolderRouting(folder, inverted[k]);
    }
    forall j | 0 <= j < k ensures jobs[j].dst != jobs[k].src {
      FolderRouting(folder, inverted[j]);
    }
    RunJobsResult(audio, jobs, k);
  }

  /** Without overwrite there is exactly one output folder: the `p_fix`
      folder of the first path, which is created, and every changed path lies
      directly inside it; with overwrite every changed path is itself a
      scanned inverted file. */
  lemma SingleFixFolder(vol: Volume, tree: Tree, cwd: Path, argv: seq<string>,
                        yesFlip: bool, yesOverwrite: bool, p: Path)
    requires !WantsHelp(argv)
    ensures var (after, outcome) := Expected(vol, tree, cwd, argv, yesFlip, yesOverwrite);
      (outcome.Flipped? && outcome.folder.Some? ==>
         outcome.folder.value == FixFolder(tree, cwd, WithoutFix(argv[2..])[0]) &&
         after.dirs == vol.dirs + {outcome.folder.value} &&
         (Changed(vol, after, p) ==> Dirname(p) == outcome.folder.value)) &&
      (outcome.Flipped? && outcome.folder.None? ==>
         after.dirs == vol.dirs &&
         (Changed(vol, after, p) ==> p in ScannedFiles(tree, cwd, WithoutFix(argv[2..])) &&
                                     IsInverted(vol, ReadAudio(Read(vol, argv[1])).value, p)))
  {
    var (after, outcome) := Expected(vol, tree, cwd, argv, yesFlip, yesOverwrite);
    OnlyInvertedFilesWritten(vol, tree, cwd, argv, yesFlip, yesOverwrite, p);
    if outcome.Flipped? && Changed(vol, after, p) {
      var master := ReadAudio(Read(vol, argv[1])).value;
      var scanned := ScannedFiles(tree, cwd, WithoutFix(argv[2..]));
      var f :| f in scanned && IsInverted(vol, master, f) && p == FlippedTo(f, outcome.folder);
      if outcome.folder.Some? {
        FixFolderIsPlain(tree, cwd, WithoutFix(argv[2..])[0]);
        FolderRouting(outcome.folder.value, f);
      }
    }
  }

  lemma FixFolderIsPlain(tree: Tree, cwd: Path, first: string)
    ensures FixFolder(tree, cwd, first) != "" && !EndsWith(FixFolder(tree, cwd, first), "/")
  {
    var firstPath := Abspath(cwd, first);
    var baseFolder := if firstPath in tree && tree[firstPath].Directory? then firstPath else Dirname(firstPath);
    JoinNameNoTrailingSlash(baseFolder, FIX_FOLDER);
  }
}
