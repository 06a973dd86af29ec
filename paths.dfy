/**
 * POSIX path strings as the three tools manipulate them: `os.path.join`,
 * `dirname`, `basename`, `splitext` and `abspath` on '/'-separated strings,
 * plus `str.endswith` with one suffix or a tuple of suffixes.
 */
module Paths {

  type Path = string

  predicate StartsWith(s: string, prefix: string) {
    |prefix| <= |s| && s[..|prefix|] == prefix
  }

  predicate EndsWith(s: string, suffix: string) {
    |suffix| <= |s| && s[|s| - |suffix|..] == suffix
  }

  /** `s.endswith(suffixes)` for a tuple of suffixes: some suffix matches. */
  function EndsWithAny(s: string, suffixes: seq<string>): (r: bool)
    ensures r <==> exists k :: 0 <= k < |suffixes| && EndsWith(s, suffixes[k])
  {
    if |suffixes| == 0 then false
    else if EndsWith(s, suffixes[0]) then true
    else
      var rest := EndsWithAny(s, suffixes[1..]);
      assert forall k :: 1 <= k < |suffixes| ==> suffixes[k] == suffixes[1..][k - 1];
      rest
  }

  lemma EndsWithTrans(s: string, t: string, u: string)
    requires EndsWith(s, t) && EndsWith(t, u)
    ensures EndsWith(s, u)
  {
    assert s[|s| - |u|..] == t[|t| - |u|..];
  }

  /** Index of the last occurrence of `c` in `s`, or -1 (Python's `str.rfind`). */
  function RFind(s: string, c: char): (r: int)
    ensures -1 <= r < |s|
    ensures r >= 0 ==> s[r] == c
    ensures forall k :: r < k < |s| ==> s[k] != c
  {
    if |s| == 0 then -1
    else if s[|s| - 1] == c then |s| - 1
    else RFind(s[..|s| - 1], c)
  }

  predicate AllSlashes(s: string) {
    forall k :: 0 <= k < |s| ==> s[k] == '/'
  }

  /** `s.rstrip('/')`. */
  function RStripSlashes(s: string): (r: string)
    ensures |r| <= |s| && r == s[..|r|]
    ensures |r| > 0 ==> r[|r| - 1] != '/'
    ensures forall k :: |r| <= k < |s| ==> s[k] == '/'
  {
    if |s| > 0 && s[|s| - 1] == '/' then RStripSlashes(s[..|s| - 1]) else s
  }

  /** `posixpath.basename`: everything after the last '/'. */
  function Basename(p: Path): (r: Path)
    ensures '/' !in r
    ensures EndsWith(p, r)
  {
    p[RFind(p, '/') + 1..]
  }

  /** `posixpath.dirname`: everything up to the last '/', trailing slashes
      removed unless the head consists of slashes only. */
  function Dirname(p: Path): Path {
    var head := p[..RFind(p, '/') + 1];
    if head != "" && !AllSlashes(head) then RStripSlashes(head) else head
  }

  /** `posixpath.join(a, b)` for two components. */
  function Join(a: Path, b: Path): Path {
    if StartsWith(b, "/") then b
    else if a == "" || EndsWith(a, "/") then a + b
    else a + "/" + b
  }

  /** `os.path.abspath` relative to the working directory `cwd`, without
      `normpath`: "." and ".." components, repeated '/' and a trailing '/'
      are kept as written. */
  function Abspath(cwd: Path, p: Path): Path {
    if p == "" then cwd
    else if StartsWith(p, "/") then p
    else Join(cwd, p)
  }

  /** The extension `posixpath.splitext` splits off: from the last '.' of the
      last component, provided that component has a character other than '.'
      before it; otherwise empty. */
  function SplitExtension(p: Path): (e: string)
    ensures e == "" || (EndsWith(p, e) && e[0] == '.' && '/' !in e && '.' !in e[1..])
  {
    var sep := RFind(p, '/');
    var dot := RFind(p, '.');
    if dot > sep && exists k :: sep < k < dot && p[k] != '.' then
      assert forall k :: dot < k < |p| ==> p[dot..][k - dot] == p[k];
      p[dot..]
    else ""
  }

  /** `os.path.splitext(p)[1][1:]`: the extension without its dot. */
  function ExtensionName(p: Path): string {
    var e := SplitExtension(p);
    if e == "" then "" else e[1..]
  }

  lemma JoinEndsWith(a: Path, b: Path)
    ensures EndsWith(Join(a, b), b)
  {
  }

  lemma RFindAt(s: string, c: char, i: int)
    requires 0 <= i < |s| && s[i] == c
    requires forall k :: i < k < |s| ==> s[k] != c
    ensures RFind(s, c) == i
  {
  }

  /** A plain name appended after a '/' (or to nothing) is the last component. */
  lemma BasenameAppend(pre: Path, b: Path)
    requires '/' !in b
    requires pre == "" || pre[|pre| - 1] == '/'
    ensures Basename(pre + b) == b
  {
    var j := pre + b;
    if pre == "" {
      assert j == b;
      assert RFind(j, '/') == -1;
    } else {
      forall k | |pre| - 1 < k < |j| ensures j[k] != '/' {
        assert j[k] == b[k - |pre|];
      }
      RFindAt(j, '/', |pre| - 1);
      assert j[|pre|..] == b;
    }
  }

  lemma NotAbsolute(b: Path)
    requires '/' !in b
    ensures !StartsWith(b, "/")
  {
    if |b| >= 1 { assert b[..1][0] == b[0]; }
  }

  /** The last component of `Join(a, b)` is `b` when `b` is a plain name. */
  lemma BasenameOfJoin(a: Path, b: Path)
    requires '/' !in b
    ensures Basename(Join(a, b)) == b
  {
    NotAbsolute(b);
    if a == "" || EndsWith(a, "/") {
      if a != "" { assert a[|a| - 1..][0] == a[|a| - 1]; }
      BasenameAppend(a, b);
    } else {
      assert Join(a, b) == (a + "/") + b;
      BasenameAppend(a + "/", b);
    }
  }

  /** The directory part of `Join(a, b)` is `a` when `a` is a non-empty path
      without a trailing '/' and `b` is a plain name. */
  lemma DirnameOfJoin(a: Path, b: Path)
    requires a != "" && !EndsWith(a, "/") && '/' !in b
    ensures Dirname(Join(a, b)) == a
  {
    NotAbsolute(b);
    var j := Join(a, b);
    assert j == (a + "/") + b;
    assert forall k :: |a| < k < |j| ==> j[k] == b[k - |a| - 1];
    RFindAt(j, '/', |a|);
    var head := j[..|a| + 1];
    assert head == a + "/";
    assert a[|a| - 1..] == [a[|a| - 1]];
    assert head[|a| - 1] != '/';
    assert head[..|head| - 1] == a;
  }

  /** Joining a plain name never yields a path ending in '/'. */
  lemma JoinNameNoTrailingSlash(a: Path, b: Path)
    requires b != "" && '/' !in b
    ensures Join(a, b) != "" && !EndsWith(Join(a, b), "/")
  {
    JoinEndsWith(a, b);
    var j := Join(a, b);
    assert j[|j| - 1] == b[|b| - 1];
  }

  /** After a prefix that is empty or ends in '/', the last '/' is the
      prefix's own. */
  lemma SeparatorBefore(pre: Path, name: Path)
    requires '/' !in name
    requires pre == "" || pre[|pre| - 1] == '/'
    ensures RFind(pre + name, '/') == |pre| - 1
  {
    var j := pre + name;
    if pre == "" {
      assert j == name;
    } else {
      forall k | |pre| - 1 < k < |j| ensures j[k] != '/' {
        assert j[k] == name[k - |pre|];
      }
      RFindAt(j, '/', |pre| - 1);
    }
  }

  /** A join prefix: what `Join(a, b)` puts before a plain name `b`. */
  lemma JoinAsAppend(a: Path, b: Path) returns (pre: Path)
    requires '/' !in b
    ensures Join(a, b) == pre + b
    ensures pre == "" || pre[|pre| - 1] == '/'
  {
    NotAbsolute(b);
    if a == "" || EndsWith(a, "/") {
      if a != "" { assert a[|a| - 1..][0] == a[|a| - 1]; }
      pre := a;
    } else {
      pre := a + "/";
    }
  }

  /** The extension after a separator prefix. */
  lemma ExtensionAfter(pre: Path, stem: string, ext: string)
    requires pre == "" || pre[|pre| - 1] == '/'
    requires '/' !in stem && '/' !in ext && '.' !in ext
    requires exists i :: 0 <= i < |stem| && stem[i] != '.'
    ensures SplitExtension(pre + (stem + "." + ext)) == "." + ext
  {
    var name := stem + "." + ext;
    var j := pre + name;
    var d := |pre| + |stem|;
    SeparatorBefore(pre, name);
    assert j[d] == '.';
    forall k | d < k < |j| ensures j[k] != '.' {
      assert j[k] == ext[k - d - 1];
    }
    RFindAt(j, '.', d);
    var i :| 0 <= i < |stem| && stem[i] != '.';
    assert j[|pre| + i] == stem[i];
    assert j[d..] == "." + ext;
  }

  /** A last component `stem.ext`, where `stem` has a character other than
      '.' and `ext` has no '.', has the extension `ext`. */
  lemma ExtensionOfName(dir: Path, stem: string, ext: string)
    requires '/' !in stem && '/' !in ext && '.' !in ext
    requires exists i :: 0 <= i < |stem| && stem[i] != '.'
    ensures ExtensionName(Join(dir, stem + "." + ext)) == ext
  {
    var pre := JoinAsAppend(dir, stem + "." + ext);
    ExtensionAfter(pre, stem, ext);
  }

  /** No extension after a separator prefix when every '.' of the name has
      only dots before it. */
  lemma NoExtensionAfter(pre: Path, name: string)
    requires pre == "" || pre[|pre| - 1] == '/'
    requires '/' !in name
    requires forall i, k :: 0 <= k < i < |name| && name[i] == '.' ==> name[k] == '.'
    ensures SplitExtension(pre + name) == ""
  {
    var j := pre + name;
    SeparatorBefore(pre, name);
    var dot := RFind(j, '.');
    if dot > |pre| - 1 {
      var i := dot - |pre|;
      assert name[i] == j[dot] == '.';
      forall k | |pre| - 1 < k < dot ensures j[k] == '.' {
        assert j[k] == name[k - |pre|];
      }
    }
  }

  /** A last component whose every '.' has only dots before it (no dot at
      all, or a leading run of dots as in `.hidden`) has no extension. */
  lemma NoExtensionOfName(dir: Path, name: string)
    requires '/' !in name
    requires forall i, k :: 0 <= k < i < |name| && name[i] == '.' ==> name[k] == '.'
    ensures SplitExtension(Join(dir, name)) == ""
    ensures ExtensionName(Join(dir, name)) == ""
  {
    var pre := JoinAsAppend(dir, name);
    NoExtensionAfter(pre, name);
  }
}
