/** The three `os.path` operations the batch script uses on POSIX paths:
    `basename`, `join` (two arguments) and `splitext`. */
module Paths {
  import opened Text

  /** Python's `s.rfind(c)`: the last position of `c`, or -1. */
  function LastIndexOf(s: string, c: char): (i: int)
    ensures -1 <= i < |s|
    ensures i >= 0 ==> s[i] == c
    ensures forall j :: i < j < |s| ==> s[j] != c
    decreases |s|
  {
    if s == [] then -1
    else if s[|s| - 1] == c then |s| - 1
    else LastIndexOf(s[..|s| - 1], c)
  }

  /** The last position of `c` is fixed by "it is `c` (or -1) and no `c` follows". */
  lemma {:induction false} LastIndexOfIs(s: string, c: char, i: int)
    requires -1 <= i < |s| && (i >= 0 ==> s[i] == c)
    requires forall j :: i < j < |s| ==> s[j] != c
    ensures LastIndexOf(s, c) == i
    decreases |s|
  {
    if s != [] && i < |s| - 1 {
      LastIndexOfIs(s[..|s| - 1], c, i);
    }
  }

  /** `os.path.basename(p)`: what follows the last `/`. */
  function Basename(p: string): (name: string)
    ensures '/' !in name
    ensures EndsWith(p, name)
  {
    p[LastIndexOf(p, '/') + 1..]
  }

  /** The basename is the longest `/`-free suffix: the whole path, or what follows a `/`. */
  lemma BasenameLongest(p: string)
    ensures var name := Basename(p);
      |name| == |p| || p[|p| - |name| - 1] == '/'
  {
  }

  /** `os.path.join(a, b)`: an absolute `b` replaces `a`; otherwise a `/` is inserted
      unless `a` is empty or already ends with one. */
  function PathJoin(a: string, b: string): string {
    if b != [] && b[0] == '/' then b
    else if a == [] || a[|a| - 1] == '/' then a + b
    else a + "/" + b
  }

  /** The basename of a directory joined with a plain name is that name. */
  lemma BasenameOfJoin(dir: string, name: string)
    requires '/' !in name
    ensures Basename(PathJoin(dir, name)) == name
  {
    var p := PathJoin(dir, name);
    var k := |p| - |name|;
    assert p[k..] == name;
    assert forall j :: k <= j < |p| ==> p[j] == name[j - k];
    if k > 0 {
      assert p[k - 1] == '/';
    }
    LastIndexOfIs(p, '/', k - 1);
  }

  /** After the last `.` of a path that lies in its last component there is neither a `.`
      nor a `/`. */
  lemma AfterLastDot(p: string)
    requires LastIndexOf(p, '.') > LastIndexOf(p, '/')
    ensures var ext := p[LastIndexOf(p, '.')..];
      ext[0] == '.' && forall k :: 1 <= k < |ext| ==> ext[k] != '.' && ext[k] != '/'
  {
    var dot := LastIndexOf(p, '.');
    assert forall k :: 1 <= k < |p| - dot ==> p[dot..][k] == p[dot + k];
  }

  predicate AllDots(s: string) {
    forall i :: 0 <= i < |s| ==> s[i] == '.'
  }

  /** `os.path.splitext(p)`: the extension runs from the last `.` of the last path component,
      unless only dots precede that `.` within the component (a hidden file like `.jpg`). */
  function SplitExt(p: string): (parts: (string, string))
    ensures parts.0 + parts.1 == p
    ensures parts.1 == [] || parts.1[0] == '.'
    ensures forall k :: 1 <= k < |parts.1| ==> parts.1[k] != '.' && parts.1[k] != '/'
  {
    var sep := LastIndexOf(p, '/');
    var dot := LastIndexOf(p, '.');
    if dot > sep && !AllDots(p[sep + 1..dot]) then
      AfterLastDot(p);
      (p[..dot], p[dot..])
    else (p, "")
  }

  /** The extension is not empty when the last path component has a `.` with something other
      than a dot before it. */
  lemma SplitExtFound(p: string, i: nat, j: nat)
    requires LastIndexOf(p, '/') < i < j < |p| && p[i] != '.' && p[j] == '.'
    ensures SplitExt(p).1 != []
  {
    var sep, dot := LastIndexOf(p, '/'), LastIndexOf(p, '.');
    assert dot >= j;
    assert p[sep + 1..dot][i - sep - 1] == p[i];
  }

  /** A plain name ending in `.jpg` with something other than dots before it has the
      extension `.jpg` and the stem without it. */
  lemma SplitExtJpg(name: string)
    requires '/' !in name && EndsWith(name, ".jpg")
    requires !AllDots(name[..|name| - 4])
    ensures SplitExt(name) == (name[..|name| - 4], ".jpg")
  {
    var dot := |name| - 4;
    assert name[dot] == ".jpg"[0];
    assert forall j :: dot < j < |name| ==> name[j] == ".jpg"[j - dot];
    LastIndexOfIs(name, '.', dot);
    LastIndexOfIs(name, '/', -1);
    assert name[0..dot] == name[..dot];
  }
}
