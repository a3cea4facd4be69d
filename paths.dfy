/** The two `os.path` helpers the code relies on, as POSIX `posixpath`
    defines them: `basename` and `splitext`. */
module Paths {

  /** Position of the last `c` in `s`, or -1 when `s` has none (`str.rfind`). */
  function LastIndexOf(s: string, c: char): (i: int)
    ensures -1 <= i < |s|
    ensures i >= 0 ==> s[i] == c
    ensures forall j :: i < j < |s| ==> s[j] != c
  {
    LastIndexBefore(s, c, |s|)
  }

  /** Position of the last `c` among the first `n` characters of `s`, or -1. */
  function LastIndexBefore(s: string, c: char, n: nat): (i: int)
    requires n <= |s|
    ensures -1 <= i < n
    ensures i >= 0 ==> s[i] == c
    ensures forall j :: i < j < n ==> s[j] != c
  {
    if n == 0 then -1
    else if s[n - 1] == c then n - 1
    else LastIndexBefore(s, c, n - 1)
  }

  /** Every character of `s[lo..hi]` is a dot. */
  predicate AllDots(s: string, lo: int, hi: int)
    requires 0 <= lo <= hi <= |s|
  {
    forall j :: lo <= j < hi ==> s[j] == '.'
  }

  /** `os.path.basename`: everything after the last '/'. */
  function Basename(p: string): (b: string)
    ensures '/' !in b
    ensures |b| <= |p| && b == p[|p| - |b|..]
    ensures |b| < |p| ==> p[|p| - |b| - 1] == '/'
  {
    p[LastIndexOf(p, '/') + 1..]
  }

  /** `os.path.splitext`: the extension runs from the last '.' of the last
      path component to the end, unless every character of that component
      before the dot is itself a dot (".bashrc" and "..x" have none). */
  function SplitExt(p: string): (r: (string, string))
    ensures r.0 + r.1 == p
    ensures r.1 != [] ==> r.1[0] == '.'
    ensures forall j :: 0 < j < |r.1| ==> r.1[j] != '.' && r.1[j] != '/'
    ensures r.1 != [] ==> !AllDots(p, LastIndexOf(p, '/') + 1, |r.0|)
    ensures r.1 == [] ==> forall j :: LastIndexOf(p, '/') < j < |p| && p[j] == '.' ==>
                            AllDots(p, LastIndexOf(p, '/') + 1, j)
  {
    var sep := LastIndexOf(p, '/');
    var dot := LastIndexOf(p, '.');
    if dot > sep && !AllDots(p, sep + 1, dot) then
      var ext := p[dot..];
      assert forall j :: 0 < j < |ext| ==> ext[j] == p[dot + j] && dot < dot + j;
      assert |p[..dot]| == dot && p[..dot] + ext == p;
      (p[..dot], ext)
    else
      assert forall j :: sep < j < |p| && p[j] == '.' ==> j <= dot;
      (p, "")
  }

  /** The file name without its last extension: `splitext(basename(p))[0]`. */
  function Stem(p: string): string {
    SplitExt(Basename(p)).0
  }

  /** The stem is the front of the basename, so it names no directory. */
  lemma StemOfBasename(p: string)
    ensures var r := Stem(p);
            '/' !in r && |r| <= |Basename(p)| && r == Basename(p)[..|r|]
  {
  }

  /** Basename inverts joining a directory and a plain name. */
  lemma BasenameOfJoin(dir: string, name: string)
    requires '/' !in name
    ensures Basename(dir + "/" + name) == name
  {
    var p := dir + "/" + name;
    assert p[|dir|] == '/';
    assert forall j :: |dir| < j < |p| ==> p[j] == name[j - |dir| - 1];
    assert LastIndexOf(p, '/') == |dir|;
    assert p[|dir| + 1..] == name;
  }

  /** SplitExt inverts appending an extension to a name that is not all dots. */
  lemma SplitExtOfJoin(stem: string, ext: string)
    requires '/' !in stem && '/' !in ext && '.' !in ext
    requires !AllDots(stem, 0, |stem|)
    ensures SplitExt(stem + "." + ext) == (stem, "." + ext)
  {
    var p := stem + "." + ext;
    assert p[|stem|] == '.';
    assert forall j :: |stem| < j < |p| ==> p[j] == ext[j - |stem| - 1];
    assert forall j :: 0 <= j < |stem| ==> p[j] == stem[j];
    assert LastIndexOf(p, '.') == |stem|;
    assert LastIndexOf(p, '/') == -1;
    assert !AllDots(p, 0, |stem|);
    assert p[..|stem|] == stem;
    assert p[|stem|..] == "." + ext;
  }

  /** A feature file's set name: ".../VGG16.csv" gives "VGG16". */
  lemma StemOfCsvPath(dir: string, name: string)
    requires '/' !in name && !AllDots(name, 0, |name|)
    ensures Stem(dir + "/" + name + ".csv") == name
  {
    var ext := "csv";
    assert "." + ext == ".csv";
    assert dir + "/" + name + ".csv" == dir + "/" + (name + "." + ext);
    BasenameOfJoin(dir, name + "." + ext);
    SplitExtOfJoin(name, ext);
  }
  /** A path without '/' is its own basename. */
  lemma BasenameWithoutSlash(p: string)
    requires '/' !in p
    ensures Basename(p) == p
  {
  }
}
