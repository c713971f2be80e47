/**
 * The part of pathlib's PurePosixPath the batch handler uses to name
 * archive entries: .name, .suffix and .stem (the rules of CPython 3.12).
 */
module Paths {
  import opened Wrappers
  import opened Text

  predicate NoSlash(s: string) {
    forall j :: 0 <= j < |s| ==> s[j] != '/'
  }

  /**
   * PurePosixPath(p).name: the last component of p, where empty components
   * (from repeated or trailing slashes) and "." components do not count.
   */
  function Name(p: string): (n: string)
    ensures NoSlash(n)
    ensures n != "."
    ensures |n| <= |p|
    ensures NoSlash(p) && p != "." ==> n == p
    decreases |p|
  {
    match LastIndexOf(p, '/')
    case None => if p == "." then "" else p
    case Some(i) =>
      var last := p[i + 1..];
      if last == "" || last == "." then Name(p[..i]) else last
  }

  /** Where the suffix of a name starts: at its last dot, unless that dot is the first or the last character. */
  function SuffixStart(n: string): (r: Option<nat>)
    ensures r.Some? ==> 0 < r.value < |n| - 1 && n[r.value] == '.'
    ensures r.Some? ==> forall j :: r.value < j < |n| ==> n[j] != '.'
    ensures r.Some? <==> |n| > 0 && n[|n| - 1] != '.' && exists j :: 0 < j < |n| && n[j] == '.'
  {
    match LastIndexOf(n, '.')
    case Some(i) => if 0 < i < |n| - 1 then Some(i) else None
    case None => None
  }

  /** PurePosixPath(p).suffix */
  function Suffix(p: string): string {
    var n := Name(p);
    match SuffixStart(n)
    case Some(i) => n[i..]
    case None => ""
  }

  /** PurePosixPath(p).stem */
  function Stem(p: string): (s: string)
    ensures NoSlash(s)
  {
    var n := Name(p);
    match SuffixStart(n)
    case Some(i) => n[..i]
    case None => n
  }

  /**
   * The stem and the suffix split the name: the stem is never empty unless the
   * name is, and the suffix is either empty or a dot followed by at least one
   * character none of which is a dot.
   */
  lemma StemSuffixSplit(p: string)
    ensures Stem(p) + Suffix(p) == Name(p)
    ensures Name(p) != [] ==> Stem(p) != []
    ensures Suffix(p) != [] ==> |Suffix(p)| >= 2 && Suffix(p)[0] == '.'
    ensures forall j :: 0 < j < |Suffix(p)| ==> Suffix(p)[j] != '.'
  {
    var n := Name(p);
    match SuffixStart(n)
    case Some(i) =>
      assert n[..i] + n[i..] == n;
    case None =>
      assert n + "" == n;
  }

  /** A directory part in front of a file name does not change its stem. */
  lemma {:induction false} StemIgnoresDirectory(dir: string, file: string)
    requires NoSlash(file) && file != "" && file != "."
    ensures Stem(dir + "/" + file) == Stem(file)
  {
    var p := dir + "/" + file;
    var i := |dir|;
    assert p[i] == '/';
    assert forall j :: i < j < |p| ==> p[j] == file[j - i - 1];
    var r := LastIndexOf(p, '/');
    assert r.Some? && r.value >= i;
    assert r.value == i;
    assert p[i + 1..] == file;
    assert Name(p) == file;
  }

  /**
   * A name made of a non-empty stem, a dot and a non-empty dot-free extension
   * has that stem, whether or not the stem itself holds dots.
   */
  lemma StemOfDottedName(stem: string, ext: string)
    requires stem != [] && NoSlash(stem) && NoSlash(ext)
    requires ext != [] && forall j :: 0 <= j < |ext| ==> ext[j] != '.'
    ensures Stem(stem + "." + ext) == stem
  {
    var p := stem + "." + ext;
    var i := |stem|;
    assert p[i] == '.';
    assert forall j :: i < j < |p| ==> p[j] == ext[j - i - 1];
    assert Name(p) == p;
    var r := LastIndexOf(p, '.');
    assert r.Some? && r.value >= i;
    assert r.value == i;
    assert p[..i] == stem;
  }
}
