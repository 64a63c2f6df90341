/**
 * The part of `pathlib.PurePosixPath` the scripts use: a path is its parent
 * part and its final component (`name`), with `stem`, `suffix`,
 * `with_name` and `with_suffix` as pathlib defines them.
 */
module Paths {
  import opened PyText

  datatype Path = Path(parent: string, name: string)

  /** `Path("/")`, which `pic_new` passes as the unused backup of a plain move. */
  const Root: Path := Path("/", "")

  /** A final component pathlib accepts in `with_name`: non-empty, without a slash. */
  predicate IsName(n: string) {
    n != [] && '/' !in n
  }

  /** `str(p)`. */
  function PathString(p: Path): string {
    if p.parent == "" then p.name
    else if p.parent == "/" then "/" + p.name
    else p.parent + "/" + p.name
  }

  /** The index of the last `.` in `s`, or -1. */
  function LastDot(s: string): (i: int)
    ensures -1 <= i < |s|
    ensures i >= 0 ==> s[i] == '.'
    ensures forall j :: i < j < |s| ==> s[j] != '.'
  {
    LastDotBefore(s, |s|)
  }

  /** The index of the last `.` among the first `n` characters of `s`, or -1. */
  function LastDotBefore(s: string, n: nat): (i: int)
    requires n <= |s|
    ensures -1 <= i < n
    ensures i >= 0 ==> s[i] == '.'
    ensures forall j :: i < j < n ==> s[j] != '.'
  {
    if n == 0 then -1
    else if s[n - 1] == '.' then n - 1
    else LastDotBefore(s, n - 1)
  }

  /** The last dot is the one with none after it. */
  lemma LastDotIs(s: string, i: int)
    requires -1 <= i < |s| && (i >= 0 ==> s[i] == '.')
    requires forall j :: i < j < |s| ==> s[j] != '.'
    ensures LastDot(s) == i
  {
    var k := LastDot(s);
    if k < i {
      assert false;
    } else if k > i {
      assert false;
    }
  }

  /** `PurePath.suffix`: from the last dot, unless that dot starts or ends the name. */
  function Suffix(n: string): string {
    var i := LastDot(n);
    if 0 < i < |n| - 1 then n[i..] else []
  }

  /** `PurePath.stem`: the name without its suffix. */
  function Stem(n: string): string {
    var i := LastDot(n);
    if 0 < i < |n| - 1 then n[..i] else n
  }

  /** A suffix is empty, or a dot, at least one more character and no other dot, ending the name. */
  lemma SuffixShape(n: string)
    ensures var s := Suffix(n);
            s == [] || (s[0] == '.' && |s| >= 2 && '.' !in s[1..] && EndsWith(n, s) && |s| < |n|)
  {
    var i := LastDot(n);
    if 0 < i < |n| - 1 {
      assert forall j :: 0 <= j < |n| - i - 1 ==> n[i..][1..][j] == n[i + 1 + j];
    }
  }

  /** The stem and the suffix make up the name. */
  lemma StemSuffix(n: string)
    ensures Stem(n) + Suffix(n) == n
  {
    var i := LastDot(n);
    if 0 < i < |n| - 1 {
      assert n[..i] + n[i..] == n;
    }
  }

  /** A suffix `with_suffix` accepts: empty, or a dot followed by at least one character, no slash. */
  predicate IsSuffix(s: string) {
    s == [] || (s[0] == '.' && |s| >= 2 && '/' !in s)
  }

  /** `p.with_name(n)`. */
  function WithName(p: Path, n: string): (r: Path)
    requires IsName(n)
    ensures r.parent == p.parent && r.name == n
  {
    Path(p.parent, n)
  }

  /** `p.with_suffix(s)`: the old suffix, if any, is replaced by `s`. */
  function WithSuffix(p: Path, s: string): (r: Path)
    requires IsName(p.name) && IsSuffix(s)
    ensures r.parent == p.parent && r.name == Stem(p.name) + s
  {
    Path(p.parent, Stem(p.name) + s)
  }

  lemma StemNonEmpty(n: string)
    requires IsName(n)
    ensures IsName(Stem(n))
  {
    var i := LastDot(n);
    if 0 < i < |n| - 1 {
      assert forall j :: 0 <= j < i ==> Stem(n)[j] == n[j];
    }
  }

  /** A name without a dot has no suffix, so `with_suffix` appends. */
  lemma NoDotNoSuffix(n: string)
    requires '.' !in n
    ensures Suffix(n) == [] && Stem(n) == n
  {
    LastDotIs(n, -1);
  }

  /** The suffix of `stem + suf` is `suf`, when the stem is not empty and `suf` is a suffix with one dot. */
  lemma SuffixOfAppended(stem: string, suf: string)
    requires stem != [] && |suf| >= 2 && suf[0] == '.' && '.' !in suf[1..]
    ensures Suffix(stem + suf) == suf && Stem(stem + suf) == stem
  {
    var n := stem + suf;
    forall j | |stem| < j < |n|
      ensures n[j] != '.'
    {
      assert n[j] == suf[1..][j - |stem| - 1];
    }
    assert n[|stem|] == '.';
    LastDotIs(n, |stem|);
    assert n[|stem|..] == suf;
  }

  lemma NameOfWithName(p: Path, n: string)
    requires IsName(n)
    ensures WithName(p, n).name == n
  {
  }

  /** Extending the final component extends the path string: `p.with_name(p.name + e)`. */
  lemma PathStringOfExtendedName(p: Path, e: string)
    requires IsName(p.name) && '/' !in e
    ensures IsName(p.name + e)
    ensures PathString(WithName(p, p.name + e)) == PathString(p) + e
  {
    assert '/' !in p.name + e by {
      forall j | 0 <= j < |p.name + e|
        ensures (p.name + e)[j] != '/'
      {
        if j < |p.name| { assert (p.name + e)[j] == p.name[j]; } else { assert (p.name + e)[j] == e[j - |p.name|]; }
      }
    }
  }

  /** `with_suffix` keeps the name a proper final component. */
  lemma WithSuffixIsName(p: Path, s: string)
    requires IsName(p.name) && IsSuffix(s)
    ensures IsName(WithSuffix(p, s).name)
  {
    StemNonEmpty(p.name);
    var n := Stem(p.name) + s;
    forall j | 0 <= j < |n|
      ensures n[j] != '/'
    {
      if j < |Stem(p.name)| { assert n[j] == Stem(p.name)[j]; } else { assert n[j] == s[j - |Stem(p.name)|]; }
    }
  }

  /** `p.with_suffix("")`: the path without its suffix. */
  function StripSuffix(p: Path): (r: Path)
    requires IsName(p.name)
    ensures r == Path(p.parent, Stem(p.name)) && IsName(r.name)
  {
    StemNonEmpty(p.name);
    Path(p.parent, Stem(p.name))
  }

  /** `with_suffix("")` is `StripSuffix`. */
  lemma WithEmptySuffix(p: Path)
    requires IsName(p.name)
    ensures WithSuffix(p, "") == StripSuffix(p)
  {
    assert Stem(p.name) + "" == Stem(p.name);
  }
}
