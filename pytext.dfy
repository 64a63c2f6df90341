/**
 * The handful of Python `str` operations the photo scripts rely on, stated
 * over `seq<char>`: `str.isspace`/`str.strip`, `int(str)`, `str(int)`,
 * `str.split(sep)`, `str.splitlines()` and the line files written with
 * `line + "\n"`.
 */
module PyText {
  import opened Wrappers

  // ---------------------------------------------------------------------
  // Characters

  /** `c.isspace()`: the characters Python's `str.isspace` accepts, by code point. */
  predicate IsSpace(c: char) {
    var n := c as int;
    (0x09 <= n <= 0x0D) || (0x1C <= n <= 0x20) || n == 0x85 || n == 0xA0 || n == 0x1680
    || (0x2000 <= n <= 0x200A) || n == 0x2028 || n == 0x2029 || n == 0x202F || n == 0x205F
    || n == 0x3000
  }

  /** The characters at which `str.splitlines` ends a line, by code point. */
  predicate IsLineBreak(c: char) {
    var n := c as int;
    (0x0A <= n <= 0x0D) || (0x1C <= n <= 0x1E) || n == 0x85 || n == 0x2028 || n == 0x2029
  }

  predicate IsDigit(c: char) { '0' <= c <= '9' }

  predicate AllDigits(s: string) { forall i :: 0 <= i < |s| ==> IsDigit(s[i]) }

  function DigitValue(c: char): (d: nat)
    requires IsDigit(c)
    ensures d < 10
  {
    (c as int - '0' as int) as nat
  }

  function DigitChar(d: nat): (c: char)
    requires d < 10
    ensures IsDigit(c) && DigitValue(c) == d
  {
    (d + '0' as int) as char
  }

  predicate StartsWith(s: string, prefix: string) {
    |prefix| <= |s| && s[..|prefix|] == prefix
  }

  predicate EndsWith(s: string, suffix: string) {
    |suffix| <= |s| && s[|s| - |suffix|..] == suffix
  }

  /** `w in s` for strings: `w` occurs somewhere in `s`. */
  predicate HasSubstring(s: string, w: string)
    decreases |s|
  {
    StartsWith(s, w) || (|s| > 0 && HasSubstring(s[1..], w))
  }

  /** Concatenation regrouped, for proofs that build a string piece by piece. */
  lemma AppendAssoc<T>(a: seq<T>, b: seq<T>, c: seq<T>)
    ensures a + (b + c) == (a + b) + c
  {
  }

  /** The index of the first character of `s` at or after `i` satisfying `p`, or `|s|`. */
  function FindFirstFrom(s: string, p: char -> bool, i: nat): (k: nat)
    requires i <= |s|
    ensures i <= k <= |s|
    ensures k < |s| ==> p(s[k])
    ensures forall j :: i <= j < k ==> !p(s[j])
    decreases |s| - i
  {
    if i == |s| || p(s[i]) then i else FindFirstFrom(s, p, i + 1)
  }

  /** The index of the first character of `s` satisfying `p`, or `|s|`. */
  function FindFirst(s: string, p: char -> bool): (i: nat)
    ensures i <= |s|
    ensures i < |s| ==> p(s[i])
    ensures forall j :: 0 <= j < i ==> !p(s[j])
  {
    FindFirstFrom(s, p, 0)
  }

  /** The first index with the property is the one `FindFirst` returns. */
  lemma FindFirstIs(s: string, p: char -> bool, i: nat)
    requires i <= |s| && (i < |s| ==> p(s[i]))
    requires forall j :: 0 <= j < i ==> !p(s[j])
    ensures FindFirst(s, p) == i
  {
    var k := FindFirst(s, p);
    if k < i { assert false; } else if k > i { assert false; }
  }

  /** The index of the first occurrence of `c` in `s` at or after `i`, or `|s|`. */
  function FindFrom(s: string, c: char, i: nat): (k: nat)
    requires i <= |s|
    ensures i <= k <= |s|
    ensures k < |s| ==> s[k] == c
    ensures forall j :: i <= j < k ==> s[j] != c
    decreases |s| - i
  {
    if i == |s| || s[i] == c then i else FindFrom(s, c, i + 1)
  }

  /** The index of the first occurrence of `c` in `s`, or `|s|`. */
  function Find(s: string, c: char): (i: nat)
    ensures i <= |s|
    ensures i < |s| ==> s[i] == c
    ensures forall j :: 0 <= j < i ==> s[j] != c
    ensures i == |s| <==> c !in s
  {
    FindFrom(s, c, 0)
  }

  /** The first occurrence of `c` is the index `Find` returns. */
  lemma FindIs(s: string, c: char, i: nat)
    requires i <= |s| && (i < |s| ==> s[i] == c)
    requires forall j :: 0 <= j < i ==> s[j] != c
    ensures Find(s, c) == i
  {
    var k := Find(s, c);
    if k < i { assert false; } else if k > i { assert false; }
  }

  /** The first occurrence of `c` at or after `i` is the index `FindFrom` returns. */
  lemma FindFromIs(s: string, c: char, i: nat, k: nat)
    requires i <= k <= |s| && (k < |s| ==> s[k] == c)
    requires forall j :: i <= j < k ==> s[j] != c
    ensures FindFrom(s, c, i) == k
  {
    var f := FindFrom(s, c, i);
    if f < k { assert false; } else if f > k { assert false; }
  }

  // ---------------------------------------------------------------------
  // str.strip()

  /** The index of the first non-whitespace character of `s` at or after `i`, or `|s|`. */
  function SpanStart(s: string, i: nat): (k: nat)
    requires i <= |s|
    ensures i <= k <= |s|
    ensures k < |s| ==> !IsSpace(s[k])
    ensures forall j :: i <= j < k ==> IsSpace(s[j])
    decreases |s| - i
  {
    if i == |s| || !IsSpace(s[i]) then i else SpanStart(s, i + 1)
  }

  /** The length of `s[..n]` once its trailing whitespace is dropped. */
  function SpanEnd(s: string, n: nat): (k: nat)
    requires n <= |s|
    ensures k <= n
    ensures k > 0 ==> !IsSpace(s[k - 1])
    ensures forall j :: k <= j < n ==> IsSpace(s[j])
  {
    if n == 0 || !IsSpace(s[n - 1]) then n else SpanEnd(s, n - 1)
  }

  /**
   * `s.strip()`: `s` from its first to its last non-whitespace character,
   * or empty when there is none.
   */
  function Strip(s: string): (r: string)
    ensures r == [] || (!IsSpace(r[0]) && !IsSpace(r[|r| - 1]))
    ensures |r| <= |s|
  {
    var lo, hi := SpanStart(s, 0), SpanEnd(s, |s|);
    if lo == 0 && hi == |s| then s
    else if lo < hi then s[lo..hi]
    else []
  }

  /** What `strip()` removes is whitespace: `Strip(s)` sits in `s` between two runs of spaces. */
  lemma StripShape(s: string) returns (lo: nat)
    ensures lo + |Strip(s)| <= |s|
    ensures forall j :: 0 <= j < |Strip(s)| ==> Strip(s)[j] == s[lo + j]
    ensures forall j :: 0 <= j < lo ==> IsSpace(s[j])
    ensures forall j :: lo + |Strip(s)| <= j < |s| ==> IsSpace(s[j])
  {
    var hi := SpanEnd(s, |s|);
    lo := SpanStart(s, 0);
    if lo >= hi && s != [] {
      assert lo == |s| && hi == 0;
      lo := 0;
    }
  }

  lemma StripNoSpace(s: string)
    requires forall i :: 0 <= i < |s| ==> !IsSpace(s[i])
    ensures Strip(s) == s
  {
    assert SpanStart(s, 0) == 0;
    if s != [] {
      assert SpanEnd(s, |s|) == |s|;
    }
  }

  /** A string that neither starts nor ends with whitespace is its own `strip()`. */
  lemma StripOfEnds(s: string)
    requires s != [] && !IsSpace(s[0]) && !IsSpace(s[|s| - 1])
    ensures Strip(s) == s
  {
    assert SpanStart(s, 0) == 0;
    assert SpanEnd(s, |s|) == |s|;
  }

  lemma StripIdempotent(s: string)
    ensures Strip(Strip(s)) == Strip(s)
  {
    var t := Strip(s);
    if t != [] {
      StripOfEnds(t);
    }
  }

  /** `s.strip()` is a slice of `s`: every character of it occurs in `s`. */
  lemma StripChars(s: string, c: char)
    requires c in Strip(s)
    ensures c in s
  {
    var t := Strip(s);
    var lo := StripShape(s);
    var i :| 0 <= i < |t| && t[i] == c;
    assert s[lo + i] == c;
  }

  // ---------------------------------------------------------------------
  // Decimal numerals

  /** The value of a string of decimal digits, most significant first. */
  function DecimalValue(ds: string): nat
    requires AllDigits(ds)
  {
    if ds == [] then 0 else 10 * DecimalValue(ds[..|ds| - 1]) + DigitValue(ds[|ds| - 1])
  }

  /** `str(n)` for a non-negative integer: its shortest decimal numeral. */
  function NatToString(n: nat): (s: string)
    ensures |s| > 0 && AllDigits(s)
    ensures |s| > 1 ==> s[0] != '0'
  {
    if n < 10 then [DigitChar(n)] else NatToString(n / 10) + [DigitChar(n % 10)]
  }

  /** `str(i)` for any integer. */
  function IntToString(i: int): string {
    if i < 0 then "-" + NatToString(-i) else NatToString(i)
  }

  lemma {:induction false} DecimalValueOfNatToString(n: nat)
    ensures DecimalValue(NatToString(n)) == n
  {
    if n >= 10 {
      DecimalValueOfNatToString(n / 10);
      var s := NatToString(n);
      assert s[..|s| - 1] == NatToString(n / 10);
    }
  }

  /**
   * The digits of `t` from index `i` on, read as `int()` reads them in base
   * 10: digits, where one underscore may stand between two digits, so the
   * digits must neither start nor end with an underscore nor hold two in a
   * row. `acc` is the value of the digits before `i`; `afterDigit` says that
   * the character before `i` was a digit.
   */
  function ScanDigits(t: string, i: nat, acc: nat, afterDigit: bool): Option<nat>
    requires i <= |t|
    decreases |t| - i
  {
    if i == |t| then (if afterDigit then Some(acc) else None)
    else if IsDigit(t[i]) then ScanDigits(t, i + 1, 10 * acc + DigitValue(t[i]), true)
    else if t[i] == '_' && afterDigit then ScanDigits(t, i + 1, acc, false)
    else None
  }

  /**
   * `int(s)` in base 10, `None` where Python raises `ValueError`: surrounding
   * whitespace is ignored, an optional sign is allowed, and the digits may be
   * grouped by single underscores.  Only ASCII digits are modelled.
   */
  function ParseInt(s: string): (r: Option<int>)
    ensures r.Some? ==> Strip(s) != []
  {
    ParseNumeral(Strip(s))
  }

  /** `int()` once the surrounding whitespace is gone: an optional sign, then digit groups. */
  function ParseNumeral(t: string): (r: Option<int>)
    ensures r.Some? ==> t != []
  {
    if t == [] then None
    else
      var signed := t[0] == '-' || t[0] == '+';
      match ScanDigits(t, if signed then 1 else 0, 0, false)
      case None => None
      case Some(v) => Some(if t[0] == '-' then -(v as int) else v)
  }

  /**
   * Scanning digits `ds` laid out in `t` from index `off`: once `m` of them
   * are read, with value `acc`, the scan ends with the value of them all.
   */
  lemma {:induction false} ScanOfDigits(t: string, off: nat, ds: string, m: nat, acc: nat)
    requires ds != [] && AllDigits(ds) && off + |ds| == |t|
    requires forall j :: 0 <= j < |ds| ==> t[off + j] == ds[j]
    requires m <= |ds| && acc == DecimalValue(ds[..m])
    ensures ScanDigits(t, off + m, acc, m > 0) == Some(DecimalValue(ds))
    decreases |ds| - m
  {
    if m == |ds| {
      assert ds[..m] == ds;
    } else {
      assert t[off + m] == ds[m];
      assert ds[..m + 1][..m] == ds[..m];
      ScanOfDigits(t, off, ds, m + 1, 10 * acc + DigitValue(ds[m]));
    }
  }

  /** A non-empty string of digits reads as its decimal value. */
  lemma DigitsParse(ds: string)
    requires ds != [] && AllDigits(ds)
    ensures ParseInt(ds) == Some(DecimalValue(ds))
  {
    assert IsDigit(ds[0]) && IsDigit(ds[|ds| - 1]);
    StripOfEnds(ds);
    ScanOfDigits(ds, 0, ds, 0, 0);
  }

  /** A minus sign followed by a non-empty string of digits reads as the negated value. */
  lemma NegativeDigitsParse(s: string, ds: string, v: int)
    requires ds != [] && AllDigits(ds) && v == DecimalValue(ds)
    requires s != [] && s[0] == '-' && s[1..] == ds
    ensures ParseInt(s) == Some(-v)
  {
    assert s[|s| - 1] == ds[|ds| - 1] && IsDigit(ds[|ds| - 1]);
    StripOfEnds(s);
    assert forall j :: 0 <= j < |ds| ==> s[1 + j] == ds[j];
    ScanOfDigits(s, 1, ds, 0, 0);
  }

  lemma ParseIntOfNatToString(n: nat)
    ensures ParseInt(NatToString(n)) == Some(n)
  {
    DecimalValueOfNatToString(n);
    DigitsParse(NatToString(n));
  }

  /** `int("-" + str(n)) == -n`. */
  lemma ParseIntOfNegated(n: nat, s: string)
    requires s == "-" + NatToString(n)
    ensures ParseInt(s) == Some(-(n as int))
  {
    DecimalValueOfNatToString(n);
    assert s[1..] == NatToString(n);
    NegativeDigitsParse(s, NatToString(n), n);
  }

  /** `int()` ignores the whitespace around the numeral. */
  lemma ParseIntOfStrip(s: string)
    ensures ParseInt(Strip(s)) == ParseInt(s)
  {
    StripIdempotent(s);
  }

  /** Without a minus sign, `int()` reads no negative number. */
  lemma ParseIntNoMinus(s: string)
    requires '-' !in s && ParseInt(s).Some?
    ensures ParseInt(s).value >= 0
  {
    var t := Strip(s);
    if t[0] == '-' {
      StripChars(s, '-');
    }
  }

  /** Whitespace alone, such as an empty line, is not a number. */
  lemma ParseIntOfBlank(s: string)
    requires forall i :: 0 <= i < |s| ==> IsSpace(s[i])
    ensures ParseInt(s) == None
  {
    assert SpanStart(s, 0) == |s|;
  }

  // ---------------------------------------------------------------------
  // str.split(sep)

  /** `s.split(sep)` for a one-character separator: always at least one part. */
  function Split(s: string, sep: char): (parts: seq<string>)
    ensures |parts| > 0
    ensures forall k :: 0 <= k < |parts| ==> sep !in parts[k]
    decreases |s|
  {
    var i := Find(s, sep);
    if i == |s| then [s] else [s[..i]] + Split(s[i + 1..], sep)
  }

  /** The parts joined again by `sep`, as `sep.join(parts)`. */
  function JoinWith(parts: seq<string>, sep: string): string {
    if parts == [] then ""
    else if |parts| == 1 then parts[0]
    else parts[0] + sep + JoinWith(parts[1..], sep)
  }

  /** Splitting loses nothing: `sep.join(s.split(sep)) == s`. */
  lemma {:induction false} JoinSplit(s: string, sep: char)
    ensures JoinWith(Split(s, sep), [sep]) == s
    decreases |s|
  {
    var i := Find(s, sep);
    if i < |s| {
      var head, tail := SplitCons(s, sep);
      JoinSplit(tail, sep);
      JoinCons(head, Split(tail, sep), [sep]);
    }
  }

  /** At a separator, `split` yields the piece before it and the split of the rest. */
  lemma SplitCons(s: string, sep: char) returns (head: string, tail: string)
    requires Find(s, sep) < |s|
    ensures s == head + [sep] + tail && sep !in head && |head| == Find(s, sep)
    ensures Split(s, sep) == [head] + Split(tail, sep)
  {
    var i := Find(s, sep);
    head, tail := s[..i], s[i + 1..];
    assert s == head + [sep] + tail;
  }

  /** A piece without the separator, then the separator: the piece is the first part. */
  lemma SplitPrefix(head: string, tail: string, sep: char)
    requires sep !in head
    ensures Split(head + [sep] + tail, sep) == [head] + Split(tail, sep)
  {
    var v := head + [sep] + tail;
    assert v[|head|] == sep;
    assert forall j :: 0 <= j < |head| ==> v[j] == head[j];
    FindIs(v, sep, |head|);
    assert v[..|head|] == head && v[|head| + 1..] == tail;
  }

  lemma JoinCons(part: string, rest: seq<string>, sep: string)
    requires rest != []
    ensures JoinWith([part] + rest, sep) == part + sep + JoinWith(rest, sep)
  {
    assert ([part] + rest)[0] == part && ([part] + rest)[1..] == rest;
  }

  // ---------------------------------------------------------------------
  // Line files: str.splitlines() and writing `line + "\n"` per line

  /** `s.splitlines()`: `\r\n` counts as one break; a final break adds no empty line. */
  function SplitLines(s: string): (lines: seq<string>)
    ensures forall k :: 0 <= k < |lines| ==> forall j :: 0 <= j < |lines[k]| ==> !IsLineBreak(lines[k][j])
    decreases |s|
  {
    if s == [] then []
    else
      var i := FindFirst(s, IsLineBreak);
      if i == |s| then [s]
      else
        var skip := if s[i] == '\r' && i + 1 < |s| && s[i + 1] == '\n' then 2 else 1;
        [s[..i]] + SplitLines(s[i + skip..])
  }

  /** The text of a file written with `f.write(line + "\n")` for each line. */
  function JoinLines(lines: seq<string>): (s: string)
    ensures |s| >= |lines|
  {
    if lines == [] then "" else lines[0] + "\n" + JoinLines(lines[1..])
  }

  predicate NoLineBreaks(lines: seq<string>) {
    forall k :: 0 <= k < |lines| ==> forall j :: 0 <= j < |lines[k]| ==> !IsLineBreak(lines[k][j])
  }

  /** In `l + "\n" + rest`, where `l` holds no break, the first break is the one after `l`. */
  lemma FirstBreakAfterLine(l: string, rest: string, s: string)
    requires s == l + "\n" + rest
    requires forall j :: 0 <= j < |l| ==> !IsLineBreak(l[j])
    ensures FindFirst(s, IsLineBreak) == |l| && s[|l|] == '\n'
    ensures s[..|l|] == l && s[|l| + 1..] == rest
  {
    assert s[|l|] == '\n';
    assert forall j :: 0 <= j < |l| ==> s[j] == l[j];
    FindFirstIs(s, IsLineBreak, |l|);
  }

  /** Lines written one per line read back unchanged, if none holds a line break. */
  lemma {:induction false} SplitLinesOfJoinLines(lines: seq<string>)
    requires NoLineBreaks(lines)
    ensures SplitLines(JoinLines(lines)) == lines
  {
    if lines != [] {
      var l := lines[0];
      var s := JoinLines(lines);
      var rest := JoinLines(lines[1..]);
      assert s == l + "\n" + rest;
      FirstBreakAfterLine(l, rest, s);
      assert SplitLines(s) == [l] + SplitLines(rest);
      assert NoLineBreaks(lines[1..]) by {
        forall k | 0 <= k < |lines[1..]|
          ensures forall j :: 0 <= j < |lines[1..][k]| ==> !IsLineBreak(lines[1..][k][j])
        {
          assert lines[1..][k] == lines[k + 1];
        }
      }
      SplitLinesOfJoinLines(lines[1..]);
    }
  }
}
