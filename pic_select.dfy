/**
 * `pic_select`: review a list of photo names one at a time, accepting or
 * rejecting each.  The decisions are kept in satellite line files beside
 * the list: `<list>-accept`, `<list>-reject`, and `<list>-orig` (the list
 * as it first was).  The script is Python 2, so its `str.splitlines` and
 * its `int()` are modelled here.  The keys typed are a sequence of the
 * strings `getkey` returns.  The files are a map from name to text.
 */
module PicSelect {
  import opened Wrappers
  import opened PyText

  // ---------------------------------------------------------------------
  // Python 2 text

  /** The characters at which Python 2's `str.splitlines` ends a line. */
  predicate IsBreak2(c: char) { c == '\n' || c == '\r' }

  /** A line as `read_file` returns it: no line break inside. */
  predicate IsLine2(l: string) { forall j :: 0 <= j < |l| ==> !IsBreak2(l[j]) }

  predicate AllLines2(lines: seq<string>) { forall k :: 0 <= k < |lines| ==> IsLine2(lines[k]) }

  /** Python 2 `s.splitlines()`: `\r\n` is one break; a final break adds no empty line. */
  function SplitLines2(s: string): (lines: seq<string>)
    ensures AllLines2(lines)
    decreases |s|
  {
    if s == [] then []
    else
      var i := FindFirst(s, IsBreak2);
      if i == |s| then [s]
      else
        var skip := if s[i] == '\r' && i + 1 < |s| && s[i + 1] == '\n' then 2 else 1;
        var rest := SplitLines2(s[i + skip..]);
        assert forall j :: 0 <= j < i ==> s[..i][j] == s[j];
        assert forall k :: 1 <= k < 1 + |rest| ==> ([s[..i]] + rest)[k] == rest[k - 1];
        [s[..i]] + rest
  }

  /** In `l + "\n" + rest`, where `l` is a line, the first break is the one after `l`. */
  lemma FirstBreak2AfterLine(l: string, rest: string, s: string)
    requires s == l + "\n" + rest && IsLine2(l)
    ensures FindFirst(s, IsBreak2) == |l| && s[|l|] == '\n'
    ensures s[..|l|] == l && s[|l| + 1..] == rest
  {
    assert s[|l|] == '\n';
    assert forall j :: 0 <= j < |l| ==> s[j] == l[j];
    FindFirstIs(s, IsBreak2, |l|);
  }

  /** A line and a line feed before `rest` split off as that line. */
  lemma SplitLines2Cons(l: string, rest: string)
    requires IsLine2(l)
    ensures SplitLines2(l + "\n" + rest) == [l] + SplitLines2(rest)
  {
    FirstBreak2AfterLine(l, rest, l + "\n" + rest);
  }

  /** Lines written one per line read back unchanged, if none holds a line break. */
  lemma {:induction false} SplitLines2OfJoinLines(lines: seq<string>)
    requires AllLines2(lines)
    ensures SplitLines2(JoinLines(lines)) == lines
  {
    if lines != [] {
      assert JoinLines(lines) == lines[0] + "\n" + JoinLines(lines[1..]);
      SplitLines2Cons(lines[0], JoinLines(lines[1..]));
      assert AllLines2(lines[1..]) by {
        forall k | 0 <= k < |lines[1..]|
          ensures IsLine2(lines[1..][k])
        {
          assert lines[1..][k] == lines[k + 1];
        }
      }
      SplitLines2OfJoinLines(lines[1..]);
      assert lines == [lines[0]] + lines[1..];
    }
  }

  /** The whitespace Python 2's `int()` skips: C's `isspace`, on ASCII. */
  predicate IsSpace2(c: char) { c == ' ' || '\t' <= c <= '\r' }

  /**
   * Where Python 2's `int()` stands in the text, as the C `strtol` it calls
   * reads it: before the numeral, after its sign, in its digits (with the
   * value so far), or after them.
   */
  datatype Phase = Leading | Signed(negative: bool) | InDigits(negative: bool, acc: nat) | Trailing(value: int)

  /** The value a numeral with that sign and those digits has. */
  function Signed2(negative: bool, acc: nat): int {
    if negative then -(acc as int) else acc as int
  }

  /**
   * The phase after one more character, `None` where `int()` refuses it:
   * whitespace is skipped before the numeral, after the sign and after the
   * digits; the sign comes first; digits accumulate.
   */
  function Step2(ph: Phase, c: char): (next: Option<Phase>)
    ensures next.Some? ==> Numeric2(c)
    ensures next.Some? && next.value.Signed? ==> ph.Leading? || ph.Signed?
  {
    match ph
    case Leading =>
      if IsSpace2(c) then Some(Leading)
      else if c == '-' || c == '+' then Some(Signed(c == '-'))
      else if IsDigit(c) then Some(InDigits(false, DigitValue(c)))
      else None
    case Signed(negative) =>
      if IsSpace2(c) then Some(ph)
      else if IsDigit(c) then Some(InDigits(negative, DigitValue(c)))
      else None
    case InDigits(negative, acc) =>
      if IsDigit(c) then Some(InDigits(negative, 10 * acc + DigitValue(c)))
      else if IsSpace2(c) then Some(Trailing(Signed2(negative, acc)))
      else None
    case Trailing(_) =>
      if IsSpace2(c) then Some(ph) else None
  }

  /** The text from `i` on read in phase `ph`; at the end there must have been a digit. */
  function Scan2(s: string, i: nat, ph: Phase): Option<int>
    requires i <= |s|
    decreases |s| - i
  {
    if i == |s| then
      match ph
      case InDigits(negative, acc) => Some(Signed2(negative, acc))
      case Trailing(v) => Some(v)
      case _ => None
    else
      match Step2(ph, s[i])
      case None => None
      case Some(next) => Scan2(s, i + 1, next)
  }

  /**
   * Python 2's `int(s)` on a `str`, `None` where it raises `ValueError`:
   * whitespace around the numeral, an optional sign, whitespace after the
   * sign (which `strtol` skips), then one or more ASCII digits.
   */
  function Int2(s: string): Option<int> {
    Scan2(s, 0, Leading)
  }

  /** The characters `int()` can accept at all. */
  predicate Numeric2(c: char) { IsDigit(c) || IsSpace2(c) || c == '-' || c == '+' }

  lemma {:induction false} Scan2Chars(s: string, i: nat, ph: Phase)
    requires i <= |s| && Scan2(s, i, ph).Some?
    ensures forall j :: i <= j < |s| ==> Numeric2(s[j])
    decreases |s| - i
  {
    if i < |s| {
      Scan2Chars(s, i + 1, Step2(ph, s[i]).value);
    }
  }

  /** Typed text with anything but digits, signs and whitespace is refused. */
  lemma Int2Chars(s: string)
    requires Int2(s).Some?
    ensures forall j :: 0 <= j < |s| ==> Numeric2(s[j])
  {
    Scan2Chars(s, 0, Leading);
  }

  /**
   * Reading the digits `ds`, laid out in `s` from `off`, once the first `m`
   * of them are read: the scan goes on after them with their value.
   */
  lemma {:induction false} Scan2OfDigits(s: string, off: nat, ds: string, m: nat, negative: bool)
    requires AllDigits(ds) && 0 < m <= |ds| && off + |ds| <= |s|
    requires forall j :: 0 <= j < |ds| ==> s[off + j] == ds[j]
    ensures Scan2(s, off + m, InDigits(negative, DecimalValue(ds[..m]))) ==
            Scan2(s, off + |ds|, InDigits(negative, DecimalValue(ds)))
    decreases |ds| - m
  {
    if m == |ds| {
      assert ds[..m] == ds;
    } else {
      assert s[off + m] == ds[m];
      assert ds[..m + 1][..m] == ds[..m];
      Scan2OfDigits(s, off, ds, m + 1, negative);
    }
  }

  /** Digits ended by a line feed, as `goto_image` collects them, give their value. */
  lemma Int2OfNumberLine(ds: string)
    requires ds != [] && AllDigits(ds)
    ensures Int2(ds + "\n") == Some(DecimalValue(ds) as int)
  {
    var s := ds + "\n";
    assert forall j :: 0 <= j < |ds| ==> s[j] == ds[j];
    assert ds[..1] == [ds[0]] && DecimalValue(ds[..1]) == DigitValue(ds[0]);
    assert Scan2(s, 0, Leading) == Scan2(s, 1, InDigits(false, DecimalValue(ds[..1])));
    Scan2OfDigits(s, 0, ds, 1, false);
    assert s[|ds|] == '\n';
  }

  /** A minus sign before the digits gives the negative value. */
  lemma Int2OfNegativeLine(ds: string)
    requires ds != [] && AllDigits(ds)
    ensures Int2("-" + ds + "\n") == Some(-(DecimalValue(ds) as int))
  {
    var s := "-" + ds + "\n";
    assert forall j :: 0 <= j < |ds| ==> s[1 + j] == ds[j];
    assert ds[..1] == [ds[0]] && DecimalValue(ds[..1]) == DigitValue(ds[0]);
    assert Scan2(s, 0, Leading) == Scan2(s, 1, Signed(true));
    assert Scan2(s, 1, Signed(true)) == Scan2(s, 2, InDigits(true, DecimalValue(ds[..1])));
    Scan2OfDigits(s, 1, ds, 1, true);
    assert s[1 + |ds|] == '\n';
  }

  // ---------------------------------------------------------------------
  // Line files

  /** The files the script reads and writes, by name. */
  type Files = map<string, string>

  /** `read_file`: the lines of the file; a file that cannot be read gives none. */
  function ReadList(files: Files, name: string): (lines: seq<string>)
    ensures AllLines2(lines)
    ensures name !in files ==> lines == []
  {
    if name in files then SplitLines2(files[name]) else []
  }

  /** `write_file`: the file holds each line followed by a line feed. */
  function WriteList(files: Files, name: string, data: seq<string>): Files {
    files[name := JoinLines(data)]
  }

  /** A list written reads back unchanged when no line holds a line break. */
  lemma ReadWriteList(files: Files, name: string, data: seq<string>)
    requires AllLines2(data)
    ensures ReadList(WriteList(files, name, data), name) == data
  {
    SplitLines2OfJoinLines(data);
  }

  /** The directory the script works in. */
  class Disk {
    var files: Files

    constructor (initial: Files)
      ensures files == initial
    {
      files := initial;
    }

    /** `write_file(name, data)`. */
    method WriteFile(name: string, data: seq<string>)
      modifies this
      ensures files == WriteList(old(files), name, data)
    {
      files := files[name := JoinLines(data)];
    }
  }

  // ---------------------------------------------------------------------
  // The review state

  /** The fields of an `ImageFiles` object. */
  datatype Review = Review(mainName: string, main: seq<string>, mainIndex: int,
                           accepted: seq<string>, rejected: seq<string>,
                           orig: seq<string>, status: string)

  /** The class defaults of `ImageFiles`. */
  const Initial: Review := Review("", [], 0, [], [], [], "")

  /** `orig_name`. */
  function OrigFile(mainName: string): string { mainName + "-orig" }

  /** `accept_name`. */
  function AcceptFile(mainName: string): string { mainName + "-accept" }

  /** `reject_name`. */
  function RejectFile(mainName: string): string { mainName + "-reject" }

  /** The list and its three satellite files are four different files. */
  lemma SatelliteNamesDistinct(n: string)
    ensures n != OrigFile(n) && n != AcceptFile(n) && n != RejectFile(n)
    ensures OrigFile(n) != AcceptFile(n) && OrigFile(n) != RejectFile(n)
    ensures AcceptFile(n) != RejectFile(n)
  {
    assert AcceptFile(n)[|n| + 1] == 'a' && RejectFile(n)[|n| + 1] == 'r';
  }

  /** `write`: the list, the accepted, the rejected and the original list, in that order. */
  function Save(files: Files, r: Review): Files {
    var f1 := WriteList(files, r.mainName, r.main);
    var f2 := WriteList(f1, AcceptFile(r.mainName), r.accepted);
    var f3 := WriteList(f2, RejectFile(r.mainName), r.rejected);
    WriteList(f3, OrigFile(r.mainName), r.orig)
  }

  /** `write` changes exactly the four files, each to the text of its list. */
  lemma SaveWrites(files: Files, r: Review)
    ensures var after, n := Save(files, r), r.mainName;
            after.Keys == files.Keys + {n, AcceptFile(n), RejectFile(n), OrigFile(n)} &&
            after[n] == JoinLines(r.main) && after[AcceptFile(n)] == JoinLines(r.accepted) &&
            after[RejectFile(n)] == JoinLines(r.rejected) && after[OrigFile(n)] == JoinLines(r.orig) &&
            forall other :: other in files && other !in {n, AcceptFile(n), RejectFile(n), OrigFile(n)} ==>
              after[other] == files[other]
  {
    SatelliteNamesDistinct(r.mainName);
  }

  /** A second `write` under the same name leaves what it alone would. */
  lemma SaveTwice(files: Files, r1: Review, r2: Review)
    requires r1.mainName == r2.mainName
    ensures Save(Save(files, r1), r2) == Save(files, r2)
  {
    var once, twice := Save(files, r2), Save(Save(files, r1), r2);
    SaveWrites(files, r1);
    SaveWrites(files, r2);
    SaveWrites(Save(files, r1), r2);
    assert once.Keys == twice.Keys;
    assert forall name :: name in once ==> once[name] == twice[name];
  }

  /**
   * `read(filename)`: the list and its satellites from the files.  The
   * original list is the `-orig` file, or the list itself when that file
   * reads as empty.  The index and the status are those of the object.
   */
  function Load(files: Files, r: Review, filename: string): (after: Review)
    ensures after.mainName == filename && after.main == ReadList(files, filename)
    ensures after.orig == (if ReadList(files, OrigFile(filename)) == [] then after.main
                           else ReadList(files, OrigFile(filename)))
    ensures after.accepted == ReadList(files, AcceptFile(filename))
    ensures after.rejected == ReadList(files, RejectFile(filename))
    ensures after.mainIndex == r.mainIndex && after.status == r.status
  {
    var main := ReadList(files, filename);
    var orig := ReadList(files, OrigFile(filename));
    r.(mainName := filename, main := main, orig := if orig == [] then main else orig,
       accepted := ReadList(files, AcceptFile(filename)),
       rejected := ReadList(files, RejectFile(filename)))
  }

  predicate SavedLines(r: Review) {
    AllLines2(r.main) && AllLines2(r.accepted) && AllLines2(r.rejected) && AllLines2(r.orig)
  }

  /**
   * A review written and read again resumes where it stopped: the same
   * lists, except that an empty original list comes back as the list.
   */
  lemma LoadAfterSave(files: Files, r: Review)
    requires SavedLines(r)
    ensures Load(Save(files, r), r, r.mainName) == r.(orig := if r.orig == [] then r.main else r.orig)
  {
    var after, n := Save(files, r), r.mainName;
    SaveWrites(files, r);
    SplitLines2OfJoinLines(r.main);
    SplitLines2OfJoinLines(r.accepted);
    SplitLines2OfJoinLines(r.rejected);
    SplitLines2OfJoinLines(r.orig);
    assert ReadList(after, n) == r.main;
    assert ReadList(after, OrigFile(n)) == r.orig;
  }

  // ---------------------------------------------------------------------
  // Commands

  /** While there are photos left, the index names one of them. */
  predicate IndexOk(r: Review) {
    r.main != [] ==> 0 <= r.mainIndex < |r.main|
  }

  /** The photos under review or decided, with their multiplicities. */
  function Pool(r: Review): multiset<string> {
    multiset(r.main) + multiset(r.accepted) + multiset(r.rejected)
  }

  /** The two reviews differ at most in their index. */
  predicate SameLists(a: Review, b: Review) {
    a.mainName == b.mainName && a.main == b.main && a.accepted == b.accepted &&
    a.rejected == b.rejected && a.orig == b.orig
  }

  /** The index clamp of `update_display`: an index past the end moves to the last photo. */
  function DisplayClamp(r: Review): (after: Review)
    ensures SameLists(after, r) && after.status == r.status
    ensures r.mainIndex >= 0 ==> IndexOk(after)
    ensures IndexOk(r) ==> after == r
  {
    if r.main == [] then r
    else if r.mainIndex >= |r.main| then r.(mainIndex := |r.main| - 1)
    else r
  }

  /** `next_image`: one photo on, staying on the last one. */
  function Next(r: Review): (after: Review)
    ensures SameLists(after, r) && after.status == r.status
    ensures IndexOk(r) ==> IndexOk(after)
  {
    var i := r.mainIndex + 1;
    DisplayClamp(r.(mainIndex := if i >= |r.main| then |r.main| - 1 else i))
  }

  /** `next_image` moves one photo on, and stays on the last one. */
  lemma NextMoves(r: Review)
    requires IndexOk(r) && r.main != []
    ensures r.mainIndex < |r.main| - 1 ==> Next(r).mainIndex == r.mainIndex + 1
    ensures r.mainIndex == |r.main| - 1 ==> Next(r).mainIndex == r.mainIndex
  {
  }

  /** `previous_image`: one photo back, staying on the first one. */
  function Previous(r: Review): (after: Review)
    ensures SameLists(after, r) && after.status == r.status
    ensures IndexOk(r) ==> IndexOk(after)
  {
    var i := r.mainIndex - 1;
    DisplayClamp(r.(mainIndex := if i <= 0 then 0 else i))
  }

  /** `previous_image` moves one photo back, and stays on the first one. */
  lemma PreviousMoves(r: Review)
    requires IndexOk(r) && r.main != []
    ensures 0 < r.mainIndex ==> Previous(r).mainIndex == r.mainIndex - 1
    ensures r.mainIndex <= 1 ==> Previous(r).mainIndex == 0
  {
  }

  /**
   * `goto_image` once the text `typed` has been read: text `int()` refuses
   * leaves the review alone; a number is brought into range.
   */
  function Goto(r: Review, typed: string): (after: Review)
    requires IndexOk(r)
    ensures SameLists(after, r) && after.status == r.status
    ensures IndexOk(after)
  {
    var v := Int2(typed);
    if |typed| > 0 && v.None? then r
    else
      var i0 := if |typed| > 0 then v.value else r.mainIndex;
      var i1 := if i0 >= |r.main| then |r.main| - 1 else i0;
      DisplayClamp(r.(mainIndex := if i1 <= 0 then 0 else i1))
  }

  /**
   * Text `int()` refuses leaves the review as it was; a number is the new
   * index, one past the end goes to the last photo, one below the start
   * to the first.
   */
  lemma GotoMoves(r: Review, typed: string)
    requires IndexOk(r) && typed != []
    ensures Int2(typed).None? ==> Goto(r, typed) == r
    ensures Int2(typed).Some? && r.main != [] ==>
              var v := Int2(typed).value;
              (0 <= v < |r.main| ==> Goto(r, typed).mainIndex == v) &&
              (v >= |r.main| ==> Goto(r, typed).mainIndex == |r.main| - 1) &&
              (v < 0 ==> Goto(r, typed).mainIndex == 0)
  {
  }

  /** `s` without its element at `i`. */
  function Without(s: seq<string>, i: nat): seq<string>
    requires i < |s|
  {
    s[..i] + s[i + 1..]
  }

  /** The others keep their order, and only the element at `i` is gone. */
  lemma WithoutShape(s: seq<string>, i: nat)
    requires i < |s|
    ensures var t := Without(s, i);
            |t| == |s| - 1 &&
            (forall j :: 0 <= j < i ==> t[j] == s[j]) &&
            (forall j :: i <= j < |t| ==> t[j] == s[j + 1]) &&
            multiset(t) + multiset{s[i]} == multiset(s)
  {
    assert s == s[..i] + [s[i]] + s[i + 1..];
  }

  /** `accept_image`: the current photo leaves the list and is appended to the accepted ones. */
  function Accept(r: Review): (after: Review)
    requires 0 <= r.mainIndex < |r.main|
    ensures Pool(after) == Pool(r) && IndexOk(after)
    ensures after.mainName == r.mainName && after.orig == r.orig
  {
    var i := r.mainIndex;
    WithoutShape(r.main, i);
    DisplayClamp(r.(main := Without(r.main, i), accepted := r.accepted + [r.main[i]]))
  }

  /**
   * Accepting takes the current photo out of the list, the others in their
   * order, and appends it to the accepted ones; nothing else changes.  The
   * photo after it becomes current, or the new last one if it was last.
   */
  lemma AcceptMoves(r: Review)
    requires 0 <= r.mainIndex < |r.main|
    ensures var after, i := Accept(r), r.mainIndex;
            after.main == Without(r.main, i) && after.accepted == r.accepted + [r.main[i]] &&
            after.rejected == r.rejected && after.status == r.status &&
            (i < |after.main| ==> after.mainIndex == i) &&
            (0 < i == |after.main| ==> after.mainIndex == i - 1)
  {
    WithoutShape(r.main, r.mainIndex);
  }

  /** `reject_image`: the current photo leaves the list and is appended to the rejected ones. */
  function Reject(r: Review): (after: Review)
    requires 0 <= r.mainIndex < |r.main|
    ensures Pool(after) == Pool(r) && IndexOk(after)
    ensures after.mainName == r.mainName && after.orig == r.orig
  {
    var i := r.mainIndex;
    WithoutShape(r.main, i);
    DisplayClamp(r.(main := Without(r.main, i), rejected := r.rejected + [r.main[i]]))
  }

  /** Rejecting is accepting with the photo appended to the rejected ones instead. */
  lemma RejectMoves(r: Review)
    requires 0 <= r.mainIndex < |r.main|
    ensures var after, i := Reject(r), r.mainIndex;
            after.main == Without(r.main, i) && after.rejected == r.rejected + [r.main[i]] &&
            after.accepted == r.accepted && after.status == r.status &&
            (i < |after.main| ==> after.mainIndex == i) &&
            (0 < i == |after.main| ==> after.mainIndex == i - 1)
  {
    WithoutShape(r.main, r.mainIndex);
  }

  // ---------------------------------------------------------------------
  // The key loop

  /** The keys read, one after another, as one string. */
  function Concat(keys: seq<string>): string {
    if keys == [] then "" else Concat(keys[..|keys| - 1]) + keys[|keys| - 1]
  }

  /** Where the line feed that ends the typed number is: the first at or after `i`, or `|keys|`. */
  function EnterAt(keys: seq<string>, i: nat): (m: nat)
    requires i <= |keys|
    ensures i <= m <= |keys| && (m < |keys| ==> keys[m] == "\n")
    ensures forall j :: i <= j < m ==> keys[j] != "\n"
    decreases |keys| - i
  {
    if i == |keys| || keys[i] == "\n" then i else EnterAt(keys, i + 1)
  }

  lemma EnterAtIs(keys: seq<string>, i: nat, m: nat)
    requires i <= m <= |keys| && (m < |keys| ==> keys[m] == "\n")
    requires forall j :: i <= j < m ==> keys[j] != "\n"
    ensures EnterAt(keys, i) == m
  {
    var e := EnterAt(keys, i);
    if e < m { assert false; } else if e > m { assert false; }
  }

  /** The review after a command, and the index of the key read next. */
  datatype Step = Step(review: Review, next: nat)

  /**
   * The commands `rep_loop` dispatches on a single key, other than `q` and
   * `g`: `n` and the line feed go on, `p` goes back, `a` and `r` accept
   * and reject, `w` changes nothing here (it writes the files), and any
   * other key sets the status `Key Error`.
   */
  function KeyCommand(r: Review, key: string): (after: Review)
    requires key != "q" && key != "g" && IndexOk(r) && r.main != []
    ensures IndexOk(after) && Pool(after) == Pool(r)
    ensures after.mainName == r.mainName && after.orig == r.orig
  {
    if key == "n" || key == "\n" then Next(r)
    else if key == "p" then Previous(r)
    else if key == "a" then Accept(r)
    else if key == "r" then Reject(r)
    else if key == "w" then r
    else r.(status := "Key Error")
  }

  /**
   * The command for the key at `k`, other than `q`: `g` reads keys up to a
   * line feed and goes to that number, and is `None` when the keys run out
   * first; any other key is a single-key command.
   */
  function Command(r: Review, keys: seq<string>, k: nat): (st: Option<Step>)
    requires k < |keys| && keys[k] != "q" && IndexOk(r) && r.main != []
    ensures st.None? <==> keys[k] == "g" && EnterAt(keys, k + 1) == |keys|
    ensures st.Some? ==> k < st.value.next <= |keys| && IndexOk(st.value.review)
    ensures st.Some? ==> Pool(st.value.review) == Pool(r)
    ensures st.Some? ==> st.value.review.mainName == r.mainName && st.value.review.orig == r.orig
  {
    if keys[k] == "g" then
      var m := EnterAt(keys, k + 1);
      if m == |keys| then None else Some(Step(Goto(r, Concat(keys[k + 1..m + 1])), m + 1))
    else Some(Step(KeyCommand(r, keys[k]), k + 1))
  }

  /** How a run of the loop stands at the end of the keys. */
  datatype Outcome =
    | Quit     // `q` was pressed
    | Emptied  // every photo was decided
    | Waiting  // the keys ran out while the loop waited for one

  datatype Session = Session(review: Review, files: Files, outcome: Outcome)

  /**
   * `rep_loop` from key `k` on: while photos are left, the status is
   * cleared and a key read; `q` writes and stops, `w` writes, other keys
   * are commands.  When no photo is left the files are written.
   */
  function Loop(r: Review, keys: seq<string>, k: nat, files: Files): Session
    requires k <= |keys| && IndexOk(r)
    decreases |keys| - k
  {
    if r.main == [] then Session(r, Save(files, r), Emptied)
    else
      var r0 := r.(status := "");
      if k == |keys| then Session(r0, files, Waiting)
      else if keys[k] == "q" then Session(r0, Save(files, r0), Quit)
      else
        match Command(r0, keys, k)
        case None => Session(r0, files, Waiting)
        case Some(st) => Loop(st.review, keys, st.next, if keys[k] == "w" then Save(files, r0) else files)
  }

  /** A `g` whose keys run out before its line feed leaves the loop waiting. */
  lemma LoopGotoWaits(r: Review, keys: seq<string>, k: nat, files: Files)
    requires k < |keys| && keys[k] == "g" && IndexOk(r) && r.main != []
    requires EnterAt(keys, k + 1) == |keys|
    ensures Loop(r, keys, k, files) == Session(r.(status := ""), files, Waiting)
  {
  }

  /** Otherwise a `g` goes to the number typed up to the line feed. */
  lemma LoopGotoGoes(r: Review, keys: seq<string>, k: nat, files: Files, after: Review, next: nat)
    requires k < |keys| && keys[k] == "g" && IndexOk(r) && r.main != []
    requires EnterAt(keys, k + 1) < |keys| && next == EnterAt(keys, k + 1) + 1
    requires after == Goto(r.(status := ""), Concat(keys[k + 1..next]))
    ensures k < next <= |keys| && IndexOk(after)
    ensures Loop(r, keys, k, files) == Loop(after, keys, next, files)
  {
    var r0 := r.(status := "");
    assert IndexOk(r0) && r0.main != [];
    assert Command(r0, keys, k) == Some(Step(after, next));
  }

  /** Any other key is its single-key command, with the files written first for `w`. */
  lemma LoopKey(r: Review, keys: seq<string>, k: nat, files: Files)
    requires k < |keys| && keys[k] != "q" && keys[k] != "g" && IndexOk(r) && r.main != []
    ensures var r0 := r.(status := "");
            Loop(r, keys, k, files) ==
              Loop(KeyCommand(r0, keys[k]), keys, k + 1, if keys[k] == "w" then Save(files, r0) else files)
  {
  }

  /**
   * Every state the loop reaches keeps the photos it started with, in one
   * of the three lists, and an index on one of them; the name and the
   * original list stay; the loop ends on its own exactly when no photo is
   * left.
   */
  lemma {:induction false} LoopConserves(r: Review, keys: seq<string>, k: nat, files: Files)
    requires k <= |keys| && IndexOk(r)
    ensures var s := Loop(r, keys, k, files);
            IndexOk(s.review) && Pool(s.review) == Pool(r) &&
            s.review.mainName == r.mainName && s.review.orig == r.orig &&
            (s.outcome == Emptied <==> s.review.main == [])
    decreases |keys| - k
  {
    if r.main != [] && k < |keys| && keys[k] != "q" {
      var r0 := r.(status := "");
      var st := Command(r0, keys, k);
      if st.Some? {
        LoopConserves(st.value.review, keys, st.value.next, if keys[k] == "w" then Save(files, r0) else files);
      }
    }
  }

  /** A session that has finished leaves the files holding its final state. */
  lemma {:induction false} LoopSaves(r: Review, keys: seq<string>, k: nat, files: Files)
    requires k <= |keys| && IndexOk(r)
    ensures var s := Loop(r, keys, k, files);
            s.outcome != Waiting ==> s.files == Save(files, s.review)
    decreases |keys| - k
  {
    if r.main != [] && k < |keys| && keys[k] != "q" {
      var r0 := r.(status := "");
      var st := Command(r0, keys, k);
      if st.Some? {
        var f := if keys[k] == "w" then Save(files, r0) else files;
        LoopSaves(st.value.review, keys, st.value.next, f);
        LoopConserves(st.value.review, keys, st.value.next, f);
        SaveTwice(files, r0, Loop(st.value.review, keys, st.value.next, f).review);
      }
    }
  }

  /** What the loop does to the review does not depend on the files. */
  lemma {:induction false} LoopIgnoresFiles(r: Review, keys: seq<string>, k: nat, f1: Files, f2: Files)
    requires k <= |keys| && IndexOk(r)
    ensures Loop(r, keys, k, f1).review == Loop(r, keys, k, f2).review
    ensures Loop(r, keys, k, f1).outcome == Loop(r, keys, k, f2).outcome
    decreases |keys| - k
  {
    if r.main != [] && k < |keys| && keys[k] != "q" {
      var r0 := r.(status := "");
      var st := Command(r0, keys, k);
      if st.Some? {
        var g1 := if keys[k] == "w" then Save(f1, r0) else f1;
        var g2 := if keys[k] == "w" then Save(f2, r0) else f2;
        LoopIgnoresFiles(st.value.review, keys, st.value.next, g1, g2);
      }
    }
  }

  /** A `w` changes nothing a session leaves behind, save the files of one still waiting. */
  lemma WriteKeyInvisible(r: Review, keys: seq<string>, k: nat, files: Files)
    requires k < |keys| && keys[k] == "w" && IndexOk(r) && r.main != []
    ensures var s, t := Loop(r, keys, k, files), Loop(r.(status := ""), keys, k + 1, files);
            s.review == t.review && s.outcome == t.outcome && (s.outcome != Waiting ==> s.files == t.files)
  {
    var r0 := r.(status := "");
    assert KeyCommand(r0, "w") == r0;
    LoopIgnoresFiles(r0, keys, k + 1, Save(files, r0), files);
    LoopSaves(r0, keys, k + 1, Save(files, r0));
    LoopSaves(r0, keys, k + 1, files);
    LoopConserves(r0, keys, k + 1, files);
    SaveTwice(files, r0, Loop(r0, keys, k + 1, files).review);
  }

  /** `rep_loop` on the keys `keys`: the first display clamps the index. */
  function Run(r: Review, keys: seq<string>, files: Files): Session
    requires r.mainIndex >= 0
  {
    Loop(DisplayClamp(r), keys, 0, files)
  }

  /**
   * A whole run keeps every photo it started with, in one of the three
   * lists, and the number of them; a finished run has written its final
   * state.
   */
  lemma RunConserves(r: Review, keys: seq<string>, files: Files)
    requires r.mainIndex >= 0
    ensures var s := Run(r, keys, files);
            Pool(s.review) == Pool(r) && IndexOk(s.review) &&
            |s.review.main| + |s.review.accepted| + |s.review.rejected| == |r.main| + |r.accepted| + |r.rejected| &&
            (s.outcome != Waiting ==> s.files == Save(files, s.review))
  {
    var s := Run(r, keys, files);
    LoopConserves(DisplayClamp(r), keys, 0, files);
    LoopSaves(DisplayClamp(r), keys, 0, files);
    assert |Pool(s.review)| == |s.review.main| + |s.review.accepted| + |s.review.rejected|;
    assert |Pool(r)| == |r.main| + |r.accepted| + |r.rejected|;
  }
  // ---------------------------------------------------------------------
  // The object

  /** `ImageFiles`: the decisions so far, updated command by command. */
  class ImageFiles {
    var mainName: string
    var main: seq<string>
    var mainIndex: int
    var accepted: seq<string>
    var rejected: seq<string>
    var orig: seq<string>
    var status: string

    /** The fields as a value. */
    function Value(): Review
      reads this
    {
      Review(mainName, main, mainIndex, accepted, rejected, orig, status)
    }

    /** An object with the class defaults. */
    constructor ()
      ensures Value() == Initial
    {
      mainName, main, mainIndex := "", [], 0;
      accepted, rejected, orig, status := [], [], [], "";
    }

    /** `read(filename)`. */
    method Read(disk: Disk, filename: string)
      modifies this
      ensures Value() == Load(disk.files, old(Value()), filename)
    {
      mainName := filename;
      main := ReadList(disk.files, filename);
      var o := ReadList(disk.files, OrigFile(mainName));
      if [] == o {
        orig := main;
      } else {
        orig := o;
      }
      accepted := ReadList(disk.files, AcceptFile(mainName));
      rejected := ReadList(disk.files, RejectFile(mainName));
    }

    /** `write()`. */
    method Write(disk: Disk)
      modifies disk
      ensures disk.files == Save(old(disk.files), Value())
    {
      disk.WriteFile(mainName, main);
      disk.WriteFile(AcceptFile(mainName), accepted);
      disk.WriteFile(RejectFile(mainName), rejected);
      disk.WriteFile(OrigFile(mainName), orig);
    }

    /** `update_display`: the index clamp (the display itself is not modelled). */
    method UpdateDisplay()
      modifies this
      ensures Value() == DisplayClamp(old(Value()))
    {
      if |main| == 0 {
        return;
      }
      if mainIndex >= |main| {
        mainIndex := |main| - 1;
      }
    }

    /** `next_image`. */
    method NextImage()
      modifies this
      ensures Value() == Next(old(Value()))
    {
      mainIndex := mainIndex + 1;
      if mainIndex >= |main| {
        mainIndex := |main| - 1;
      }
      UpdateDisplay();
    }

    /**
     * The key reading of `goto_image`: the keys from `keys[from]` up to and
     * including a line feed, run together.  `complete` is false when the
     * keys run out before a line feed.
     */
    static method ReadTyped(keys: seq<string>, from: nat) returns (typed: string, next: nat, complete: bool)
      requires from <= |keys|
      ensures complete <==> EnterAt(keys, from) < |keys|
      ensures complete ==> next == EnterAt(keys, from) + 1 && typed == Concat(keys[from..next])
      ensures !complete ==> next == |keys|
    {
      typed := "";
      var key := "";
      var k := from;
      while key != "\n" && k < |keys|
        invariant from <= k <= |keys| && typed == Concat(keys[from..k])
        invariant k == from ==> key == ""
        invariant k > from ==> key == keys[k - 1]
        invariant forall j :: from <= j < k - 1 ==> keys[j] != "\n"
        decreases |keys| - k
      {
        key := keys[k];
        assert keys[from..k + 1][..k - from] == keys[from..k];
        typed := typed + key;
        k := k + 1;
      }
      if key != "\n" {
        EnterAtIs(keys, from, |keys|);
        return typed, |keys|, false;
      }
      EnterAtIs(keys, from, k - 1);
      return typed, k, true;
    }

    /**
     * `goto_image` reading keys from `keys[from..]`.  `complete` is false
     * when the keys run out before a line feed; nothing has changed then.
     */
    method GotoImage(keys: seq<string>, from: nat) returns (next: nat, complete: bool)
      requires from <= |keys| && IndexOk(Value())
      modifies this
      ensures complete <==> EnterAt(keys, from) < |keys|
      ensures complete ==> next == EnterAt(keys, from) + 1 &&
                           Value() == Goto(old(Value()), Concat(keys[from..next]))
      ensures !complete ==> Value() == old(Value())
    {
      var typed;
      typed, next, complete := ReadTyped(keys, from);
      if !complete {
        return;
      }
      ghost var r := Value();
      var v := Int2(typed);
      if |typed| > 0 {
        if v.None? {
          assert Goto(r, typed) == r;
          return;
        }
        mainIndex := v.value;
      }
      if mainIndex >= |main| {
        mainIndex := |main| - 1;
      }
      if mainIndex <= 0 {
        mainIndex := 0;
      }
      ghost var i := mainIndex;
      assert Value() == r.(mainIndex := i);
      assert Goto(r, typed) == DisplayClamp(r.(mainIndex := i));
      UpdateDisplay();
    }

    /** `previous_image`. */
    method PreviousImage()
      modifies this
      ensures Value() == Previous(old(Value()))
    {
      mainIndex := mainIndex - 1;
      if mainIndex <= 0 {
        mainIndex := 0;
      }
      UpdateDisplay();
    }

    /** `accept_image`. */
    method AcceptImage()
      requires 0 <= mainIndex < |main|
      modifies this
      ensures Value() == Accept(old(Value()))
    {
      var image := main[mainIndex];
      main := main[..mainIndex] + main[mainIndex + 1..];
      accepted := accepted + [image];
      UpdateDisplay();
    }

    /** `reject_image`. */
    method RejectImage()
      requires 0 <= mainIndex < |main|
      modifies this
      ensures Value() == Reject(old(Value()))
    {
      var image := main[mainIndex];
      main := main[..mainIndex] + main[mainIndex + 1..];
      rejected := rejected + [image];
      UpdateDisplay();
    }

    /** A single-key command of `rep_loop`. */
    method ApplyKey(key: string)
      requires key != "q" && key != "g" && IndexOk(Value()) && main != []
      modifies this
      ensures Value() == KeyCommand(old(Value()), key)
    {
      if key == "n" || key == "\n" {
        NextImage();
      } else if key == "p" {
        PreviousImage();
      } else if key == "a" {
        AcceptImage();
      } else if key == "r" {
        RejectImage();
      } else if key == "w" {
      } else {
        status := "Key Error";
      }
    }

    /** A single-key command, with the files written first for `w`. */
    method SingleKey(disk: Disk, key: string)
      requires key != "q" && key != "g" && IndexOk(Value()) && main != []
      modifies this, disk
      ensures Value() == KeyCommand(old(Value()), key)
      ensures disk.files == if key == "w" then Save(old(disk.files), old(Value())) else old(disk.files)
    {
      if key == "w" {
        Write(disk);
      }
      ApplyKey(key);
    }

    /**
     * One turn of `rep_loop` while photos are left: clear the status, read
     * the key at `k` and act on it.  `stop` is the outcome when the loop
     * stops here; otherwise it goes on at `next` from the new state.
     */
    method Turn(disk: Disk, keys: seq<string>, k: nat) returns (next: nat, stop: Option<Outcome>)
      requires k <= |keys| && IndexOk(Value()) && main != []
      modifies this, disk
      ensures stop.Some? ==> Session(Value(), disk.files, stop.value) == Loop(old(Value()), keys, k, old(disk.files))
      ensures stop.None? ==> k < next <= |keys| && IndexOk(Value()) &&
                             Loop(Value(), keys, next, disk.files) == Loop(old(Value()), keys, k, old(disk.files))
    {
      ghost var before, files := Value(), disk.files;
      status := "";
      if k == |keys| {
        return k, Some(Waiting);
      }
      if keys[k] == "q" {
        Write(disk);
        return k, Some(Quit);
      }
      if keys[k] == "g" {
        next, stop := GotoTurn(keys, k, before, files);
      } else {
        KeyTurn(disk, keys, k, before, files);
        next, stop := k + 1, None;
      }
    }

    /** The `g` branch of a turn, after the status has been cleared. */
    method GotoTurn(keys: seq<string>, k: nat, ghost before: Review, ghost files: Files)
      returns (next: nat, stop: Option<Outcome>)
      requires k < |keys| && keys[k] == "g" && IndexOk(before) && before.main != []
      requires Value() == before.(status := "")
      modifies this
      ensures stop.Some? ==> stop.value == Waiting &&
                             Session(Value(), files, Waiting) == Loop(before, keys, k, files)
      ensures stop.None? ==> k < next <= |keys| && IndexOk(Value()) &&
                             Loop(Value(), keys, next, files) == Loop(before, keys, k, files)
    {
      var complete;
      next, complete := GotoImage(keys, k + 1);
      if !complete {
        LoopGotoWaits(before, keys, k, files);
        return next, Some(Waiting);
      }
      LoopGotoGoes(before, keys, k, files, Value(), next);
      stop := None;
    }

    /** Any other key of a turn, after the status has been cleared. */
    method KeyTurn(disk: Disk, keys: seq<string>, k: nat, ghost before: Review, ghost files: Files)
      requires k < |keys| && keys[k] != "q" && keys[k] != "g" && IndexOk(before) && before.main != []
      requires Value() == before.(status := "") && disk.files == files
      modifies this, disk
      ensures IndexOk(Value())
      ensures Loop(Value(), keys, k + 1, disk.files) == Loop(before, keys, k, files)
    {
      SingleKey(disk, keys[k]);
      LoopKey(before, keys, k, files);
    }

    /** `rep_loop` on the keys `keys`, with the files of `disk`. */
    method RepLoop(disk: Disk, keys: seq<string>) returns (outcome: Outcome)
      requires mainIndex >= 0
      modifies this, disk
      ensures Session(Value(), disk.files, outcome) == Run(old(Value()), keys, old(disk.files))
    {
      UpdateDisplay();
      var k := 0;
      while |main| > 0
        invariant k <= |keys| && IndexOk(Value())
        invariant Loop(Value(), keys, k, disk.files) == Run(old(Value()), keys, old(disk.files))
        decreases |keys| - k
      {
        var next, stop := Turn(disk, keys, k);
        if stop.Some? {
          return stop.value;
        }
        k := next;
      }
      Write(disk);
      return Emptied;
    }
  }

  /** `main`: read the list named on the command line, then run the loop on the keys. */
  method SelectPictures(disk: Disk, filename: string, keys: seq<string>) returns (outcome: Outcome)
    modifies disk
    ensures var s := Run(Load(old(disk.files), Initial, filename), keys, old(disk.files));
            disk.files == s.files && outcome == s.outcome
  {
    var images := new ImageFiles();
    images.Read(disk, filename);
    outcome := images.RepLoop(disk, keys);
  }
}
