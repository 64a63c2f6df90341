/**
 * `pic-xmp`: select photos by the darktable rating stored in their XMP
 * sidecars.  A rating specification such as `1-3,5` or `r` is read into a
 * set of wanted ratings; each sidecar's rating is the first `Rating`
 * attribute, or failing that the first `Rating` element text, that reads as
 * an integer; the photo of a sidecar is printed when its rating is wanted.
 */
module PicXmp {
  import opened Wrappers
  import opened PyText
  import opened Paths

  // ---------------------------------------------------------------------
  // The rating specification

  /** Why `parse_ratings` gives up (it prints the reason and exits with status 1). */
  datatype RatingError =
    | InvalidRange(part: string)   // "Invalid rating range: <part>"
    | InvalidValue(part: string)   // "Invalid rating value: <part>"
    | NoRatings                    // "No valid ratings provided."

  datatype Ratings = Wanted(ratings: set<int>) | Rejected(error: RatingError)

  /** Every integer from `lo` to `hi`, both included: `range(lo, hi + 1)`. */
  function Between(lo: int, hi: int): (r: set<int>)
    ensures forall x :: x in r <==> lo <= x <= hi
    decreases hi - lo
  {
    if lo > hi then {} else Between(lo, hi - 1) + {hi}
  }

  /**
   * The ratings one stripped, non-empty part stands for. A part with a dash
   * is a range split at its first dash, its ends read by `int()` and put in
   * order; otherwise `r` is -1 and anything else is read by `int()`.
   */
  function PartRatings(part: string): Ratings {
    if '-' in part then
      var k := Find(part, '-');
      SpanRatings(part, part[..k], part[k + 1..])
    else if part == "r" then Wanted({-1})
    else
      var v := ParseInt(part);
      if v.None? then Rejected(InvalidValue(part)) else Wanted({v.value})
  }

  /** The range `before-after` of the part `part`: both ends read by `int()`, then put in order. */
  function SpanRatings(part: string, before: string, after: string): Ratings {
    var start, end := ParseInt(Strip(before)), ParseInt(Strip(after));
    if start.None? || end.None? then Rejected(InvalidRange(part))
    else if start.value > end.value then Wanted(Between(end.value, start.value))
    else Wanted(Between(start.value, end.value))
  }

  /** What one comma-separated piece contributes: nothing when it is blank. */
  function PieceRatings(piece: string): Ratings {
    if Strip(piece) == [] then Wanted({}) else PartRatings(Strip(piece))
  }

  /** The contribution of every piece, in order. */
  function PieceResults(pieces: seq<string>): (rs: seq<Ratings>)
    ensures |rs| == |pieces|
  {
    if pieces == [] then [] else [PieceRatings(pieces[0])] + PieceResults(pieces[1..])
  }

  /** The `k`-th contribution is that of the `k`-th piece. */
  lemma {:induction false} PieceResultAt(pieces: seq<string>, k: nat)
    requires k < |pieces|
    ensures PieceResults(pieces)[k] == PieceRatings(pieces[k])
  {
    if k > 0 {
      PieceResultAt(pieces[1..], k - 1);
    }
  }

  /** The ratings of all accepted contributions together. */
  function UnionOf(rs: seq<Ratings>): set<int> {
    if rs == [] then {}
    else UnionOf(rs[..|rs| - 1]) + (if rs[|rs| - 1].Wanted? then rs[|rs| - 1].ratings else {})
  }

  /** The index of the first rejected contribution, or the number of contributions. */
  function FirstBad(rs: seq<Ratings>): (i: nat)
    ensures i <= |rs|
    ensures forall j :: 0 <= j < i ==> rs[j].Wanted?
    ensures i < |rs| ==> rs[i].Rejected?
  {
    if rs == [] then 0
    else if rs[0].Rejected? then 0
    else 1 + FirstBad(rs[1..])
  }

  /** The outcome of a run of contributions: the first rejection, else an error when nothing is wanted, else the union. */
  function Outcome(rs: seq<Ratings>): (r: Ratings)
    ensures r.Wanted? ==> r.ratings != {}
  {
    var i := FirstBad(rs);
    if i < |rs| then rs[i]
    else if UnionOf(rs) == {} then Rejected(NoRatings)
    else Wanted(UnionOf(rs))
  }

  /**
   * What `parse_ratings(spec)` returns: the error of the first bad piece, or
   * an error when no rating is asked for at all, or the ratings of all
   * pieces together.
   */
  function RatingsOf(spec: string): (r: Ratings)
    ensures r.Wanted? ==> r.ratings != {}
  {
    Outcome(PieceResults(Split(spec, ',')))
  }

  /** `for r in range(lo, hi + 1): ratings.add(r)`. */
  method AddRange(ratings: set<int>, lo: int, hi: int) returns (r: set<int>)
    requires lo <= hi
    ensures r == ratings + Between(lo, hi)
  {
    r := ratings;
    var x := lo;
    while x <= hi
      invariant lo <= x <= hi + 1
      invariant r == ratings + Between(lo, x - 1)
    {
      r := r + {x};
      x := x + 1;
    }
  }

  /** The loop of `parse_ratings` on one stripped piece: the new set, or the error it exits with. */
  method AddPart(ratings: set<int>, part: string) returns (r: Ratings)
    requires part != []
    ensures PartRatings(part).Wanted? ==> r == Wanted(ratings + PartRatings(part).ratings)
    ensures PartRatings(part).Rejected? ==> r == PartRatings(part)
  {
    if '-' in part {
      r := AddRangePart(ratings, part);
    } else {
      r := AddValuePart(ratings, part);
    }
  }

  /** A piece with a dash: both ends must read as integers, and every integer between them is added. */
  method AddRangePart(ratings: set<int>, part: string) returns (r: Ratings)
    requires '-' in part
    ensures PartRatings(part).Wanted? ==> r == Wanted(ratings + PartRatings(part).ratings)
    ensures PartRatings(part).Rejected? ==> r == PartRatings(part)
  {
    var k := Find(part, '-');
    var before, after := part[..k], part[k + 1..];
    assert PartRatings(part) == SpanRatings(part, before, after);
    var start, end := ParseInt(Strip(before)), ParseInt(Strip(after));
    if start.None? || end.None? {
      return Rejected(InvalidRange(part));
    }
    var lo, hi := start.value, end.value;
    if lo > hi {
      lo, hi := hi, lo;
    }
    var s := AddRange(ratings, lo, hi);
    return Wanted(s);
  }

  /** A piece without a dash: `r`, or a single integer. */
  method AddValuePart(ratings: set<int>, part: string) returns (r: Ratings)
    requires '-' !in part
    ensures PartRatings(part).Wanted? ==> r == Wanted(ratings + PartRatings(part).ratings)
    ensures PartRatings(part).Rejected? ==> r == PartRatings(part)
  {
    if part == "r" {
      return Wanted(ratings + {-1});
    }
    var v := ParseInt(part);
    if v.None? {
      return Rejected(InvalidValue(part));
    }
    return Wanted(ratings + {v.value});
  }

  /**
   * Pass `i` of the loop of `parse_ratings` over `pieces`: strip the piece,
   * skip it when blank, else add its part.
   */
  method AddPiece(ratings: set<int>, pieces: seq<string>, i: nat) returns (r: Ratings)
    requires i < |pieces|
    ensures PieceResults(pieces)[i].Wanted? ==> r == Wanted(ratings + PieceResults(pieces)[i].ratings)
    ensures PieceResults(pieces)[i].Rejected? ==> r == PieceResults(pieces)[i]
  {
    PieceResultAt(pieces, i);
    var part := Strip(pieces[i]);
    if part == [] {
      return Wanted(ratings);
    }
    r := AddPart(ratings, part);
  }

  lemma UnionStep(rs: seq<Ratings>, i: nat)
    requires i < |rs|
    ensures UnionOf(rs[..i + 1]) == UnionOf(rs[..i]) + (if rs[i].Wanted? then rs[i].ratings else {})
  {
    assert rs[..i + 1][..i] == rs[..i];
  }

  /** `parse_ratings(spec)`, which builds the set piece by piece and stops at the first bad one. */
  method ParseRatings(spec: string) returns (r: Ratings)
    ensures r == RatingsOf(spec)
  {
    var pieces := Split(spec, ',');
    ghost var rs := PieceResults(pieces);
    var ratings: set<int> := {};
    var i := 0;
    while i < |pieces|
      invariant 0 <= i <= |pieces|
      invariant forall j :: 0 <= j < i ==> rs[j].Wanted?
      invariant ratings == UnionOf(rs[..i])
    {
      var next := AddPiece(ratings, pieces, i);
      if next.Rejected? {
        OutcomeAtBad(rs, i);
        return next;
      }
      GoodStep(rs, i, ratings, next);
      ratings := next.ratings;
      i := i + 1;
    }
    assert rs[..i] == rs;
    OutcomeAllGood(rs);
    if ratings == {} {
      r := Rejected(NoRatings);
    } else {
      r := Wanted(ratings);
    }
  }

  /** A pass that adds a contribution keeps every contribution so far accepted and the set their union. */
  lemma GoodStep(rs: seq<Ratings>, i: nat, ratings: set<int>, next: Ratings)
    requires i < |rs| && next.Wanted?
    requires forall j :: 0 <= j < i ==> rs[j].Wanted?
    requires ratings == UnionOf(rs[..i])
    requires rs[i].Wanted? ==> next == Wanted(ratings + rs[i].ratings)
    requires rs[i].Rejected? ==> next == rs[i]
    ensures forall j :: 0 <= j < i + 1 ==> rs[j].Wanted?
    ensures next.ratings == UnionOf(rs[..i + 1])
  {
    UnionStep(rs, i);
  }

  /** The outcome is the first rejected contribution. */
  lemma OutcomeAtBad(rs: seq<Ratings>, i: nat)
    requires i < |rs| && rs[i].Rejected?
    requires forall j :: 0 <= j < i ==> rs[j].Wanted?
    ensures Outcome(rs) == rs[i]
  {
    var b := FirstBad(rs);
    if b < i { assert false; } else if b > i { assert false; }
  }

  /** Without a rejected contribution, the outcome is the union, unless that is empty. */
  lemma OutcomeAllGood(rs: seq<Ratings>)
    requires forall j :: 0 <= j < |rs| ==> rs[j].Wanted?
    ensures Outcome(rs) == if UnionOf(rs) == {} then Rejected(NoRatings) else Wanted(UnionOf(rs))
  {
    assert FirstBad(rs) == |rs|;
  }

  // ---------------------------------------------------------------------
  // Properties of the specification

  /** The parts of a range: the text before its first dash and the text after it. */
  lemma RangeParts(part: string, before: string, after: string)
    requires part == before + "-" + after && '-' !in before
    ensures '-' in part && Find(part, '-') == |before|
    ensures part[..|before|] == before && part[|before| + 1..] == after
  {
    assert forall j :: 0 <= j < |before| ==> part[j] == before[j];
    assert part[|before|] == '-';
  }

  /** A range whose two ends read as integers stands for every integer between them, in either order. */
  lemma RangeRatings(part: string, before: string, after: string, a: int, b: int)
    requires part == before + "-" + after && '-' !in before
    requires ParseInt(before) == Some(a) && ParseInt(after) == Some(b)
    ensures PartRatings(part) == Wanted(if a <= b then Between(a, b) else Between(b, a))
  {
    RangeParts(part, before, after);
    ParseIntOfStrip(before);
    ParseIntOfStrip(after);
  }

  /** `a-b` and `b-a` stand for the same ratings: `3-1` is `1-3`. */
  lemma RangeReversed(a: nat, b: nat)
    ensures PartRatings(NatToString(a) + "-" + NatToString(b)) == PartRatings(NatToString(b) + "-" + NatToString(a))
    ensures PartRatings(NatToString(a) + "-" + NatToString(b)) ==
              Wanted(if a <= b then Between(a, b) else Between(b, a))
  {
    ParseIntOfNatToString(a);
    ParseIntOfNatToString(b);
    RangeRatings(NatToString(a) + "-" + NatToString(b), NatToString(a), NatToString(b), a, b);
    RangeRatings(NatToString(b) + "-" + NatToString(a), NatToString(b), NatToString(a), b, a);
  }

  /** A specification without a comma is one piece. */
  lemma OnePiece(spec: string)
    requires ',' !in spec
    ensures PieceResults(Split(spec, ',')) == [PieceRatings(spec)]
  {
    assert Find(spec, ',') == |spec|;
  }

  /** The outcome of a single contribution. */
  lemma OutcomeOfOne(x: Ratings)
    ensures Outcome([x]) == if x.Rejected? then x else if x.ratings == {} then Rejected(NoRatings) else x
  {
    assert UnionOf([x]) == UnionOf([]) + (if x.Wanted? then x.ratings else {});
  }

  /** A specification without commas or surrounding blanks is one part. */
  lemma OnePart(spec: string)
    requires spec != [] && ',' !in spec && forall i :: 0 <= i < |spec| ==> !IsSpace(spec[i])
    ensures RatingsOf(spec) == Outcome([PartRatings(spec)])
  {
    OnePiece(spec);
    StripNoSpace(spec);
  }

  /** A part that starts with a dash is a range with an empty start, which is rejected. */
  lemma DashFirstRejected(part: string)
    requires part != [] && part[0] == '-'
    ensures PartRatings(part) == Rejected(InvalidRange(part))
  {
    assert Find(part, '-') == 0;
    assert part[..0] == [];
    assert Strip([]) == [];
  }

  /** A lone negative value such as `-1` is read as a range and rejected. */
  lemma NegativeValueRejected(c: int)
    requires c < 0
    ensures RatingsOf(IntToString(c)) == Rejected(InvalidRange(IntToString(c)))
  {
    var spec := IntToString(c);
    var ds := NatToString(-c);
    assert spec == "-" + ds;
    assert forall i :: 0 <= i < |spec| ==> !IsSpace(spec[i]) && spec[i] != ',' by {
      forall i | 0 <= i < |spec|
        ensures !IsSpace(spec[i]) && spec[i] != ','
      {
        if i > 0 { assert spec[i] == ds[i - 1]; }
      }
    }
    OnePart(spec);
    DashFirstRejected(spec);
    OutcomeOfOne(Rejected(InvalidRange(spec)));
  }

  /** `r` asks for the removed photos, rated -1. */
  lemma RemovedRating()
    ensures RatingsOf("r") == Wanted({-1})
  {
    OnePart("r");
    assert PartRatings("r") == Wanted({-1});
    OutcomeOfOne(Wanted({-1}));
  }

  /** A range may still end at a negative value: `0--1` asks for 0 and -1. */
  lemma RangeToNegative(a: nat, c: int, before: string, after: string)
    requires c < 0 && before == NatToString(a) && after == IntToString(c)
    ensures PartRatings(before + "-" + after) == Wanted(Between(c, a))
  {
    assert '-' !in before by {
      assert forall i :: 0 <= i < |before| ==> IsDigit(before[i]);
    }
    ParseIntOfNatToString(a);
    ParseIntOfNegated(-c, after);
    RangeRatings(before + "-" + after, before, after, a, c);
  }

  /**
   * Negative ratings come only from `r` or from a range whose end carries a
   * second dash: a single value and the start of a range have no minus sign.
   */
  lemma NegativeRatings(part: string, x: int)
    requires PartRatings(part).Wanted? && x in PartRatings(part).ratings && x < 0
    ensures part == "r" || ('-' in part && '-' in part[Find(part, '-') + 1..])
  {
    if '-' in part {
      var k := Find(part, '-');
      SpanNegative(part, part[..k], part[k + 1..], x);
    } else if part != "r" {
      assert PartRatings(part) == Wanted({ParseInt(part).value});
      ParseIntNoMinus(part);
    }
  }

  /** A range holding a negative rating has a minus sign after its dash, as its start has none. */
  lemma SpanNegative(part: string, before: string, after: string, x: int)
    requires '-' !in before
    requires SpanRatings(part, before, after).Wanted? && x in SpanRatings(part, before, after).ratings && x < 0
    ensures '-' in after
  {
    var a, b := ParseInt(Strip(before)).value, ParseInt(Strip(after)).value;
    assert a <= x || b <= x;
    StrippedNoMinus(before);
    if '-' !in after {
      StrippedNoMinus(after);
    }
  }

  /** A piece without a minus sign, stripped, reads as no negative number. */
  lemma StrippedNoMinus(s: string)
    requires '-' !in s && ParseInt(Strip(s)).Some?
    ensures ParseInt(Strip(s)).value >= 0
  {
    ParseIntOfStrip(s);
    ParseIntNoMinus(s);
  }

  /** The union holds exactly the ratings each accepted contribution names. */
  lemma {:induction false} UnionMembers(rs: seq<Ratings>, x: int)
    ensures x in UnionOf(rs) <==> exists j :: 0 <= j < |rs| && rs[j].Wanted? && x in rs[j].ratings
    decreases |rs|
  {
    if rs != [] {
      var init := rs[..|rs| - 1];
      UnionMembers(init, x);
      if exists j :: 0 <= j < |init| && init[j].Wanted? && x in init[j].ratings {
        var j :| 0 <= j < |init| && init[j].Wanted? && x in init[j].ratings;
        assert rs[j] == init[j];
      }
      if exists j :: 0 <= j < |rs| && rs[j].Wanted? && x in rs[j].ratings {
        var j :| 0 <= j < |rs| && rs[j].Wanted? && x in rs[j].ratings;
        if j < |init| { assert init[j] == rs[j]; }
      }
    }
  }

  /**
   * The specification is accepted exactly when no piece is bad and at least
   * one rating is asked for; the wanted set then holds exactly the ratings
   * the pieces name.
   */
  lemma RatingsAccepted(spec: string, x: int)
    ensures var rs := PieceResults(Split(spec, ','));
            RatingsOf(spec).Wanted? <==> (forall j :: 0 <= j < |rs| ==> rs[j].Wanted?) && UnionOf(rs) != {}
    ensures var rs := PieceResults(Split(spec, ','));
            RatingsOf(spec).Wanted? ==>
              (x in RatingsOf(spec).ratings <==> exists j :: 0 <= j < |rs| && rs[j].Wanted? && x in rs[j].ratings)
  {
    var rs := PieceResults(Split(spec, ','));
    UnionMembers(rs, x);
  }

  /**
   * A rejected specification reports the first bad piece, after only good
   * ones; `rs` are the contributions of the pieces in order.
   */
  lemma RatingsRejected(spec: string, rs: seq<Ratings>)
    requires rs == PieceResults(Split(spec, ','))
    requires RatingsOf(spec).Rejected? && RatingsOf(spec).error != NoRatings
    ensures exists i :: 0 <= i < |rs| && RatingsOf(spec) == rs[i] && forall j :: 0 <= j < i ==> rs[j].Wanted?
  {
    assert RatingsOf(spec) == Outcome(rs);
    OutcomeRejected(rs);
  }

  lemma OutcomeRejected(rs: seq<Ratings>)
    requires Outcome(rs).Rejected? && Outcome(rs).error != NoRatings
    ensures exists i :: 0 <= i < |rs| && Outcome(rs) == rs[i] && forall j :: 0 <= j < i ==> rs[j].Wanted?
  {
    assert FirstBad(rs) < |rs|;
  }

  /** `(s + sep).split(sep)` ends in an empty piece after the pieces of `s`. */
  lemma {:induction false} SplitTrailing(s: string, sep: char)
    ensures Split(s + [sep], sep) == Split(s, sep) + [[]]
    decreases |s|
  {
    if sep in s {
      var head, tail := SplitCons(s, sep);
      assert s + [sep] == head + [sep] + (tail + [sep]);
      SplitPrefix(head, tail + [sep], sep);
      SplitTrailing(tail, sep);
      assert [head] + (Split(tail, sep) + [[]]) == ([head] + Split(tail, sep)) + [[]];
    } else {
      assert s + [sep] == s + [sep] + [];
      SplitPrefix(s, [], sep);
      assert Split([], sep) == [[]];
    }
  }

  /** An empty contribution at the end changes nothing. */
  lemma OutcomeOfEmptyAppended(rs: seq<Ratings>)
    ensures Outcome(rs + [Wanted({})]) == Outcome(rs)
  {
    var rs' := rs + [Wanted({})];
    assert rs'[..|rs|] == rs;
    assert UnionOf(rs') == UnionOf(rs);
    var i := FirstBad(rs);
    if i < |rs| {
      assert rs'[i] == rs[i];
      assert FirstBad(rs') == i by {
        FirstBadAppend(rs, [Wanted({})]);
      }
    } else {
      assert FirstBad(rs') == |rs'| by {
        FirstBadAppend(rs, [Wanted({})]);
      }
    }
  }

  lemma FirstBadAppend(rs: seq<Ratings>, more: seq<Ratings>)
    ensures FirstBad(rs + more) == if FirstBad(rs) < |rs| then FirstBad(rs) else |rs| + FirstBad(more)
  {
    if rs != [] {
      assert (rs + more)[0] == rs[0] && (rs + more)[1..] == rs[1..] + more;
      FirstBadAppend(rs[1..], more);
    } else {
      assert rs + more == more;
    }
  }

  lemma PieceResultsAppend(pieces: seq<string>, piece: string)
    ensures PieceResults(pieces + [piece]) == PieceResults(pieces) + [PieceRatings(piece)]
  {
    var l, r := PieceResults(pieces + [piece]), PieceResults(pieces) + [PieceRatings(piece)];
    assert |l| == |r|;
    forall k | 0 <= k < |l|
      ensures l[k] == r[k]
    {
      PieceResultAt(pieces + [piece], k);
      if k < |pieces| { PieceResultAt(pieces, k); }
    }
  }

  /** A trailing comma adds a blank piece, which is ignored. */
  lemma TrailingCommaIgnored(spec: string)
    ensures RatingsOf(spec + ",") == RatingsOf(spec)
  {
    var pieces := Split(spec, ',');
    SplitTrailing(spec, ',');
    assert Split(spec + ",", ',') == pieces + [""];
    PieceResultsAppend(pieces, "");
    assert Strip("") == [];
    assert PieceRatings("") == Wanted({});
    OutcomeOfEmptyAppended(PieceResults(pieces));
  }

  // ---------------------------------------------------------------------
  // The rating of a sidecar

  /** An XML element as `xml.etree.ElementTree` holds it; attributes in document order. */
  datatype Element = Element(tag: string, attrib: seq<(string, string)>, text: Option<string>, children: seq<Element>)

  /** `element.iter()`: the element and its descendants in document order. */
  function Iter(e: Element): (r: seq<Element>)
    ensures |r| >= 1 && r[0] == e
    decreases e, 1
  {
    [e] + IterAll(e.children)
  }

  function IterAll(es: seq<Element>): seq<Element>
    decreases es, 0
  {
    if es == [] then [] else Iter(es[0]) + IterAll(es[1..])
  }

  /** A key or tag naming the rating: `Rating`, `xmp:Rating`, or ending in `}Rating` or `:Rating`. */
  predicate IsRatingKey(k: string) {
    EndsWith(k, "}Rating") || EndsWith(k, ":Rating") || k == "xmp:Rating" || k == "Rating"
  }

  /** `xmp:Rating` is already covered by the `:Rating` ending. */
  lemma RatingKeyEndings(k: string)
    ensures IsRatingKey(k) <==> k == "Rating" || EndsWith(k, "}Rating") || EndsWith(k, ":Rating")
  {
    if k == "xmp:Rating" {
      assert k[|k| - |":Rating"|..] == ":Rating";
    }
  }

  /** The integer an attribute gives, when it is a rating attribute whose value reads as one. */
  function AttrReading(key: string, value: string): seq<int> {
    if IsRatingKey(key) && ParseInt(value).Some? then [ParseInt(value).value] else []
  }

  /** The integers read from the rating attributes of `attrib`, in order; unreadable ones are skipped. */
  function AttribRatings(attrib: seq<(string, string)>): seq<int> {
    if attrib == [] then [] else AttrReading(attrib[0].0, attrib[0].1) + AttribRatings(attrib[1..])
  }

  /** The integers read from the rating attributes of all `elems`, in order. */
  function AttrCandidates(elems: seq<Element>): seq<int> {
    if elems == [] then [] else AttribRatings(elems[0].attrib) + AttrCandidates(elems[1..])
  }

  /** The integer a rating element's text holds, when it is not blank and reads as one. */
  function TextRating(e: Element): Option<int> {
    if IsRatingKey(e.tag) && e.text.Some? && e.text.value != [] && Strip(e.text.value) != [] then
      ParseInt(Strip(e.text.value))
    else None
  }

  /** The integers read from the texts of rating elements among `elems`, in order. */
  function TextCandidates(elems: seq<Element>): seq<int> {
    if elems == [] then []
    else (if TextRating(elems[0]).Some? then [TextRating(elems[0]).value] else []) + TextCandidates(elems[1..])
  }

  /** The first of `xs`, if any. */
  function First(xs: seq<int>): (r: Option<int>)
    ensures r.Some? <==> xs != []
    ensures r.Some? ==> r.value == xs[0]
  {
    if xs == [] then None else Some(xs[0])
  }

  lemma FirstAppend(xs: seq<int>, ys: seq<int>)
    ensures First(xs + ys) == if xs != [] then First(xs) else First(ys)
  {
    if xs == [] { assert xs + ys == ys; }
  }

  /**
   * `get_rating_from_xmp`: `None` when the file does not parse (`doc` is
   * `None`); otherwise the first readable rating attribute, else the first
   * readable rating text, else `None`.
   */
  function XmpRating(doc: Option<Element>): (r: Option<int>)
    ensures doc.Some? && AttrCandidates(Iter(doc.value)) != [] ==> r == Some(AttrCandidates(Iter(doc.value))[0])
  {
    if doc.None? then None else First(AttrCandidates(Iter(doc.value)) + TextCandidates(Iter(doc.value)))
  }

  lemma AttrCandidatesStep(elems: seq<Element>, i: nat)
    requires i < |elems|
    ensures AttrCandidates(elems[i..]) == AttribRatings(elems[i].attrib) + AttrCandidates(elems[i + 1..])
  {
    assert elems[i..][0] == elems[i] && elems[i..][1..] == elems[i + 1..];
  }

  lemma TextCandidatesStep(elems: seq<Element>, i: nat)
    requires i < |elems|
    ensures TextCandidates(elems[i..]) ==
              (if TextRating(elems[i]).Some? then [TextRating(elems[i]).value] else []) + TextCandidates(elems[i + 1..])
  {
    assert elems[i..][0] == elems[i] && elems[i..][1..] == elems[i + 1..];
  }

  lemma AttribRatingsStep(attrib: seq<(string, string)>, j: nat)
    requires j < |attrib|
    ensures AttribRatings(attrib[j..]) == AttrReading(attrib[j].0, attrib[j].1) + AttribRatings(attrib[j + 1..])
  {
    assert attrib[j..][0] == attrib[j] && attrib[j..][1..] == attrib[j + 1..];
  }

  /** The inner loop of the attribute search: the first readable rating attribute of one element. */
  method SearchAttrib(attrib: seq<(string, string)>) returns (r: Option<int>)
    ensures r == First(AttribRatings(attrib))
  {
    var j := 0;
    while j < |attrib|
      invariant 0 <= j <= |attrib|
      invariant First(AttribRatings(attrib)) == First(AttribRatings(attrib[j..]))
    {
      AttribRatingsStep(attrib, j);
      FirstAppend(AttrReading(attrib[j].0, attrib[j].1), AttribRatings(attrib[j + 1..]));
      var key, value := attrib[j].0, attrib[j].1;
      if IsRatingKey(key) {
        var v := ParseInt(value);
        if v.Some? {
          return v;
        }
      }
      j := j + 1;
    }
    assert attrib[j..] == [];
    return None;
  }

  /** The first loop of `get_rating_from_xmp`: rating attributes, element by element. */
  method SearchAttributes(elems: seq<Element>) returns (r: Option<int>)
    ensures r == First(AttrCandidates(elems))
  {
    var i := 0;
    while i < |elems|
      invariant 0 <= i <= |elems|
      invariant First(AttrCandidates(elems)) == First(AttrCandidates(elems[i..]))
    {
      AttrCandidatesStep(elems, i);
      FirstAppend(AttribRatings(elems[i].attrib), AttrCandidates(elems[i + 1..]));
      r := SearchAttrib(elems[i].attrib);
      if r.Some? {
        return;
      }
      i := i + 1;
    }
    return None;
  }

  /** The second loop of `get_rating_from_xmp`: rating element texts. */
  method SearchTexts(elems: seq<Element>) returns (r: Option<int>)
    ensures r == First(TextCandidates(elems))
  {
    var i := 0;
    while i < |elems|
      invariant 0 <= i <= |elems|
      invariant First(TextCandidates(elems)) == First(TextCandidates(elems[i..]))
    {
      TextCandidatesStep(elems, i);
      FirstAppend(if TextRating(elems[i]).Some? then [TextRating(elems[i]).value] else [], TextCandidates(elems[i + 1..]));
      var e := elems[i];
      if IsRatingKey(e.tag) && e.text.Some? && e.text.value != [] {
        var text := Strip(e.text.value);
        if text != [] {
          var v := ParseInt(text);
          if v.Some? {
            return v;
          }
        }
      }
      i := i + 1;
    }
    return None;
  }

  /** `get_rating_from_xmp`, with its two searches over the tree and their early returns. */
  method RatingFromXmp(doc: Option<Element>) returns (r: Option<int>)
    ensures r == XmpRating(doc)
  {
    if doc.None? {
      return None;
    }
    var elems := Iter(doc.value);
    FirstAppend(AttrCandidates(elems), TextCandidates(elems));
    r := SearchAttributes(elems);
    if r.Some? {
      return;
    }
    r := SearchTexts(elems);
  }

  /** A readable rating attribute anywhere in the document wins over every rating text. */
  lemma AttributesFirst(doc: Element, i: nat, j: nat)
    requires i < |Iter(doc)| && j < |Iter(doc)[i].attrib|
    requires AttrReading(Iter(doc)[i].attrib[j].0, Iter(doc)[i].attrib[j].1) != []
    ensures XmpRating(Some(doc)).Some?
    ensures XmpRating(Some(doc)).value in AttrCandidates(Iter(doc))
  {
    AttrCandidatesHas(Iter(doc), i, j);
  }

  lemma {:induction false} AttrCandidatesHas(elems: seq<Element>, i: nat, j: nat)
    requires i < |elems| && j < |elems[i].attrib|
    requires AttrReading(elems[i].attrib[j].0, elems[i].attrib[j].1) != []
    ensures AttrReading(elems[i].attrib[j].0, elems[i].attrib[j].1)[0] in AttrCandidates(elems)
    decreases i
  {
    var rest := elems[1..];
    assert AttrCandidates(elems) == AttribRatings(elems[0].attrib) + AttrCandidates(rest);
    if i == 0 {
      AttribRatingsHas(elems[0].attrib, j);
    } else {
      assert rest[i - 1] == elems[i];
      AttrCandidatesHas(rest, i - 1, j);
    }
  }

  lemma {:induction false} AttribRatingsHas(attrib: seq<(string, string)>, j: nat)
    requires j < |attrib| && AttrReading(attrib[j].0, attrib[j].1) != []
    ensures AttrReading(attrib[j].0, attrib[j].1)[0] in AttribRatings(attrib)
    decreases j
  {
    var rest := attrib[1..];
    assert AttribRatings(attrib) == AttrReading(attrib[0].0, attrib[0].1) + AttribRatings(rest);
    if j > 0 {
      assert rest[j - 1] == attrib[j];
      AttribRatingsHas(rest, j - 1);
    }
  }

  /** Without rating attributes, the first readable rating text decides. */
  lemma TextWhenNoAttributes(doc: Element)
    requires AttrCandidates(Iter(doc)) == []
    ensures XmpRating(Some(doc)) == (if TextCandidates(Iter(doc)) == [] then None else Some(TextCandidates(Iter(doc))[0]))
  {
  }

  // ---------------------------------------------------------------------
  // Choosing the photos

  /** A sidecar found by `glob("*.xmp")` and what `ET.parse` makes of it. */
  datatype Sidecar = Sidecar(path: Path, doc: Option<Element>)

  predicate Globbed(s: Sidecar) {
    IsName(s.path.name) && EndsWith(s.path.name, ".xmp")
  }

  /** `xmp_path.with_suffix("")`: the photo the sidecar describes. */
  function PhotoOf(s: Sidecar): (p: Path)
    requires Globbed(s)
    ensures p.parent == s.path.parent && p.name == Stem(s.path.name)
  {
    StripSuffix(s.path)
  }

  /**
   * The test in the loop of `main`: the photo name matches the pattern (when
   * one is given), the sidecar has a rating, and the rating is wanted.
   */
  predicate Chosen(s: Sidecar, wanted: set<int>, pattern: Option<string -> bool>)
    requires Globbed(s)
  {
    && (pattern.None? || pattern.value(PhotoOf(s).name))
    && XmpRating(s.doc).Some?
    && XmpRating(s.doc).value in wanted
  }

  /** The lines `main` prints: the chosen photos, in the order the sidecars come. */
  function Selection(sidecars: seq<Sidecar>, wanted: set<int>, pattern: Option<string -> bool>): seq<string>
    requires forall k :: 0 <= k < |sidecars| ==> Globbed(sidecars[k])
  {
    if sidecars == [] then []
    else
      var rest := Selection(sidecars[1..], wanted, pattern);
      if Chosen(sidecars[0], wanted, pattern) then [PathString(PhotoOf(sidecars[0]))] + rest else rest
  }

  /** Each printed line is the photo of a chosen sidecar, and each chosen sidecar's photo is printed. */
  lemma SelectionMembers(sidecars: seq<Sidecar>, wanted: set<int>, pattern: Option<string -> bool>, line: string)
    requires forall k :: 0 <= k < |sidecars| ==> Globbed(sidecars[k])
    ensures line in Selection(sidecars, wanted, pattern) <==>
              exists k :: 0 <= k < |sidecars| && Chosen(sidecars[k], wanted, pattern) && line == PathString(PhotoOf(sidecars[k]))
  {
    if line in Selection(sidecars, wanted, pattern) {
      var k := SelectionSource(sidecars, wanted, pattern, line);
    }
    if exists k :: 0 <= k < |sidecars| && Chosen(sidecars[k], wanted, pattern) && line == PathString(PhotoOf(sidecars[k])) {
      var k :| 0 <= k < |sidecars| && Chosen(sidecars[k], wanted, pattern) && line == PathString(PhotoOf(sidecars[k]));
      SelectionHas(sidecars, wanted, pattern, k);
    }
  }

  /** A printed line comes from a chosen sidecar: the index `k` of the first such one. */
  lemma {:induction false} SelectionSource(sidecars: seq<Sidecar>, wanted: set<int>, pattern: Option<string -> bool>, line: string)
    returns (k: nat)
    requires forall k :: 0 <= k < |sidecars| ==> Globbed(sidecars[k])
    requires line in Selection(sidecars, wanted, pattern)
    ensures k < |sidecars| && Chosen(sidecars[k], wanted, pattern) && line == PathString(PhotoOf(sidecars[k]))
    decreases |sidecars|
  {
    var rest := sidecars[1..];
    if Chosen(sidecars[0], wanted, pattern) && line == PathString(PhotoOf(sidecars[0])) {
      k := 0;
    } else {
      assert line in Selection(rest, wanted, pattern);
      var k' := SelectionSource(rest, wanted, pattern, line);
      assert rest[k'] == sidecars[k' + 1];
      k := k' + 1;
    }
  }

  /** The photo of every chosen sidecar is printed. */
  lemma {:induction false} SelectionHas(sidecars: seq<Sidecar>, wanted: set<int>, pattern: Option<string -> bool>, k: nat)
    requires forall k :: 0 <= k < |sidecars| ==> Globbed(sidecars[k])
    requires k < |sidecars| && Chosen(sidecars[k], wanted, pattern)
    ensures PathString(PhotoOf(sidecars[k])) in Selection(sidecars, wanted, pattern)
    decreases k
  {
    if k > 0 {
      var rest := sidecars[1..];
      assert rest[k - 1] == sidecars[k];
      SelectionHas(rest, wanted, pattern, k - 1);
    }
  }

  /** The selection of one more sidecar: the photo of the last one, if chosen, comes last. */
  lemma {:induction false} SelectionSnoc(sidecars: seq<Sidecar>, s: Sidecar, wanted: set<int>, pattern: Option<string -> bool>)
    requires forall k :: 0 <= k < |sidecars| ==> Globbed(sidecars[k])
    requires Globbed(s)
    ensures forall k :: 0 <= k < |sidecars + [s]| ==> Globbed((sidecars + [s])[k])
    ensures Selection(sidecars + [s], wanted, pattern)
            == Selection(sidecars, wanted, pattern) + (if Chosen(s, wanted, pattern) then [PathString(PhotoOf(s))] else [])
    decreases |sidecars|
  {
    var all := sidecars + [s];
    assert forall k :: 0 <= k < |all| ==> all[k] == if k < |sidecars| then sidecars[k] else s;
    if sidecars != [] {
      assert all[0] == sidecars[0] && all[1..] == sidecars[1..] + [s];
      SelectionSnoc(sidecars[1..], s, wanted, pattern);
    }
  }

  /** The loop of `main` over the sidecars, printing each chosen photo. */
  method SelectPhotos(sidecars: seq<Sidecar>, wanted: set<int>, pattern: Option<string -> bool>) returns (out: seq<string>)
    requires forall k :: 0 <= k < |sidecars| ==> Globbed(sidecars[k])
    ensures out == Selection(sidecars, wanted, pattern)
  {
    out := [];
    for i := 0 to |sidecars|
      invariant out == Selection(sidecars[..i], wanted, pattern)
    {
      var s := sidecars[i];
      assert sidecars[..i + 1] == sidecars[..i] + [s];
      SelectionSnoc(sidecars[..i], s, wanted, pattern);
      var photo := PhotoOf(s);
      if pattern.None? || pattern.value(photo.name) {
        var rating := RatingFromXmp(s.doc);
        if rating.Some? && rating.value in wanted {
          out := out + [PathString(photo)];
          continue;
        }
      }
      assert !Chosen(s, wanted, pattern);
    }
    assert sidecars[..|sidecars|] == sidecars;
  }

  /** The outcome of `main`: the lines printed, or the error it exits with. */
  datatype Run = Printed(lines: seq<string>) | Failed(error: RatingError)

  /** The body of `main`: read the specification, then choose the photos. */
  method RunSelection(spec: string, sidecars: seq<Sidecar>, pattern: Option<string -> bool>) returns (r: Run)
    requires forall k :: 0 <= k < |sidecars| ==> Globbed(sidecars[k])
    ensures RatingsOf(spec).Rejected? ==> r == Failed(RatingsOf(spec).error)
    ensures RatingsOf(spec).Wanted? ==> r == Printed(Selection(sidecars, RatingsOf(spec).ratings, pattern))
  {
    var wanted := ParseRatings(spec);
    if wanted.Rejected? {
      return Failed(wanted.error);
    }
    var lines := SelectPhotos(sidecars, wanted.ratings, pattern);
    return Printed(lines);
  }
}
