/**
 * `pic_mod`: rotate photos named `<date>-<time>-<seq>.jpg` in place, keeping
 * a `.jpg.orig` backup, and shift the date-time written in such names by a
 * whole number of seconds, renaming every variant of a photo (the files the
 * shell pattern `<date>-<time>-<seq>.*` finds).  The disk and the commands
 * issued are those of `Shell`; what `glob` returns for each file name is an
 * input.
 */
module PicMod {
  import opened Wrappers
  import opened PyText
  import opened Calendar
  import opened Paths
  import opened Shell

  // ---------------------------------------------------------------------
  // The two regular expressions

  /** The two fields `^[^-]+-[^-]+` matches, and the text after the dash that follows them. */
  datatype Stamped = Stamped(first: string, second: string, rest: string) {
    /** The stamp: both fields and the dash between them. */
    function Stamp(): string {
      first + "-" + second
    }
  }

  /** A stamp as the patterns take it: two non-empty dash-free fields. */
  predicate TwoFields(a: string, b: string) {
    a != [] && b != [] && '-' !in a && '-' !in b
  }

  /**
   * `^[^-]+-[^-]+-`, which both patterns start with.  The fields cannot
   * contain a dash, so they end at the first and the second dash of the name.
   */
  function StampSplit(s: string): (r: Option<Stamped>)
  {
    var i := Find(s, '-');
    if i == 0 || i == |s| then None
    else
      var j := FindFrom(s, '-', i + 1);
      if j == i + 1 || j == |s| then None
      else Some(Stamped(s[..i], s[i + 1..j], s[j + 1..]))
  }

  /** A split gives two dash-free fields that, with the rest, make up the name. */
  lemma StampSplitShape(s: string)
    requires StampSplit(s).Some?
    ensures var r := StampSplit(s).value;
            TwoFields(r.first, r.second) && s == r.Stamp() + "-" + r.rest
  {
    var i := Find(s, '-');
    var j := FindFrom(s, '-', i + 1);
    assert StampSplit(s) == Some(Stamped(s[..i], s[i + 1..j], s[j + 1..]));
    StampPieces(s, i, j);
  }

  lemma StampPieces(s: string, i: nat, j: nat)
    requires 0 < i && i + 1 < j < |s| && s[i] == '-' && s[j] == '-'
    requires forall k :: 0 <= k < i ==> s[k] != '-'
    requires forall k :: i + 1 <= k < j ==> s[k] != '-'
    ensures TwoFields(s[..i], s[i + 1..j])
    ensures s == s[..i] + "-" + s[i + 1..j] + "-" + s[j + 1..]
  {
    var a, b, c := s[..i], s[i + 1..j], s[j + 1..];
    assert forall k :: 0 <= k < |b| ==> b[k] == s[i + 1 + k];
    assert '-' !in b;
    var t := a + "-" + b + "-" + c;
    forall k | 0 <= k < |s|
      ensures t[k] == s[k]
    {
      if k < i { assert t[k] == a[k]; }
      else if k == i { assert t[k] == '-'; }
      else if k < j { assert t[k] == b[k - i - 1]; }
      else if k == j { assert t[k] == '-'; }
      else { assert t[k] == c[k - j - 1]; }
    }
  }

  /** A name that starts with a stamp and a dash splits there. */
  lemma StampSplitOfFields(a: string, b: string, rest: string)
    requires TwoFields(a, b)
    ensures StampSplit(a + "-" + b + "-" + rest) == Some(Stamped(a, b, rest))
  {
    var s := a + "-" + b + "-" + rest;
    var i, j := |a|, |a| + 1 + |b|;
    assert forall k :: 0 <= k < i ==> s[k] == a[k];
    assert forall k :: i + 1 <= k < j ==> s[k] == b[k - i - 1];
    FindIs(s, '-', i);
    FindFromIs(s, '-', i + 1, j);
    assert s[..i] == a && s[i + 1..j] == b && s[j + 1..] == rest;
  }

  /**
   * What `$` leaves to the pattern before it: the whole string, or all of it
   * but a line feed that ends it (`$` also matches just before that).
   */
  function BeforeEnd(s: string): string {
    if s != [] && s[|s| - 1] == '\n' then s[..|s| - 1] else s
  }

  /** `$` lets through at most one final line feed. */
  lemma BeforeEndShape(s: string)
    ensures BeforeEnd(s) == s || s == BeforeEnd(s) + "\n"
  {
    if s != [] && s[|s| - 1] == '\n' {
      assert s == s[..|s| - 1] + "\n";
    }
  }

  /** The groups of `FILENAME_RE`: the stamp, the sequence and the extension. */
  datatype NameParts = NameParts(stamp: string, sequence: string, extension: string)

  /** `<stamp>-<sequence>.<extension>`, the shape the scripts write names in. */
  function ComposeName(stamp: string, sequence: string, extension: string): string {
    stamp + "-" + sequence + "." + extension
  }

  /** What follows the stamp in a composed name. */
  function NameTail(sequence: string, extension: string): string {
    "-" + sequence + "." + extension
  }

  lemma ComposeNameTail(stamp: string, sequence: string, extension: string)
    ensures ComposeName(stamp, sequence, extension) == stamp + NameTail(sequence, extension)
    ensures ComposeName(stamp, sequence, extension) == stamp + "-" + (sequence + "." + extension)
  {
    var n, t := ComposeName(stamp, sequence, extension), NameTail(sequence, extension);
    assert |n| == |stamp + t|;
    forall k | 0 <= k < |n|
      ensures n[k] == (stamp + t)[k] && n[k] == (stamp + "-" + (sequence + "." + extension))[k]
    {
      if k < |stamp| { assert n[k] == stamp[k]; }
      else if k == |stamp| { assert n[k] == '-'; }
      else if k < |stamp| + 1 + |sequence| { assert n[k] == sequence[k - |stamp| - 1]; }
      else if k == |stamp| + 1 + |sequence| { assert n[k] == '.'; }
      else { assert n[k] == extension[k - |stamp| - |sequence| - 2]; }
    }
  }

  /** The sequence sits right after the stamp and its dash. */
  lemma ComposeNameAt(stamp: string, sequence: string, extension: string, k: nat)
    requires k < |sequence|
    ensures |ComposeName(stamp, sequence, extension)| > |stamp| + 1 + k
    ensures ComposeName(stamp, sequence, extension)[|stamp| + 1 + k] == sequence[k]
  {
  }

  /**
   * `FILENAME_RE.match(s)` with `(^[^-]+-[^-]+)-(.*)\.(.*)$`.  `.` matches
   * anything but a line feed, and the greedy sequence group leaves the
   * extension only the text after the last dot.
   */
  function SplitName(s: string): (r: Option<NameParts>)
  {
    var st := StampSplit(s);
    if st.None? then None
    else
      var body := BeforeEnd(st.value.rest);
      var k := LastDot(body);
      if k < 0 || '\n' in body then None
      else Some(NameParts(st.value.Stamp(), body[..k], body[k + 1..]))
  }

  /** A text without line feeds, cut at its last dot. */
  lemma CutAtLastDot(body: string, k: nat)
    requires k < |body| && LastDot(body) == k && '\n' !in body
    ensures body == body[..k] + "." + body[k + 1..]
    ensures '.' !in body[k + 1..] && '\n' !in body[..k] && '\n' !in body[k + 1..]
  {
    var tail := body[k + 1..];
    assert forall j :: 0 <= j < |tail| ==> tail[j] == body[k + 1 + j];
    assert body == body[..k] + [body[k]] + tail;
  }

  /**
   * What a match gives back makes up the name again (with the line feed `$`
   * let through, if any); the extension has no dot, neither group a line
   * feed, and the two fields of the stamp no dash.
   */
  lemma SplitNameShape(s: string) returns (a: string, b: string)
    requires SplitName(s).Some?
    ensures var p := SplitName(s).value;
            && (s == ComposeName(p.stamp, p.sequence, p.extension) || s == ComposeName(p.stamp, p.sequence, p.extension) + "\n")
            && '.' !in p.extension && '\n' !in p.sequence && '\n' !in p.extension
            && TwoFields(a, b) && p.stamp == a + "-" + b
  {
    var st := StampSplit(s).value;
    StampSplitShape(s);
    var body := BeforeEnd(st.rest);
    BeforeEndShape(st.rest);
    var k := LastDot(body);
    var p := SplitName(s).value;
    assert p == NameParts(st.Stamp(), body[..k], body[k + 1..]);
    CutAtLastDot(body, k);
    ComposeAround(s, p.stamp, st.rest, body, p.sequence, p.extension);
    a, b := st.first, st.second;
  }

  /** The pieces a match cuts out, put back around their separators. */
  lemma ComposeAround(s: string, stamp: string, rest: string, body: string, sequence: string, extension: string)
    requires s == stamp + "-" + rest && (rest == body || rest == body + "\n") && body == sequence + "." + extension
    ensures s == ComposeName(stamp, sequence, extension) || s == ComposeName(stamp, sequence, extension) + "\n"
  {
    ComposeNameTail(stamp, sequence, extension);
    if rest != body {
      AppendAssoc(stamp + "-", body, "\n");
    }
  }

  /** A name composed from its parts splits back into them. */
  lemma SplitNameOfParts(a: string, b: string, sequence: string, extension: string)
    requires TwoFields(a, b)
    requires '\n' !in sequence && '\n' !in extension && '.' !in extension
    ensures SplitName(ComposeName(a + "-" + b, sequence, extension)) == Some(NameParts(a + "-" + b, sequence, extension))
  {
    var rest := sequence + "." + extension;
    ComposeNameTail(a + "-" + b, sequence, extension);
    StampSplitOfFields(a, b, rest);
    CutRest(sequence, extension);
  }

  /** The text after the stamp's dash cuts back into the sequence and the extension. */
  lemma CutRest(sequence: string, extension: string)
    requires '\n' !in sequence && '\n' !in extension && '.' !in extension
    ensures var rest := sequence + "." + extension;
            && BeforeEnd(rest) == rest && LastDot(rest) == |sequence| && '\n' !in rest
            && rest[..|sequence|] == sequence && rest[|sequence| + 1..] == extension
  {
    var rest := sequence + "." + extension;
    assert rest[|rest| - 1] != '\n' by {
      if extension != [] { assert rest[|rest| - 1] == extension[|extension| - 1]; }
    }
    forall j | |sequence| < j < |rest|
      ensures rest[j] != '.'
    {
      assert rest[j] == extension[j - |sequence| - 1];
    }
    LastDotIs(rest, |sequence|);
    assert rest[..|sequence|] == sequence && rest[|sequence| + 1..] == extension;
  }

  /**
   * `EXTENSION_RE.match(s)` with `(^[^-]+-[^-]+-.*)\.jpg$`: the name without
   * its final `.jpg`, when it starts with a stamp and a dash and holds no line
   * feed before the `$`.
   */
  function JpegBase(s: string): (r: Option<string>)
  {
    var body := BeforeEnd(s);
    if !EndsWith(body, ".jpg") then None
    else
      var g := body[..|body| - 4];
      var st := StampSplit(g);
      if st.None? || '\n' in st.value.rest then None else Some(g)
  }

  /** The base is the name without `.jpg`, so the backup `<base>.jpg.orig` is the name plus `.orig`. */
  lemma JpegBaseShape(s: string)
    requires JpegBase(s).Some?
    ensures s == JpegBase(s).value + ".jpg" || s == JpegBase(s).value + ".jpg\n"
    ensures s[|s| - 1] != '\n' ==> BackupName(JpegBase(s).value) == s + ".orig"
  {
    var body := BeforeEnd(s);
    assert body == body[..|body| - 4] + ".jpg";
  }

  /** A name `<a>-<b>-<c>.jpg` without line feeds has the base `<a>-<b>-<c>`. */
  lemma JpegBaseOfParts(a: string, b: string, c: string)
    requires TwoFields(a, b) && '\n' !in c
    ensures JpegBase(a + "-" + b + "-" + c + ".jpg") == Some(a + "-" + b + "-" + c)
  {
    var g := a + "-" + b + "-" + c;
    var s := g + ".jpg";
    assert BeforeEnd(s) == s;
    assert s[..|s| - 4] == g;
    StampSplitOfFields(a, b, c);
  }

  // ---------------------------------------------------------------------
  // rotate_images

  /** `basename + '.jpg.orig'`. */
  function BackupName(base: string): string {
    base + ".jpg.orig"
  }

  function BackupNote(orig: string): string {
    orig + " exists, not making further backup"
  }

  datatype Rotation = Rotation(world: World, crashed: bool)

  /**
   * One pass of the loop of `rotate_images`: a name `EXTENSION_RE` does not
   * match stops the script (`AttributeError`); an existing backup is only
   * reported; a dry run prints `<degrees>: <name>`; otherwise the photo is
   * moved to its backup and `convert` writes the rotated photo back.
   */
  function RotateOne(w: World, filename: string, degrees: int, dryrun: bool): Rotation {
    var base := JpegBase(filename);
    if base.None? then Rotation(w, true)
    else
      var orig := BackupName(base.value);
      var w1 := if orig in w.files then Saying(w, BackupNote(orig)) else w;
      if dryrun then Rotation(Saying(w1, IntToString(degrees) + ": " + filename), false)
      else Rotation(Running(Running(w1, Move("/bin/mv", false, filename, orig)), Convert(degrees, orig, filename)), false)
  }

  /** `rotate_images(filenames, degrees, dryrun)`: each name in turn, until one crashes. */
  function RotateAll(w: World, filenames: seq<string>, degrees: int, dryrun: bool): Rotation
    decreases |filenames|
  {
    if filenames == [] then Rotation(w, false)
    else
      var r := RotateOne(w, filenames[0], degrees, dryrun);
      if r.crashed then r else RotateAll(r.world, filenames[1..], degrees, dryrun)
  }

  /**
   * With a `.jpg` name the photo is moved to `<name>.orig` and rotated back
   * into place, in that order, whether or not the backup exists already
   * (an existing one is only reported, then overwritten).
   */
  lemma RotateOneCommands(w: World, filename: string, degrees: int)
    requires JpegBase(filename).Some? && filename[|filename| - 1] != '\n'
    ensures var r := RotateOne(w, filename, degrees, false);
            var orig := filename + ".orig";
            && !r.crashed
            && r.world.log == w.log + (if orig in w.files then [Said(BackupNote(orig))] else [])
                              + [Ran(Move("/bin/mv", false, filename, orig)), Ran(Convert(degrees, orig, filename))]
  {
    JpegBaseShape(filename);
  }

  /** A name that is not `<a>-<b>-<c>.jpg` stops the script before anything is done for it. */
  lemma RotateOneCrash(w: World, filename: string, degrees: int, dryrun: bool)
    ensures RotateOne(w, filename, degrees, dryrun).crashed <==> JpegBase(filename).None?
    ensures RotateOne(w, filename, degrees, dryrun).crashed ==> RotateOne(w, filename, degrees, dryrun).world == w
  {
  }

  /** The world `r` extends `w` by printed lines alone. */
  predicate PrintsOnly(w: World, r: World) {
    r.files == w.files && |r.log| >= |w.log| && r.log[..|w.log|] == w.log && OnlyPrinted(r.log[|w.log|..])
  }

  lemma PrintsOnlyRefl(w: World)
    ensures PrintsOnly(w, w)
  {
    assert w.log[..|w.log|] == w.log;
  }

  lemma PrintsOnlySaying(w: World, line: string)
    ensures PrintsOnly(w, Saying(w, line))
  {
    var r := Saying(w, line);
    assert r.log[..|w.log|] == w.log;
    assert r.log[|w.log|..] == [Said(line)];
  }

  lemma PrintsOnlyTrans(a: World, b: World, c: World)
    requires PrintsOnly(a, b) && PrintsOnly(b, c)
    ensures PrintsOnly(a, c)
  {
    assert c.log[..|b.log|][..|a.log|] == c.log[..|a.log|];
    forall k | 0 <= k < |c.log| - |a.log|
      ensures c.log[|a.log|..][k].Said?
    {
      if k < |b.log| - |a.log| {
        assert c.log[|a.log|..][k] == b.log[|a.log|..][k];
      } else {
        assert c.log[|a.log|..][k] == c.log[|b.log|..][k - (|b.log| - |a.log|)];
      }
    }
  }

  /** A dry run of `rotate_images` only prints. */
  lemma {:induction false} RotateAllDryRun(w: World, filenames: seq<string>, degrees: int)
    ensures PrintsOnly(w, RotateAll(w, filenames, degrees, true).world)
    decreases |filenames|
  {
    if filenames == [] {
      PrintsOnlyRefl(w);
    } else {
      var f := filenames[0];
      var r := RotateOne(w, f, degrees, true);
      if JpegBase(f).None? {
        PrintsOnlyRefl(w);
      } else {
        var orig := BackupName(JpegBase(f).value);
        var w1 := if orig in w.files then Saying(w, BackupNote(orig)) else w;
        if orig in w.files { PrintsOnlySaying(w, BackupNote(orig)); } else { PrintsOnlyRefl(w); }
        PrintsOnlySaying(w1, IntToString(degrees) + ": " + f);
        PrintsOnlyTrans(w, w1, r.world);
        RotateAllDryRun(r.world, filenames[1..], degrees);
        PrintsOnlyTrans(w, r.world, RotateAll(w, filenames, degrees, true).world);
      }
    }
  }

  /** Rotating a non-empty list: the first name, then the rest unless the first crashed. */
  lemma RotateAllCons(w: World, filenames: seq<string>, degrees: int, dryrun: bool)
    requires filenames != []
    ensures var r := RotateOne(w, filenames[0], degrees, dryrun);
            RotateAll(w, filenames, degrees, dryrun) == if r.crashed then r else RotateAll(r.world, filenames[1..], degrees, dryrun)
  {
  }

  /** `rotate_images`. */
  method RotateImages(fs: FileSystem, filenames: seq<string>, degrees: int, dryrun: bool) returns (crashed: bool)
    modifies fs
    ensures Rotation(fs.State(), crashed) == RotateAll(old(fs.State()), filenames, degrees, dryrun)
  {
    var i := 0;
    while i < |filenames|
      invariant 0 <= i <= |filenames|
      invariant RotateAll(old(fs.State()), filenames, degrees, dryrun) == RotateAll(fs.State(), filenames[i..], degrees, dryrun)
    {
      ghost var w := fs.State();
      RotateAllCons(w, filenames[i..], degrees, dryrun);
      assert filenames[i..][0] == filenames[i] && filenames[i..][1..] == filenames[i + 1..];
      var filename := filenames[i];
      var base := JpegBase(filename);
      if base.None? {
        assert RotateOne(w, filename, degrees, dryrun) == Rotation(w, true);
        return true;
      }
      var orig := BackupName(base.value);
      if fs.Exists(orig) {
        fs.Say(BackupNote(orig));
      }
      ghost var w1 := fs.State();
      assert w1 == if orig in w.files then Saying(w, BackupNote(orig)) else w;
      if dryrun {
        fs.Say(IntToString(degrees) + ": " + filename);
      } else {
        fs.Run(Move("/bin/mv", false, filename, orig));
        fs.Run(Convert(degrees, orig, filename));
      }
      assert RotateOne(w, filename, degrees, dryrun) == Rotation(fs.State(), false);
      i := i + 1;
    }
    return false;
  }

  // ---------------------------------------------------------------------
  // time_shift_images

  /**
   * The stamp of a name shifted by `seconds`: `strptime` with
   * `%Y%m%d-%H%M%S`, plus the offset, then `strftime`.  `None` where Python
   * raises: the stamp does not read as a datetime (`ValueError`) or the sum
   * leaves years 1..9999 (`OverflowError`).
   */
  function ShiftStamp(stamp: string, seconds: int): (r: Option<string>)
    ensures r.Some? ==> |r.value| == 15 && r.value[8] == '-'
  {
    var t := ParseCompact(stamp);
    if t.None? || !InRange(t.value + seconds) then None
    else Some(FormatCompact(t.value + seconds))
  }

  /** A shift by zero seconds gives back the stamp, when it reads as a datetime. */
  lemma ShiftStampZero(stamp: string)
    requires ParseCompact(stamp).Some?
    ensures ShiftStamp(stamp, 0) == Some(stamp)
  {
    FormatParseCompact(stamp);
  }

  /** Shifting by `s` and then by `-s` gives back the stamp. */
  lemma ShiftStampBack(stamp: string, s: int)
    requires ShiftStamp(stamp, s).Some?
    ensures ShiftStamp(ShiftStamp(stamp, s).value, -s) == Some(stamp)
  {
    var t := ParseCompact(stamp).value;
    var u: Instant := t + s;
    ShiftStampIs(stamp, s, t, u);
    ParseFormatCompact(u);
    ShiftStampIs(FormatCompact(u), -s, u, t);
    FormatParseCompact(stamp);
  }

  lemma ShiftStampIs(stamp: string, s: int, t: Instant, u: Instant)
    requires ParseCompact(stamp) == Some(t) && u == t + s
    ensures ShiftStamp(stamp, s) == Some(FormatCompact(u))
  {
  }

  /**
   * The new name `time_shift_images` gives a variant, as written: the shifted
   * stamp, the sequence of the name on the command line, and the extension of
   * the variant (the text after its last dot).
   */
  function TargetAsWritten(variant: string, newStamp: string, sequence: string): (r: Option<string>)
    ensures r.Some? <==> SplitName(variant).Some?
  {
    var p := SplitName(variant);
    if p.None? then None else Some(ComposeName(newStamp, sequence, p.value.extension))
  }

  /**
   * Two sidecars of one photo, `<stamp>-<seq>.jpg.xmp` and
   * `<stamp>-<seq>.cr2.xmp`, both receive the name `<new stamp>-<seq>.xmp`,
   * and a shift that leaves the stamp alone still renames the first.
   */
  lemma SidecarsCollide(a: string, b: string, sequence: string, newStamp: string)
    requires TwoFields(a, b) && '\n' !in sequence
    ensures var jpgXmp, rawXmp := ComposeName(a + "-" + b, sequence + ".jpg", "xmp"), ComposeName(a + "-" + b, sequence + ".cr2", "xmp");
            && jpgXmp != rawXmp
            && TargetAsWritten(jpgXmp, newStamp, sequence) == TargetAsWritten(rawXmp, newStamp, sequence)
            && TargetAsWritten(jpgXmp, a + "-" + b, sequence) != Some(jpgXmp)
  {
    var stamp := a + "-" + b;
    var jpg, raw := sequence + ".jpg", sequence + ".cr2";
    NoLineFeedAppended(sequence, ".jpg");
    NoLineFeedAppended(sequence, ".cr2");
    SidecarTargetAsWritten(a, b, jpg, sequence, newStamp);
    SidecarTargetAsWritten(a, b, raw, sequence, newStamp);
    SidecarTargetAsWritten(a, b, jpg, sequence, stamp);
    ComposeNameAt(stamp, jpg, "xmp", |sequence| + 1);
    ComposeNameAt(stamp, raw, "xmp", |sequence| + 1);
    assert jpg[|sequence| + 1] == 'j' && raw[|sequence| + 1] == 'c';
  }

  /** As written, the sidecar `<stamp>-<inner>.xmp` is renamed from the sequence of the name alone. */
  lemma SidecarTargetAsWritten(a: string, b: string, inner: string, sequence: string, newStamp: string)
    requires TwoFields(a, b) && '\n' !in inner
    ensures TargetAsWritten(ComposeName(a + "-" + b, inner, "xmp"), newStamp, sequence) == Some(ComposeName(newStamp, sequence, "xmp"))
  {
    SplitNameOfParts(a, b, inner, "xmp");
  }

  lemma NoLineFeedAppended(x: string, y: string)
    requires '\n' !in x && '\n' !in y
    ensures '\n' !in x + y
  {
    assert forall j :: 0 <= j < |x + y| ==> (x + y)[j] == if j < |x| then x[j] else y[j - |x|];
  }

  /**
   * The new name of a variant as evidently intended: the shifted stamp
   * followed by everything the variant has after its own stamp, so that
   * `<stamp>-<seq>.jpg.xmp` stays the sidecar of `<stamp>-<seq>.jpg`.
   */
  function Target(variant: string, newStamp: string): (r: Option<string>)
    ensures r.Some? <==> SplitName(variant).Some?
  {
    var p := SplitName(variant);
    if p.None? then None else Some(ComposeName(newStamp, p.value.sequence, p.value.extension))
  }

  /** The new name keeps everything after the stamp: only the stamp changes. */
  lemma TargetKeepsTail(variant: string, newStamp: string)
    requires SplitName(variant).Some? && variant[|variant| - 1] != '\n'
    ensures var p := SplitName(variant).value;
            && variant == p.stamp + variant[|p.stamp|..]
            && Target(variant, newStamp) == Some(newStamp + variant[|p.stamp|..])
  {
    var p := SplitName(variant).value;
    var tail := NameTail(p.sequence, p.extension);
    NoLineFeedComposed(variant);
    ComposeNameTail(p.stamp, p.sequence, p.extension);
    ComposeNameTail(newStamp, p.sequence, p.extension);
    assert variant == p.stamp + tail;
    assert variant[|p.stamp|..] == tail;
  }

  /** A name that does not end in a line feed is exactly the one its parts compose. */
  lemma NoLineFeedComposed(variant: string)
    requires SplitName(variant).Some? && variant[|variant| - 1] != '\n'
    ensures var p := SplitName(variant).value;
            variant == ComposeName(p.stamp, p.sequence, p.extension)
  {
    var _, _ := SplitNameShape(variant);
    var p := SplitName(variant).value;
    var c := ComposeName(p.stamp, p.sequence, p.extension);
    if variant != c {
      assert false;
    }
  }

  /** A shift that leaves the stamp alone renames a variant to itself. */
  lemma TargetUnshifted(variant: string)
    requires SplitName(variant).Some? && variant[|variant| - 1] != '\n'
    ensures Target(variant, SplitName(variant).value.stamp) == Some(variant)
  {
    TargetKeepsTail(variant, SplitName(variant).value.stamp);
  }

  /** Variants with the same stamp keep distinct names. */
  lemma TargetInjective(v1: string, v2: string, newStamp: string)
    requires SplitName(v1).Some? && v1[|v1| - 1] != '\n'
    requires SplitName(v2).Some? && v2[|v2| - 1] != '\n'
    requires SplitName(v1).value.stamp == SplitName(v2).value.stamp && v1 != v2
    ensures Target(v1, newStamp) != Target(v2, newStamp)
  {
    TargetKeepsTail(v1, newStamp);
    TargetKeepsTail(v2, newStamp);
    var st := SplitName(v1).value.stamp;
    PrefixInjective(newStamp, v1[|st|..], v2[|st|..]);
  }

  lemma PrefixInjective(a: string, t1: string, t2: string)
    requires t1 != t2
    ensures a + t1 != a + t2
  {
    assert (a + t1)[|a|..] == t1 && (a + t2)[|a|..] == t2;
  }

  /**
   * The two rules agree on a variant `<stamp>-<seq>.<ext>` that carries the
   * sequence of the name on the command line and a dot-free extension, such
   * as the photo itself or its raw twin.
   */
  lemma TargetsAgree(a: string, b: string, sequence: string, extension: string, newStamp: string)
    requires TwoFields(a, b)
    requires '\n' !in sequence && '\n' !in extension && '.' !in extension
    ensures var v := ComposeName(a + "-" + b, sequence, extension);
            TargetAsWritten(v, newStamp, sequence) == Target(v, newStamp) == Some(ComposeName(newStamp, sequence, extension))
  {
    SplitNameOfParts(a, b, sequence, extension);
  }

  /** `print('{fn} -> {nfn}')` or `call(['/bin/mv', '-i', fn, nfn])`. */
  function RenameEvent(variant: string, target: string, dryrun: bool): Event {
    if dryrun then Said(variant + " -> " + target) else Ran(Move("/bin/mv", true, variant, target))
  }

  function Renaming(w: World, variant: string, target: string, dryrun: bool): World {
    if dryrun then Saying(w, variant + " -> " + target) else Running(w, Move("/bin/mv", true, variant, target))
  }

  /** The world so far, the number of variants processed, and whether an exception stopped the script. */
  datatype Progress = Progress(world: World, processed: nat, crashed: bool)

  function Plus(n: nat, r: Progress): Progress {
    Progress(r.world, n + r.processed, r.crashed)
  }

  /**
   * The inner loop of `time_shift_images` under a naming rule: each variant
   * is counted and renamed (or shown renamed) to the name the rule gives it,
   * and a variant the rule gives no name stops the script.
   */
  function RenameVariants(w: World, variants: seq<string>, rename: string -> Option<string>, dryrun: bool): Progress
    decreases |variants|
  {
    if variants == [] then Progress(w, 0, false)
    else
      var target := rename(variants[0]);
      if target.None? then Progress(w, 0, true)
      else Plus(1, RenameVariants(Renaming(w, variants[0], target.value, dryrun), variants[1..], rename, dryrun))
  }

  /**
   * The inner loop of `time_shift_images`: the rule is `TargetAsWritten`
   * with the shifted stamp and the sequence of the name on the command line.
   */
  function ShiftVariants(w: World, variants: seq<string>, newStamp: string, sequence: string, dryrun: bool): Progress {
    RenameVariants(w, variants, v => TargetAsWritten(v, newStamp, sequence), dryrun)
  }

  /**
   * One pass of the outer loop: a name `FILENAME_RE` does not match, or whose
   * stamp does not shift, stops the script; otherwise its variants (what
   * `glob` found for it) are renamed.
   */
  function ShiftFile(w: World, filename: string, variants: seq<string>, seconds: int, dryrun: bool): Progress {
    var p := SplitName(filename);
    if p.None? then Progress(w, 0, true)
    else
      var ns := ShiftStamp(p.value.stamp, seconds);
      if ns.None? then Progress(w, 0, true)
      else ShiftVariants(w, variants, ns.value, p.value.sequence, dryrun)
  }

  function ShiftAll(w: World, filenames: seq<string>, globbed: seq<seq<string>>, seconds: int, dryrun: bool): Progress
    requires |globbed| == |filenames|
    decreases |filenames|
  {
    if filenames == [] then Progress(w, 0, false)
    else
      var r := ShiftFile(w, filenames[0], globbed[0], seconds, dryrun);
      if r.crashed then r
      else Plus(r.processed, ShiftAll(r.world, filenames[1..], globbed[1..], seconds, dryrun))
  }

  function ProcessedLine(n: nat): string {
    "Processed " + NatToString(n) + " files"
  }

  /** `time_shift_images(filenames, hours, dryrun)` with `hours * 3600 == seconds`, and its closing line. */
  function TimeShift(w: World, filenames: seq<string>, globbed: seq<seq<string>>, seconds: int, dryrun: bool): Progress
    requires |globbed| == |filenames|
  {
    var r := ShiftAll(w, filenames, globbed, seconds, dryrun);
    if r.crashed then r else Progress(Saying(r.world, ProcessedLine(r.processed)), r.processed, false)
  }

  /** The rule names every variant. */
  predicate AllNamed(variants: seq<string>, rename: string -> Option<string>) {
    forall k :: 0 <= k < |variants| ==> rename(variants[k]).Some?
  }

  /**
   * When the rule names every variant, each is counted once and renamed in
   * the order `glob` gave, to the name the rule gives it.
   */
  lemma {:induction false} RenameVariantsLog(w: World, variants: seq<string>, rename: string -> Option<string>, dryrun: bool)
    requires AllNamed(variants, rename)
    ensures var r := RenameVariants(w, variants, rename, dryrun);
            && !r.crashed && r.processed == |variants|
            && |r.world.log| == |w.log| + |variants| && r.world.log[..|w.log|] == w.log
            && forall k :: 0 <= k < |variants| ==> r.world.log[|w.log| + k] == RenameEvent(variants[k], rename(variants[k]).value, dryrun)
    decreases |variants|
  {
    if variants != [] {
      var v := variants[0];
      var rest := variants[1..];
      assert rename(v).Some?;
      var e := RenameEvent(v, rename(v).value, dryrun);
      var w1 := Renaming(w, v, rename(v).value, dryrun);
      assert w1.log == w.log + [e];
      assert AllNamed(rest, rename) by {
        forall k | 0 <= k < |rest|
          ensures rename(rest[k]).Some?
        {
          assert rest[k] == variants[k + 1];
        }
      }
      RenameVariantsLog(w1, rest, rename, dryrun);
      var r := RenameVariants(w, variants, rename, dryrun);
      assert r == Plus(1, RenameVariants(w1, rest, rename, dryrun));
      assert r.world.log[..|w.log|] == w.log by {
        assert r.world.log[..|w1.log|][..|w.log|] == r.world.log[..|w.log|];
      }
      forall k | 0 <= k < |variants|
        ensures r.world.log[|w.log| + k] == RenameEvent(variants[k], rename(variants[k]).value, dryrun)
      {
        if k == 0 {
          assert r.world.log[|w.log|] == r.world.log[..|w1.log|][|w.log|];
        } else {
          assert variants[k] == rest[k - 1];
          assert r.world.log[|w.log| + k] == r.world.log[|w1.log| + (k - 1)];
        }
      }
    }
  }

  /** A variant the rule gives no name stops the script, after the variants before it. */
  lemma {:induction false} RenameVariantsCrash(w: World, variants: seq<string>, rename: string -> Option<string>, dryrun: bool)
    ensures RenameVariants(w, variants, rename, dryrun).crashed <==> !AllNamed(variants, rename)
    decreases |variants|
  {
    if variants != [] {
      var v := variants[0];
      var rest := variants[1..];
      if rename(v).Some? {
        RenameVariantsCrash(Renaming(w, v, rename(v).value, dryrun), rest, rename, dryrun);
        if !AllNamed(rest, rename) {
          var k :| 0 <= k < |rest| && rename(rest[k]).None?;
          assert variants[k + 1] == rest[k];
        }
        if !AllNamed(variants, rename) {
          var k :| 0 <= k < |variants| && rename(variants[k]).None?;
          assert k > 0 && rest[k - 1] == variants[k];
        }
      }
    }
  }

  /** Every variant `FILENAME_RE` matches: none of them stops the script. */
  predicate AllSplit(variants: seq<string>) {
    forall k :: 0 <= k < |variants| ==> SplitName(variants[k]).Some?
  }

  /** `TargetAsWritten` names exactly the variants `FILENAME_RE` matches. */
  lemma AllSplitNamed(variants: seq<string>, newStamp: string, sequence: string)
    ensures AllSplit(variants) <==> AllNamed(variants, v => TargetAsWritten(v, newStamp, sequence))
  {
  }

  /**
   * When every variant matches, each is counted once and renamed in the
   * order `glob` gave, to its new name.
   */
  lemma ShiftVariantsLog(w: World, variants: seq<string>, newStamp: string, sequence: string, dryrun: bool)
    requires AllSplit(variants)
    ensures var r := ShiftVariants(w, variants, newStamp, sequence, dryrun);
            && !r.crashed && r.processed == |variants|
            && |r.world.log| == |w.log| + |variants| && r.world.log[..|w.log|] == w.log
            && forall k :: 0 <= k < |variants| ==>
                 r.world.log[|w.log| + k]
                 == RenameEvent(variants[k], ComposeName(newStamp, sequence, SplitName(variants[k]).value.extension), dryrun)
  {
    AllSplitNamed(variants, newStamp, sequence);
    RenameVariantsLog(w, variants, v => TargetAsWritten(v, newStamp, sequence), dryrun);
  }

  /**
   * The collision of `SidecarsCollide` in the loop itself: shifting
   * `<stamp>-<seq>.jpg` with both sidecars globbed moves both to
   * `<new stamp>-<seq>.xmp`, the second with `mv -i` onto the first.
   */
  lemma ShiftSidecarsCollide(w: World, a: string, b: string, sequence: string, newStamp: string)
    requires TwoFields(a, b) && '\n' !in sequence
    ensures var jpgXmp, rawXmp := ComposeName(a + "-" + b, sequence + ".jpg", "xmp"), ComposeName(a + "-" + b, sequence + ".cr2", "xmp");
            var r := ShiftVariants(w, [jpgXmp, rawXmp], newStamp, sequence, false);
            var target := ComposeName(newStamp, sequence, "xmp");
            && !r.crashed && r.processed == 2
            && r.world.log == w.log + [Ran(Move("/bin/mv", true, jpgXmp, target)), Ran(Move("/bin/mv", true, rawXmp, target))]
  {
    var jpgXmp, rawXmp := ComposeName(a + "-" + b, sequence + ".jpg", "xmp"), ComposeName(a + "-" + b, sequence + ".cr2", "xmp");
    NoLineFeedAppended(sequence, ".jpg");
    NoLineFeedAppended(sequence, ".cr2");
    SidecarTargetAsWritten(a, b, sequence + ".jpg", sequence, newStamp);
    SidecarTargetAsWritten(a, b, sequence + ".cr2", sequence, newStamp);
    RenameTwo(w, jpgXmp, rawXmp, v => TargetAsWritten(v, newStamp, sequence), ComposeName(newStamp, sequence, "xmp"));
  }

  /** Two variants the rule sends to `target` are both moved there, in order. */
  lemma RenameTwo(w: World, v1: string, v2: string, rename: string -> Option<string>, target: string)
    requires rename(v1) == Some(target) && rename(v2) == Some(target)
    ensures var r := RenameVariants(w, [v1, v2], rename, false);
            && !r.crashed && r.processed == 2
            && r.world.log == w.log + [Ran(Move("/bin/mv", true, v1, target)), Ran(Move("/bin/mv", true, v2, target))]
  {
    var w1 := Renaming(w, v1, target, false);
    var w2 := Renaming(w1, v2, target, false);
    assert [v1, v2][1..] == [v2] && [v2][1..] == [];
    assert RenameVariants(w1, [v2], rename, false) == Plus(1, Progress(w2, 0, false));
    assert w2.log == w.log + [Ran(Move("/bin/mv", true, v1, target)), Ran(Move("/bin/mv", true, v2, target))];
  }

  /** A variant `FILENAME_RE` does not match stops the script, after the variants before it. */
  lemma ShiftVariantsCrash(w: World, variants: seq<string>, newStamp: string, sequence: string, dryrun: bool)
    ensures ShiftVariants(w, variants, newStamp, sequence, dryrun).crashed <==> !AllSplit(variants)
  {
    AllSplitNamed(variants, newStamp, sequence);
    RenameVariantsCrash(w, variants, v => TargetAsWritten(v, newStamp, sequence), dryrun);
  }

  /** The number of variants over all names. */
  function TotalVariants(globbed: seq<seq<string>>): nat {
    if globbed == [] then 0 else |globbed[0]| + TotalVariants(globbed[1..])
  }

  /** From the `i`-th name on: that name, then the ones after it unless it stopped the script. */
  lemma ShiftAllFrom(w: World, filenames: seq<string>, globbed: seq<seq<string>>, seconds: int, dryrun: bool, i: nat)
    requires |globbed| == |filenames| && i < |filenames|
    ensures var r := ShiftFile(w, filenames[i], globbed[i], seconds, dryrun);
            ShiftAll(w, filenames[i..], globbed[i..], seconds, dryrun)
            == if r.crashed then r else Plus(r.processed, ShiftAll(r.world, filenames[i + 1..], globbed[i + 1..], seconds, dryrun))
  {
    assert filenames[i..][0] == filenames[i] && filenames[i..][1..] == filenames[i + 1..];
    assert globbed[i..][0] == globbed[i] && globbed[i..][1..] == globbed[i + 1..];
  }

  /** `num_processed`: a run that finishes has counted every variant of every name, dry or not. */
  lemma {:induction false} ShiftAllCount(w: World, filenames: seq<string>, globbed: seq<seq<string>>, seconds: int, dryrun: bool)
    requires |globbed| == |filenames|
    ensures var r := ShiftAll(w, filenames, globbed, seconds, dryrun);
            !r.crashed ==> r.processed == TotalVariants(globbed)
    decreases |filenames|
  {
    if filenames != [] {
      var r := ShiftFile(w, filenames[0], globbed[0], seconds, dryrun);
      if !r.crashed {
        var p := SplitName(filenames[0]).value;
        var ns := ShiftStamp(p.stamp, seconds).value;
        ShiftVariantsCrash(w, globbed[0], ns, p.sequence, dryrun);
        ShiftVariantsLog(w, globbed[0], ns, p.sequence, dryrun);
        ShiftAllCount(r.world, filenames[1..], globbed[1..], seconds, dryrun);
      }
    }
  }

  /** A dry run of the variants only prints. */
  lemma {:induction false} RenameVariantsDryRun(w: World, variants: seq<string>, rename: string -> Option<string>)
    ensures PrintsOnly(w, RenameVariants(w, variants, rename, true).world)
    decreases |variants|
  {
    if variants == [] || rename(variants[0]).None? {
      PrintsOnlyRefl(w);
    } else {
      var w1 := Renaming(w, variants[0], rename(variants[0]).value, true);
      PrintsOnlySaying(w, variants[0] + " -> " + rename(variants[0]).value);
      RenameVariantsDryRun(w1, variants[1..], rename);
      PrintsOnlyTrans(w, w1, RenameVariants(w, variants, rename, true).world);
    }
  }

  /** A dry run of `time_shift_images` only prints. */
  lemma {:induction false} ShiftAllDryRun(w: World, filenames: seq<string>, globbed: seq<seq<string>>, seconds: int)
    requires |globbed| == |filenames|
    ensures PrintsOnly(w, ShiftAll(w, filenames, globbed, seconds, true).world)
    decreases |filenames|
  {
    if filenames == [] {
      PrintsOnlyRefl(w);
    } else {
      var r := ShiftFile(w, filenames[0], globbed[0], seconds, true);
      var p := SplitName(filenames[0]);
      if p.None? || ShiftStamp(p.value.stamp, seconds).None? {
        PrintsOnlyRefl(w);
      } else {
        RenameVariantsDryRun(w, globbed[0], v => TargetAsWritten(v, ShiftStamp(p.value.stamp, seconds).value, p.value.sequence));
        if !r.crashed {
          ShiftAllDryRun(r.world, filenames[1..], globbed[1..], seconds);
          PrintsOnlyTrans(w, r.world, ShiftAll(w, filenames, globbed, seconds, true).world);
        }
      }
    }
  }

  /** The inner loop of `time_shift_images`, with the count it adds to `num_processed`. */
  method ShiftVariantsLoop(fs: FileSystem, variants: seq<string>, newStamp: string, sequence: string, dryrun: bool)
    returns (count: nat, crashed: bool)
    modifies fs
    ensures Progress(fs.State(), count, crashed) == ShiftVariants(old(fs.State()), variants, newStamp, sequence, dryrun)
  {
    count := 0;
    var j := 0;
    while j < |variants|
      invariant 0 <= j <= |variants| && count == j
      invariant ShiftVariants(old(fs.State()), variants, newStamp, sequence, dryrun)
                == Plus(j, ShiftVariants(fs.State(), variants[j..], newStamp, sequence, dryrun))
    {
      ghost var w := fs.State();
      assert variants[j..][0] == variants[j] && variants[j..][1..] == variants[j + 1..];
      var target := TargetAsWritten(variants[j], newStamp, sequence);
      if target.None? {
        return count, true;
      }
      count := count + 1;
      if dryrun {
        fs.Say(variants[j] + " -> " + target.value);
      } else {
        fs.Run(Move("/bin/mv", true, variants[j], target.value));
      }
      assert fs.State() == Renaming(w, variants[j], target.value, dryrun);
      j := j + 1;
    }
    return count, false;
  }

  /** One pass of the outer loop of `time_shift_images`, with the count it adds to `num_processed`. */
  method ShiftOneFile(fs: FileSystem, filename: string, variants: seq<string>, seconds: int, dryrun: bool) returns (count: nat, crashed: bool)
    modifies fs
    ensures Progress(fs.State(), count, crashed) == ShiftFile(old(fs.State()), filename, variants, seconds, dryrun)
  {
    var parts := SplitName(filename);
    if parts.None? {
      return 0, true;
    }
    var newStamp := ShiftStamp(parts.value.stamp, seconds);
    if newStamp.None? {
      return 0, true;
    }
    count, crashed := ShiftVariantsLoop(fs, variants, newStamp.value, parts.value.sequence, dryrun);
  }

  /** The outer loop of `time_shift_images`, with `num_processed`. */
  method ShiftFiles(fs: FileSystem, filenames: seq<string>, globbed: seq<seq<string>>, seconds: int, dryrun: bool)
    returns (processed: nat, crashed: bool)
    requires |globbed| == |filenames|
    modifies fs
    ensures Progress(fs.State(), processed, crashed) == ShiftAll(old(fs.State()), filenames, globbed, seconds, dryrun)
  {
    processed := 0;
    var i := 0;
    while i < |filenames|
      invariant 0 <= i <= |filenames|
      invariant ShiftAll(old(fs.State()), filenames, globbed, seconds, dryrun)
                == Plus(processed, ShiftAll(fs.State(), filenames[i..], globbed[i..], seconds, dryrun))
    {
      ShiftAllFrom(fs.State(), filenames, globbed, seconds, dryrun, i);
      var count, stopped := ShiftOneFile(fs, filenames[i], globbed[i], seconds, dryrun);
      processed := processed + count;
      if stopped {
        return processed, true;
      }
      i := i + 1;
    }
    assert filenames[i..] == [] && globbed[i..] == [];
    return processed, false;
  }

  /** `time_shift_images`: the outer loop, then `Processed <n> files` unless it stopped. */
  method TimeShiftImages(fs: FileSystem, filenames: seq<string>, globbed: seq<seq<string>>, seconds: int, dryrun: bool)
    returns (processed: nat, crashed: bool)
    requires |globbed| == |filenames|
    modifies fs
    ensures Progress(fs.State(), processed, crashed) == TimeShift(old(fs.State()), filenames, globbed, seconds, dryrun)
  {
    processed, crashed := ShiftFiles(fs, filenames, globbed, seconds, dryrun);
    if !crashed {
      fs.Say(ProcessedLine(processed));
    }
  }

  // ---------------------------------------------------------------------
  // main

  /**
   * The body of `main` once the arguments are read: rotate when `degrees`
   * is not zero, then shift when `seconds` is not zero; a crash in the
   * rotation stops the script before the shift.
   */
  function Modify(w: World, filenames: seq<string>, globbed: seq<seq<string>>, degrees: int, seconds: int, dryrun: bool): (r: Progress)
    requires |globbed| == |filenames|
  {
    var rot := if degrees != 0 then RotateAll(w, filenames, degrees, dryrun) else Rotation(w, false);
    if rot.crashed then Progress(rot.world, 0, true)
    else if seconds != 0 then TimeShift(rot.world, filenames, globbed, seconds, dryrun)
    else Progress(rot.world, 0, false)
  }

  /** A dry run of the whole script only prints. */
  lemma ModifyDryRun(w: World, filenames: seq<string>, globbed: seq<seq<string>>, degrees: int, seconds: int)
    requires |globbed| == |filenames|
    ensures PrintsOnly(w, Modify(w, filenames, globbed, degrees, seconds, true).world)
  {
    var rot := if degrees != 0 then RotateAll(w, filenames, degrees, true) else Rotation(w, false);
    if degrees != 0 { RotateAllDryRun(w, filenames, degrees); } else { PrintsOnlyRefl(w); }
    if !rot.crashed && seconds != 0 {
      var r := ShiftAll(rot.world, filenames, globbed, seconds, true);
      ShiftAllDryRun(rot.world, filenames, globbed, seconds);
      PrintsOnlyTrans(w, rot.world, r.world);
      if !r.crashed {
        PrintsOnlySaying(r.world, ProcessedLine(r.processed));
        PrintsOnlyTrans(w, r.world, Saying(r.world, ProcessedLine(r.processed)));
      }
    }
  }

  /** Nothing happens when both the rotation and the shift are zero. */
  lemma ModifyNothing(w: World, filenames: seq<string>, globbed: seq<seq<string>>, dryrun: bool)
    requires |globbed| == |filenames|
    ensures Modify(w, filenames, globbed, 0, 0, dryrun) == Progress(w, 0, false)
  {
  }

  /** `main`, after argument parsing. */
  method ModifyPictures(fs: FileSystem, filenames: seq<string>, globbed: seq<seq<string>>, degrees: int, seconds: int, dryrun: bool)
    returns (r: Progress)
    requires |globbed| == |filenames|
    modifies fs
    ensures r.world == fs.State()
    ensures r == Modify(old(fs.State()), filenames, globbed, degrees, seconds, dryrun)
  {
    if degrees != 0 {
      var crashed := RotateImages(fs, filenames, degrees, dryrun);
      if crashed {
        return Progress(fs.State(), 0, true);
      }
    }
    if seconds != 0 {
      var processed, crashed := TimeShiftImages(fs, filenames, globbed, seconds, dryrun);
      return Progress(fs.State(), processed, crashed);
    }
    return Progress(fs.State(), 0, false);
  }
}
