/**
 * `pic_new`: rename camera files after their EXIF creation time.
 *
 * Each source file `img_1234.JPG` becomes `YYYYMMDD-HHMMSS-1234.jpg` in the
 * same directory, rotated with `exiftran` when `jhead` reports an
 * orientation; its `.xmp` sidecar and its `.CR2`/`.RAF` raw twins (with
 * their sidecars) follow it. The outputs of `exiftags` and `jhead`, the
 * file's modification time and the wall clock are inputs (`Probe`).
 */
module PicNew {
  import opened Wrappers
  import opened PyText
  import opened Calendar
  import opened Paths
  import opened Shell

  // ---------------------------------------------------------------------
  // Reading the EXIF creation time

  /** The line of `exiftags -i -s:` output that carries the creation time. */
  const CreatedPrefix: string := "Image Created:"

  /**
   * `parse_exif_time`: `'%Y:%m:%d %H:%M:%S'` first, then `'%Y-%m-%d %H:%M:%S'`;
   * `None` when neither matches.
   */
  function ParseExifTime(s: string): (r: Option<Instant>)
    ensures r.Some? <==> ParseSeparated(s, ':').Some? || ParseSeparated(s, '-').Some?
    ensures r.Some? ==> |s| >= 19 && r == ParseSeparated(s, s[4])
  {
    var colon := ParseSeparated(s, ':');
    if colon.Some? then colon else ParseSeparated(s, '-')
  }

  /** Both formats `exiftags` may print read back as the instant they show. */
  lemma ParseExifTimeOfFormats(t: Instant)
    ensures ParseExifTime(FormatSeparated(t, ':')) == Some(t)
    ensures ParseExifTime(FormatSeparated(t, '-')) == Some(t)
  {
    ParseFormatSeparated(t, ':');
    ParseFormatSeparated(t, '-');
  }

  /** `i` is the first of `lines` that starts with `prefix`. */
  predicate FirstWith(lines: seq<string>, prefix: string, i: int) {
    && 0 <= i < |lines|
    && StartsWith(lines[i], prefix)
    && forall j :: 0 <= j < i ==> !StartsWith(lines[j], prefix)
  }

  /** The scan of `read_exif_datetime`: the index of the first line with the prefix. */
  function FirstPrefixed(lines: seq<string>, prefix: string): (r: Option<nat>)
    ensures r.Some? ==> FirstWith(lines, prefix, r.value)
    ensures r.None? ==> forall j :: 0 <= j < |lines| ==> !StartsWith(lines[j], prefix)
  {
    if lines == [] then None
    else if StartsWith(lines[0], prefix) then Some(0)
    else
      match FirstPrefixed(lines[1..], prefix)
      case None => None
      case Some(i) => Some(i + 1)
  }

  /**
   * `read_exif_datetime`, given what `exiftags` printed (`None` when it
   * failed): the first `Image Created:` line decides, even when its date
   * does not parse.
   */
  function ReadExifDatetime(out: Option<string>): (r: Option<Instant>)
    ensures out.None? ==> r.None?
    ensures out.Some? && (forall j :: 0 <= j < |SplitLines(out.value)| ==> !StartsWith(SplitLines(out.value)[j], CreatedPrefix))
            ==> r.None?
    ensures out.Some? ==> forall i :: FirstWith(SplitLines(out.value), CreatedPrefix, i) ==>
              r == ParseExifTime(Strip(SplitLines(out.value)[i][|CreatedPrefix|..]))
  {
    if out.None? then None
    else
      var lines := SplitLines(out.value);
      match FirstPrefixed(lines, CreatedPrefix)
      case None => None
      case Some(i) =>
        assert forall k :: FirstWith(lines, CreatedPrefix, k) ==> k == i;
        ParseExifTime(Strip(lines[i][|CreatedPrefix|..]))
  }

  /** Output written line by line: its first `Image Created:` line is the one parsed. */
  lemma ReadExifOfLines(lines: seq<string>, i: nat)
    requires NoLineBreaks(lines) && FirstWith(lines, CreatedPrefix, i)
    ensures ReadExifDatetime(Some(JoinLines(lines))) == ParseExifTime(Strip(lines[i][|CreatedPrefix|..]))
  {
    SplitLinesOfJoinLines(lines);
  }

  /** `check_orientation`, given what `jhead` printed (`None` when it failed). */
  predicate CheckOrientation(out: Option<string>) {
    out.Some? && exists k :: 0 <= k < |SplitLines(out.value)| && HasSubstring(SplitLines(out.value)[k], "Orientation")
  }

  /** For output written line by line: some line mentions `Orientation`. */
  lemma CheckOrientationOfLines(lines: seq<string>)
    requires NoLineBreaks(lines)
    ensures CheckOrientation(Some(JoinLines(lines))) <==>
            exists k :: 0 <= k < |lines| && HasSubstring(lines[k], "Orientation")
  {
    SplitLinesOfJoinLines(lines);
  }

  // ---------------------------------------------------------------------
  // Names

  /** `re.sub(r"[^0-9]", "", stem)`: the digits of `s`, in order. */
  function SequenceToken(s: string): (r: string)
    ensures AllDigits(r) && |r| <= |s|
    ensures AllDigits(s) ==> r == s
  {
    if s == [] then []
    else (if IsDigit(s[0]) then [s[0]] else []) + SequenceToken(s[1..])
  }

  /** Stripping works piece by piece. */
  lemma {:induction false} SequenceTokenOfConcat(a: string, b: string)
    ensures SequenceToken(a + b) == SequenceToken(a) + SequenceToken(b)
  {
    if a != [] {
      var h := if IsDigit(a[0]) then [a[0]] else [];
      assert (a + b)[0] == a[0] && (a + b)[1..] == a[1..] + b;
      assert SequenceToken(a + b) == h + SequenceToken(a[1..] + b);
      SequenceTokenOfConcat(a[1..], b);
      assert SequenceToken(a) == h + SequenceToken(a[1..]);
    } else {
      assert a + b == b;
    }
  }

  /** No digit, no token. */
  lemma SequenceTokenNoDigits(s: string)
    requires forall i :: 0 <= i < |s| ==> !IsDigit(s[i])
    ensures SequenceToken(s) == []
  {
    if s != [] {
      SequenceTokenNoDigits(s[1..]);
    }
  }

  /** `f"{t:%Y%m%d-%H%M%S}-{seq}"` is made of digits and dashes. */
  lemma BaseNameChars(t: Instant, token: string)
    requires AllDigits(token)
    ensures forall i :: 0 <= i < |FormatCompact(t) + "-" + token| ==>
              IsDigit((FormatCompact(t) + "-" + token)[i]) || (FormatCompact(t) + "-" + token)[i] == '-'
  {
    var f := FormatCompact(t);
    forall i | 0 <= i < |f + "-" + token|
      ensures IsDigit((f + "-" + token)[i]) || (f + "-" + token)[i] == '-'
    {
      if i < 15 { assert (f + "-" + token)[i] == f[i]; }
    }
  }

  /**
   * `src.with_name(base).with_suffix(".jpg")`: the destination stays in the
   * source's directory and is named `YYYYMMDD-HHMMSS-<seq>.jpg`.
   */
  function DestinationFor(src: Path, t: Instant, token: string): (r: Path)
    requires AllDigits(token)
    ensures r == Path(src.parent, FormatCompact(t) + "-" + token + ".jpg")
    ensures IsName(r.name)
  {
    var base := FormatCompact(t) + "-" + token;
    BaseNameChars(t, token);
    assert '.' !in base && '/' !in base && base[0] != '.';
    NoDotNoSuffix(base);
    WithSuffixIsName(WithName(src, base), ".jpg");
    WithSuffix(WithName(src, base), ".jpg")
  }

  /** `dest.with_name(dest.name + f".orig-{int(time.time())}")`. */
  function BackupFor(dest: Path, clock: nat): (r: Path)
    requires IsName(dest.name)
    ensures PathString(r) == PathString(dest) + ".orig-" + NatToString(clock)
  {
    var tag := ".orig-" + NatToString(clock);
    OrigTagNoSlash(clock);
    PathStringOfExtendedName(dest, tag);
    AppendAssoc(PathString(dest), ".orig-", NatToString(clock));
    WithName(dest, dest.name + tag)
  }

  lemma OrigTagNoSlash(clock: nat)
    ensures '/' !in ".orig-" + NatToString(clock)
  {
    var tag, n := ".orig-", NatToString(clock);
    forall j | 0 <= j < |tag + n|
      ensures (tag + n)[j] != '/'
    {
      if j >= |tag| { assert (tag + n)[j] == n[j - |tag|] && IsDigit(n[j - |tag|]); }
    }
  }

  /** `not (no_rotate or not orientation)`. */
  function RotateFlag(orientation: bool, noRotate: bool): (r: bool)
    ensures r <==> orientation && !noRotate
  {
    !(noRotate || !orientation)
  }

  // ---------------------------------------------------------------------
  // The time a file is named after

  /** `3600 * 24 * 365 * 15` seconds after 1970-01-01: anything earlier is not believed. */
  const Floor: int := 3600 * 24 * 365 * 15

  const NoExifNote: string := "No EXIF creation date."

  function ImplausibleNote(m: int): string {
    "EXIF data isn't believable (" + IntToString(m) + ").  Using file date."
  }

  /** What was printed, and the time chosen (`None`: the addition overflowed). */
  datatype Resolution = Resolution(notes: seq<string>, time: Option<Instant>)

  /**
   * The time `rename_files` names a file after: the EXIF time (or, without
   * one, the modification time) plus the offset; if that is before the
   * floor, the modification time plus the offset, which is not checked again.
   */
  function ResolveTime(exif: Option<Instant>, mtime: Instant, offset: int): (r: Resolution)
    ensures r.time.Some? ==>
              r.time.value == (if exif.Some? && exif.value + offset >= Floor then exif.value + offset else mtime + offset)
    ensures var dt := if exif.Some? then exif.value else mtime;
            r.time.None? <==> !InRange(dt + offset) || (dt + offset < Floor && !InRange(mtime + offset))
    ensures exif.None? <==> (|r.notes| > 0 && r.notes[0] == NoExifNote)
    ensures var dt := if exif.Some? then exif.value else mtime;
            (InRange(dt + offset) && dt + offset < Floor) <==> (|r.notes| > 0 && r.notes[|r.notes| - 1] == ImplausibleNote(dt + offset))
  {
    var pre := if exif.None? then [NoExifNote] else [];
    var dt := if exif.Some? then exif.value else mtime;
    if !InRange(dt + offset) then Resolution(pre, None)
    else if dt + offset < Floor then
      var notes := pre + [ImplausibleNote(dt + offset)];
      assert NoExifNote[0] != ImplausibleNote(dt + offset)[0];
      Resolution(notes, if InRange(mtime + offset) then Some(mtime + offset) else None)
    else Resolution(pre, Some(dt + offset))
  }

  /** The fallback is not checked again: an implausible modification time is used as it is. */
  lemma FallbackNotRechecked(exif: Instant, mtime: Instant, offset: int)
    requires InRange(exif + offset) && exif + offset < Floor
    requires InRange(mtime + offset) && mtime + offset < Floor
    ensures ResolveTime(Some(exif), mtime, offset).time == Some(mtime + offset)
    ensures ResolveTime(Some(exif), mtime, offset).notes == [ImplausibleNote(exif + offset)]
  {
  }

  // ---------------------------------------------------------------------
  // Moving one file

  const SkipNote: string := "    File already exists, skipping!"

  /** `mv -i src dest`, the move without rotation. */
  function PlainMove(src: Path, dest: Path): Command {
    Move("mv", true, PathString(src), PathString(dest))
  }

  /** `do_move(src, dest, backup, rotate, dryrun)`. */
  function DoMoveSpec(w: World, src: Path, dest: Path, backup: Path, rotate: bool, dryrun: bool): World {
    var s, d, b := PathString(src), PathString(dest), PathString(backup);
    if !rotate then
      if dryrun then Saying(w, CommandLine(PlainMove(src, dest))) else Running(w, PlainMove(src, dest))
    else if dryrun then
      SayingAll(w, [CommandLine(Move("mv", true, s, b)), CommandLine(Exiftran(b, d)), "rm " + b])
    else
      var w1 := Saying(w, s + " ==> " + d + " ...");
      if d in w.files || b in w.files then Saying(w1, SkipNote)
      else Unlinking(Running(Running(w1, Move("mv", true, s, b)), Exiftran(b, d)), b)
  }

  /** `r` is `w` with only lines printed after it. */
  predicate PrintsOnly(w: World, r: World) {
    && r.files == w.files
    && |w.log| <= |r.log|
    && r.log[..|w.log|] == w.log
    && OnlyPrinted(r.log[|w.log|..])
  }

  lemma PrintsOnlyTransitive(a: World, b: World, c: World)
    requires PrintsOnly(a, b) && PrintsOnly(b, c)
    ensures PrintsOnly(a, c)
  {
    assert c.log[..|a.log|] == c.log[..|b.log|][..|a.log|];
    forall k | 0 <= k < |c.log| - |a.log|
      ensures c.log[|a.log|..][k].Said?
    {
      if k < |b.log| - |a.log| {
        assert c.log[|a.log|..][k] == b.log[|a.log|..][k];
      } else {
        assert c.log[|a.log|..][k] == c.log[|b.log|..][k - (|b.log| - |a.log|)];
      }
    }
  }

  lemma SayingPrintsOnly(w: World, line: string)
    ensures PrintsOnly(w, Saying(w, line))
  {
    assert Saying(w, line).log[..|w.log|] == w.log;
  }

  /** In a dry run `do_move` only prints. */
  lemma DoMoveDryRun(w: World, src: Path, dest: Path, backup: Path, rotate: bool)
    ensures PrintsOnly(w, DoMoveSpec(w, src, dest, backup, rotate, true))
  {
    var r := DoMoveSpec(w, src, dest, backup, rotate, true);
    if rotate {
      assert r.log[..|w.log|] == w.log;
      assert forall k :: 0 <= k < |r.log| - |w.log| ==> r.log[|w.log|..][k] == r.log[|w.log| + k];
    } else {
      SayingPrintsOnly(w, CommandLine(PlainMove(src, dest)));
    }
  }

  /** Rotating for real when the destination or the backup exists: a message, and nothing is run. */
  lemma DoMoveSkips(w: World, src: Path, dest: Path, backup: Path)
    requires PathString(dest) in w.files || PathString(backup) in w.files
    ensures PrintsOnly(w, DoMoveSpec(w, src, dest, backup, true, false))
    ensures DoMoveSpec(w, src, dest, backup, true, false).log[|w.log| + 1..] == [Said(SkipNote)]
  {
    var w1 := Saying(w, PathString(src) + " ==> " + PathString(dest) + " ...");
    SayingPrintsOnly(w, PathString(src) + " ==> " + PathString(dest) + " ...");
    SayingPrintsOnly(w1, SkipNote);
    PrintsOnlyTransitive(w, w1, Saying(w1, SkipNote));
  }

  /**
   * Rotating for real with neither destination nor backup present: the
   * backup move, the transform and the deletion of the backup run in this
   * order, and the source ends up at the destination.
   */
  lemma DoMoveRotates(w: World, src: Path, dest: Path, backup: Path)
    requires PathString(src) in w.files
    requires PathString(dest) !in w.files && PathString(backup) !in w.files
    requires PathString(dest) != PathString(backup)
    ensures var r := DoMoveSpec(w, src, dest, backup, true, false);
            && r.files == w.files - {PathString(src)} + {PathString(dest)}
            && r.log[|w.log| + 1..] == [Ran(Move("mv", true, PathString(src), PathString(backup))),
                                        Ran(Exiftran(PathString(backup), PathString(dest))),
                                        Unlinked(PathString(backup))]
  {
  }

  /** Without rotation there is no existence check: the `mv -i` runs whatever is on disk. */
  lemma DoMovePlainUnchecked(w: World, src: Path, dest: Path, backup: Path)
    ensures var r := DoMoveSpec(w, src, dest, backup, false, false);
            r.log == w.log + [Ran(Move("mv", true, PathString(src), PathString(dest)))]
  {
  }

  /** `do_move` on the disk. */
  method DoMove(fs: FileSystem, src: Path, dest: Path, backup: Path, rotate: bool, dryrun: bool)
    modifies fs
    ensures fs.State() == DoMoveSpec(old(fs.State()), src, dest, backup, rotate, dryrun)
  {
    var s, d, b := PathString(src), PathString(dest), PathString(backup);
    if !rotate {
      var cmd := Move("mv", true, s, d);
      if dryrun {
        fs.Say(CommandLine(cmd));
      } else {
        fs.Run(cmd);
      }
      return;
    }
    var cmdBackup := Move("mv", true, s, b);
    var cmdTransform := Exiftran(b, d);
    if dryrun {
      ghost var w0 := fs.State();
      fs.Say(CommandLine(cmdBackup));
      fs.Say(CommandLine(cmdTransform));
      fs.Say("rm " + b);
      assert fs.State() == SayingAll(w0, [CommandLine(cmdBackup), CommandLine(cmdTransform), "rm " + b]);
      return;
    }
    fs.Say(s + " ==> " + d + " ...");
    if fs.Exists(d) || fs.Exists(b) {
      fs.Say(SkipNote);
      return;
    }
    fs.Run(cmdBackup);
    fs.Run(cmdTransform);
    fs.Unlink(b);
  }

  // ---------------------------------------------------------------------
  // Sidecars and raw twins

  /** One call of `do_move`, as the test suite records it. */
  datatype MoveCall = MoveCall(src: Path, dest: Path, rotate: bool)

  /** The disk afterwards, the names added to `created` and the `do_move` calls made. */
  datatype Step = Step(world: World, created: seq<string>, moves: seq<MoveCall>)

  /** `src.with_name(src.name + ".xmp")`. */
  function Sidecar(p: Path): (r: Path)
    requires IsName(p.name)
    ensures IsName(r.name) && PathString(r) == PathString(p) + ".xmp"
  {
    PathStringOfExtendedName(p, ".xmp");
    WithName(p, p.name + ".xmp")
  }

  /** `rename_xmp(src, dest, dryrun)`: the sidecar follows, if there is one. */
  function XmpStep(w: World, src: Path, dest: Path, dryrun: bool): Step
    requires IsName(src.name) && IsName(dest.name)
  {
    if PathString(Sidecar(src)) !in w.files then Step(w, [], [])
    else
      Step(DoMoveSpec(w, Sidecar(src), Sidecar(dest), Root, false, dryrun),
           [PathString(Sidecar(dest))],
           [MoveCall(Sidecar(src), Sidecar(dest), false)])
  }

  /** `rename_xmp` on the disk. */
  method RenameXmp(fs: FileSystem, src: Path, dest: Path, dryrun: bool) returns (created: seq<string>)
    requires IsName(src.name) && IsName(dest.name)
    modifies fs
    ensures fs.State() == XmpStep(old(fs.State()), src, dest, dryrun).world
    ensures created == XmpStep(old(fs.State()), src, dest, dryrun).created
  {
    var xmpSrc := Sidecar(src);
    if !fs.Exists(PathString(xmpSrc)) {
      return [];
    }
    var xmpDest := Sidecar(dest);
    DoMove(fs, xmpSrc, xmpDest, Root, false, dryrun);
    return [PathString(xmpDest)];
  }

  /** A raw twin `raw` that exists moves (unrotated) to `target`, its sidecar with it. */
  function RawStep(w: World, raw: Path, target: Path, dryrun: bool): Step
    requires IsName(raw.name) && IsName(target.name)
  {
    if PathString(raw) !in w.files then Step(w, [], [])
    else
      var w1 := DoMoveSpec(w, raw, target, Root, false, dryrun);
      var x := XmpStep(w1, raw, target, dryrun);
      Step(x.world, [PathString(target)] + x.created, [MoveCall(raw, target, false)] + x.moves)
  }

  /** `src.with_suffix("").with_suffix(ext)`: the raw twin's name. */
  function RawTwin(src: Path, ext: string): (r: Path)
    requires IsName(src.name) && IsSuffix(ext)
    ensures IsName(r.name)
  {
    WithSuffixIsName(StripSuffix(src), ext);
    WithSuffix(StripSuffix(src), ext)
  }

  /** The raw twin drops the last two suffixes of the source's name, as pathlib does. */
  lemma RawTwinName(src: Path, ext: string)
    requires IsName(src.name) && IsSuffix(ext)
    ensures RawTwin(src, ext) == Path(src.parent, Stem(Stem(src.name)) + ext)
    ensures RawTwin(src, ext) == WithSuffix(WithSuffix(src, ""), ext)
  {
    WithEmptySuffix(src);
  }

  /** `dest.with_suffix(ext)`: where a raw twin goes. */
  function TargetTwin(dest: Path, ext: string): (r: Path)
    requires IsName(dest.name) && IsSuffix(ext)
    ensures IsName(r.name) && r == Path(dest.parent, Stem(dest.name) + ext)
  {
    WithSuffixIsName(dest, ext);
    WithSuffix(dest, ext)
  }

  // ---------------------------------------------------------------------
  // One source file, and all of them

  /** The moves `rename_files` makes for one file, once its destination is known. */
  datatype Act =
    | MoveAct(src: Path, dest: Path, backup: Path, rotate: bool)  // do_move of the file itself
    | SidecarAct(src: Path, dest: Path)                           // rename_xmp
    | RawAct(raw: Path, target: Path)                             // a raw twin, if it exists, and its sidecar

  predicate ActOk(a: Act) {
    match a
    case MoveAct(_, _, _, _) => true
    case SidecarAct(s, d) => IsName(s.name) && IsName(d.name)
    case RawAct(r, t) => IsName(r.name) && IsName(t.name)
  }

  predicate AllOk(acts: seq<Act>) {
    forall k :: 0 <= k < |acts| ==> ActOk(acts[k])
  }

  function ActStep(w: World, a: Act, dryrun: bool): Step
    requires ActOk(a)
  {
    match a
    case MoveAct(src, dest, backup, rotate) =>
      Step(DoMoveSpec(w, src, dest, backup, rotate, dryrun), [PathString(dest)], [MoveCall(src, dest, rotate)])
    case SidecarAct(src, dest) => XmpStep(w, src, dest, dryrun)
    case RawAct(raw, target) => RawStep(w, raw, target, dryrun)
  }

  /** The acts one after the other, each on the disk the previous one left. */
  function Perform(w: World, acts: seq<Act>, dryrun: bool): Step
    requires AllOk(acts)
    decreases |acts|
  {
    if acts == [] then Step(w, [], [])
    else
      var s := ActStep(w, acts[0], dryrun);
      var rest := Perform(s.world, acts[1..], dryrun);
      Step(rest.world, s.created + rest.created, s.moves + rest.moves)
  }

  /**
   * The body of `rename_files` after the names are computed: the file, its
   * sidecar, the `.CR2` twin as `.cr2`, the `.RAF` twin as `.raf`.
   */
  function Plan(src: Path, dest: Path, backup: Path, rotate: bool): (acts: seq<Act>)
    requires IsName(src.name) && IsName(dest.name)
    ensures AllOk(acts) && |acts| == 4
  {
    [MoveAct(src, dest, backup, rotate),
     SidecarAct(src, dest),
     RawAct(RawTwin(src, ".CR2"), TargetTwin(dest, ".cr2")),
     RawAct(RawTwin(src, ".RAF"), TargetTwin(dest, ".raf"))]
  }

  /** What the external tools and the file system report about one source file. */
  datatype Probe = Probe(exiftags: Option<string>, jhead: Option<string>, mtime: Instant, clock: nat)

  datatype Input = Input(src: Path, probe: Probe)

  /**
   * The result so far; `crashed` when an exception ended `rename_files`: an
   * `OverflowError` from the time arithmetic, or the `ValueError` of
   * `with_name` on a path without a final component (`.`, `/`).
   */
  datatype Outcome = Outcome(world: World, created: seq<string>, moves: seq<MoveCall>, crashed: bool)

  /** The time a file is named after, `None` when computing it overflows. */
  function NamingTime(p: Probe, offset: int): Option<Instant> {
    ResolveTime(ReadExifDatetime(p.exiftags), p.mtime, offset).time
  }

  /** The destination of `src` when it is named after `t`. */
  function FileDest(src: Path, t: Instant): (r: Path)
    requires IsName(src.name)
    ensures IsName(r.name)
  {
    DestinationFor(src, t, SequenceToken(Stem(src.name)))
  }

  /** The acts for `src` named after `t`, with the backup stamped `clock`. */
  function FilePlan(src: Path, t: Instant, clock: nat, rotate: bool): (acts: seq<Act>)
    requires IsName(src.name)
    ensures AllOk(acts) && |acts| == 4
  {
    Plan(src, FileDest(src, t), BackupFor(FileDest(src, t), clock), rotate)
  }

  /** The body of the loop in `rename_files` for one source file. */
  function RenameOne(w: World, src: Path, p: Probe, offset: int, dryrun: bool, noRotate: bool): (o: Outcome)
  {
    var res := ResolveTime(ReadExifDatetime(p.exiftags), p.mtime, offset);
    var w1 := SayingAll(w, res.notes);
    if res.time.None? || !IsName(src.name) then Outcome(w1, [], [], true)
    else
      var s := Perform(w1, FilePlan(src, res.time.value, p.clock, RotateFlag(CheckOrientation(p.jhead), noRotate)), dryrun);
      Outcome(s.world, s.created, s.moves, false)
  }

  /** `rename_files` over `inputs`, file after file, stopping at the first crash. */
  function RenameAll(w: World, inputs: seq<Input>, offset: int, dryrun: bool, noRotate: bool): Outcome
    decreases |inputs|
  {
    if inputs == [] then Outcome(w, [], [], false)
    else
      var last := inputs[|inputs| - 1];
      var prev := RenameAll(w, inputs[..|inputs| - 1], offset, dryrun, noRotate);
      if prev.crashed then prev
      else
        var o := RenameOne(prev.world, last.src, last.probe, offset, dryrun, noRotate);
        Outcome(o.world, prev.created + o.created, prev.moves + o.moves, o.crashed)
  }

  // ---------------------------------------------------------------------
  // What `rename_files` promises

  /** `created[k]` names the destination of the `k`-th `do_move` call. */
  predicate Recorded(created: seq<string>, moves: seq<MoveCall>) {
    |created| == |moves| && forall k :: 0 <= k < |moves| ==> created[k] == PathString(moves[k].dest)
  }

  /** None of `moves` rotates. */
  predicate Unrotated(moves: seq<MoveCall>) {
    forall k :: 0 <= k < |moves| ==> !moves[k].rotate
  }

  lemma RecordedConcat(c1: seq<string>, m1: seq<MoveCall>, c2: seq<string>, m2: seq<MoveCall>)
    requires Recorded(c1, m1) && Recorded(c2, m2)
    ensures Recorded(c1 + c2, m1 + m2)
  {
    forall k | 0 <= k < |m1 + m2|
      ensures (c1 + c2)[k] == PathString((m1 + m2)[k].dest)
    {
      if k >= |m1| {
        assert (c1 + c2)[k] == c2[k - |c1|] && (m1 + m2)[k] == m2[k - |m1|];
      }
    }
  }

  lemma UnrotatedConcat(m1: seq<MoveCall>, m2: seq<MoveCall>)
    requires Unrotated(m1) && Unrotated(m2)
    ensures Unrotated(m1 + m2)
  {
    forall k | 0 <= k < |m1 + m2|
      ensures !(m1 + m2)[k].rotate
    {
      if k >= |m1| { assert (m1 + m2)[k] == m2[k - |m1|]; }
    }
  }

  /** Each act records the moves it makes; only the move of the file itself may rotate. */
  lemma ActStepMoves(w: World, a: Act, dryrun: bool)
    requires ActOk(a)
    ensures var s := ActStep(w, a, dryrun);
            && Recorded(s.created, s.moves)
            && (a.MoveAct? ==> s.moves == [MoveCall(a.src, a.dest, a.rotate)])
            && (!a.MoveAct? ==> Unrotated(s.moves))
  {
    if a.RawAct? && PathString(a.raw) in w.files {
      var w1 := DoMoveSpec(w, a.raw, a.target, Root, false, dryrun);
      var x := XmpStep(w1, a.raw, a.target, dryrun);
      RecordedConcat([PathString(a.target)], [MoveCall(a.raw, a.target, false)], x.created, x.moves);
      UnrotatedConcat([MoveCall(a.raw, a.target, false)], x.moves);
    }
  }

  /** Over a sequence of acts, `created` lists the destinations of all moves, in order. */
  lemma {:induction false} PerformMoves(w: World, acts: seq<Act>, dryrun: bool)
    requires AllOk(acts)
    ensures var s := Perform(w, acts, dryrun);
            && Recorded(s.created, s.moves)
            && ((forall k :: 0 <= k < |acts| ==> !acts[k].MoveAct?) ==> Unrotated(s.moves))
    decreases |acts|
  {
    if acts != [] {
      var s := ActStep(w, acts[0], dryrun);
      var rest := Perform(s.world, acts[1..], dryrun);
      ActStepMoves(w, acts[0], dryrun);
      PerformMoves(s.world, acts[1..], dryrun);
      RecordedConcat(s.created, s.moves, rest.created, rest.moves);
      if forall k :: 0 <= k < |acts| ==> !acts[k].MoveAct? {
        assert !acts[0].MoveAct?;
        assert forall k :: 0 <= k < |acts[1..]| ==> acts[1..][k] == acts[k + 1];
        UnrotatedConcat(s.moves, rest.moves);
      }
    }
  }

  /** When only the first act is a move, the first move is its own and the rest are unrotated. */
  lemma PerformLeadingMove(w: World, acts: seq<Act>, dryrun: bool)
    requires AllOk(acts) && |acts| >= 1 && acts[0].MoveAct?
    requires forall k :: 1 <= k < |acts| ==> !acts[k].MoveAct?
    ensures var s := Perform(w, acts, dryrun);
            && Recorded(s.created, s.moves)
            && |s.moves| >= 1
            && s.moves[0] == MoveCall(acts[0].src, acts[0].dest, acts[0].rotate)
            && Unrotated(s.moves[1..])
  {
    var s0 := ActStep(w, acts[0], dryrun);
    var rest := Perform(s0.world, acts[1..], dryrun);
    ActStepMoves(w, acts[0], dryrun);
    assert forall k :: 0 <= k < |acts[1..]| ==> acts[1..][k] == acts[k + 1];
    PerformMoves(s0.world, acts[1..], dryrun);
    RecordedConcat(s0.created, s0.moves, rest.created, rest.moves);
    assert (s0.moves + rest.moves)[1..] == rest.moves;
  }

  /** The plan's first move is the file's own; all later ones are unrotated. */
  lemma PlanMoves(w: World, src: Path, dest: Path, backup: Path, rotate: bool, dryrun: bool)
    requires IsName(src.name) && IsName(dest.name)
    ensures var s := Perform(w, Plan(src, dest, backup, rotate), dryrun);
            && Recorded(s.created, s.moves)
            && |s.moves| >= 1
            && s.moves[0] == MoveCall(src, dest, rotate)
            && Unrotated(s.moves[1..])
  {
    PerformLeadingMove(w, Plan(src, dest, backup, rotate), dryrun);
  }

  /**
   * The primary file is moved first, rotated exactly when `jhead` reports an
   * orientation and rotation is not switched off; every later move (sidecars,
   * raw twins) is unrotated; `created` lists the destinations of the moves in
   * the order they were made.
   */
  lemma RenameOneMoves(w: World, src: Path, p: Probe, offset: int, dryrun: bool, noRotate: bool)
    ensures var o := RenameOne(w, src, p, offset, dryrun, noRotate);
            !o.crashed ==>
              && Recorded(o.created, o.moves)
              && |o.moves| >= 1
              && o.moves[0].src == src
              && o.moves[0].rotate == (CheckOrientation(p.jhead) && !noRotate)
              && Unrotated(o.moves[1..])
  {
    var res := ResolveTime(ReadExifDatetime(p.exiftags), p.mtime, offset);
    var w1 := SayingAll(w, res.notes);
    if res.time.Some? && IsName(src.name) {
      var dest := FileDest(src, res.time.value);
      PlanMoves(w1, src, dest, BackupFor(dest, p.clock), RotateFlag(CheckOrientation(p.jhead), noRotate), dryrun);
    }
  }

  lemma SayingAllPrintsOnly(w: World, lines: seq<string>)
    ensures PrintsOnly(w, SayingAll(w, lines))
  {
    var r := SayingAll(w, lines);
    assert r.log[..|w.log|] == w.log;
    assert forall k :: 0 <= k < |r.log| - |w.log| ==> r.log[|w.log|..][k] == r.log[|w.log| + k];
  }

  /**
   * An overflow, or a source path without a final component, ends the run
   * before anything is moved: only the notes were printed.
   */
  lemma RenameOneCrash(w: World, src: Path, p: Probe, offset: int, dryrun: bool, noRotate: bool)
    ensures var o := RenameOne(w, src, p, offset, dryrun, noRotate);
            && (o.crashed <==> NamingTime(p, offset).None? || !IsName(src.name))
            && (o.crashed ==> PrintsOnly(w, o.world) && o.created == [])
  {
    var res := ResolveTime(ReadExifDatetime(p.exiftags), p.mtime, offset);
    SayingAllPrintsOnly(w, res.notes);
  }

  lemma PrintsOnlyRefl(w: World)
    ensures PrintsOnly(w, w)
  {
    assert w.log[..|w.log|] == w.log;
  }

  /** In a dry run every act only prints. */
  lemma ActStepDryRun(w: World, a: Act)
    requires ActOk(a)
    ensures PrintsOnly(w, ActStep(w, a, true).world)
  {
    match a
    case MoveAct(src, dest, backup, rotate) =>
      DoMoveDryRun(w, src, dest, backup, rotate);
    case SidecarAct(src, dest) =>
      if PathString(Sidecar(src)) in w.files {
        DoMoveDryRun(w, Sidecar(src), Sidecar(dest), Root, false);
      } else {
        PrintsOnlyRefl(w);
      }
    case RawAct(raw, target) =>
      if PathString(raw) in w.files {
        var w1 := DoMoveSpec(w, raw, target, Root, false, true);
        DoMoveDryRun(w, raw, target, Root, false);
        if PathString(Sidecar(raw)) in w1.files {
          DoMoveDryRun(w1, Sidecar(raw), Sidecar(target), Root, false);
          PrintsOnlyTransitive(w, w1, XmpStep(w1, raw, target, true).world);
        }
      } else {
        PrintsOnlyRefl(w);
      }
  }

  /** In a dry run a sequence of acts only prints. */
  lemma {:induction false} PerformDryRun(w: World, acts: seq<Act>)
    requires AllOk(acts)
    ensures PrintsOnly(w, Perform(w, acts, true).world)
    decreases |acts|
  {
    if acts == [] {
      PrintsOnlyRefl(w);
    } else {
      var s := ActStep(w, acts[0], true);
      ActStepDryRun(w, acts[0]);
      PerformDryRun(s.world, acts[1..]);
      PrintsOnlyTransitive(w, s.world, Perform(s.world, acts[1..], true).world);
    }
  }

  /** In a dry run one source file only prints. */
  lemma RenameOneDryRun(w: World, src: Path, p: Probe, offset: int, noRotate: bool)
    ensures PrintsOnly(w, RenameOne(w, src, p, offset, true, noRotate).world)
  {
    var res := ResolveTime(ReadExifDatetime(p.exiftags), p.mtime, offset);
    var w1 := SayingAll(w, res.notes);
    SayingAllPrintsOnly(w, res.notes);
    if res.time.Some? && IsName(src.name) {
      var plan := FilePlan(src, res.time.value, p.clock, RotateFlag(CheckOrientation(p.jhead), noRotate));
      PerformDryRun(w1, plan);
      PrintsOnlyTransitive(w, w1, Perform(w1, plan, true).world);
    }
  }

  /** What `rename_xmp` appends for a source `s` moved to `d`, judged on the disk `files`. */
  function SidecarNames(files: set<string>, s: string, d: string): seq<string> {
    if s + ".xmp" in files then [d + ".xmp"] else []
  }

  /** What a raw twin `s` adds, with its sidecar, judged on the disk `files`. */
  function RawNames(files: set<string>, s: string, d: string): seq<string> {
    if s in files then [d] + SidecarNames(files, s, d) else []
  }

  /** The names an act adds to `created`, judged on the disk `files`. */
  function ActNames(files: set<string>, a: Act): seq<string> {
    match a
    case MoveAct(_, dest, _, _) => [PathString(dest)]
    case SidecarAct(src, dest) => SidecarNames(files, PathString(src), PathString(dest))
    case RawAct(raw, target) => RawNames(files, PathString(raw), PathString(target))
  }

  function PlannedNames(files: set<string>, acts: seq<Act>): seq<string>
    decreases |acts|
  {
    if acts == [] then [] else ActNames(files, acts[0]) + PlannedNames(files, acts[1..])
  }

  lemma ActStepDryRunNames(w: World, a: Act)
    requires ActOk(a)
    ensures ActStep(w, a, true).created == ActNames(w.files, a)
  {
    if a.RawAct? && PathString(a.raw) in w.files {
      DoMoveDryRun(w, a.raw, a.target, Root, false);
    }
  }

  /** In a dry run the disk never changes, so every existence test sees the disk the run started on. */
  lemma {:induction false} PerformDryRunNames(w: World, acts: seq<Act>)
    requires AllOk(acts)
    ensures Perform(w, acts, true).created == PlannedNames(w.files, acts)
    decreases |acts|
  {
    if acts != [] {
      var s := ActStep(w, acts[0], true);
      ActStepDryRun(w, acts[0]);
      ActStepDryRunNames(w, acts[0]);
      PerformDryRunNames(s.world, acts[1..]);
    }
  }

  lemma PlannedNamesCons(files: set<string>, a: Act, rest: seq<Act>)
    ensures PlannedNames(files, [a] + rest) == ActNames(files, a) + PlannedNames(files, rest)
  {
    assert ([a] + rest)[0] == a && ([a] + rest)[1..] == rest;
  }

  /** The names a plan adds in a dry run, judged on the disk it starts on, one act after the other. */
  lemma PlanNames(files: set<string>, src: Path, dest: Path, backup: Path, rotate: bool)
    requires IsName(src.name) && IsName(dest.name)
    ensures PlannedNames(files, Plan(src, dest, backup, rotate)) ==
              [PathString(dest)]
              + SidecarNames(files, PathString(src), PathString(dest))
              + RawNames(files, PathString(RawTwin(src, ".CR2")), PathString(TargetTwin(dest, ".cr2")))
              + RawNames(files, PathString(RawTwin(src, ".RAF")), PathString(TargetTwin(dest, ".raf")))
  {
    var plan := Plan(src, dest, backup, rotate);
    PlannedNamesCons(files, plan[3], []);
    assert [plan[3]] + [] == [plan[3]];
    PlannedNamesCons(files, plan[2], [plan[3]]);
    assert [plan[2]] + [plan[3]] == [plan[2], plan[3]];
    PlannedNamesCons(files, plan[1], [plan[2], plan[3]]);
    assert [plan[1]] + [plan[2], plan[3]] == [plan[1], plan[2], plan[3]];
    PlannedNamesCons(files, plan[0], [plan[1], plan[2], plan[3]]);
    assert [plan[0]] + [plan[1], plan[2], plan[3]] == plan;
  }

  /** The destination of a file named after `t`, with a different suffix. */
  lemma FileDestTwin(src: Path, t: Instant, ext: string)
    requires IsName(src.name) && IsSuffix(ext)
    ensures var base := FormatCompact(t) + "-" + SequenceToken(Stem(src.name));
            && FileDest(src, t) == Path(src.parent, base + ".jpg")
            && TargetTwin(FileDest(src, t), ext) == Path(src.parent, base + ext)
  {
    var token := SequenceToken(Stem(src.name));
    var base := FormatCompact(t) + "-" + token;
    BaseNameChars(t, token);
    assert base != [] && '.' !in ".jpg"[1..];
    SuffixOfAppended(base, ".jpg");
  }

  /**
   * The order of `created` for one source file, in a dry run: the
   * destination; its sidecar if `<src name>.xmp` exists; the `.cr2` twin and
   * its sidecar if `<stem>.CR2` exists; the `.raf` twin and its sidecar if
   * `<stem>.RAF` exists. The destination is listed whatever `do_move` did.
   */
  lemma RenameOneDryRunOrder(w: World, src: Path, p: Probe, offset: int, noRotate: bool)
    requires IsName(src.name) && NamingTime(p, offset).Some?
    ensures var base := FormatCompact(NamingTime(p, offset).value) + "-" + SequenceToken(Stem(src.name));
            var d := PathString(Path(src.parent, base + ".jpg"));
            var cr2 := PathString(Path(src.parent, Stem(Stem(src.name)) + ".CR2"));
            var raf := PathString(Path(src.parent, Stem(Stem(src.name)) + ".RAF"));
            RenameOne(w, src, p, offset, true, noRotate).created ==
              [d]
              + SidecarNames(w.files, PathString(src), d)
              + RawNames(w.files, cr2, PathString(Path(src.parent, base + ".cr2")))
              + RawNames(w.files, raf, PathString(Path(src.parent, base + ".raf")))
  {
    var res := ResolveTime(ReadExifDatetime(p.exiftags), p.mtime, offset);
    var w1 := SayingAll(w, res.notes);
    var t := res.time.value;
    var dest := FileDest(src, t);
    SayingAllPrintsOnly(w, res.notes);
    var backup, rotate := BackupFor(dest, p.clock), RotateFlag(CheckOrientation(p.jhead), noRotate);
    PerformDryRunNames(w1, Plan(src, dest, backup, rotate));
    PlanNames(w1.files, src, dest, backup, rotate);
    FileDestTwin(src, t, ".cr2");
    FileDestTwin(src, t, ".raf");
    RawTwinName(src, ".CR2");
    RawTwinName(src, ".RAF");
  }

  /** The crash of one file ends `rename_files`: later files change nothing. */
  lemma {:induction false} RenameAllCrashPersists(w: World, inputs: seq<Input>, i: nat, offset: int, dryrun: bool, noRotate: bool)
    requires i <= |inputs|
    requires RenameAll(w, inputs[..i], offset, dryrun, noRotate).crashed
    ensures RenameAll(w, inputs, offset, dryrun, noRotate) == RenameAll(w, inputs[..i], offset, dryrun, noRotate)
    decreases |inputs|
  {
    if i < |inputs| {
      var front := inputs[..|inputs| - 1];
      assert front[..i] == inputs[..i];
      RenameAllCrashPersists(w, front, i, offset, dryrun, noRotate);
    } else {
      assert inputs[..i] == inputs;
    }
  }

  /** A whole dry run only prints: the disk is as it was and no command ran. */
  lemma {:induction false} RenameAllDryRun(w: World, inputs: seq<Input>, offset: int, noRotate: bool)
    ensures PrintsOnly(w, RenameAll(w, inputs, offset, true, noRotate).world)
    decreases |inputs|
  {
    if inputs == [] {
      PrintsOnlyRefl(w);
    } else {
      var last := inputs[|inputs| - 1];
      var prev := RenameAll(w, inputs[..|inputs| - 1], offset, true, noRotate);
      RenameAllDryRun(w, inputs[..|inputs| - 1], offset, noRotate);
      if !prev.crashed {
        RenameOneDryRun(prev.world, last.src, last.probe, offset, noRotate);
        PrintsOnlyTransitive(w, prev.world, RenameOne(prev.world, last.src, last.probe, offset, true, noRotate).world);
      }
    }
  }

  /** Over all files, `created` names the destinations of the `do_move` calls, in order. */
  lemma {:induction false} RenameAllRecorded(w: World, inputs: seq<Input>, offset: int, dryrun: bool, noRotate: bool)
    ensures var o := RenameAll(w, inputs, offset, dryrun, noRotate);
            !o.crashed ==> Recorded(o.created, o.moves)
    decreases |inputs|
  {
    if inputs != [] {
      var last := inputs[|inputs| - 1];
      var prev := RenameAll(w, inputs[..|inputs| - 1], offset, dryrun, noRotate);
      RenameAllRecorded(w, inputs[..|inputs| - 1], offset, dryrun, noRotate);
      if !prev.crashed {
        var o := RenameOne(prev.world, last.src, last.probe, offset, dryrun, noRotate);
        RenameOneMoves(prev.world, last.src, last.probe, offset, dryrun, noRotate);
        if !o.crashed {
          RecordedConcat(prev.created, prev.moves, o.created, o.moves);
        }
      }
    }
  }

  // ---------------------------------------------------------------------
  // The loop on the disk

  /** The overflow-checked time computation of `rename_files`, printing as it goes. */
  method Resolve(fs: FileSystem, exif: Option<Instant>, mtime: Instant, offset: int) returns (t: Option<Instant>)
    modifies fs
    ensures fs.State() == SayingAll(old(fs.State()), ResolveTime(exif, mtime, offset).notes)
    ensures t == ResolveTime(exif, mtime, offset).time
  {
    ghost var w0 := fs.State();
    var dt: int;
    if exif.None? {
      fs.Say(NoExifNote);
      dt := mtime;
    } else {
      dt := exif.value;
    }
    ghost var pre := if exif.None? then [NoExifNote] else [];
    assert fs.State() == SayingAll(w0, pre);
    if !InRange(dt + offset) {
      assert ResolveTime(exif, mtime, offset) == Resolution(pre, None);
      return None;
    }
    var m := dt + offset;
    if m < Floor {
      fs.Say(ImplausibleNote(m));
      ghost var notes := pre + [ImplausibleNote(m)];
      assert fs.State() == SayingAll(w0, notes);
      if !InRange(mtime + offset) {
        assert ResolveTime(exif, mtime, offset) == Resolution(notes, None);
        return None;
      }
      m := mtime + offset;
      assert ResolveTime(exif, mtime, offset) == Resolution(notes, Some(m));
    } else {
      assert ResolveTime(exif, mtime, offset) == Resolution(pre, Some(m));
    }
    return Some(m);
  }

  /** A raw twin, when it exists, follows with its sidecar. */
  method RenameRaw(fs: FileSystem, raw: Path, target: Path, dryrun: bool) returns (created: seq<string>)
    requires IsName(raw.name) && IsName(target.name)
    modifies fs
    ensures fs.State() == RawStep(old(fs.State()), raw, target, dryrun).world
    ensures created == RawStep(old(fs.State()), raw, target, dryrun).created
  {
    if !fs.Exists(PathString(raw)) {
      return [];
    }
    DoMove(fs, raw, target, Root, false, dryrun);
    var more := RenameXmp(fs, raw, target, dryrun);
    return [PathString(target)] + more;
  }

  lemma PerformCons(w: World, a: Act, rest: seq<Act>, dryrun: bool)
    requires ActOk(a) && AllOk(rest)
    ensures var first := ActStep(w, a, dryrun);
            var r := Perform(first.world, rest, dryrun);
            Perform(w, [a] + rest, dryrun) == Step(r.world, first.created + r.created, first.moves + r.moves)
  {
    assert ([a] + rest)[0] == a && ([a] + rest)[1..] == rest;
  }

  /** One more act at the end runs on the disk the others left. */
  lemma {:induction false} PerformSnoc(w: World, acts: seq<Act>, a: Act, dryrun: bool)
    requires AllOk(acts) && ActOk(a)
    ensures AllOk(acts + [a])
    ensures var p := Perform(w, acts, dryrun);
            var s := ActStep(p.world, a, dryrun);
            Perform(w, acts + [a], dryrun) == Step(s.world, p.created + s.created, p.moves + s.moves)
    decreases |acts|
  {
    AllOkSnoc(acts, a);
    if acts == [] {
      assert [] + [a] == [a];
      PerformCons(w, a, [], dryrun);
    } else {
      var first := ActStep(w, acts[0], dryrun);
      var tail := acts[1..];
      var r := Perform(first.world, tail, dryrun);
      var s := ActStep(r.world, a, dryrun);
      assert AllOk(tail);
      PerformSnoc(first.world, tail, a, dryrun);
      assert [acts[0]] + (tail + [a]) == acts + [a];
      PerformCons(w, acts[0], tail + [a], dryrun);
      AppendAssoc(first.created, r.created, s.created);
      AppendAssoc(first.moves, r.moves, s.moves);
    }
  }

  /** Four acts in a row. */
  lemma PerformFour(w: World, a0: Act, a1: Act, a2: Act, a3: Act, dryrun: bool)
    requires ActOk(a0) && ActOk(a1) && ActOk(a2) && ActOk(a3)
    ensures var s0 := ActStep(w, a0, dryrun);
            var s1 := ActStep(s0.world, a1, dryrun);
            var s2 := ActStep(s1.world, a2, dryrun);
            var s3 := ActStep(s2.world, a3, dryrun);
            var r := Perform(w, [a0, a1, a2, a3], dryrun);
            r.world == s3.world && r.created == s0.created + (s1.created + (s2.created + s3.created))
  {
    var s0 := ActStep(w, a0, dryrun);
    var s1 := ActStep(s0.world, a1, dryrun);
    var s2 := ActStep(s1.world, a2, dryrun);
    var s3 := ActStep(s2.world, a3, dryrun);
    PerformCons(s2.world, a3, [], dryrun);
    assert [a3] + [] == [a3];
    var r3 := Perform(s2.world, [a3], dryrun);
    assert r3.world == s3.world && r3.created == s3.created;
    PerformCons(s1.world, a2, [a3], dryrun);
    assert [a2] + [a3] == [a2, a3];
    var r2 := Perform(s1.world, [a2, a3], dryrun);
    assert r2.world == s3.world && r2.created == s2.created + s3.created;
    PerformCons(s0.world, a1, [a2, a3], dryrun);
    assert [a1] + [a2, a3] == [a1, a2, a3];
    var r1 := Perform(s0.world, [a1, a2, a3], dryrun);
    assert r1.world == s3.world && r1.created == s1.created + (s2.created + s3.created);
    PerformCons(w, a0, [a1, a2, a3], dryrun);
    assert [a0] + [a1, a2, a3] == [a0, a1, a2, a3];
  }

  lemma AllOkSnoc(acts: seq<Act>, a: Act)
    requires AllOk(acts) && ActOk(a)
    ensures AllOk(acts + [a])
  {
    forall k | 0 <= k < |acts| + 1
      ensures ActOk((acts + [a])[k])
    {
      if k < |acts| { assert (acts + [a])[k] == acts[k]; } else { assert (acts + [a])[k] == a; }
    }
  }

  /** The body of the loop of `rename_files`; `None` when an `OverflowError` or a `ValueError` ended it. */
  method RenameOneFile(fs: FileSystem, src: Path, p: Probe, offset: int, dryrun: bool, noRotate: bool)
    returns (created: Option<seq<string>>)
    modifies fs
    ensures var o := RenameOne(old(fs.State()), src, p, offset, dryrun, noRotate);
            fs.State() == o.world && created == (if o.crashed then None else Some(o.created))
  {
    var t := Resolve(fs, ReadExifDatetime(p.exiftags), p.mtime, offset);
    if t.None? || !IsName(src.name) {
      return None;
    }
    ghost var w1 := fs.State();
    var dest := FileDest(src, t.value);
    var backup := BackupFor(dest, p.clock);
    var orientation := CheckOrientation(p.jhead);
    var rotate := RotateFlag(orientation, noRotate);
    ghost var plan := FilePlan(src, t.value, p.clock, rotate);
    DoMove(fs, src, dest, backup, rotate, dryrun);
    var acc := [PathString(dest)];
    var more := RenameXmp(fs, src, dest, dryrun);
    ghost var c1 := more;
    acc := acc + more;
    var canonRaw, linuxCr2 := RawTwin(src, ".CR2"), TargetTwin(dest, ".cr2");
    more := RenameRaw(fs, canonRaw, linuxCr2, dryrun);
    ghost var c2 := more;
    acc := acc + more;
    var fujiRaw, linuxRaf := RawTwin(src, ".RAF"), TargetTwin(dest, ".raf");
    more := RenameRaw(fs, fujiRaw, linuxRaf, dryrun);
    acc := acc + more;
    AppendAssoc([PathString(dest)], c1, c2);
    AppendAssoc([PathString(dest)], c1 + c2, more);
    AppendAssoc(c1, c2, more);
    PerformFour(w1, plan[0], plan[1], plan[2], plan[3], dryrun);
    assert plan == [plan[0], plan[1], plan[2], plan[3]];
    return Some(acc);
  }

  /** `rename_files`: the created names, or `None` when an `OverflowError` or a `ValueError` ended it. */
  method RenameFiles(fs: FileSystem, inputs: seq<Input>, offset: int, dryrun: bool, noRotate: bool)
    returns (created: Option<seq<string>>)
    modifies fs
    ensures var o := RenameAll(old(fs.State()), inputs, offset, dryrun, noRotate);
            fs.State() == o.world && created == (if o.crashed then None else Some(o.created))
  {
    ghost var w0 := fs.State();
    var acc: seq<string> := [];
    for i := 0 to |inputs|
      invariant var o := RenameAll(w0, inputs[..i], offset, dryrun, noRotate);
                !o.crashed && fs.State() == o.world && acc == o.created
    {
      assert inputs[..i + 1][..i] == inputs[..i];
      var one := RenameOneFile(fs, inputs[i].src, inputs[i].probe, offset, dryrun, noRotate);
      if one.None? {
        RenameAllCrashPersists(w0, inputs, i + 1, offset, dryrun, noRotate);
        return None;
      }
      acc := acc + one.value;
    }
    assert inputs[..|inputs|] == inputs;
    return Some(acc);
  }

  // ---------------------------------------------------------------------
  // The two scenarios of tests/test_pic_new.py, for any directory and time

  /**
   * A camera name: letters without digits or dots, a run of digits, one
   * extension (`img_1234.JPG`, `pict1001.jpg`).
   */
  predicate CameraName(pre: string, digits: string, ext: string) {
    && (forall i :: 0 <= i < |pre| ==> !IsDigit(pre[i]) && pre[i] != '.')
    && AllDigits(digits) && pre + digits != []
    && |ext| >= 2 && ext[0] == '.' && '.' !in ext[1..]
  }

  /** The stem of a camera name, its stem again, and its sequence token. */
  lemma CameraNameParts(pre: string, digits: string, ext: string)
    requires CameraName(pre, digits, ext)
    ensures Stem(pre + digits + ext) == pre + digits
    ensures Stem(pre + digits) == pre + digits
    ensures SequenceToken(pre + digits) == digits
  {
    SuffixOfAppended(pre + digits, ext);
    SequenceTokenOfConcat(pre, digits);
    SequenceTokenNoDigits(pre);
    assert forall i :: 0 <= i < |pre + digits| ==> (pre + digits)[i] != '.' by {
      forall i | 0 <= i < |pre + digits|
        ensures (pre + digits)[i] != '.'
      {
        if i >= |pre| { assert (pre + digits)[i] == digits[i - |pre|]; }
      }
    }
    NoDotNoSuffix(pre + digits);
  }

  /** The test suite's first file is a camera name. */
  lemma ImgIsCameraName()
    ensures CameraName("img_", "1234", ".JPG") && "img_" + "1234" + ".JPG" == "img_1234.JPG"
  {
    var a := "img_";
    assert !IsDigit(a[0]) && !IsDigit(a[1]) && !IsDigit(a[2]) && !IsDigit(a[3]);
  }

  /** The test suite's second file is a camera name. */
  lemma PictIsCameraName()
    ensures CameraName("pict", "1001", ".jpg") && "pict" + "1001" + ".jpg" == "pict1001.jpg"
  {
    var a := "pict";
    assert !IsDigit(a[0]) && !IsDigit(a[1]) && !IsDigit(a[2]) && !IsDigit(a[3]);
  }

  /** Without EXIF data, a plausible modification time names the file. */
  lemma FileTimeNames(p: Probe, offset: int)
    requires ReadExifDatetime(p.exiftags).None?
    requires Floor <= p.mtime + offset <= MaxInstant
    ensures NamingTime(p, offset) == Some(p.mtime + offset)
  {
  }

  /** The names of a file with a sidecar and a raw twin with its sidecar, but no second twin. */
  lemma NamesWithRaw(files: set<string>, s: string, d: string, r: string, rd: string, f: string, fd: string)
    requires s + ".xmp" in files && r in files && r + ".xmp" in files && f !in files
    ensures [d] + SidecarNames(files, s, d) + RawNames(files, r, rd) + RawNames(files, f, fd) == [d, d + ".xmp", rd, rd + ".xmp"]
  {
  }

  /** The names of a file with a sidecar and no raw twin. */
  lemma NamesWithSidecar(files: set<string>, s: string, d: string, r: string, rd: string, f: string, fd: string)
    requires s + ".xmp" in files && r !in files && f !in files
    ensures [d] + SidecarNames(files, s, d) + RawNames(files, r, rd) + RawNames(files, f, fd) == [d, d + ".xmp"]
  {
  }

  /**
   * What a dry run adds for a file with a sidecar and a `.CR2` twin with its
   * own sidecar, but no `.RAF` twin (`img_1234.JPG` in the test suite, whose
   * stem and token `CameraNameParts` gives): the file, its sidecar, the twin
   * and the twin's sidecar, in that order.
   */
  lemma DryRunWithRawNames(w: World, src: Path, p: Probe, offset: int, noRotate: bool, sb: string, t: Instant, token: string)
    requires IsName(src.name) && Stem(src.name) == sb && Stem(sb) == sb && SequenceToken(sb) == token
    requires NamingTime(p, offset) == Some(t)
    requires PathString(src) + ".xmp" in w.files
    requires PathString(Path(src.parent, sb + ".CR2")) in w.files
    requires PathString(Path(src.parent, sb + ".CR2")) + ".xmp" in w.files
    requires PathString(Path(src.parent, sb + ".RAF")) !in w.files
    ensures var base := FormatCompact(t) + "-" + token;
            var jpg := PathString(Path(src.parent, base + ".jpg"));
            var raw := PathString(Path(src.parent, base + ".cr2"));
            RenameOne(w, src, p, offset, true, noRotate).created == [jpg, jpg + ".xmp", raw, raw + ".xmp"]
  {
    var base := FormatCompact(t) + "-" + token;
    RenameOneDryRunOrder(w, src, p, offset, noRotate);
    NamesWithRaw(w.files, PathString(src), PathString(Path(src.parent, base + ".jpg")),
      PathString(Path(src.parent, sb + ".CR2")), PathString(Path(src.parent, base + ".cr2")),
      PathString(Path(src.parent, sb + ".RAF")), PathString(Path(src.parent, base + ".raf")));
  }

  /**
   * What a dry run adds for a file with a sidecar and no raw twin
   * (`pict1001.jpg` in the test suite): the file and its sidecar.
   */
  lemma DryRunSidecarNames(w: World, src: Path, p: Probe, offset: int, noRotate: bool, sb: string, t: Instant, token: string)
    requires IsName(src.name) && Stem(src.name) == sb && Stem(sb) == sb && SequenceToken(sb) == token
    requires NamingTime(p, offset) == Some(t)
    requires PathString(src) + ".xmp" in w.files
    requires PathString(Path(src.parent, sb + ".CR2")) !in w.files
    requires PathString(Path(src.parent, sb + ".RAF")) !in w.files
    ensures var jpg := PathString(Path(src.parent, FormatCompact(t) + "-" + token + ".jpg"));
            RenameOne(w, src, p, offset, true, noRotate).created == [jpg, jpg + ".xmp"]
  {
    var base := FormatCompact(t) + "-" + token;
    RenameOneDryRunOrder(w, src, p, offset, noRotate);
    NamesWithSidecar(w.files, PathString(src), PathString(Path(src.parent, base + ".jpg")),
      PathString(Path(src.parent, sb + ".CR2")), PathString(Path(src.parent, base + ".cr2")),
      PathString(Path(src.parent, sb + ".RAF")), PathString(Path(src.parent, base + ".raf")));
  }

  /**
   * The same scenario with an orientation reported: the file does not
   * crash, its own move is rotated and the moves of its companions are not.
   */
  lemma RenameWithOrientationAndRawMoves(w: World, src: Path, p: Probe)
    requires IsName(src.name)
    requires ReadExifDatetime(p.exiftags).Some?
    requires Floor <= ReadExifDatetime(p.exiftags).value <= MaxInstant
    requires CheckOrientation(p.jhead)
    ensures var o := RenameOne(w, src, p, 0, true, false);
            && !o.crashed
            && Recorded(o.created, o.moves)
            && |o.moves| >= 1 && o.moves[0].rotate
            && Unrotated(o.moves[1..])
  {
    assert NamingTime(p, 0) == Some(ReadExifDatetime(p.exiftags).value);
    RenameOneCrash(w, src, p, 0, true, false);
    RenameOneMoves(w, src, p, 0, true, false);
  }

  /** The same scenario without an orientation: nothing is rotated. */
  lemma FallbackNoOrientationMoves(w: World, src: Path, p: Probe, offset: int)
    requires IsName(src.name)
    requires ReadExifDatetime(p.exiftags).None?
    requires Floor <= p.mtime + offset <= MaxInstant
    requires !CheckOrientation(p.jhead)
    ensures var o := RenameOne(w, src, p, offset, true, false);
            && !o.crashed
            && Recorded(o.created, o.moves)
            && Unrotated(o.moves)
  {
    FileTimeNames(p, offset);
    RenameOneCrash(w, src, p, offset, true, false);
    RenameOneMoves(w, src, p, offset, true, false);
    var o := RenameOne(w, src, p, offset, true, false);
    UnrotatedCons(o.moves);
  }

  lemma UnrotatedCons(moves: seq<MoveCall>)
    requires |moves| >= 1 && !moves[0].rotate && Unrotated(moves[1..])
    ensures Unrotated(moves)
  {
    assert forall k :: 1 <= k < |moves| ==> moves[k] == moves[1..][k - 1];
  }
}
