# pic-tools in Dafny

A model of the four photo-handling scripts of pic-tools, with proofs of what each promises.

- **`pic_new`** renames camera files such as `img_1234.JPG` after their EXIF creation time, to `YYYYMMDD-HHMMSS-1234.jpg`. It rotates a file with `exiftran` when `jhead` reports an orientation. The file's `.xmp` sidecar and its `.CR2`/`.RAF` raw twins, with their own sidecars, follow it.
- **`pic-xmp`** reads a rating specification such as `1-3,5` or `r` into a set of wanted ratings. It prints the photo of every sidecar whose darktable rating is wanted.
- **`pic_mod`** rotates photos named `<date>-<time>-<seq>.jpg`, keeping a `.jpg.orig` backup. It also shifts the date-time written in such names, renaming every variant of the photo.
- **`pic_select`** is a key-driven review of a list of photo names. Each photo is accepted or rejected. The decisions are kept in the satellite files `<list>-accept`, `<list>-reject` and `<list>-orig`.

## Modules

- `wrappers.dfy`: `Option`.
- `pytext.dfy` (`PyText`): the Python 3 `str` operations the scripts rely on.
  - `isspace` and `strip`.
  - `int()`.
  - `str(int)`.
  - `split`, `splitlines`.
  - Line files written as `line + "\n"`.
- `calendar.dfy` (`Calendar`): naive `datetime` values as whole seconds since 1970-01-01, for years 1 to 9999.
  - The calendar fields in both directions, proved inverse.
  - The `strptime`/`strftime` forms the scripts use, proved to round-trip.
- `paths.dfy` (`Paths`): the `pathlib` operations used: `name`, `stem`, `suffix`, `with_name` and `with_suffix`.
- `shell.dfy` (`Shell`): the outside world.
  - A set of existing paths, and a log of the commands run, the lines printed and the files unlinked.
  - `FileSystem` is a class whose methods update that state in place.
- `pic_new.dfy`, `pic_xmp.dfy`, `pic_mod.dfy`, `pic_select.dfy`: one module per script.
  - Each operation is a function over the state, and the script's loops are methods proved equal to those functions.
  - `pic_select.py` is a Python 2 script, so `PicSelect` has its own `splitlines` and `int()`.
  - `PicSelect.ImageFiles` is a class with the fields of the script's `ImageFiles`.

Each script's inputs from outside are parameters:

| script | inputs |
|---|---|
| `pic_new` | the output of `exiftags` and `jhead`, the file's modification time, the wall clock (a `Probe`) |
| `pic_mod` | what `glob` returns for each name |
| `pic-xmp` | the sidecars found and their parsed XML documents, the compiled `--file` pattern |
| `pic_select` | the keys typed (`getkey` strings) |

## Model

| member | source | states |
|---|---|---|
| `PyText.Find` | bin/pic-xmp.py:46-49 | the index of the first occurrence of the character, with no earlier occurrence; it is the length exactly when the character is absent |
| `PyText.FindIs` | bin/pic-xmp.py:49 | any index with no earlier occurrence and the character there (or the end) is the one `Find` gives |
| `PyText.Strip` | bin/pic-xmp.py:42 | `strip()` gives an empty text or one that begins and ends with a non-space, never longer than the input |
| `PyText.StripShape` | bin/pic-xmp.py:42 | the stripped text is a contiguous slice of the input, and everything removed on either side is whitespace |
| `PyText.StripNoSpace` | bin/pic-xmp.py:42 | a text without whitespace is left unchanged |
| `PyText.StripOfEnds` | bin/pic-xmp.py:42 | a text that starts and ends with a non-space is left unchanged |
| `PyText.StripIdempotent` | bin/pic-xmp.py:42-51 | stripping an already stripped part again changes nothing |
| `PyText.StripChars` | bin/pic-xmp.py:42 | every character of the stripped text occurs in the input |
| `PyText.NatToString` | bin/pic_new.py:133 | `str(n)` is a non-empty string of digits without a leading zero |
| `PyText.DecimalValueOfNatToString` | bin/pic_new.py:133 | reading `str(n)` back as a decimal numeral gives `n` |
| `PyText.ParseInt` | bin/pic-xmp.py:67 | `int()` succeeds only on text with something left after stripping |
| `PyText.DigitsParse` | bin/pic-xmp.py:67 | a string of ASCII digits reads as its decimal value |
| `PyText.NegativeDigitsParse` | bin/pic-xmp.py:67 | a minus sign followed by digits reads as minus their value |
| `PyText.ParseIntOfNatToString` | bin/pic-xmp.py:100 | `int(str(n)) == n` for every natural number |
| `PyText.ParseIntOfNegated` | bin/pic-xmp.py:100 | `int("-" + str(n)) == -n` |
| `PyText.ParseIntOfStrip` | bin/pic-xmp.py:50-51 | `int(s.strip()) == int(s)`: the explicit strip before `int()` changes nothing |
| `PyText.ParseIntNoMinus` | bin/pic-xmp.py:67 | a text without a minus sign never reads as a negative number |
| `PyText.ParseIntOfBlank` | bin/pic-xmp.py:50-54 | whitespace alone raises `ValueError` |
| `PyText.Split` | bin/pic-xmp.py:41 | `split(",")` gives at least one piece, and no piece holds the separator |
| `PyText.JoinSplit` | bin/pic-xmp.py:41 | joining the pieces with the separator gives back the text |
| `PyText.SplitCons` | bin/pic-xmp.py:41 | a text holding the separator is its first piece, the separator and the rest, and it splits as that piece followed by the split of the rest |
| `PyText.SplitPrefix` | bin/pic-xmp.py:41 | `head + sep + tail` with no separator in `head` splits as `head` followed by the split of `tail` |
| `PyText.SplitLines` | bin/pic_new.py:32 | `splitlines()` gives lines that hold no line break |
| `PyText.SplitLinesOfJoinLines` | bin/pic_new.py:32 | lines without line breaks, written each followed by `"\n"`, split back into exactly those lines |
| `Paths.LastDot` | bin/pic_mod.py:35 | the index of the last dot (or -1), with no dot after it |
| `Paths.LastDotIs` | bin/pic_mod.py:35 | any dot with no dot after it is the last dot |
| `Paths.SuffixShape` | bin/pic_new.py:132 | a suffix is empty, or a dot and at least one character with no other dot, ending the name and shorter than it |
| `Paths.StemSuffix` | bin/pic_new.py:146 | stem followed by suffix is the name |
| `Paths.WithName` | bin/pic_new.py:132 | `with_name` keeps the parent and sets the name |
| `Paths.WithSuffix` | bin/pic_new.py:132 | `with_suffix` keeps the parent, and the name becomes the stem followed by the new suffix |
| `Paths.StemNonEmpty` | bin/pic_new.py:146 | the stem of a valid name is a valid name |
| `Paths.NoDotNoSuffix` | bin/pic_new.py:146-147 | a name without a dot has no suffix, and it is its own stem |
| `Paths.SuffixOfAppended` | bin/pic_new.py:132 | a suffix appended to a non-empty stem reads back as that suffix and that stem |
| `Paths.PathStringOfExtendedName` | bin/pic_new.py:93 | `p.with_name(p.name + e)` prints as `str(p) + e` |
| `Paths.WithSuffixIsName` | bin/pic_new.py:147 | `with_suffix` of a valid name gives a valid name |
| `Paths.StripSuffix` | bin/pic-xmp.py:141 | dropping the suffix keeps the parent, leaves the stem, and that is a valid name |
| `Paths.WithEmptySuffix` | bin/pic-xmp.py:141 | `with_suffix("")` is the suffix dropped |
| `Shell.SayingAll` | bin/pic_new.py:124-128 | printing lines leaves the files alone and adds one printed event per line, in order |
| `Shell.FileSystem.Run` | bin/pic_new.py:71 | running a command adds it to the log and applies its effect on the files |
| `Shell.FileSystem.Say` | bin/pic_new.py:69 | `print` adds the line to the log and changes no file |
| `Shell.FileSystem.Unlink` | bin/pic_new.py:88 | `unlink` removes the path and logs it |
| `Calendar.OrdinalConstants` | bin/pic_new.py:122 | `datetime(1970, 1, 1)` is day 719163 since 1 January of year 1, and 31 December 9999 is day 3652059 |
| `Calendar.DateOfOrdinal` | bin/pic_new.py:120 | every day number from 1 to the last one is a valid date with that number |
| `Calendar.FromInstant` | bin/pic_new.py:120 | every instant is a valid datetime that maps back to that instant |
| `Calendar.OrdinalInjective` | bin/pic_new.py:120 | two valid dates with the same day number are the same date |
| `Calendar.FromToInstant` | bin/pic_new.py:120-122 | a valid datetime turned into seconds and back is unchanged |
| `Calendar.ToInstantInjective` | bin/pic_new.py:120-122 | distinct valid datetimes are distinct instants |
| `Calendar.Pad2Value2` | bin/pic_new.py:131 | a zero-padded two-digit field reads back as its value |
| `Calendar.Value2Pad2` | bin/pic_new.py:131 | two digits read and padded again are unchanged |
| `Calendar.Pad4Value4` | bin/pic_new.py:131 | a zero-padded four-digit year reads back as its value |
| `Calendar.Value4Pad4` | bin/pic_new.py:131 | four digits read and padded again are unchanged |
| `Calendar.FormatCompact` | bin/pic_new.py:131 | `%Y%m%d-%H%M%S` prints eight digits, a dash and six digits |
| `Calendar.ParseCompact` | bin/pic_mod.py:50 | `strptime` with `%Y%m%d-%H%M%S` only succeeds on text of that shape |
| `Calendar.ParseFormatCompact` | bin/pic_mod.py:50-52 | `strptime(strftime(t))` is `t` |
| `Calendar.FormatParseCompact` | bin/pic_mod.py:50-52 | `strftime(strptime(s))` is `s` whenever `s` parses |
| `Calendar.ParseSeparated` | bin/pic_new.py:40-42 | the EXIF formats `%Y:%m:%d %H:%M:%S` and `%Y-%m-%d %H:%M:%S` only match text at least 19 characters long |
| `Calendar.ParseFormatSeparated` | bin/pic_new.py:40-42 | an instant written in either EXIF format parses back to that instant |
| `PicNew.ParseExifTime` | bin/pic_new.py:39-45 | a time is found exactly when one of the two formats matches; the character after the year decides which |
| `PicNew.ParseExifTimeOfFormats` | bin/pic_new.py:39-45 | a time written in either format reads back as that time |
| `PicNew.FirstPrefixed` | bin/pic_new.py:32-33 | the index of the first line with the prefix; when there is none, no line has the prefix |
| `PicNew.ReadExifDatetime` | bin/pic_new.py:20-36 | `None` when `exiftags` failed or no line starts with `Image Created:`; otherwise the first such line decides, by its stripped remainder, even when that does not parse |
| `PicNew.ReadExifOfLines` | bin/pic_new.py:32-35 | for output written line by line, the first `Image Created:` line is the one parsed |
| `PicNew.CheckOrientationOfLines` | bin/pic_new.py:48-59 | for output written line by line, an orientation is reported exactly when some line contains `Orientation` |
| `PicNew.SequenceToken` | bin/pic_new.py:113 | the token holds only digits, is no longer than the stem, and is the stem itself when the stem is all digits |
| `PicNew.SequenceTokenOfConcat` | bin/pic_new.py:113 | removing non-digits works piece by piece |
| `PicNew.SequenceTokenNoDigits` | bin/pic_new.py:113 | a stem without digits gives an empty token |
| `PicNew.BaseNameChars` | bin/pic_new.py:131 | the new base name holds only digits and dashes |
| `PicNew.DestinationFor` | bin/pic_new.py:131-132 | the destination stays in the source's directory and is named `<stamp>-<seq>.jpg` |
| `PicNew.BackupFor` | bin/pic_new.py:133 | the backup prints as the destination followed by `.orig-<clock>` |
| `PicNew.OrigTagNoSlash` | bin/pic_new.py:133 | the backup tag holds no slash, so `with_name` accepts it |
| `PicNew.RotateFlag` | bin/pic_new.py:140 | the file is rotated exactly when an orientation is reported and rotation is not switched off |
| `PicNew.ResolveTime` | bin/pic_new.py:115-129 | the naming time is the EXIF time (or the modification time) plus the offset, and falls back to the modification time plus the offset when that is before the 15-year floor; there is no time (an `OverflowError`) exactly when the first sum is out of range, or it is below the floor and the fallback sum is out of range; the no-EXIF note comes first exactly when there is no EXIF time; the implausible note comes last exactly when the first sum is in range and below the floor |
| `PicNew.FallbackNotRechecked` | bin/pic_new.py:121-129 | an implausible modification time is used anyway, after a single note |
| `PicNew.DoMoveDryRun` | bin/pic_new.py:66-80 | a dry run of `do_move` only prints |
| `PicNew.DoMoveSkips` | bin/pic_new.py:82-85 | rotating onto an existing destination or backup prints a skip note and runs nothing |
| `PicNew.DoMoveRotates` | bin/pic_new.py:74-88 | otherwise the backup move, `exiftran` and the unlink of the backup run in that order, and the source ends up at the destination |
| `PicNew.DoMovePlainUnchecked` | bin/pic_new.py:66-72 | a plain move runs `mv -i` without any existence check |
| `PicNew.DoMove` | bin/pic_new.py:62-88 | the method leaves the disk and log that `do_move` does |
| `PicNew.Sidecar` | bin/pic_new.py:93 | the sidecar of `p` prints as `str(p) + ".xmp"` |
| `PicNew.RenameXmp` | bin/pic_new.py:91-98 | the sidecar follows only if it exists, and its new name is returned |
| `PicNew.RawTwinName` | bin/pic_new.py:146-147 | the raw twin drops the last two suffixes of the source's name and adds the raw extension |
| `PicNew.TargetTwin` | bin/pic_new.py:149 | a raw twin goes to the destination's directory, under the destination's stem with the lower-case extension |
| `PicNew.Plan` | bin/pic_new.py:136-163 | there are four acts for one file: the file, its sidecar, the `.CR2` twin and the `.RAF` twin |
| `PicNew.ActStepMoves` | bin/pic_new.py:136-163 | each act records the destinations of its moves; only the file's own move may rotate |
| `PicNew.PerformMoves` | bin/pic_new.py:143-163 | over a run of acts, `created` lists the destinations of all moves, in order |
| `PicNew.PlanMoves` | bin/pic_new.py:136-163 | the first move is the file's own, with its rotate flag; all later ones are unrotated |
| `PicNew.RenameOneMoves` | bin/pic_new.py:110-163 | for one source file that does not crash, the first move is the file itself, rotated exactly when `jhead` reports an orientation and rotation is on; every later move is unrotated; `created` records every move in order |
| `PicNew.RenameOneCrash` | bin/pic_new.py:115-132 | one file crashes exactly when its naming time is out of range (`OverflowError`) or its path has no final component (the `ValueError` of `with_name`); then only the notes were printed and nothing was created |
| `PicNew.RenameOneDryRun` | bin/pic_new.py:110-163 | a dry run of one file only prints |
| `PicNew.PlanNames` | bin/pic_new.py:143-163 | the names a plan records, given the files that exist: the destination, then the sidecar and each raw twin (with its sidecar) that exists |
| `PicNew.FileDestTwin` | bin/pic_new.py:131-158 | the destination and the twins' destinations share the base `<stamp>-<seq>` in the source's directory |
| `PicNew.RenameOneDryRunOrder` | bin/pic_new.py:143-163 | the full order of `created` for one file in a dry run, with the raw twins named from the source's stem |
| `PicNew.RenameAllCrashPersists` | bin/pic_new.py:110-165 | an exception in one file ends `rename_files`, and the files after it do nothing |
| `PicNew.RenameAllDryRun` | bin/pic_new.py:101-165 | a whole dry run only prints |
| `PicNew.RenameAllRecorded` | bin/pic_new.py:101-165 | when no file overflows, `created` names the destinations of the `do_move` calls, in order |
| `PicNew.Resolve` | bin/pic_new.py:115-129 | the method prints the notes and returns the time that `ResolveTime` gives |
| `PicNew.RenameRaw` | bin/pic_new.py:148-163 | a raw twin that exists moves unrotated, followed by its sidecar |
| `PicNew.RenameOneFile` | bin/pic_new.py:110-163 | the loop body on the disk gives the outcome of `RenameOne`, `None` when it raised |
| `PicNew.RenameFiles` | bin/pic_new.py:101-165 | `rename_files` on the disk, for any list of names, gives the outcome of `RenameAll`: the created names, or `None` after the first exception |
| `PicNew.CameraNameParts` | tests/test_pic_new.py:22-43 | a camera name such as `img_1234.JPG` has stem `img_1234`, which is its own stem, and token `1234` |
| `PicNew.ImgIsCameraName` | tests/test_pic_new.py:22 | `img_1234.JPG` is a camera name |
| `PicNew.PictIsCameraName` | tests/test_pic_new.py:63 | `pict1001.jpg` is a camera name |
| `PicNew.FileTimeNames` | tests/test_pic_new.py:73-85 | without EXIF data, a plausible modification time plus the offset names the file |
| `PicNew.DryRunWithRawNames` | tests/test_pic_new.py:21-52 | a file with a sidecar and a `.CR2` twin with its own sidecar gives exactly `[jpg, jpg.xmp, cr2, cr2.xmp]` |
| `PicNew.DryRunSidecarNames` | tests/test_pic_new.py:62-88 | a file with only a sidecar gives exactly `[jpg, jpg.xmp]` |
| `PicNew.RenameWithOrientationAndRawMoves` | tests/test_pic_new.py:53-60 | with an orientation, the first move rotates and all later moves are unrotated |
| `PicNew.FallbackNoOrientationMoves` | tests/test_pic_new.py:89-90 | without an orientation, no move rotates |
| `PicXmp.Between` | bin/pic-xmp.py:59-60 | exactly the integers from `lo` to `hi` |
| `PicXmp.RatingsOf` | bin/pic-xmp.py:72-76 | a successful parse never gives an empty set |
| `PicXmp.AddRange` | bin/pic-xmp.py:59-60 | the loop adds exactly the range to the set |
| `PicXmp.AddPart` | bin/pic-xmp.py:46-70 | a part adds its ratings, or stops with its error |
| `PicXmp.AddRangePart` | bin/pic-xmp.py:46-60 | a range part adds its range, or stops with `Invalid rating range` |
| `PicXmp.AddValuePart` | bin/pic-xmp.py:61-70 | a single part adds `-1` for `r` or its value, or stops with `Invalid rating value` |
| `PicXmp.AddPiece` | bin/pic-xmp.py:41-70 | a blank piece adds nothing; otherwise the stripped part is added |
| `PicXmp.ParseRatings` | bin/pic-xmp.py:33-76 | the loop gives exactly what `RatingsOf` gives |
| `PicXmp.OutcomeAtBad` | bin/pic-xmp.py:52-54 | the first bad piece decides the error, and later pieces do not matter |
| `PicXmp.OutcomeAllGood` | bin/pic-xmp.py:72-76 | with no bad piece, an empty union is the `No valid ratings` error and anything else is the union |
| `PicXmp.RangeRatings` | bin/pic-xmp.py:46-60 | a range reads as every integer between its two ends, in either order |
| `PicXmp.RangeReversed` | bin/pic-xmp.py:56-57 | `a-b` and `b-a` want the same ratings |
| `PicXmp.OnePart` | bin/pic-xmp.py:41-44 | a specification without commas or spaces is its single part |
| `PicXmp.DashFirstRejected` | bin/pic-xmp.py:46-54 | a part starting with a dash, such as `-1`, is an invalid range |
| `PicXmp.NegativeValueRejected` | bin/pic-xmp.py:46-54 | a negative number written alone, such as `-3`, is rejected as an invalid range, because it holds a dash |
| `PicXmp.RemovedRating` | bin/pic-xmp.py:63-64 | `r` wants exactly `{-1}` |
| `PicXmp.RangeToNegative` | bin/pic-xmp.py:49-60 | `a--c` wants every rating from `-c` to `a`, so a range does reach negative ratings |
| `PicXmp.NegativeRatings` | bin/pic-xmp.py:46-70 | a negative rating is wanted only through `r` or a range whose second end carries a minus |
| `PicXmp.RatingsAccepted` | bin/pic-xmp.py:39-76 | the parse succeeds exactly when no piece is bad and the union is not empty, and then it wants exactly the ratings of the pieces |
| `PicXmp.RatingsRejected` | bin/pic-xmp.py:48-70 | a parse error other than the empty set is the error of the first bad piece |
| `PicXmp.TrailingCommaIgnored` | bin/pic-xmp.py:41-44 | a trailing comma changes nothing |
| `PicXmp.Iter` | bin/pic-xmp.py:91 | `root.iter()` starts at the root |
| `PicXmp.RatingKeyEndings` | bin/pic-xmp.py:93-98 | a key or tag counts exactly when it is `Rating` or ends in `}Rating` or `:Rating` |
| `PicXmp.XmpRating` | bin/pic-xmp.py:79-121 | when some attribute reads as a rating, the first one in document order is the answer |
| `PicXmp.SearchAttrib` | bin/pic-xmp.py:92-102 | the loop over one element's attributes finds the first readable rating |
| `PicXmp.SearchAttributes` | bin/pic-xmp.py:91-102 | the first pass gives the first readable attribute rating over all elements |
| `PicXmp.SearchTexts` | bin/pic-xmp.py:105-119 | the second pass gives the first readable element text |
| `PicXmp.RatingFromXmp` | bin/pic-xmp.py:79-121 | `get_rating_from_xmp` gives what `XmpRating` gives |
| `PicXmp.AttributesFirst` | bin/pic-xmp.py:90-102 | any readable attribute makes the result one of the attribute ratings |
| `PicXmp.TextWhenNoAttributes` | bin/pic-xmp.py:104-121 | with no readable attribute, the first readable text decides, or there is no rating |
| `PicXmp.PhotoOf` | bin/pic-xmp.py:141-142 | the photo is the sidecar's path without its last suffix, in the same directory |
| `PicXmp.SelectionMembers` | bin/pic-xmp.py:138-153 | a path is printed exactly when it is the photo of a sidecar that passes the pattern and whose rating is wanted |
| `PicXmp.SelectionSnoc` | bin/pic-xmp.py:138-153 | one more sidecar adds its photo at the end exactly when it is chosen |
| `PicXmp.SelectPhotos` | bin/pic-xmp.py:138-153 | the forward loop prints exactly the selection, in the order of the sidecars |
| `PicXmp.RunSelection` | bin/pic-xmp.py:124-153 | a bad specification exits with its error; otherwise the selection is printed |
| `PicMod.StampSplitShape` | bin/pic_mod.py:35 | a match splits the name into two non-empty dash-free fields, a dash and the rest |
| `PicMod.StampSplitOfFields` | bin/pic_mod.py:35 | a name made of two such fields splits back into them |
| `PicMod.BeforeEndShape` | bin/pic_mod.py:35 | the `$` of the pattern matches at the end or before one final line feed |
| `PicMod.SplitNameShape` | bin/pic_mod.py:35 | the three groups recompose the name (with or without that final line feed), and the extension holds no dot |
| `PicMod.SplitNameOfParts` | bin/pic_mod.py:35 | a recomposed name splits back into the same stamp, sequence and extension |
| `PicMod.JpegBaseShape` | bin/pic_mod.py:14-24 | the base is the name without `.jpg`, so the backup is the name followed by `.orig` |
| `PicMod.JpegBaseOfParts` | bin/pic_mod.py:14 | `<a>-<b>-<c>.jpg` has base `<a>-<b>-<c>` |
| `PicMod.RotateOneCommands` | bin/pic_mod.py:21-32 | for real: the optional backup note, then `mv` to the backup and `convert` back, in that order |
| `PicMod.RotateOneCrash` | bin/pic_mod.py:22-23 | a name the pattern does not match stops the script and changes nothing, and nothing else stops it |
| `PicMod.RotateAllDryRun` | bin/pic_mod.py:16-32 | a dry-run rotation only prints |
| `PicMod.RotateImages` | bin/pic_mod.py:16-32 | the loop gives the outcome of `RotateAll` |
| `PicMod.ShiftStamp` | bin/pic_mod.py:50-52 | a shifted stamp is 15 characters long with its dash at index 8 |
| `PicMod.ShiftStampZero` | bin/pic_mod.py:50-52 | shifting by zero gives back the stamp |
| `PicMod.ShiftStampBack` | bin/pic_mod.py:50-52 | shifting by `s` and back by `-s` gives back the stamp |
| `PicMod.TargetAsWritten` | bin/pic_mod.py:55-58 | as written, a variant gets a new name exactly when the pattern matches it |
| `PicMod.SidecarsCollide` | bin/pic_mod.py:53-63 | as written, `<stamp>-<seq>.jpg.xmp` and `<stamp>-<seq>.cr2.xmp` both get the name `<new>-<seq>.xmp` |
| `PicMod.SidecarTargetAsWritten` | bin/pic_mod.py:55-58 | as written, a sidecar's new name comes from the command-line name's sequence and `xmp` alone |
| `PicMod.Target` | bin/pic_mod.py:55-58 | a variant gets a new name exactly when the pattern matches it |
| `PicMod.TargetKeepsTail` | bin/pic_mod.py:55-58 | the new name is the new stamp followed by everything after the old stamp |
| `PicMod.TargetUnshifted` | bin/pic_mod.py:55-58 | an unchanged stamp gives back the variant's own name |
| `PicMod.TargetInjective` | bin/pic_mod.py:53-63 | distinct variants of one stamp get distinct new names |
| `PicMod.TargetsAgree` | bin/pic_mod.py:55-58 | on `<stamp>-<seq>.<ext>` with the command-line sequence and a dot-free extension, the program's rule and the intended one give the same name |
| `PicMod.RenameVariantsLog` | bin/pic_mod.py:54-63 | when every variant is named, each is counted and renamed (or shown renamed) once, in order |
| `PicMod.RenameVariantsCrash` | bin/pic_mod.py:55 | the loop stops exactly when some variant has no name |
| `PicMod.ShiftVariantsLog` | bin/pic_mod.py:54-63 | when every variant matches, each is counted once and renamed (or shown renamed), in `glob` order, to `<new stamp>-<command-line sequence>.<text after the variant's last dot>` |
| `PicMod.ShiftSidecarsCollide` | bin/pic_mod.py:54-63 | the loop moves both `<stamp>-<seq>.jpg.xmp` and `<stamp>-<seq>.cr2.xmp` onto `<new>-<seq>.xmp`, one after the other |
| `PicMod.ShiftVariantsCrash` | bin/pic_mod.py:55 | the variants of a file stop the script exactly when one does not match the pattern |
| `PicMod.ShiftAllCount` | bin/pic_mod.py:43-64 | without a crash, the count is the total number of variants of all files |
| `PicMod.ShiftAllDryRun` | bin/pic_mod.py:60-61 | a dry-run shift only prints |
| `PicMod.ShiftVariantsLoop` | bin/pic_mod.py:54-63 | the inner loop, given the command-line name's sequence, gives the outcome of `ShiftVariants` |
| `PicMod.ShiftOneFile` | bin/pic_mod.py:47-63 | the outer loop body splits the name, shifts its stamp and renames its variants with the name's own sequence, giving the outcome of `ShiftFile` |
| `PicMod.ShiftFiles` | bin/pic_mod.py:46-63 | the outer loop gives the outcome of `ShiftAll`, which renames by the program's rule |
| `PicMod.TimeShiftImages` | bin/pic_mod.py:38-64 | `time_shift_images` gives the outcome of `TimeShift`, ending with the count line |
| `PicMod.ModifyDryRun` | bin/pic_mod.py:84-88 | a dry run of the script only prints |
| `PicMod.ModifyNothing` | bin/pic_mod.py:85-88 | with no rotation and no shift nothing happens |
| `PicMod.ModifyPictures` | bin/pic_mod.py:84-88 | the rotation, then the shift, give the outcome of `Modify` |
| `PicSelect.SplitLines2` | bin/pic_select.py:73 | Python 2 `splitlines()` gives lines without `\n` or `\r` |
| `PicSelect.SplitLines2OfJoinLines` | bin/pic_select.py:66-88 | lines without `\n` or `\r`, written by `write_file`, read back as the same lines |
| `PicSelect.Step2` | bin/pic_select.py:239 | `int()` only goes on through digits, whitespace and signs, and a sign only comes before the digits |
| `PicSelect.Int2Chars` | bin/pic_select.py:238-241 | the typed text reads as a number only when it consists of digits, whitespace and signs |
| `PicSelect.Int2OfNumberLine` | bin/pic_select.py:234-239 | the digits typed, then Enter, read as their value |
| `PicSelect.Int2OfNegativeLine` | bin/pic_select.py:234-239 | a minus, the digits typed, then Enter, read as minus their value |
| `PicSelect.ReadList` | bin/pic_select.py:66-77 | `read_file` gives lines without breaks, and a missing file reads as no lines |
| `PicSelect.ReadWriteList` | bin/pic_select.py:66-88 | reading what `write_file` wrote gives back the lines |
| `PicSelect.Disk.WriteFile` | bin/pic_select.py:80-88 | `write_file` replaces the file's text with the lines, each followed by `"\n"` |
| `PicSelect.SatelliteNamesDistinct` | bin/pic_select.py:117-133 | the list and its three satellite files have four distinct names |
| `PicSelect.SaveWrites` | bin/pic_select.py:153-159 | `write()` writes the four files with the four lists, and no other file changes |
| `PicSelect.SaveTwice` | bin/pic_select.py:153-159 | a second `write()` of the same list name overrides the first completely |
| `PicSelect.Load` | bin/pic_select.py:136-150 | `read()` loads the list and its satellites; `orig` is the list itself when `-orig` is empty or missing; the index and status are kept |
| `PicSelect.LoadAfterSave` | bin/pic_select.py:136-159 | reading back what `write()` wrote restores the state, with `orig` filled in from the list when it was empty |
| `PicSelect.DisplayClamp` | bin/pic_select.py:162-167 | `update_display` changes only the index, makes any non-negative index valid (an index past the end becomes the last photo), and leaves a valid index alone |
| `PicSelect.Next` | bin/pic_select.py:218-226 | `next_image` changes only the index and keeps it valid |
| `PicSelect.NextMoves` | bin/pic_select.py:218-226 | one photo on, staying on the last one |
| `PicSelect.Previous` | bin/pic_select.py:248-256 | `previous_image` changes only the index and keeps it valid |
| `PicSelect.PreviousMoves` | bin/pic_select.py:248-256 | one photo back, staying on the first; from the second photo back to the first |
| `PicSelect.Goto` | bin/pic_select.py:237-246 | `goto_image` changes only the index and leaves it valid |
| `PicSelect.GotoMoves` | bin/pic_select.py:237-246 | text `int()` rejects changes nothing; a number in range is the new index; one past the end goes to the last photo and a negative one to the first |
| `PicSelect.WithoutShape` | bin/pic_select.py:265-266 | dropping index `i` keeps the order before and after it and removes exactly that element |
| `PicSelect.Accept` | bin/pic_select.py:259-268 | accepting moves a photo without losing or adding any, keeps the index valid, and leaves the list name and `orig` alone |
| `PicSelect.AcceptMoves` | bin/pic_select.py:259-268 | the current photo leaves the list and is appended to the accepted ones; the rejected list and the status are unchanged; the index stays, or moves back when the last photo went |
| `PicSelect.Reject` | bin/pic_select.py:271-280 | rejecting moves a photo without losing or adding any, keeps the index valid, and leaves the list name and `orig` alone |
| `PicSelect.RejectMoves` | bin/pic_select.py:271-280 | the current photo leaves the list and is appended to the rejected ones; the accepted list and the status are unchanged; the index stays, or moves back when the last photo went |
| `PicSelect.EnterAt` | bin/pic_select.py:234-236 | the position of the first Enter key from `i` on, or the end of the keys |
| `PicSelect.KeyCommand` | bin/pic_select.py:293-303 | every single-key command (and an unknown key) keeps the index valid, loses no photo, and leaves the list name and `orig` alone |
| `PicSelect.Command` | bin/pic_select.py:289-303 | one command uses up at least its own key; it waits only on a `g` whose keys run out before Enter; it keeps every photo and a valid index |
| `PicSelect.LoopGotoWaits` | bin/pic_select.py:234-235 | a `g` whose Enter never comes leaves the loop waiting, with the status cleared |
| `PicSelect.LoopGotoGoes` | bin/pic_select.py:287-304 | a `g` goes to the number typed up to Enter, and the loop continues after the Enter |
| `PicSelect.LoopKey` | bin/pic_select.py:287-304 | any other key is its single-key command, with the files written first for `w` |
| `PicSelect.LoopConserves` | bin/pic_select.py:283-306 | the loop never loses or invents a photo, keeps the index valid, and ends "emptied" exactly when no photo is left |
| `PicSelect.LoopSaves` | bin/pic_select.py:283-306 | whenever the loop ends by `q` or by running out of photos, the files hold exactly the final state |
| `PicSelect.LoopIgnoresFiles` | bin/pic_select.py:283-306 | the decisions do not depend on what is on disk |
| `PicSelect.WriteKeyInvisible` | bin/pic_select.py:299 | `w` changes no decision, and it leaves no trace on the final files |
| `PicSelect.RunConserves` | bin/pic_select.py:283-306 | a whole session keeps every photo with its multiplicity and the total number of photos, and saves its final state when it ends |
| `PicSelect.ImageFiles.constructor` | bin/pic_select.py:103-114 | a new object has the class defaults |
| `PicSelect.ImageFiles.Read` | bin/pic_select.py:136-150 | `read` sets the fields to what `Load` gives |
| `PicSelect.ImageFiles.Write` | bin/pic_select.py:153-159 | `write` leaves the files as `Save` gives them |
| `PicSelect.ImageFiles.UpdateDisplay` | bin/pic_select.py:162-169 | `update_display` on the fields is `DisplayClamp` |
| `PicSelect.ImageFiles.NextImage` | bin/pic_select.py:218-226 | `next_image` on the fields is `Next` |
| `PicSelect.ImageFiles.ReadTyped` | bin/pic_select.py:232-236 | the key loop collects the keys up to and including the first Enter, or all keys when there is none |
| `PicSelect.ImageFiles.GotoImage` | bin/pic_select.py:228-246 | `goto_image` on the fields is `Goto` of what was typed; nothing changes if Enter never comes |
| `PicSelect.ImageFiles.PreviousImage` | bin/pic_select.py:248-256 | `previous_image` on the fields is `Previous` |
| `PicSelect.ImageFiles.AcceptImage` | bin/pic_select.py:259-268 | `accept_image` on the fields is `Accept` |
| `PicSelect.ImageFiles.RejectImage` | bin/pic_select.py:271-280 | `reject_image` on the fields is `Reject` |
| `PicSelect.ImageFiles.ApplyKey` | bin/pic_select.py:293-303 | the dispatch of a single key on the fields is `KeyCommand` |
| `PicSelect.ImageFiles.SingleKey` | bin/pic_select.py:293-303 | the same, with the files written for `w` and untouched otherwise |
| `PicSelect.ImageFiles.Turn` | bin/pic_select.py:287-304 | one iteration of `rep_loop` either ends the session as `Loop` does or leaves a state from which `Loop` gives the same session |
| `PicSelect.ImageFiles.GotoTurn` | bin/pic_select.py:295 | the `g` branch of one iteration, in the terms of `Loop` |
| `PicSelect.ImageFiles.KeyTurn` | bin/pic_select.py:293-303 | the other branches of one iteration, in the terms of `Loop` |
| `PicSelect.ImageFiles.RepLoop` | bin/pic_select.py:283-306 | `rep_loop` leaves the fields, the files and the outcome that `Run` gives |
| `PicSelect.SelectPictures` | bin/pic_select.py:316-323 | `main` with a list name: the files and outcome of `Run` from the state `read` loads |

## Left out

- `pic_new`'s `--time` in fractional hours: the offset is a whole number of seconds.
- `pic_mod`'s `--time` in fractional hours: the shift is a whole number of seconds.
- `PicMod.ModifyPictures`: its `seconds` stands for `hours * 3600` only when that is whole, for the reason in the line above.
- `strptime` forms with unpadded or single-digit fields: only the zero-padded fixed-width forms the tools print are modelled. The one space of the EXIF formats matches one or more whitespace characters, as `_strptime` does.
- External commands (`mv`, `exiftran`, `convert`, `exiftags`, `jhead`): they are taken to succeed when their input exists. Their failures, and the interactive prompt of `mv -i`, are not modelled.
- `pic_new`'s `main` and its argument parsing, and the printing of the created names.
- `pic_mod`'s argument parsing.
- `pic-xmp`'s argument parsing.
- `PicNew.Probe`: `mtime` is the whole-second value of `datetime.fromtimestamp(st_mtime)`. The conversion to local time and the microseconds it keeps are not modelled. So neither is the truncation toward zero of `int(total_seconds())` in the note at bin/pic_new.py:126, which differs from the floor for a fractional time before 1970.
- `PicNew.RenameFiles`: every input has an `mtime`. The `FileNotFoundError` that `src.stat()` raises for a missing source (bin/pic_new.py:118, :129) is not modelled. A path without a final component (`.`, `/`) is modelled: it ends the run with the `ValueError` of `with_name` at bin/pic_new.py:132.
- `glob`: its results are given as inputs, so their order is whatever the caller supplies.
- `pic-xmp`'s XML parsing (`ET.parse`): the model starts from the parsed element tree, or `None` for a `ParseError`.
- `pic-xmp`'s regular-expression compilation and its `re.error` exit: the compiled pattern is a predicate on names.
- `int()` on non-ASCII decimal digits (Unicode `Nd` characters), which Python 3 accepts: only ASCII digits are modelled.
- `PicSelect.Int2`: an `int()` argument too large for a C `long` is read by a second parser that does not skip whitespace after the sign, so `"- 99999999999999999999"` is an error there. The model reads it like a small number.
- In `pic_select`, whitespace and `str.splitlines` use the fixed ASCII classes of Python 2 byte strings. The locale set at `bin/pic_select.py:43` is not modelled.
- `pic_select`'s `screen_setup`, `update_status` and the `curses` wrapper: they only draw.
- `PicSelect.ImageFiles.RepLoop` and `PicSelect.Run` take `display_image` (bin/pic_select.py:172-183) to succeed. It runs `geeqie` and opens the next listed photo to pre-cache it. A missing `geeqie` (`OSError`) or an unreadable next photo (`IOError`) ends `rep_loop` with an exception before any `write()`, so every decision since the last `w` is lost. The model has no such outcome.
- `get_ch_gen`: it is never called.
- `bin/pic_select2.py`: not part of this model.
- `pic_select`'s `usage()` branch when no list name is given.
- `pic_select` blocks in `getkey` when no key comes. The model ends the session then, with the outcome `Waiting` and the files as they were last written.
- `pic_select`'s class-level defaults are shared between instances in Python. The model gives each object its own copy: `main` starts from `read` and no list is mutated before `read` replaces it.
- `pic_select`'s aliasing of `orig` and `main` after `read`: it is harmless, because `main` is only ever rebound to a new list and never changed in place. The model keeps two values.

## Findings

| source | as written | input that shows it | evidently intended | confidence | as-written member | corrected member |
|---|---|---|---|---|---|---|
| bin/pic_mod.py:55-58 | A variant's new name is built from the new stamp, the sequence of the name given on the command line, and the text after the variant's last dot. | Shifting `20200102-030405-1234.jpg` when `20200102-030405-1234.jpg.xmp` and `20200102-030405-1234.cr2.xmp` exist (as `pic_new` creates them). Both sidecars are renamed to `<new stamp>-1234.xmp`. The second `mv -i` targets the first one's new name, and the `.jpg` photo loses its sidecar's name. | Keep everything after the stamp: `<new stamp>-1234.jpg.xmp` and `<new stamp>-1234.cr2.xmp`. Distinct variants then get distinct names. | medium, not executed | `PicMod.ShiftSidecarsCollide` | `PicMod.TargetInjective` |
