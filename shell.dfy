/**
 * The outside world of the scripts: a set of existing file paths and a log
 * of what the script did to it, in order: commands run through
 * `subprocess`, lines printed, files deleted with `Path.unlink`.
 * Commands are taken to succeed whenever their input file exists.
 */
module Shell {
  import opened PyText

  /** The external commands the scripts issue. */
  datatype Command =
    | Move(program: string, interactive: bool, src: string, dst: string)  // mv [-i] src dst
    | Exiftran(src: string, dst: string)                                   // exiftran -a src -o dst
    | Convert(degrees: int, src: string, dst: string)                      // convert -quality 100 -rotate D src dst

  /** The argument vector handed to `subprocess`. */
  function Argv(c: Command): seq<string> {
    match c
    case Move(program, interactive, src, dst) =>
      [program] + (if interactive then ["-i"] else []) + [src, dst]
    case Exiftran(src, dst) => ["exiftran", "-a", src, "-o", dst]
    case Convert(degrees, src, dst) =>
      ["convert", "-quality", "100", "-rotate", IntToString(degrees), src, dst]
  }

  /** `" ".join(cmd)`, the line a dry run prints instead of running it. */
  function CommandLine(c: Command): string {
    JoinWith(Argv(c), " ")
  }

  datatype Event =
    | Ran(cmd: Command)
    | Said(line: string)
    | Unlinked(path: string)

  datatype World = World(files: set<string>, log: seq<Event>)

  /** What a finished command leaves on disk. */
  function Effect(files: set<string>, c: Command): set<string> {
    match c
    case Move(_, _, src, dst) => if src in files then files - {src} + {dst} else files
    case Exiftran(src, dst) => if src in files then files + {dst} else files
    case Convert(_, src, dst) => if src in files then files + {dst} else files
  }

  function Running(w: World, c: Command): World {
    World(Effect(w.files, c), w.log + [Ran(c)])
  }

  function Saying(w: World, line: string): World {
    World(w.files, w.log + [Said(line)])
  }

  function SayingAll(w: World, lines: seq<string>): (r: World)
    ensures r.files == w.files
    ensures r.log == w.log + seq(|lines|, k requires 0 <= k < |lines| => Said(lines[k]))
    decreases |lines|
  {
    if lines == [] then w
    else
      var r := SayingAll(Saying(w, lines[0]), lines[1..]);
      assert r.log == w.log + seq(|lines|, k requires 0 <= k < |lines| => Said(lines[k]));
      r
  }

  function Unlinking(w: World, path: string): World {
    World(w.files - {path}, w.log + [Unlinked(path)])
  }

  /** No event of `log` runs a command: everything was printed or deleted. */
  predicate OnlyPrinted(log: seq<Event>) {
    forall k :: 0 <= k < |log| ==> log[k].Said?
  }

  /** The disk and the log, updated in place as the scripts run. */
  class FileSystem {
    var files: set<string>
    var log: seq<Event>

    constructor (initial: set<string>)
      ensures files == initial && log == []
    {
      files := initial;
      log := [];
    }

    function State(): World
      reads this
    {
      World(files, log)
    }

    predicate Exists(path: string)
      reads this
    {
      path in files
    }

    /** `subprocess.run(argv)` / `call(argv)`. */
    method Run(c: Command)
      modifies this
      ensures State() == Running(old(State()), c)
    {
      files := Effect(files, c);
      log := log + [Ran(c)];
    }

    /** `print(line)`. */
    method Say(line: string)
      modifies this
      ensures State() == Saying(old(State()), line)
    {
      log := log + [Said(line)];
    }

    /** `Path(path).unlink()`. */
    method Unlink(path: string)
      modifies this
      ensures State() == Unlinking(old(State()), path)
    {
      files := files - {path};
      log := log + [Unlinked(path)];
    }
  }
}
