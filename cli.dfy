/**
 * pyznap/main.py: the decisions the command line front end takes before and
 * after handing over to the take, send and clean drivers.  Those drivers,
 * argument parsing, logging handlers and the process table are outside the
 * model: process liveness is the parameter `isAlive`, and what the drivers do
 * is summarised by a `Body` outcome given as a parameter.
 */
module Cli {
  import opened Wrappers
  import opened Text
  import opened LogLevels

  // ---- the log level ----------------------------------------------------------

  /** `loglevel`, lines 141-148: INFO, then `-q`, `-v` and `-t` in turn override it. */
  function LogLevel(quiet: bool, verbose: bool, trace: bool): (level: int)
    ensures level in {TRACE, DEBUG, INFO, ERROR}
    ensures trace ==> level == TRACE
    ensures !trace && verbose ==> level == DEBUG
    ensures !trace && !verbose && quiet ==> level == ERROR
    ensures !trace && !verbose && !quiet ==> level == INFO
  {
    var level0 := INFO;
    var level1 := if quiet then ERROR else level0;
    var level2 := if verbose then DEBUG else level1;
    if trace then TRACE else level2
  }

  /** `basicloglevel`, line 150: with `--syslog` the root logger lets INFO through in any case. */
  function RootLevel(level: int, syslog: bool): int
  {
    if syslog then (if level < INFO then level else INFO) else level
  }

  /**
   * The root logger never filters out what the console handler shows; with
   * `--syslog` it also passes every INFO record the syslog handler wants, and
   * it is no lower than needed: it is the console level or INFO.
   */
  lemma RootLevelSpec(quiet: bool, verbose: bool, trace: bool, syslog: bool)
    ensures var level := LogLevel(quiet, verbose, trace);
            var root := RootLevel(level, syslog);
            && root <= level
            && (syslog ==> root <= INFO)
            && (root == level || (syslog && root == INFO))
            && (!syslog ==> root == level)
  {
  }

  /** `-q` alone silences everything below ERROR; any of `-v`, `-t` alone lowers the level below INFO. */
  lemma LogLevelOrder(quiet: bool, verbose: bool, trace: bool)
    ensures LogLevel(quiet, verbose, trace) <= LogLevel(quiet, false, false)
    ensures verbose || trace ==> LogLevel(quiet, verbose, trace) < INFO
    ensures LogLevel(quiet, verbose, trace) > INFO <==> quiet && !verbose && !trace
  {
  }

  // ---- the command line -------------------------------------------------------

  /** The `send` subcommand's options, as argparse leaves them. */
  datatype SendArgs = SendArgs(
    source: Option<string>,
    dest: Option<string>,
    key: Option<string>,
    sourceKey: Option<string>,
    destKey: Option<string>,
    compress: Option<string>,
    exclude: Option<seq<string>>,
    raw: bool,
    resume: bool,
    destAutoCreate: bool,
    retries: int,
    retryInterval: int)

  /** The subcommands. */
  datatype Command =
    | Setup(path: Option<string>)
    | Snap(take: bool, clean: bool, full: bool)
    | Send(args: SendArgs)
    | Full

  /** `CONFIG_DIR`. */
  const ConfigDir: string := "/etc/pyznap/"

  /** The configuration file read for `snap`, `send` and `full`, line 184. */
  function ConfigPath(config: Option<string>): (path: string)
    ensures Truthy(config) ==> path == config.value
    ensures !Truthy(config) ==> StartsWith(path, ConfigDir) && path[|ConfigDir|..] == "pyznap.conf"
  {
    if Truthy(config) then config.value else ConfigDir + "pyznap.conf"
  }

  /** The commands that read the configuration file first. */
  predicate NeedsConfig(cmd: Command)
  {
    cmd.Snap? || cmd.Send? || cmd.Full?
  }

  // ---- `send` from the command line --------------------------------------------

  /** `[v] if v else None` for a text option. */
  function WrapText(v: Option<string>): (r: Option<seq<string>>)
    ensures r.Some? <==> Truthy(v)
    ensures r.Some? ==> r.value == [v.value]
  {
    if Truthy(v) then Some([v.value]) else None
  }

  /** `[v] if v else None` for a flag. */
  function WrapFlag(v: bool): (r: Option<seq<bool>>)
    ensures r.Some? <==> v
    ensures r.Some? ==> r.value == [true]
  {
    if v then Some([v]) else None
  }

  /** `[v] if v else None` for a number: 0 is false. */
  function WrapInt(v: int): (r: Option<seq<int>>)
    ensures r.Some? <==> v != 0
    ensures r.Some? ==> r.value == [v]
  {
    if v != 0 then Some([v]) else None
  }

  /** `[v] if v else None` for the list of exclude patterns: an empty list is false. */
  function WrapList(v: Option<seq<string>>): (r: Option<seq<seq<string>>>)
    ensures r.Some? <==> v.Some? && v.value != []
    ensures r.Some? ==> r.value == [v.value]
  {
    if v.Some? && v.value != [] then Some([v.value]) else None
  }

  /** The source key and the destination keys, lines 212-219. */
  function ResolveKeys(source: string, dest: string, key: Option<string>, sourceKey: Option<string>,
                       destKey: Option<string>): (Option<string>, Option<seq<string>>)
  {
    var routedDest: Option<seq<string>> := if StartsWith(dest, "ssh") then WrapText(key) else None;
    var routedSource: Option<string> :=
      if !StartsWith(dest, "ssh") && StartsWith(source, "ssh") then (if Truthy(key) then key else None) else None;
    var finalSource := if Truthy(sourceKey) then sourceKey else routedSource;
    var finalDest := if Truthy(destKey) then Some([destKey.value]) else routedDest;
    (finalSource, finalDest)
  }

  /**
   * The generic key goes to the destination when it is remote (`ssh...`),
   * as a one-element list, and then never to the source; otherwise to a
   * remote source, as a plain key; an explicit key of either side wins over
   * the routed one; an empty key counts as none.
   */
  lemma ResolveKeysSpec(source: string, dest: string, key: Option<string>, sourceKey: Option<string>,
                        destKey: Option<string>)
    ensures var (s, d) := ResolveKeys(source, dest, key, sourceKey, destKey);
            && (Truthy(destKey) ==> d == Some([destKey.value]))
            && (!Truthy(destKey) ==> d == (if StartsWith(dest, "ssh") && Truthy(key) then Some([key.value]) else None))
            && (Truthy(sourceKey) ==> s == sourceKey)
            && (!Truthy(sourceKey) ==>
                  s == (if !StartsWith(dest, "ssh") && StartsWith(source, "ssh") && Truthy(key) then key else None))
            && (d.Some? ==> |d.value| == 1 && d.value[0] != "")
            && (s.Some? ==> s.value != "")
  {
  }

  /** Without explicit keys the generic key ends up on at most one side, even when both sides are remote. */
  lemma GenericKeyOneSide(source: string, dest: string, key: Option<string>)
    ensures var (s, d) := ResolveKeys(source, dest, key, None, None);
            && (s.None? || d.None?)
            && (Truthy(key) && (StartsWith(source, "ssh") || StartsWith(dest, "ssh")) ==> s.Some? || d.Some?)
            && (StartsWith(source, "ssh") && StartsWith(dest, "ssh") ==> s.None?)
  {
  }

  /** The single configuration entry `send` builds from its options, line 235-238. */
  datatype SendEntry = SendEntry(
    name: string,
    dest: seq<string>,
    key: Option<string>,
    destKeys: Option<seq<string>>,
    compress: Option<seq<string>>,
    exclude: Option<seq<seq<string>>>,
    rawSend: Option<seq<bool>>,
    resume: Option<seq<bool>>,
    destAutoCreate: Option<seq<bool>>,
    retries: Option<seq<int>>,
    retryInterval: Option<seq<int>>)

  function EntryFor(source: string, dest: string, a: SendArgs): (e: SendEntry)
  {
    var (sk, dk) := ResolveKeys(source, dest, a.key, a.sourceKey, a.destKey);
    SendEntry(source, [dest], sk, dk, WrapText(a.compress), WrapList(a.exclude), WrapFlag(a.raw), WrapFlag(a.resume),
              WrapFlag(a.destAutoCreate), WrapInt(a.retries), WrapInt(a.retryInterval))
  }

  /**
   * Every option of the entry is either absent or a one-element list holding
   * the option exactly when it is true in Python's sense, so `--retries 0`
   * (the default) gives no retries entry at all; the entry sends the source
   * to the one destination.
   */
  lemma EntryForSpec(source: string, dest: string, a: SendArgs)
    ensures var e := EntryFor(source, dest, a);
            && e.name == source && e.dest == [dest]
            && (e.compress.Some? <==> Truthy(a.compress)) && (e.compress.Some? ==> e.compress.value == [a.compress.value])
            && (e.exclude.Some? <==> a.exclude.Some? && a.exclude.value != [])
            && (e.exclude.Some? ==> e.exclude.value == [a.exclude.value])
            && (e.rawSend.Some? <==> a.raw) && (e.resume.Some? <==> a.resume)
            && (e.destAutoCreate.Some? <==> a.destAutoCreate)
            && (e.retries.Some? <==> a.retries != 0) && (e.retries.Some? ==> e.retries.value == [a.retries])
            && (e.retryInterval.Some? <==> a.retryInterval != 0)
            && (e.retryInterval.Some? ==> e.retryInterval.value == [a.retryInterval])
            && (a.retries == 0 ==> e.retries.None?)
  {
  }

  // ---- what each command runs -------------------------------------------------

  /** The drivers and messages a command leads to, in order. */
  datatype Action =
    | CreateConfig(path: string)
    | TakeConfig
    | SendConfig
    | SendOne(entry: SendEntry)
    | CleanConfig
    | MissingDest
    | MissingSource

  /** The body of the `try` block for each command, lines 189-245. */
  function Actions(cmd: Command): seq<Action>
  {
    match cmd
    case Setup(path) => [CreateConfig(if Truthy(path) then path.value else ConfigDir)]
    case Full => [TakeConfig, SendConfig, CleanConfig]
    case Snap(take, clean, full) =>
      var full' := full || (!take && !clean);
      (if take || full' then [TakeConfig] else []) + (if clean || full' then [CleanConfig] else [])
    case Send(a) =>
      if Truthy(a.source) && Truthy(a.dest) then [SendOne(EntryFor(a.source.value, a.dest.value, a))]
      else if Truthy(a.source) then [MissingDest]
      else if Truthy(a.dest) then [MissingSource]
      else [SendConfig]
  }

  /**
   * `full` takes, sends and cleans in that order; `snap` takes iff asked to
   * take, for the full cycle, or for nothing in particular, likewise cleans,
   * and always takes before it cleans; only `send` and `full` send.
   */
  lemma ActionsSpec(cmd: Command)
    ensures cmd.Full? ==> Actions(cmd) == [TakeConfig, SendConfig, CleanConfig]
    ensures cmd.Snap? ==>
              && (TakeConfig in Actions(cmd) <==> cmd.take || cmd.full || !cmd.clean)
              && (CleanConfig in Actions(cmd) <==> cmd.clean || cmd.full || !cmd.take)
              && (forall i :: 0 <= i < |Actions(cmd)| ==> Actions(cmd)[i] in {TakeConfig, CleanConfig})
              && (|Actions(cmd)| == 2 ==> Actions(cmd) == [TakeConfig, CleanConfig])
    ensures cmd.Snap? && !cmd.take && !cmd.clean ==> Actions(cmd) == [TakeConfig, CleanConfig]
    ensures cmd.Snap? && cmd.full ==> Actions(cmd) == [TakeConfig, CleanConfig]
    ensures SendConfig in Actions(cmd) ==> cmd.Full? || cmd.Send?
    ensures cmd.Setup? ==> |Actions(cmd)| == 1 && Actions(cmd)[0].CreateConfig?
  {
    if cmd.Snap? {
      var full' := cmd.full || (!cmd.take && !cmd.clean);
      var a := (if cmd.take || full' then [TakeConfig] else []);
      var b := (if cmd.clean || full' then [CleanConfig] else []);
      assert Actions(cmd) == a + b;
      assert TakeConfig in Actions(cmd) <==> TakeConfig in a;
      assert CleanConfig in Actions(cmd) <==> CleanConfig in b;
    }
  }

  /**
   * `send` with both ends sends exactly the one entry built from its
   * options; with one end only it reports the missing one and sends nothing;
   * with neither it sends the configuration.
   */
  lemma SendActionsSpec(a: SendArgs)
    ensures Truthy(a.source) && Truthy(a.dest) ==>
              Actions(Send(a)) == [SendOne(EntryFor(a.source.value, a.dest.value, a))]
    ensures Truthy(a.source) != Truthy(a.dest) ==>
              |Actions(Send(a)) | == 1 && (Actions(Send(a))[0].MissingDest? <==> Truthy(a.source))
    ensures !Truthy(a.source) && !Truthy(a.dest) ==> Actions(Send(a)) == [SendConfig]
  {
  }

  /** Whether `_main` logs an error of its own: `send` given only one of its ends, lines 240-243. */
  predicate LogsOwnError(cmd: Command)
  {
    MissingDest in Actions(cmd) || MissingSource in Actions(cmd)
  }

  // ---- the pid file -------------------------------------------------------------

  /** The verdict of `check_pid` and the pid file it leaves: `None` when there is none. */
  datatype PidVerdict = PidVerdict(proceed: bool, after: Option<string>)

  /** `int(contents.strip())`: the pid a pid file holds, `None` when `int` raises `ValueError`. */
  function PidOf(text: string): Option<int>
  {
    PyInt(Strip(text))
  }

  /** `check_pid` on the pid file's contents (`None`: no file), lines 36-49. */
  function PidCheck(contents: Option<string>, isAlive: int -> bool): (v: PidVerdict)
  {
    match contents
    case None => PidVerdict(true, None)
    case Some(text) =>
      match PidOf(text)
      case None => PidVerdict(true, None)
      case Some(pid) => if isAlive(pid) then PidVerdict(false, contents) else PidVerdict(true, None)
  }

  /**
   * `check_pid` lets the run go on exactly when there is no pid file, or the
   * file does not hold a number, or holds the pid of no live process; when it
   * lets it go on no pid file is left, and when it refuses the file is kept
   * as it was.
   */
  lemma PidCheckSpec(contents: Option<string>, isAlive: int -> bool)
    ensures var v := PidCheck(contents, isAlive);
            && (v.proceed ==> v.after.None?)
            && (!v.proceed ==> v.after == contents && contents.Some?)
            && (!v.proceed <==> contents.Some? && PidOf(contents.value).Some? && isAlive(PidOf(contents.value).value))
  {
  }

  /** `"{}\n".format(os.getpid())`: what the running instance writes. */
  function PidText(pid: int): string
  {
    IntToString(pid) + "\n"
  }

  /** `check_pid` reads back the pid the running instance wrote. */
  lemma PidTextRead(pid: int)
    ensures PidOf(PidText(pid)) == Some(pid)
  {
    var w := IntToString(pid);
    assert !IsSpace(w[0]) && !IsSpace(w[|w| - 1]) by {
      if pid < 0 {
        assert w[0] == '-';
        assert w[|w| - 1] == NatToString(-pid)[|NatToString(-pid)| - 1];
        assert IsDigit(w[|w| - 1]);
      } else {
        assert IsDigit(w[0]) && IsDigit(w[|w| - 1]);
      }
    }
    StripWord(w, "\n");
    PyIntOfIntToString(pid, "");
    assert w + "" == w;
  }

  /** While the instance that wrote the pid file lives, a second instance is refused and the file is kept. */
  lemma SecondInstanceRefused(pid: int, isAlive: int -> bool)
    requires isAlive(pid)
    ensures PidCheck(Some(PidText(pid)), isAlive) == PidVerdict(false, Some(PidText(pid)))
  {
    PidTextRead(pid);
  }

  /** Once it has died, the stale file is removed and the next instance goes on. */
  lemma StalePidFileRemoved(pid: int, isAlive: int -> bool)
    requires !isAlive(pid)
    ensures PidCheck(Some(PidText(pid)), isAlive) == PidVerdict(true, None)
  {
    PidTextRead(pid);
  }

  /** The file named by `--pidfile`: its contents, `None` while it does not exist. */
  class PidFile {
    var contents: Option<string>

    constructor (contents: Option<string>)
      ensures this.contents == contents
    {
      this.contents := contents;
    }

    /** `open(pidfile, "w").write(text)`. */
    method Write(text: string)
      modifies this
      ensures contents == Some(text)
    {
      contents := Some(text);
    }

    /** `os.unlink(pidfile)`: the file must exist. */
    method Unlink()
      requires contents.Some?
      modifies this
      ensures contents.None?
    {
      contents := None;
    }

    /** `check_pid(pidfile)`: whether this instance may run; a stale or unreadable file is removed. */
    method CheckPid(isAlive: int -> bool) returns (proceed: bool)
      modifies this
      ensures PidVerdict(proceed, contents) == PidCheck(old(contents), isAlive)
    {
      if contents.Some? {
        var pidno := PidOf(contents.value);
        if pidno.Some? {
          if isAlive(pidno.value) {
            return false;
          }
          Unlink();
        } else {
          Unlink();
        }
      }
      return true;
    }
  }

  // ---- a run from start to exit -----------------------------------------------

  /** How the drivers the try block calls end: normally (with or without an error logged), by Ctrl-C, or by an exception. */
  datatype Body = Completed(errorLogged: bool) | Interrupted | Crashed

  /** How the process ends: with an exit code, or with an uncaught exception. */
  datatype Exit = Code(code: int) | Uncaught

  /** The exit of `main()` once the pid file check has passed, lines 180-187, 249-252 and 265-269. */
  function ExitOf(cmd: Command, configLoaded: bool, body: Body): Exit
  {
    if NeedsConfig(cmd) && !configLoaded then Code(1)
    else match body
      case Completed(errorLogged) => Code(if errorLogged || LogsOwnError(cmd) then 1 else 0)
      case Interrupted => Code(1)
      case Crashed => Uncaught
  }

  /**
   * The exit code is 0 exactly when the drivers complete after a successful
   * configuration read with no error logged, by them or by `_main` itself;
   * it is 1 after a logged error, a missing configuration or Ctrl-C. A
   * `send` given only one end never exits 0: its `Missing dest`/`Missing
   * source` error fires the error handler.
   */
  lemma ExitOfSpec(cmd: Command, configLoaded: bool, body: Body)
    ensures ExitOf(cmd, configLoaded, body) == Code(0) <==>
              (!NeedsConfig(cmd) || configLoaded) && body == Completed(false) && !LogsOwnError(cmd)
    ensures LogsOwnError(cmd) <==> cmd.Send? && Truthy(cmd.args.source) != Truthy(cmd.args.dest)
    ensures cmd.Send? && Truthy(cmd.args.source) != Truthy(cmd.args.dest) ==>
              ExitOf(cmd, configLoaded, body) != Code(0) &&
              (body.Completed? ==> ExitOf(cmd, configLoaded, body) == Code(1))
    ensures ExitOf(cmd, configLoaded, body).Code? ==> ExitOf(cmd, configLoaded, body).code in {0, 1}
    ensures ExitOf(cmd, configLoaded, body).Uncaught? ==> body.Crashed?
  {
  }

  /**
   * `main()` from the pid file check on: the pid file, when one is named, is
   * checked, written with this process's pid, and removed on every way out
   * of the try block; `configLoaded` is whether `read_config` gave a
   * configuration and `run` how the drivers end for the actions chosen.
   */
  method Session(cmd: Command, pidfile: PidFile?, isAlive: int -> bool, pid: int, configLoaded: bool,
                 run: seq<Action> -> Body) returns (exit: Exit)
    modifies pidfile
    ensures pidfile != null && !PidCheck(old(pidfile.contents), isAlive).proceed ==>
              exit == Code(1) && pidfile.contents == old(pidfile.contents)
    ensures pidfile != null && PidCheck(old(pidfile.contents), isAlive).proceed ==>
              exit == ExitOf(cmd, configLoaded, run(Actions(cmd))) && pidfile.contents.None?
    ensures pidfile == null ==> exit == ExitOf(cmd, configLoaded, run(Actions(cmd)))
  {
    if pidfile != null {
      var ok := pidfile.CheckPid(isAlive);
      if !ok {
        return Code(1);
      }
      pidfile.Write(PidText(pid));
    }
    if NeedsConfig(cmd) && !configLoaded {
      exit := Code(1);
    } else {
      var body := run(Actions(cmd));
      match body {
        case Completed(errorLogged) => exit := Code(if errorLogged || LogsOwnError(cmd) then 1 else 0);
        case Interrupted => exit := Code(1);
        case Crashed => exit := Uncaught;
      }
    }
    if pidfile != null {
      pidfile.Unlink();
    }
  }
}
