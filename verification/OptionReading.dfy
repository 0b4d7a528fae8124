/**
 The recognised options of a batch script, each read by itself: which argument it takes, and
 which flags, fields and file transfers it adds to the submission request.
 */
module OptionReading {
  import opened Text
  import opened Numbers
  import TimeFields
  import Calendar
  import DateOption
  import ScriptLexer

  /** The options, named by what they set. */
  datatype Code =
    | JobName | Queue | Hosts | Processors | InFile | OutFile | ErrFile | Exclusive | NotifyEnd
    | NotifyBegin | UserGroup | Checkpoint | Rerunnable | DependCond | ResourceReq | PreExec
    | LoginShell | Project | MailUser | Reservation | Wait | RunLimit | JobGroup | Hold | CpuLimit
    | FileLimit | ProcessLimit | MemoryLimit | DataLimit | StackLimit | SwapLimit | ThreadLimit
    | BeginTime | TermTime | Transfer | Requeue | Signal | App | Cwd | UserLimits | RunEstimate
    | NotRerunnable | Description | SpooledInFile | OverwriteErrFile | OverwriteOutFile | AutoResize
    | WarningAction | WarningTime | SpoolCommand | PostExec | Priority | Migration | Sla
    | ExternalScheduler | LicenseProject | Jsdl | JsdlStrict | ResizeNotify | X11 | Interactive
    | Unrecognised

  datatype Opt = Opt(code: Code, arg: string)

  /** A flag or a field of the request: one of an option's own, or another it touches. */
  datatype Slot =
    | Of(code: Code) | HostSpec | MaxProcessors | CheckpointPeriod | FirstCheckpoint | JsdlDocument

  datatype Value = Str(text: string) | Num(number: int) | List(texts: seq<string>)

  datatype Direction = ToExec | FromExec | FromExecAppend | Both

  /** A file to copy; the name on the execution host is not set where it is left out. */
  datatype XFile = XFile(subFn: string, direction: Direction, execFn: Option<string>)

  /** `NoResult`: the source loops for ever, or reads past the end of a list. */
  datatype OptionError = BadValue | Conflicting | NotTreated | NoResult | Operand

  type Now = c: Calendar.Civil | Calendar.Valid(c) witness Calendar.Civil(1970, 0, 1, 0, 0)

  /** What one option adds to the request. */
  datatype Effect = Effect(flags: set<Slot>, fields: map<Slot, Value>, transfers: seq<XFile>)

  // ---- Reading an argument -------------------------------------------------------------

  predicate AllNumerical(tokens: seq<string>) {
    tokens == [] || (IsNumerical(tokens[0]) && AllNumerical(tokens[1..]))
  }

  /** Minutes and, to their left, hours; anything further left is only checked for digits. */
  function WallTime(time: string): Result<int, OptionError> {
    if time != "" && time[0] == ':' then Error(NoResult)
    else
      var tokens := TimeFields.Tokens(time, ':');
      if !AllNumerical(tokens) then Error(BadValue)
      else Ok(ConvertToInt(tokens[0]) + if |tokens| >= 2 then 60 * ConvertToInt(tokens[1]) else 0)
  }

  function Date(date: string, now: Now): Result<int, OptionError> {
    if date != "" && date[0] == ':' then Error(NoResult)
    else
      match DateOption.ReadFields(TimeFields.Tokens(date, ':'))
      case Ok(f) => Ok(Calendar.TimeT(Calendar.MkTime(DateOption.Target(f, now))))
      case Error(_) => Error(BadValue)
  }

  function Number(text: string): Result<int, OptionError> {
    if IsNumerical(text) then Ok(ConvertToInt(text)) else Error(BadValue)
  }

  function Numeric(c: Code, arg: string): Result<Effect, OptionError> {
    match Number(arg)
    case Error(e) => Error(e)
    case Ok(n) => Ok(Effect(if c in {Priority, Migration} then {Of(c)} else {}, map[Of(c) := Num(n)], []))
  }

  function ReadProcessors(arg: string): Result<Effect, OptionError> {
    var p := Find(arg, ",", 0);
    var low, high := if p == NPOS then arg else arg[..p], if p == NPOS then arg else arg[p + 1..];
    if IsNumerical(low) && IsNumerical(high)
    then Ok(Effect({}, map[Of(Processors) := Num(ConvertToInt(low)), MaxProcessors := Num(ConvertToInt(high))], []))
    else Error(BadValue)
  }

  const INIT := "init="
  const METHOD := "method="

  function ReadCheckpoint(arg: string): Result<Effect, OptionError> {
    var tokens := ScriptLexer.Tokens(arg);
    if tokens == [] then Error(NoResult)
    else
      var dir := map[Of(Checkpoint) := Str(tokens[0])];
      if |tokens| == 1 then Ok(Effect({Of(Checkpoint)}, dir, []))
      else
        var first := StartsWith(tokens[1], INIT);
        var text := if first then tokens[1][|INIT|..] else tokens[1];
        if !IsNumerical(text) then Error(BadValue)
        else
          var second := dir[if first then FirstCheckpoint else CheckpointPeriod := Num(ConvertToInt(text))];
          if |tokens| == 2 || StartsWith(tokens[2], METHOD) then Ok(Effect({Of(Checkpoint)}, second, []))
          else if IsNumerical(tokens[2])
          then
            var third := second[CheckpointPeriod := Num(ConvertToInt(tokens[2]))];
            Ok(Effect({Of(Checkpoint), CheckpointPeriod}, third, []))
          else Error(BadValue)
  }

  /** A time that an option sets, and perhaps the host it is meant for. */
  function Timed(c: Code, time: Result<int, OptionError>, host: Option<string>): Result<Effect, OptionError> {
    var own := if c in {RunEstimate, WarningTime} then {Of(c)} else {};
    match time
    case Error(e) => Error(e)
    case Ok(n) =>
      if host.None? then Ok(Effect(own, map[Of(c) := Num(n)], []))
      else Ok(Effect(own + {HostSpec}, map[Of(c) := Num(n), HostSpec := Str(host.value)], []))
  }

  /** A limit, perhaps followed by a slash and the host it is meant for. */
  function SplitLimit(arg: string): (string, Option<string>) {
    var p := Find(arg, "/", 0);
    if p == NPOS then (arg, None) else (arg[..p], Some(arg[p + 1..]))
  }

  function DirectionOf(op: string): Option<Direction> {
    if op == ">" then Some(ToExec)
    else if op == "<" then Some(FromExec)
    else if op == "<<" then Some(FromExecAppend)
    else if op == "><" || op == "<>" then Some(Both)
    else None
  }

  function ReadTransfer(arg: string): Result<XFile, OptionError> {
    var tokens := ScriptLexer.Tokens(arg);
    if |tokens| < 2 || DirectionOf(tokens[1]).None? then Error(BadValue)
    else Ok(XFile(tokens[0], DirectionOf(tokens[1]).value, if |tokens| >= 3 then Some(tokens[2]) else None))
  }

  function Moved(file: Result<XFile, OptionError>): Result<Effect, OptionError> {
    match file
    case Error(e) => Error(e)
    case Ok(x) => Ok(Effect({}, map[], [x]))
  }

  function JsdlEffect(document: string): Effect {
    Effect({}, map[JsdlDocument := Str(document)], [])
  }

  datatype Kind =
    | TextKind | FlagKind | NumberKind | LimitKind | DateKind | PeriodKind | HostsKind | ProcessorsKind
    | CheckpointKind | TransferKind | JsdlKind | NoKind

  function KindOf(c: Code): Kind {
    match c
    case JobName | Queue | InFile | OutFile | ErrFile | UserGroup | DependCond | ResourceReq | PreExec
       | LoginShell | Project | MailUser | Reservation | JobGroup | Requeue | App | Cwd | Description
       | SpooledInFile | OverwriteErrFile | OverwriteOutFile | WarningAction | PostExec | Sla
       | ExternalScheduler | LicenseProject | ResizeNotify => TextKind
    case Exclusive | NotifyEnd | NotifyBegin | Hold | UserLimits | AutoResize | Rerunnable | NotRerunnable => FlagKind
    case FileLimit | ProcessLimit | MemoryLimit | DataLimit | StackLimit | SwapLimit | ThreadLimit | Signal
       | Priority | Migration => NumberKind
    case RunLimit | CpuLimit | RunEstimate => LimitKind
    case BeginTime | TermTime => DateKind
    case WarningTime => PeriodKind
    case Hosts => HostsKind
    case Processors => ProcessorsKind
    case Checkpoint => CheckpointKind
    case Transfer => TransferKind
    case Jsdl | JsdlStrict => JsdlKind
    case Wait | SpoolCommand | X11 | Interactive | Unrecognised => NoKind
  }

  /** The option whose flag and field a text option shares. */
  function Main(c: Code): Code {
    match c
    case SpooledInFile => InFile
    case OverwriteErrFile => ErrFile
    case OverwriteOutFile => OutFile
    case _ => c
  }

  /** What an option says by itself. */
  function Read(o: Opt, now: Now): Result<Effect, OptionError> {
    match KindOf(o.code)
    case TextKind => Ok(Effect({Of(o.code), Of(Main(o.code))}, map[Of(Main(o.code)) := Str(o.arg)], []))
    case FlagKind => Ok(Effect({Of(o.code)}, map[], []))
    case NumberKind => Numeric(o.code, o.arg)
    case LimitKind => Timed(o.code, WallTime(SplitLimit(o.arg).0), SplitLimit(o.arg).1)
    case DateKind => Timed(o.code, Date(o.arg, now), None)
    case PeriodKind => Timed(o.code, WallTime(o.arg), None)
    case HostsKind => Ok(Effect({Of(Hosts)}, map[Of(Hosts) := List(ScriptLexer.Tokens(o.arg))], []))
    case ProcessorsKind => ReadProcessors(o.arg)
    case CheckpointKind => ReadCheckpoint(o.arg)
    case TransferKind => Moved(ReadTransfer(o.arg))
    case JsdlKind => Ok(JsdlEffect(o.arg))
    case NoKind => Error(NotTreated)
  }

  /** An option, and what reading its argument gives. */
  datatype Reading = Reading(code: Code, effect: Result<Effect, OptionError>)

  function Map<T, U>(f: T -> U, s: seq<T>): (r: seq<U>)
    ensures |r| == |s|
  {
    if s == [] then [] else [f(s[0])] + Map(f, s[1..])
  }

  function Reader(now: Now): Opt -> Reading {
    (o: Opt) => Reading(o.code, Read(o, now))
  }

  function ReadAll(opts: seq<Opt>, now: Now): seq<Reading> {
    Map(Reader(now), opts)
  }
}
