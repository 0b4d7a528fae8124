/**
 The table of options: for each, written out by itself, the flags and the fields it sets, and
 the arguments it refuses.
 */
module OptionTable {
  import opened Text
  import opened Numbers
  import opened OptionReading
  import opened OptionFold
  import SubmitOptions
  import Calendar
  import DateOption
  import TimeFields
  import ScriptLexer

  /** The option sets these flags and this one field. */
  predicate Puts(c: Code, arg: string, now: Now, flags: set<Slot>, field: Slot, value: Value) {
    Read(Opt(c, arg), now) == Ok(Effect(flags, map[field := value], []))
  }

  lemma TextKinds(o: Opt, main: Code, now: Now)
    requires KindOf(o.code) == TextKind && Main(o.code) == main
    ensures Read(o, now) == Ok(Effect({Of(o.code), Of(main)}, map[Of(main) := Str(o.arg)], []))
  {
  }

  /** Options that take any text. */
  lemma TextOptions(c: Code, arg: string, now: Now)
    requires c in {JobName, Queue, InFile, OutFile, ErrFile, UserGroup, DependCond, ResourceReq, PreExec, LoginShell,
                   Project, MailUser, Reservation, JobGroup, Requeue, App, Cwd, Description, WarningAction, PostExec,
                   Sla, ExternalScheduler, LicenseProject, ResizeNotify}
    ensures Puts(c, arg, now, {Of(c)}, Of(c), Str(arg))
  {
    TextKinds(Opt(c, arg), c, now);
    assert {Of(c), Of(c)} == {Of(c)};
  }

  /** `-is` sets the input file, `-eo` the error file and `-oo` the output file, and the flags of both options. */
  lemma SharingOptions(c: Code, main: Code, arg: string, now: Now)
    requires || (c == SpooledInFile && main == InFile)
             || (c == OverwriteErrFile && main == ErrFile)
             || (c == OverwriteOutFile && main == OutFile)
    ensures Puts(c, arg, now, {Of(c), Of(main)}, Of(main), Str(arg))
  {
    TextKinds(Opt(c, arg), main, now);
  }

  lemma DocumentKind(o: Opt, now: Now)
    requires KindOf(o.code) == JsdlKind
    ensures Read(o, now) == Ok(Effect({}, map[JsdlDocument := Str(o.arg)], []))
  {
  }

  /** Both ways of naming a document set the same field, and no flag. */
  lemma DocumentOptions(c: Code, arg: string, now: Now)
    requires c == Jsdl || c == JsdlStrict
    ensures Puts(c, arg, now, {}, JsdlDocument, Str(arg))
  {
    DocumentKind(Opt(c, arg), now);
  }

  /** The hosts are the words of the argument. */
  lemma HostsOption(arg: string, hosts: seq<string>, now: Now)
    requires ScriptLexer.Tokens(arg) == hosts
    ensures Puts(Hosts, arg, now, {Of(Hosts)}, Of(Hosts), List(hosts))
  {
    assert KindOf(Hosts) == HostsKind;
  }

  /** Options without an argument set their flag and nothing else. */
  lemma FlagOptions(c: Code, arg: string, now: Now)
    requires c in {Exclusive, NotifyEnd, NotifyBegin, Hold, UserLimits, AutoResize, Rerunnable, NotRerunnable}
    ensures Read(Opt(c, arg), now) == Ok(Effect({Of(c)}, map[], []))
  {
    assert KindOf(c) == FlagKind;
  }

  /** A number where the argument is one, and otherwise a refusal. */
  predicate PutsNumber(c: Code, arg: string, now: Now, flags: set<Slot>) {
    if IsNumerical(arg) then Puts(c, arg, now, flags, Of(c), Num(ConvertToInt(arg)))
    else Read(Opt(c, arg), now) == Error(BadValue)
  }

  lemma NumberOptions(c: Code, arg: string, now: Now)
    requires c in {FileLimit, ProcessLimit, MemoryLimit, DataLimit, StackLimit, SwapLimit, ThreadLimit, Signal}
    ensures PutsNumber(c, arg, now, {})
  {
    assert KindOf(c) == NumberKind && c !in {Priority, Migration};
  }

  lemma FlaggedNumberOptions(c: Code, arg: string, now: Now)
    requires c in {Priority, Migration}
    ensures PutsNumber(c, arg, now, {Of(c)})
  {
    assert KindOf(c) == NumberKind;
  }

  /** Options that are never accepted. */
  lemma RefusedOptions(c: Code, arg: string, now: Now)
    requires c in {Wait, SpoolCommand, X11, Interactive, Unrecognised}
    ensures Read(Opt(c, arg), now) == Error(NotTreated)
  {
    assert KindOf(c) == NoKind;
  }

  // ---- Limits, periods and dates -------------------------------------------------------

  /** A time, or the refusal it meets. */
  predicate PutsTime(c: Code, arg: string, now: Now, flags: set<Slot>, time: Result<int, OptionError>) {
    match time
    case Ok(n) => Puts(c, arg, now, flags, Of(c), Num(n))
    case Error(e) => Read(Opt(c, arg), now) == Error(e)
  }

  /** A time and the host it is meant for. */
  predicate PutsTimeAndHost(
      c: Code, arg: string, now: Now, flags: set<Slot>, time: Result<int, OptionError>, host: string)
  {
    match time
    case Ok(n) => Read(Opt(c, arg), now) == Ok(Effect(flags, map[Of(c) := Num(n), HostSpec := Str(host)], []))
    case Error(e) => Read(Opt(c, arg), now) == Error(e)
  }

  /** The flag that a limit sets, if any. */
  function OwnFlag(c: Code): set<Slot> {
    if c == RunEstimate then {Of(c)} else {}
  }

  /** Run and CPU limits set no flag, the run time estimate its own. */
  lemma LimitOptions(c: Code, time: string, now: Now)
    requires (c == RunLimit || c == CpuLimit || c == RunEstimate) && '/' !in time
    ensures PutsTime(c, time, now, OwnFlag(c), WallTime(time))
  {
    FindInClean(time, "/");
    LimitKinds(Opt(c, time), time, None, now);
  }

  lemma LimitKinds(o: Opt, time: string, host: Option<string>, now: Now)
    requires KindOf(o.code) == LimitKind && SplitLimit(o.arg) == (time, host)
    ensures Read(o, now) == Timed(o.code, WallTime(time), host)
  {
  }

  /** Only the first slash counts. */
  lemma LimitOptionsWithHost(c: Code, time: string, host: string, now: Now)
    requires (c == RunLimit || c == CpuLimit || c == RunEstimate) && '/' !in time
    ensures PutsTimeAndHost(c, time + ("/" + host), now, OwnFlag(c) + {HostSpec}, WallTime(time), host)
  {
    SlashFound(time, host);
    LimitKinds(Opt(c, time + ("/" + host)), time, Some(host), now);
  }

  lemma SlashFound(time: string, host: string)
    requires '/' !in time
    ensures SplitLimit(time + ("/" + host)) == (time, Some(host))
  {
    var arg := time + ("/" + host);
    assert ("/" + host)[0..1] == "/";
    FindAfterClean(time, "/" + host, "/");
    assert arg[..|time|] == time && arg[|time| + 1..] == host;
  }

  lemma WarningOption(arg: string, now: Now)
    ensures PutsTime(WarningTime, arg, now, {Of(WarningTime)}, WallTime(arg))
  {
    assert KindOf(WarningTime) == PeriodKind;
  }

  lemma DateOptions(c: Code, arg: string, now: Now)
    requires c in {BeginTime, TermTime}
    ensures PutsTime(c, arg, now, {}, Date(arg, now))
  {
    assert KindOf(c) == DateKind && c !in {RunEstimate, WarningTime};
  }

  // ---- Times ---------------------------------------------------------------------------

  lemma {:induction false} AllNumericalIff(tokens: seq<string>)
    ensures AllNumerical(tokens) <==> forall i | 0 <= i < |tokens| :: IsNumerical(tokens[i])
  {
    if tokens != [] {
      AllNumericalIff(tokens[1..]);
      assert forall i | 1 <= i < |tokens| :: tokens[i] == tokens[1..][i - 1];
    }
  }

  lemma {:induction false} ReverseAt<T>(s: seq<T>, k: nat)
    requires k < |s|
    ensures Reverse(s)[k] == s[|s| - 1 - k]
  {
    if k < |s| - 1 { ReverseAt(s[1..], k); }
  }

  predicate AllNumbers(parts: seq<string>) {
    forall i | 0 <= i < |parts| :: IsNumerical(parts[i])
  }

  lemma ReversedNumerical(parts: seq<string>)
    ensures AllNumerical(Reverse(parts)) <==> AllNumbers(parts)
  {
    var tokens := Reverse(parts);
    AllNumericalIff(tokens);
    forall k | 0 <= k < |parts| ensures tokens[k] == parts[|parts| - 1 - k] {
      ReverseAt(parts, k);
    }
    if AllNumerical(tokens) {
      forall i | 0 <= i < |parts| ensures IsNumerical(parts[i]) {
        assert tokens[|parts| - 1 - i] == parts[i];
      }
    }
  }

  /** A time without a colon is minutes. */
  lemma MinutesAreRead(text: string)
    requires ':' !in text
    ensures WallTime(text) == if IsNumerical(text) then Ok(ConvertToInt(text)) else Error(BadValue)
  {
    TimeFields.NoSeparator(text, ':');
    AllNumericalIff([text]);
  }

  /** A time that starts with a colon has no result. */
  lemma LeadingColonLoops(rest: string)
    ensures WallTime(":" + rest) == Error(NoResult)
  {
  }

  lemma NoLeadingColon(parts: seq<string>)
    requires |parts| >= 2 && parts[0] != "" && ':' !in parts[0]
    ensures var text := Join(parts, ":"); text != "" && text[0] != ':'
  {
    var text := Join(parts, ":");
    assert text == parts[0] + ":" + Join(parts[1..], ":");
    assert text[0] == parts[0][0];
  }

  lemma TimeOfTokens(text: string, tokens: seq<string>, hours: string, minutes: string)
    requires text != "" && text[0] != ':' && TimeFields.Tokens(text, ':') == tokens
    requires |tokens| >= 2 && AllNumerical(tokens) && tokens[0] == minutes && tokens[1] == hours
    ensures WallTime(text) == Ok(60 * ConvertToInt(hours) + ConvertToInt(minutes))
  {
  }

  lemma NotATime(text: string, tokens: seq<string>)
    requires text != "" && text[0] != ':' && TimeFields.Tokens(text, ':') == tokens
    requires !AllNumerical(tokens)
    ensures WallTime(text) == Error(BadValue)
  {
  }

  lemma {:induction false} FieldsReversed(parts: seq<string>)
    requires |parts| >= 2 && parts[0] != "" && TimeFields.FreeOf(parts, ':')
    ensures var text, tokens := Join(parts, ":"), Reverse(parts);
            && text != "" && text[0] != ':' && TimeFields.Tokens(text, ':') == tokens
            && tokens[0] == parts[|parts| - 1] && tokens[1] == parts[|parts| - 2]
  {
    assert ":" == [':'];
    TimeFields.SplitJoin(parts, ':');
    NoLeadingColon(parts);
    ReverseAt(parts, 0);
    ReverseAt(parts, 1);
  }

  /**
   A time of several fields is its last in minutes and, before it, hours. Fields further left
   must be numbers too but add nothing.
   */
  lemma WallTimeOfFields(parts: seq<string>, hours: string, minutes: string)
    requires |parts| >= 2 && parts[0] != "" && TimeFields.FreeOf(parts, ':') && AllNumbers(parts)
    requires parts[|parts| - 2] == hours && parts[|parts| - 1] == minutes
    ensures WallTime(Join(parts, ":")) == Ok(60 * ConvertToInt(hours) + ConvertToInt(minutes))
  {
    FieldsReversed(parts);
    ReversedNumerical(parts);
    TimeOfTokens(Join(parts, ":"), Reverse(parts), hours, minutes);
  }

  lemma FieldsRefused(parts: seq<string>)
    requires |parts| >= 2 && parts[0] != "" && TimeFields.FreeOf(parts, ':') && !AllNumbers(parts)
    ensures WallTime(Join(parts, ":")) == Error(BadValue)
  {
    FieldsReversed(parts);
    ReversedNumerical(parts);
    NotATime(Join(parts, ":"), Reverse(parts));
  }

  // ---- Processors, checkpoints, transfers ----------------------------------------------

  /** One number is both the least and the most. */
  lemma OneProcessorNumber(arg: string, now: Now)
    requires ',' !in arg
    ensures if IsNumerical(arg) then
              Read(Opt(Processors, arg), now) == Ok(Effect(
                {}, map[Of(Processors) := Num(ConvertToInt(arg)), MaxProcessors := Num(ConvertToInt(arg))], []))
            else Read(Opt(Processors, arg), now) == Error(BadValue)
  {
    FindInClean(arg, ",");
  }

  /** Of two numbers neither may be missing. */
  lemma TwoProcessorNumbers(low: string, high: string, now: Now)
    requires ',' !in low
    ensures if IsNumerical(low) && IsNumerical(high) then
              Read(Opt(Processors, low + ("," + high)), now) == Ok(Effect(
                {}, map[Of(Processors) := Num(ConvertToInt(low)), MaxProcessors := Num(ConvertToInt(high))], []))
            else Read(Opt(Processors, low + ("," + high)), now) == Error(BadValue)
  {
    var arg := low + ("," + high);
    assert ("," + high)[0..1] == ",";
    FindAfterClean(low, "," + high, ",");
    assert arg[..|low|] == low && arg[|low| + 1..] == high;
  }

  /** A checkpoint directory by itself; a blank argument has no result. */
  lemma CheckpointDirectory(arg: string, dir: string, now: Now)
    requires ScriptLexer.Tokens(arg) == [dir]
    ensures Puts(Checkpoint, arg, now, {Of(Checkpoint)}, Of(Checkpoint), Str(dir))
    ensures Read(Opt(Checkpoint, ""), now) == Error(NoResult)
  {
  }

  /** With a period behind it, which must be a number, and then perhaps a method. */
  lemma RegularPeriod(arg: string, words: seq<string>, now: Now)
    requires ScriptLexer.Tokens(arg) == words && 2 <= |words| <= 3
    requires !StartsWith(words[1], "init=") && (|words| == 3 ==> StartsWith(words[2], "method="))
    ensures PutsPeriod(arg, words[0], words[1], now)
  {
    assert Read(Opt(Checkpoint, arg), now) == ReadCheckpoint(arg);
  }

  predicate PutsPeriod(arg: string, dir: string, period: string, now: Now) {
    if IsNumerical(period) then
      Read(Opt(Checkpoint, arg), now) == Ok(Effect(
        {Of(Checkpoint)}, map[Of(Checkpoint) := Str(dir), CheckpointPeriod := Num(ConvertToInt(period))], []))
    else Read(Opt(Checkpoint, arg), now) == Error(BadValue)
  }

  /** The five operators of a file transfer, and no other. */
  lemma Operators(op: string)
    ensures DirectionOf(">") == Some(ToExec) && DirectionOf("<") == Some(FromExec)
    ensures DirectionOf("<<") == Some(FromExecAppend)
    ensures DirectionOf("><") == Some(Both) && DirectionOf("<>") == Some(Both)
    ensures op !in [">", "<", "<<", "><", "<>"] ==> DirectionOf(op) == None
  {
    assert |"><"| == 2 && |"<>"| == 2 && |"<<"| == 2;
    assert "><"[0] == '>' && "<>"[0] == '<' && "<>"[1] == '>' && "<<"[1] == '<';
  }

  /** A transfer with too few words, or another operator, is refused. */
  lemma TransferOption(arg: string, words: seq<string>, now: Now)
    requires ScriptLexer.Tokens(arg) == words
    ensures Read(Opt(Transfer, arg), now) == Moved(
              if |words| < 2 || DirectionOf(words[1]).None? then Error(BadValue)
              else Ok(XFile(words[0], DirectionOf(words[1]).value, if |words| >= 3 then Some(words[2]) else None)))
  {
    assert KindOf(Transfer) == TransferKind;
  }

  // ---- What excludes what --------------------------------------------------------------

  function Said(c: Code, arg: string, now: Now): Reading {
    Reading(c, Read(Opt(c, arg), now))
  }

  /** One option after another is refused for excluding it. */
  predicate Excludes(q: Request, first: Code, second: Code, a: string, b: string, now: Now) {
    Fold(q, [Said(first, a, now), Said(second, b, now)]) == Error(Conflicting)
  }

  lemma TwoFolded(q: Request, a: Reading, b: Reading)
    ensures Fold(q, [a, b]) == match Apply(q, a) case Error(e) => Error(e) case Ok(next) => Apply(next, b)
  {
    assert [a, b][1..] == [b] && [b][1..] == [];
    match Apply(q, a)
    case Error(_) =>
    case Ok(next) => if Apply(next, b).Ok? { assert Fold(Apply(next, b).value, []).Ok?; }
  }

  /** The first of two excluding options sets what the second is refused for, or is refused itself. */
  lemma Excluding(q: Request, first: Reading, second: Reading)
    requires first.effect.Ok?
    requires Clash(second.code, Plus(q, first.effect.value).(jsdlFlag := JsdlAfter(first.code, q.jsdlFlag)))
    ensures Fold(q, [first, second]) == Error(Conflicting)
  {
    TwoFolded(q, first, second);
  }

  lemma SpooledExcludes(q: Request, a: string, b: string, now: Now)
    ensures Excludes(q, InFile, SpooledInFile, a, b, now)
    ensures Excludes(q, SpooledInFile, InFile, a, b, now)
    ensures Excludes(q, SpooledInFile, SpooledInFile, a, b, now)
  {
    TextOptions(InFile, a, now);
    SharingOptions(SpooledInFile, InFile, a, now);
    Excluding(q, Said(InFile, a, now), Said(SpooledInFile, b, now));
    Excluding(q, Said(SpooledInFile, a, now), Said(InFile, b, now));
    Excluding(q, Said(SpooledInFile, a, now), Said(SpooledInFile, b, now));
  }

  lemma RerunningExcludes(q: Request, a: string, b: string, now: Now)
    ensures Excludes(q, Rerunnable, NotRerunnable, a, b, now)
    ensures Excludes(q, NotRerunnable, Rerunnable, a, b, now)
  {
    FlagOptions(Rerunnable, a, now);
    FlagOptions(NotRerunnable, a, now);
    Excluding(q, Said(Rerunnable, a, now), Said(NotRerunnable, b, now));
    Excluding(q, Said(NotRerunnable, a, now), Said(Rerunnable, b, now));
  }

  lemma DocumentsExclude(q: Request, first: Code, second: Code, a: string, b: string, now: Now)
    requires (first == Jsdl && second == JsdlStrict) || (first == JsdlStrict && second == Jsdl)
    ensures Excludes(q, first, second, a, b, now)
  {
    DocumentOptions(first, a, now);
    Excluding(q, Said(first, a, now), Said(second, b, now));
  }

  // ---- The defaults --------------------------------------------------------------------

  /** A script without options gets a name and two files for its output. */
  lemma Defaults(q: Request, now: Now)
    ensures SubmitOptions.Parse(q, [], [], now) == Ok(Request(
      q.flags + {Of(JobName), Of(OutFile), Of(ErrFile)},
      q.fields + map[Of(JobName) := Str("NoName"), Of(OutFile) := Str("lsf-%J.out"), Of(ErrFile) := Str("lsf-%J.err")],
      q.jsdlFlag, q.xf))
  {
    TextOptions(JobName, "NoName", now);
    TextOptions(OutFile, "lsf-%J.out", now);
    TextOptions(ErrFile, "lsf-%J.err", now);
    var f := Reader(now);
    var opts := SubmitOptions.DEFAULTS;
    assert opts + [] == opts;
    SubmitOptions.MapThree(f, opts[0], opts[1], opts[2], []);
    ThreeTexts(q, JobName, OutFile, ErrFile, f(opts[0]), f(opts[1]), f(opts[2]),
               Str("NoName"), Str("lsf-%J.out"), Str("lsf-%J.err"));
  }

  /** A word that belongs to no option refuses an otherwise accepted script. */
  lemma LeftoverWord(q: Request, opts: seq<Opt>, operands: seq<string>, now: Now)
    requires SubmitOptions.Parse(q, opts, [], now).Ok? && operands != []
    ensures SubmitOptions.Parse(q, opts, operands, now) == Error(Operand)
  {
  }

  predicate SetsOwn(o: Reading, c: Code, v: Value) {
    o == Reading(c, Ok(Effect({Of(c)}, map[Of(c) := v], []))) && SubmitOptions.Neutral(o)
  }

  lemma {:induction false} ThreeTexts(q: Request, c: Code, d: Code, e: Code, a: Reading, b: Reading, o: Reading,
                   u: Value, v: Value, w: Value)
    requires SetsOwn(a, c, u) && SetsOwn(b, d, v) && SetsOwn(o, e, w)
    ensures Fold(q, [a] + ([b] + ([o] + []))) == Ok(Request(
      q.flags + {Of(c), Of(d), Of(e)}, q.fields + map[Of(c) := u, Of(d) := v, Of(e) := w], q.jsdlFlag, q.xf))
  {
    var r := OwnAdded(q, a, c, u);
    var s := OwnAdded(r, b, d, v);
    var t := OwnAdded(s, o, e, w);
    FoldThree(q, a, b, o, r, s, t);
    ThreeAdded(q.flags, Of(c), Of(d), Of(e));
    ThreeMapped(q.fields, Of(c), Of(d), Of(e), u, v, w);
  }

  lemma ThreeAdded(flags: set<Slot>, c: Slot, d: Slot, e: Slot)
    ensures flags + {c} + {d} + {e} == flags + {c, d, e}
  {
  }

  lemma ThreeMapped(fields: map<Slot, Value>, c: Slot, d: Slot, e: Slot, u: Value, v: Value, w: Value)
    ensures fields + map[c := u] + map[d := v] + map[e := w] == fields + map[c := u, d := v, e := w]
  {
  }

  lemma FoldThree(q: Request, a: Reading, b: Reading, c: Reading, r: Request, s: Request, t: Request)
    requires Apply(q, a) == Ok(r) && Apply(r, b) == Ok(s) && Apply(s, c) == Ok(t)
    ensures Fold(q, [a] + ([b] + ([c] + []))) == Ok(t)
  {
    var two, one := [b] + ([c] + []), [c] + [];
    assert ([a] + two)[1..] == two && two[1..] == one && one[1..] == [];
    assert Fold(t, []) == Ok(t);
    assert Fold(s, one) == Fold(t, []);
    assert Fold(r, two) == Fold(s, one);
  }

  lemma OwnAdded(q: Request, o: Reading, c: Code, v: Value) returns (r: Request)
    requires SetsOwn(o, c, v)
    ensures r == Request(q.flags + {Of(c)}, q.fields + map[Of(c) := v], q.jsdlFlag, q.xf) && Apply(q, o) == Ok(r)
  {
    r := Request(q.flags + {Of(c)}, q.fields + map[Of(c) := v], q.jsdlFlag, q.xf);
    assert q.xf + [] == q.xf;
  }
}
