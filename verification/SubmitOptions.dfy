/**
 Parsing the recognised options of a batch script into a submission request, which the
 parser changes option by option, and when a script is accepted.
 */
module SubmitOptions {
  import opened Text
  import opened Numbers
  import opened OptionReading
  import opened OptionFold
  import TimeFields
  import DateOption
  import ScriptLexer

  const DEFAULTS := [Opt(JobName, "NoName"), Opt(OutFile, "lsf-%J.out"), Opt(ErrFile, "lsf-%J.err")]

  /** The whole parse; `operands` are the words that belong to no option. */
  function Parse(q: Request, opts: seq<Opt>, operands: seq<string>, now: Now): Result<Request, OptionError> {
    match Fold(q, ReadAll(DEFAULTS + opts, now))
    case Error(e) => Error(e)
    case Ok(r) => if operands == [] then Ok(r) else Error(Operand)
  }

  /** What treating one option does to the request; after a refusal nothing is said of it. */
  predicate Treated(before: Request, o: Reading, refused: Option<OptionError>, after: Request) {
    match Apply(before, o)
    case Ok(q) => refused == None && after == q
    case Error(e) => refused == Some(e)
  }

  /** The same, for an option that nothing excludes. */
  predicate Added(before: Request, effect: Result<Effect, OptionError>, refused: Option<OptionError>, after: Request) {
    match effect
    case Ok(e) => refused == None && after == Plus(before, e)
    case Error(e) => refused == Some(e)
  }

  lemma AddedIsTreated(before: Request, o: Reading, refused: Option<OptionError>, after: Request)
    requires !Clash(o.code, before) && o.code !in {Jsdl, JsdlStrict}
    requires Added(before, o.effect, refused, after)
    ensures Treated(before, o, refused, after)
  {
  }

  method ConvertWallTimeToTime(date: string) returns (r: Result<int, OptionError>)
    ensures r == WallTime(date)
  {
    if date != "" && date[0] == ':' {
      return Error(NoResult);
    }
    var tokens := TimeFields.GetTimeTokens(date, ':');
    assert tokens[0..] == tokens;
    for i := 0 to |tokens|
      invariant AllNumerical(tokens) <==> AllNumerical(tokens[i..])
    {
      if !IsNumerical(tokens[i]) {
        return Error(BadValue);
      }
      assert tokens[i..][1..] == tokens[i + 1..];
    }
    var wallTime := ConvertToInt(tokens[0]);
    if |tokens| >= 2 {
      wallTime := wallTime + ConvertToInt(tokens[1]) * 60;
    }
    return Ok(wallTime);
  }

  method ConvertDate(date: string, now: Now) returns (r: Result<int, OptionError>)
    ensures r == Date(date, now)
  {
    if date != "" && date[0] == ':' {
      return Error(NoResult);
    }
    var time := DateOption.ConvertDateToTime(date, now);
    return if time.Ok? then Ok(time.value) else Error(BadValue);
  }

  class Submit {
    var options: set<Slot>
    var fields: map<Slot, Value>
    var jsdlFlag: int
    var xf: array<XFile>

    function Contents(): Request
      reads this, xf
    {
      Request(options, fields, jsdlFlag, xf[..])
    }

    method Put(flags: set<Slot>, k: Slot, v: Value)
      modifies `options, `fields
      ensures Contents() == Plus(old(Contents()), Effect(flags, map[k := v], []))
    {
      options := options + flags;
      fields := fields[k := v];
    }

    method PutTwo(flags: set<Slot>, k: Slot, v: Value, l: Slot, w: Value)
      modifies `options, `fields
      ensures Contents() == Plus(old(Contents()), Effect(flags, map[k := v, l := w], []))
    {
      options := options + flags;
      fields := fields[k := v];
      fields := fields[l := w];
    }

    method TreatNumber(c: Code, arg: string) returns (refused: Option<OptionError>)
      modifies `options, `fields
      ensures Added(old(Contents()), Numeric(c, arg), refused, Contents())
    {
      if !IsNumerical(arg) {
        return Some(BadValue);
      }
      Put(if c in {Priority, Migration} then {Of(c)} else {}, Of(c), Num(ConvertToInt(arg)));
      refused := None;
    }

    method TreatTimed(c: Code, time: Result<int, OptionError>, host: Option<string>)
      returns (refused: Option<OptionError>)
      modifies `options, `fields
      ensures Added(old(Contents()), Timed(c, time, host), refused, Contents())
    {
      var own := if c in {RunEstimate, WarningTime} then {Of(c)} else {};
      if time.Error? {
        return Some(time.error);
      }
      if host.Some? {
        PutTwo(own + {HostSpec}, Of(c), Num(time.value), HostSpec, Str(host.value));
      } else {
        Put(own, Of(c), Num(time.value));
      }
      refused := None;
    }

    method TreatProcessors(arg: string) returns (refused: Option<OptionError>)
      modifies `options, `fields
      ensures Added(old(Contents()), ReadProcessors(arg), refused, Contents())
    {
      var low, high := arg, arg;
      var comma := Find(arg, ",", 0);
      if comma != NPOS {
        low, high := arg[..comma], arg[comma + 1..];
      }
      if !IsNumerical(low) || !IsNumerical(high) {
        return Some(BadValue);
      }
      PutTwo({}, Of(Processors), Num(ConvertToInt(low)), MaxProcessors, Num(ConvertToInt(high)));
      refused := None;
    }

    method TreatCheckpoint(arg: string) returns (refused: Option<OptionError>)
      modifies `options, `fields
      ensures Added(old(Contents()), ReadCheckpoint(arg), refused, Contents())
    {
      var tokens := ScriptLexer.Tokens(arg);
      if tokens == [] {
        return Some(NoResult);
      }
      var flags, said := {Of(Checkpoint)}, map[Of(Checkpoint) := Str(tokens[0])];
      if |tokens| >= 2 {
        var first := StartsWith(tokens[1], INIT);
        var text := if first then tokens[1][|INIT|..] else tokens[1];
        if !IsNumerical(text) {
          return Some(BadValue);
        }
        said := said[if first then FirstCheckpoint else CheckpointPeriod := Num(ConvertToInt(text))];
      }
      if |tokens| >= 3 && !StartsWith(tokens[2], METHOD) {
        if !IsNumerical(tokens[2]) {
          return Some(BadValue);
        }
        flags := flags + {CheckpointPeriod};
        said := said[CheckpointPeriod := Num(ConvertToInt(tokens[2]))];
      }
      options, fields := options + flags, fields + said;
      assert xf[..] + [] == xf[..];
      refused := None;
    }

    /** Growing the array by one, through a copy, and filling the new last entry. */
    method AppendXFile(x: XFile)
      modifies `xf
      ensures fresh(xf) && xf[..] == old(xf[..]) + [x]
    {
      var oldNxf := xf.Length;
      if oldNxf > 0 {
        var tmpXfile := new XFile[oldNxf];
        for i := 0 to oldNxf
          invariant tmpXfile[..i] == old(xf[..])[..i] && xf == old(xf)
        {
          tmpXfile[i] := xf[i];
        }
        var grown := new XFile[oldNxf + 1];
        for i := 0 to oldNxf
          invariant grown[..i] == tmpXfile[..i] && tmpXfile[..] == old(xf[..])
        {
          grown[i] := tmpXfile[i];
        }
        xf := grown;
      } else {
        xf := new XFile[1];
      }
      xf[oldNxf] := x;
    }

    method TreatTransfer(arg: string) returns (refused: Option<OptionError>)
      modifies `xf
      ensures Added(old(Contents()), Moved(ReadTransfer(arg)), refused, Contents())
    {
      var tokens := ScriptLexer.Tokens(arg);
      if |tokens| < 2 || DirectionOf(tokens[1]).None? {
        return Some(BadValue);
      }
      AppendXFile(XFile(tokens[0], DirectionOf(tokens[1]).value, if |tokens| >= 3 then Some(tokens[2]) else None));
      assert fields + map[] == fields;
      refused := None;
    }

    method TreatText(o: Opt, now: Now) returns (refused: Option<OptionError>)
      requires KindOf(o.code) == TextKind
      modifies `options, `fields
      ensures Treated(old(Contents()), Reading(o.code, Read(o, now)), refused, Contents())
    {
      if (o.code == InFile && Of(SpooledInFile) in options) || (o.code == SpooledInFile && Of(InFile) in options) {
        return Some(Conflicting);
      }
      ghost var before := Contents();
      Put({Of(o.code), Of(Main(o.code))}, Of(Main(o.code)), Str(o.arg));
      refused := None;
      AddedIsTreated(before, Reading(o.code, Read(o, now)), refused, Contents());
    }

    method TreatFlag(o: Opt, now: Now) returns (refused: Option<OptionError>)
      requires KindOf(o.code) == FlagKind
      modifies `options
      ensures Treated(old(Contents()), Reading(o.code, Read(o, now)), refused, Contents())
    {
      ghost var before := Contents();
      options := options + {Of(o.code)};
      if o.code == Rerunnable && Of(NotRerunnable) in options {
        return Some(Conflicting);
      }
      if o.code == NotRerunnable && Of(Rerunnable) in options {
        return Some(Conflicting);
      }
      assert fields + map[] == fields && xf[..] + [] == xf[..];
      refused := None;
      AddedIsTreated(before, Reading(o.code, Read(o, now)), refused, Contents());
    }

    method TreatJsdl(c: Code, document: string) returns (refused: Option<OptionError>)
      requires c in {Jsdl, JsdlStrict}
      modifies `options, `fields, `jsdlFlag
      ensures Treated(old(Contents()), Reading(c, Ok(JsdlEffect(document))), refused, Contents())
    {
      if jsdlFlag == (if c == Jsdl then 0 else 1) {
        return Some(Conflicting);
      }
      jsdlFlag := if c == Jsdl then 1 else 0;
      Put({}, JsdlDocument, Str(document));
      refused := None;
    }

    /** The options that nothing excludes. */
    method TreatPlain(o: Opt, now: Now) returns (refused: Option<OptionError>)
      requires KindOf(o.code) !in {TextKind, FlagKind, JsdlKind}
      modifies this
      ensures Added(old(Contents()), Read(o, now), refused, Contents())
    {
      match KindOf(o.code)
      case NumberKind => refused := TreatNumber(o.code, o.arg);
      case LimitKind =>
        var (time, host) := SplitLimit(o.arg);
        var wall := ConvertWallTimeToTime(time);
        refused := TreatTimed(o.code, wall, host);
      case PeriodKind =>
        var wall := ConvertWallTimeToTime(o.arg);
        refused := TreatTimed(o.code, wall, None);
      case DateKind =>
        var time := ConvertDate(o.arg, now);
        refused := TreatTimed(o.code, time, None);
      case HostsKind =>
        Put({Of(Hosts)}, Of(Hosts), List(ScriptLexer.Tokens(o.arg)));
        refused := None;
      case ProcessorsKind => refused := TreatProcessors(o.arg);
      case CheckpointKind => refused := TreatCheckpoint(o.arg);
      case TransferKind => refused := TreatTransfer(o.arg);
      case NoKind => refused := Some(NotTreated);
    }

    /** One round of the option loop. */
    method Treat(o: Opt, now: Now) returns (refused: Option<OptionError>)
      modifies this
      ensures Treated(old(Contents()), Reading(o.code, Read(o, now)), refused, Contents())
    {
      var kind := KindOf(o.code);
      if kind == TextKind {
        refused := TreatText(o, now);
      } else if kind == FlagKind {
        refused := TreatFlag(o, now);
      } else if kind == JsdlKind {
        refused := TreatJsdl(o.code, o.arg);
      } else {
        ghost var before := Contents();
        refused := TreatPlain(o, now);
        AddedIsTreated(before, Reading(o.code, Read(o, now)), refused, Contents());
      }
    }

    method ParseFile(opts: seq<Opt>, operands: seq<string>, now: Now) returns (refused: Option<OptionError>)
      modifies this
      ensures match Parse(old(Contents()), opts, operands, now)
              case Ok(q) => refused == None && Contents() == q
              case Error(e) => refused == Some(e)
    {
      var all := DEFAULTS + opts;
      ghost var before := Contents();
      for i := 0 to |all|
        invariant Fold(before, ReadAll(all, now)) == Fold(Contents(), ReadAll(all[i..], now))
      {
        assert all[i..][0] == all[i] && all[i..][1..] == all[i + 1..];
        refused := Treat(all[i], now);
        if refused.Some? {
          return;
        }
      }
      if operands != [] {
        return Some(Operand);
      }
      refused := None;
    }
  }

  /** A sound option that excludes nothing makes no difference. */
  lemma NeutralHead(o: Reading, rest: seq<Reading>, all: seq<Reading>)
    requires Neutral(o) && all == [o] + rest
    ensures Uses(all) == Uses(rest) && (AllSound(all) <==> AllSound(rest))
  {
    assert all[0] == o && all[1..] == rest;
    SumNothing(Uses(rest));
    assert Uses(all) == Sum(One(o.code), Uses(rest));
  }

  lemma SumNothing(t: Tally)
    ensures Sum(Tally(0, 0, 0, 0, 0, 0), t) == t
  {
  }

  lemma MapThree<T, U>(f: T -> U, a: T, b: T, c: T, rest: seq<T>)
    ensures Map(f, [a, b, c] + rest) == [f(a)] + ([f(b)] + ([f(c)] + Map(f, rest)))
  {
    var two, one := [b] + ([c] + rest), [c] + rest;
    assert [a, b, c] + rest == [a] + two && ([a] + two)[1..] == two && two[1..] == one && one[1..] == rest;
    assert Map(f, one) == [f(c)] + Map(f, rest) && Map(f, two) == [f(b)] + Map(f, one);
    assert Map(f, [a] + two) == [f(a)] + Map(f, two);
  }

  predicate Neutral(o: Reading) {
    o.effect.Ok? && One(o.code) == Tally(0, 0, 0, 0, 0, 0)
  }

  lemma TextIsNeutral(c: Code, arg: string, now: Now)
    requires KindOf(c) == TextKind && c !in {InFile, SpooledInFile}
    ensures Neutral(Reader(now)(Opt(c, arg)))
  {
  }

  lemma DefaultsAreNeutral(opts: seq<Opt>, now: Now)
    ensures Uses(ReadAll(DEFAULTS + opts, now)) == Uses(ReadAll(opts, now))
    ensures AllSound(ReadAll(DEFAULTS + opts, now)) <==> AllSound(ReadAll(opts, now))
  {
    var f, rest := Reader(now), ReadAll(opts, now);
    var a, b, c := DEFAULTS[0], DEFAULTS[1], DEFAULTS[2];
    MapThree(f, a, b, c, opts);
    TextIsNeutral(JobName, "NoName", now);
    TextIsNeutral(OutFile, "lsf-%J.out", now);
    TextIsNeutral(ErrFile, "lsf-%J.err", now);
    NeutralHead(f(c), rest, [f(c)] + rest);
    NeutralHead(f(b), [f(c)] + rest, [f(b)] + ([f(c)] + rest));
    NeutralHead(f(a), [f(b)] + ([f(c)] + rest), [f(a)] + ([f(b)] + ([f(c)] + rest)));
  }

  /**
   A script is accepted exactly when no word is left over, each option is sound by itself, no
   two exclude each other, and none is excluded by the request it is added to.
   */
  lemma ParseAcceptsIff(q: Request, opts: seq<Opt>, operands: seq<string>, now: Now)
    ensures Parse(q, opts, operands, now).Ok? <==>
            operands == [] && AllSound(ReadAll(opts, now)) && Compatible(Uses(ReadAll(opts, now)), q)
  {
    AcceptedIff(q, DEFAULTS + opts, now);
    DefaultsAreNeutral(opts, now);
  }

  /** The options of a script can be written in any order: it is accepted or refused alike. */
  lemma AnyOrderIsAcceptedAlike(q: Request, a: seq<Opt>, b: seq<Opt>, operands: seq<string>, now: Now)
    requires multiset(a) == multiset(b)
    ensures Parse(q, a, operands, now).Ok? <==> Parse(q, b, operands, now).Ok?
  {
    ParseAcceptsIff(q, a, operands, now);
    ParseAcceptsIff(q, b, operands, now);
    MapPermuted(Reader(now), a, b);
    SameUses(ReadAll(a, now), ReadAll(b, now));
  }

  /**
   And where no two of its options set the same field and its file transfers stay in order, it
   leaves the same request.
   */
  lemma AnyOrderSameRequest(q: Request, a: seq<Opt>, b: seq<Opt>, operands: seq<string>, now: Now)
    requires multiset(a) == multiset(b) && Parse(q, a, operands, now).Ok?
    ensures AllSound(ReadAll(a, now)) && AllSound(ReadAll(b, now))
    ensures SetOnce(ReadAll(a, now)) && Total(ReadAll(a, now)).transfers == Total(ReadAll(b, now)).transfers ==>
            Parse(q, a, operands, now) == Parse(q, b, operands, now)
  {
    var ra, rb := ReadAll(a, now), ReadAll(b, now);
    AnyOrderIsAcceptedAlike(q, a, b, operands, now);
    ParseAcceptsIff(q, a, operands, now);
    ParseAcceptsIff(q, b, operands, now);
    MapPermuted(Reader(now), a, b);
    ReadingsAreFaithful(a, now);
    ReadingsAreFaithful(b, now);
    if SetOnce(ra) && Total(ra).transfers == Total(rb).transfers {
      AfterDefaults(q, a, now);
      AfterDefaults(q, b, now);
      SameRequest(Fold(q, ReadAll(DEFAULTS, now)).value, ra, rb);
    }
  }

  lemma AfterDefaults(q: Request, opts: seq<Opt>, now: Now)
    requires Fold(q, ReadAll(DEFAULTS + opts, now)).Ok?
    ensures Fold(q, ReadAll(DEFAULTS, now)).Ok?
    ensures Fold(q, ReadAll(DEFAULTS + opts, now)) == Fold(Fold(q, ReadAll(DEFAULTS, now)).value, ReadAll(opts, now))
  {
    MapConcat(Reader(now), DEFAULTS, opts);
    FoldConcat(q, ReadAll(DEFAULTS, now), ReadAll(opts, now));
  }
}
