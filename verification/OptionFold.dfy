/**
 Folding the readings of a script's options into a submission request, and when that
 succeeds: the options that exclude one another do so whatever their order.
 */
module OptionFold {
  import opened Text
  import opened OptionReading

  /** The request as a value; the three flag words are one set. */
  datatype Request = Request(flags: set<Slot>, fields: map<Slot, Value>, jsdlFlag: int, xf: seq<XFile>)

  /** An option that what came before excludes. */
  predicate Clash(c: Code, q: Request) {
    match c
    case InFile => Of(SpooledInFile) in q.flags
    case SpooledInFile => Of(InFile) in q.flags
    case Rerunnable => Of(NotRerunnable) in q.flags
    case NotRerunnable => Of(Rerunnable) in q.flags
    case Jsdl => q.jsdlFlag == 0
    case JsdlStrict => q.jsdlFlag == 1
    case _ => false
  }

  function JsdlAfter(c: Code, flag: int): int {
    if c == Jsdl then 1 else if c == JsdlStrict then 0 else flag
  }

  function Plus(q: Request, e: Effect): Request {
    q.(flags := q.flags + e.flags, fields := q.fields + e.fields, xf := q.xf + e.transfers)
  }

  function Apply(q: Request, o: Reading): Result<Request, OptionError> {
    if Clash(o.code, q) then Error(Conflicting)
    else
      match o.effect
      case Error(e) => Error(e)
      case Ok(e) => Ok(Plus(q, e).(jsdlFlag := JsdlAfter(o.code, q.jsdlFlag)))
  }

  function Fold(q: Request, opts: seq<Reading>): Result<Request, OptionError>
    decreases |opts|
  {
    if opts == [] then Ok(q)
    else
      match Apply(q, opts[0])
      case Error(e) => Error(e)
      case Ok(next) => Fold(next, opts[1..])
  }

  // ---- When options are accepted -------------------------------------------------------

  predicate AllSound(opts: seq<Reading>) {
    opts == [] || (opts[0].effect.Ok? && AllSound(opts[1..]))
  }

  /** How often each option that can exclude another is used. */
  datatype Tally = Tally(inFile: nat, spooled: nat, rerunnable: nat, notRerunnable: nat, jsdl: nat, strict: nat)

  function One(c: Code): Tally {
    Tally(if c == InFile then 1 else 0, if c == SpooledInFile then 1 else 0, if c == Rerunnable then 1 else 0,
          if c == NotRerunnable then 1 else 0, if c == Jsdl then 1 else 0, if c == JsdlStrict then 1 else 0)
  }

  function Sum(a: Tally, b: Tally): Tally {
    Tally(a.inFile + b.inFile, a.spooled + b.spooled, a.rerunnable + b.rerunnable,
          a.notRerunnable + b.notRerunnable, a.jsdl + b.jsdl, a.strict + b.strict)
  }

  function Uses(opts: seq<Reading>): Tally {
    if opts == [] then Tally(0, 0, 0, 0, 0, 0) else Sum(One(opts[0].code), Uses(opts[1..]))
  }

  /** No two of the options exclude each other. */
  predicate NoConflict(t: Tally) {
    && !(t.inFile > 0 && t.spooled > 0)
    && t.spooled <= 1
    && !(t.rerunnable > 0 && t.notRerunnable > 0)
    && !(t.jsdl > 0 && t.strict > 0)
  }

  /** None of them is excluded by the request they start from. */
  predicate NoneExcluded(t: Tally, q: Request) {
    && (t.inFile > 0 ==> Of(SpooledInFile) !in q.flags)
    && (t.spooled > 0 ==> Of(InFile) !in q.flags)
    && (t.rerunnable > 0 ==> Of(NotRerunnable) !in q.flags)
    && (t.notRerunnable > 0 ==> Of(Rerunnable) !in q.flags)
    && (t.jsdl > 0 ==> q.jsdlFlag != 0)
    && (t.strict > 0 ==> q.jsdlFlag != 1)
  }

  predicate Compatible(t: Tally, q: Request) {
    NoConflict(t) && NoneExcluded(t, q)
  }

  /** An option sets the flags that exclude others only as the options they are named for do. */
  predicate Marks(c: Code, flags: set<Slot>) {
    && (Of(InFile) in flags <==> c in {InFile, SpooledInFile})
    && (Of(SpooledInFile) in flags <==> c == SpooledInFile)
    && (Of(Rerunnable) in flags <==> c == Rerunnable)
    && (Of(NotRerunnable) in flags <==> c == NotRerunnable)
  }

  predicate Faithful(o: Reading) {
    o.effect.Ok? ==> Marks(o.code, o.effect.value.flags)
  }

  predicate AllFaithful(opts: seq<Reading>) {
    opts == [] || (Faithful(opts[0]) && AllFaithful(opts[1..]))
  }

  /** What an option excludes shows in the request it leaves, and nothing else does. */
  lemma AcceptOne(q: Request, c: Code, e: Effect, t: Tally)
    requires !Clash(c, q) && Marks(c, e.flags)
    ensures Compatible(Sum(One(c), t), q) <==> Compatible(t, Plus(q, e).(jsdlFlag := JsdlAfter(c, q.jsdlFlag)))
  {
  }

  lemma ExcludedIsRefused(q: Request, c: Code, t: Tally)
    requires Clash(c, q)
    ensures !Compatible(Sum(One(c), t), q)
  {
  }

  lemma {:induction false} FoldAccepts(q: Request, opts: seq<Reading>)
    requires AllFaithful(opts)
    ensures Fold(q, opts).Ok? <==> AllSound(opts) && Compatible(Uses(opts), q)
    decreases |opts|
  {
    if opts != [] {
      var c, rest := opts[0].code, opts[1..];
      if Clash(c, q) {
        ExcludedIsRefused(q, c, Uses(rest));
      } else if opts[0].effect.Ok? {
        FoldAccepts(Apply(q, opts[0]).value, rest);
        AcceptOne(q, c, opts[0].effect.value, Uses(rest));
      }
    }
  }

  lemma TimedIsFaithful(c: Code, time: Result<int, OptionError>, host: Option<string>)
    requires KindOf(c) in {LimitKind, DateKind, PeriodKind}
    ensures Faithful(Reading(c, Timed(c, time, host)))
  {
  }

  lemma TextIsFaithful(o: Opt, now: Now)
    requires KindOf(o.code) == TextKind
    ensures Faithful(Reading(o.code, Read(o, now)))
  {
  }

  lemma FlagIsFaithful(o: Opt, now: Now)
    requires KindOf(o.code) == FlagKind
    ensures Faithful(Reading(o.code, Read(o, now)))
  {
  }

  lemma NumberIsFaithful(o: Opt, now: Now)
    requires KindOf(o.code) == NumberKind
    ensures Faithful(Reading(o.code, Read(o, now)))
  {
  }

  lemma CheckpointFlags(arg: string)
    ensures ReadCheckpoint(arg).Ok? ==> ReadCheckpoint(arg).value.flags <= {Of(Checkpoint), CheckpointPeriod}
  {
  }

  lemma CheckpointIsFaithful(o: Opt, now: Now)
    requires KindOf(o.code) == CheckpointKind
    ensures Faithful(Reading(o.code, Read(o, now)))
  {
    CheckpointFlags(o.arg);
    OwnFlagsAreFaithful(o.code, ReadCheckpoint(o.arg));
  }

  lemma OwnFlagsAreFaithful(c: Code, effect: Result<Effect, OptionError>)
    requires c == Checkpoint && (effect.Ok? ==> effect.value.flags <= {Of(Checkpoint), CheckpointPeriod})
    ensures Faithful(Reading(c, effect))
  {
  }

  lemma ReadingIsFaithful(o: Opt, now: Now)
    ensures Faithful(Reading(o.code, Read(o, now)))
  {
    match KindOf(o.code)
    case TextKind => TextIsFaithful(o, now);
    case FlagKind => FlagIsFaithful(o, now);
    case NumberKind => NumberIsFaithful(o, now);
    case CheckpointKind => CheckpointIsFaithful(o, now);
    case LimitKind => TimedIsFaithful(o.code, WallTime(SplitLimit(o.arg).0), SplitLimit(o.arg).1);
    case DateKind => TimedIsFaithful(o.code, Date(o.arg, now), None);
    case PeriodKind => TimedIsFaithful(o.code, WallTime(o.arg), None);
    case _ =>
  }

  lemma {:induction false} ReadingsAreFaithful(opts: seq<Opt>, now: Now)
    ensures AllFaithful(ReadAll(opts, now))
  {
    if opts != [] {
      ReadingIsFaithful(opts[0], now);
      ReadingsAreFaithful(opts[1..], now);
    }
  }

  /** Options are accepted exactly when each is sound by itself and no two exclude each other. */
  lemma {:induction false} AcceptedIff(q: Request, opts: seq<Opt>, now: Now)
    ensures Fold(q, ReadAll(opts, now)).Ok? <==>
            AllSound(ReadAll(opts, now)) && Compatible(Uses(ReadAll(opts, now)), q)
  {
    ReadingsAreFaithful(opts, now);
    FoldAccepts(q, ReadAll(opts, now));
  }

  // ---- What an accepted sequence leaves ------------------------------------------------

  /** All that the options say, in order; of a field, the last word. */
  function Total(opts: seq<Reading>): Effect
    requires AllSound(opts)
  {
    if opts == [] then Effect({}, map[], [])
    else
      var first, rest := opts[0].effect.value, Total(opts[1..]);
      Effect(first.flags + rest.flags, first.fields + rest.fields, first.transfers + rest.transfers)
  }

  lemma {:induction false} FoldIsSound(q: Request, opts: seq<Reading>)
    requires Fold(q, opts).Ok?
    ensures AllSound(opts)
    decreases |opts|
  {
    if opts != [] { FoldIsSound(Apply(q, opts[0]).value, opts[1..]); }
  }

  lemma PlusTwice(q: Request, e: Effect, f: Effect)
    ensures q.flags + e.flags + f.flags == q.flags + (e.flags + f.flags)
    ensures q.fields + e.fields + f.fields == q.fields + (e.fields + f.fields)
    ensures q.xf + e.transfers + f.transfers == q.xf + (e.transfers + f.transfers)
  {
  }

  /**
   The request an accepted sequence leaves: flags and fields added up, file transfers in the
   order of their options.
   */
  lemma {:induction false} FoldLeaves(q: Request, opts: seq<Reading>)
    requires Fold(q, opts).Ok? && AllSound(opts)
    ensures var r, all := Fold(q, opts).value, Total(opts);
            r.flags == q.flags + all.flags && r.fields == q.fields + all.fields && r.xf == q.xf + all.transfers
    decreases |opts|
  {
    if opts == [] {
      assert q.fields + map[] == q.fields && q.xf + [] == q.xf;
    } else {
      FoldLeaves(Apply(q, opts[0]).value, opts[1..]);
      PlusTwice(q, opts[0].effect.value, Total(opts[1..]));
    }
  }

  predicate Sets(o: Reading, k: Slot) {
    o.effect.Ok? && k in o.effect.value.fields
  }

  predicate NoneSets(opts: seq<Reading>, k: Slot) {
    opts == [] || (!Sets(opts[0], k) && NoneSets(opts[1..], k))
  }

  /** A field holds what the last option that sets it says. */
  lemma {:induction false} LastOneWins(q: Request, before: seq<Reading>, last: Reading, after: seq<Reading>, k: Slot)
    requires Sets(last, k) && NoneSets(after, k)
    ensures var r := Fold(q, before + ([last] + after));
            r.Ok? ==> k in r.value.fields && r.value.fields[k] == last.effect.value.fields[k]
    decreases |before|
  {
    var opts := before + ([last] + after);
    if before == [] {
      assert opts[0] == last && opts[1..] == after;
      if Apply(q, last).Ok? { NotSet(Apply(q, last).value, after, k); }
    } else {
      assert opts[0] == before[0] && opts[1..] == before[1..] + ([last] + after);
      if Apply(q, before[0]).Ok? { LastOneWins(Apply(q, before[0]).value, before[1..], last, after, k); }
    }
  }

  /** A field that no option sets stays as it was. */
  lemma {:induction false} NotSet(q: Request, opts: seq<Reading>, k: Slot)
    requires NoneSets(opts, k)
    ensures var r := Fold(q, opts);
            r.Ok? ==> (k in r.value.fields <==> k in q.fields) && (k in q.fields ==> r.value.fields[k] == q.fields[k])
    decreases |opts|
  {
    if opts != [] && Apply(q, opts[0]).Ok? { NotSet(Apply(q, opts[0]).value, opts[1..], k); }
  }

  predicate Raises(o: Reading, k: Slot) {
    o.effect.Ok? && k in o.effect.value.flags
  }

  /** A flag is set exactly when it was before or an option sets it. */
  lemma {:induction false} FlagsAreRaised(q: Request, opts: seq<Reading>, k: Slot)
    requires Fold(q, opts).Ok?
    ensures k in Fold(q, opts).value.flags <==> k in q.flags || exists i | 0 <= i < |opts| :: Raises(opts[i], k)
    decreases |opts|
  {
    if opts != [] {
      var rest := opts[1..];
      FlagsAreRaised(Apply(q, opts[0]).value, rest, k);
      if i :| 0 <= i < |rest| && Raises(rest[i], k) { assert Raises(opts[i + 1], k); }
      if i :| 0 <= i < |opts| && Raises(opts[i], k) { assert i > 0 ==> Raises(rest[i - 1], k); }
    }
  }

  // ---- Order ---------------------------------------------------------------------------

  lemma MovedToFront<T>(left: seq<T>, x: T, right: seq<T>)
    ensures multiset(left + ([x] + right)) == multiset{x} + multiset(left + right)
  {
    assert multiset(left + ([x] + right)) == multiset(left) + (multiset([x]) + multiset(right));
    assert multiset(left + right) == multiset(left) + multiset(right);
  }

  lemma Cancel<T>(x: T, s: multiset<T>, t: multiset<T>)
    requires multiset{x} + s == multiset{x} + t
    ensures s == t
  {
    assert s == (multiset{x} + s) - multiset{x};
  }

  lemma FrontOf<T>(a: seq<T>)
    requires a != []
    ensures multiset(a) == multiset{a[0]} + multiset(a[1..])
  {
    assert a == [] + ([a[0]] + a[1..]) && [] + a[1..] == a[1..];
    MovedToFront([], a[0], a[1..]);
  }

  lemma Position<T>(b: seq<T>, x: T) returns (left: seq<T>, right: seq<T>)
    requires x in b
    ensures b == left + ([x] + right)
  {
    var k :| 0 <= k < |b| && b[k] == x;
    left, right := b[..k], b[k + 1..];
  }

  /** The first of some options, found among the same options in another order. */
  lemma Found<T>(a: seq<T>, b: seq<T>) returns (left: seq<T>, right: seq<T>)
    requires a != [] && multiset(a) == multiset(b)
    ensures b == left + ([a[0]] + right) && multiset(left + right) == multiset(a[1..])
  {
    FrontOf(a);
    assert a[0] in multiset(b);
    left, right := Position(b, a[0]);
    MovedToFront(left, a[0], right);
    Cancel(a[0], multiset(left + right), multiset(a[1..]));
  }

  lemma SumLaws(a: Tally, b: Tally, c: Tally)
    ensures Sum(Sum(a, b), c) == Sum(a, Sum(b, c)) == Sum(b, Sum(a, c))
    ensures Sum(Tally(0, 0, 0, 0, 0, 0), a) == a
  {
  }

  lemma {:induction false} UsesConcat(a: seq<Reading>, b: seq<Reading>)
    ensures Uses(a + b) == Sum(Uses(a), Uses(b))
  {
    if a == [] {
      assert a + b == b;
      SumLaws(Uses(b), Uses(b), Uses(b));
    } else {
      assert (a + b)[1..] == a[1..] + b;
      UsesConcat(a[1..], b);
      SumLaws(One(a[0].code), Uses(a[1..]), Uses(b));
    }
  }

  lemma {:induction false} SoundConcat(a: seq<Reading>, b: seq<Reading>)
    ensures AllSound(a + b) <==> AllSound(a) && AllSound(b)
  {
    if a == [] {
      assert a + b == b;
    } else {
      assert (a + b)[1..] == a[1..] + b;
      SoundConcat(a[1..], b);
    }
  }

  lemma Cons(x: Reading, s: seq<Reading>)
    ensures Uses([x] + s) == Sum(One(x.code), Uses(s))
    ensures AllSound([x] + s) <==> x.effect.Ok? && AllSound(s)
  {
    assert ([x] + s)[1..] == s;
  }

  lemma UsesMoved(left: seq<Reading>, x: Reading, right: seq<Reading>)
    ensures Uses(left + ([x] + right)) == Sum(One(x.code), Uses(left + right))
    ensures AllSound(left + ([x] + right)) <==> x.effect.Ok? && AllSound(left + right)
  {
    Cons(x, right);
    UsesConcat(left, [x] + right);
    UsesConcat(left, right);
    SumLaws(Uses(left), One(x.code), Uses(right));
    SoundConcat(left, [x] + right);
    SoundConcat(left, right);
  }

  lemma {:induction false} FlagsMoved(left: seq<Reading>, x: Reading, right: seq<Reading>)
    requires AllSound(left + ([x] + right)) && AllSound(left + right) && x.effect.Ok?
    ensures Total(left + ([x] + right)).flags == x.effect.value.flags + Total(left + right).flags
  {
    if left == [] {
      assert left + ([x] + right) == [x] + right && ([x] + right)[1..] == right && left + right == right;
    } else {
      assert (left + ([x] + right))[1..] == left[1..] + ([x] + right);
      assert (left + right)[1..] == left[1..] + right;
      FlagsMoved(left[1..], x, right);
    }
  }

  lemma {:induction false} SameUses(a: seq<Reading>, b: seq<Reading>)
    requires multiset(a) == multiset(b)
    ensures Uses(a) == Uses(b) && (AllSound(a) <==> AllSound(b))
    decreases |a|
  {
    if a == [] {
      assert |multiset(b)| == 0;
    } else {
      var left, right := Found(a, b);
      UsesMoved(left, a[0], right);
      SameUses(a[1..], left + right);
    }
  }

  lemma {:induction false} SameFlags(a: seq<Reading>, b: seq<Reading>)
    requires multiset(a) == multiset(b) && AllSound(a) && AllSound(b)
    ensures Total(a).flags == Total(b).flags
    decreases |a|
  {
    if a == [] {
      assert |multiset(b)| == 0;
    } else {
      var left, right := Found(a, b);
      UsesMoved(left, a[0], right);
      FlagsMoved(left, a[0], right);
      SameFlags(a[1..], left + right);
    }
  }

  /** Options in another order are accepted alike, and set the same flags. */
  lemma OrderDoesNotMatter(q: Request, a: seq<Reading>, b: seq<Reading>)
    requires multiset(a) == multiset(b) && AllFaithful(a) && AllFaithful(b)
    ensures Fold(q, a).Ok? <==> Fold(q, b).Ok?
    ensures Fold(q, a).Ok? ==> Fold(q, a).value.flags == Fold(q, b).value.flags
  {
    FoldAccepts(q, a);
    FoldAccepts(q, b);
    SameUses(a, b);
    if Fold(q, a).Ok? {
      FoldLeaves(q, a);
      FoldLeaves(q, b);
      SameFlags(a, b);
    }
  }

  // ---- The whole request, whatever the order -------------------------------------------

  /** No field is set by two of the options. */
  predicate SetOnce(opts: seq<Reading>)
    requires AllSound(opts)
  {
    opts == [] || (opts[0].effect.value.fields.Keys !! Total(opts[1..]).fields.Keys && SetOnce(opts[1..]))
  }

  lemma MapsCommute(a: map<Slot, Value>, b: map<Slot, Value>, c: map<Slot, Value>)
    requires a.Keys !! b.Keys
    ensures a + (b + c) == b + (a + c)
  {
  }

  lemma TotalCons(x: Reading, rest: seq<Reading>)
    requires x.effect.Ok? && AllSound(rest)
    ensures AllSound([x] + rest) && Total([x] + rest).fields == x.effect.value.fields + Total(rest).fields
  {
    assert ([x] + rest)[1..] == rest;
  }

  lemma {:induction false} FieldsMoved(left: seq<Reading>, x: Reading, right: seq<Reading>)
    requires x.effect.Ok? && AllSound(left + right) && AllSound(left + ([x] + right))
    requires x.effect.value.fields.Keys !! Total(left + right).fields.Keys
    ensures Total(left + ([x] + right)).fields == x.effect.value.fields + Total(left + right).fields
  {
    if left == [] {
      assert left + ([x] + right) == [x] + right && left + right == right;
      TotalCons(x, right);
    } else {
      var l, rest := left[0], left[1..];
      assert left + ([x] + right) == [l] + (rest + ([x] + right)) && left + right == [l] + (rest + right);
      SoundConcat(left, [x] + right);
      SoundConcat(left, right);
      SoundConcat(rest, [x] + right);
      SoundConcat(rest, right);
      TotalCons(l, rest + right);
      TotalCons(l, rest + ([x] + right));
      FieldsMoved(rest, x, right);
      MapsCommute(l.effect.value.fields, x.effect.value.fields, Total(rest + right).fields);
    }
  }

  lemma {:induction false} SameFields(a: seq<Reading>, b: seq<Reading>)
    requires multiset(a) == multiset(b) && AllSound(a) && AllSound(b) && SetOnce(a)
    ensures Total(a).fields == Total(b).fields
    decreases |a|
  {
    if a == [] {
      assert |multiset(b)| == 0;
    } else {
      var left, right := Found(a, b);
      UsesMoved(left, a[0], right);
      SameFields(a[1..], left + right);
      FieldsMoved(left, a[0], right);
    }
  }

  /** The JSDL flag tells which of its two options was used, if any. */
  lemma {:induction false} JsdlTells(q: Request, opts: seq<Reading>)
    requires AllFaithful(opts) && Fold(q, opts).Ok?
    ensures var t := Uses(opts);
            Fold(q, opts).value.jsdlFlag == if t.jsdl > 0 then 1 else if t.strict > 0 then 0 else q.jsdlFlag
    decreases |opts|
  {
    FoldAccepts(q, opts);
    if opts != [] {
      JsdlTells(Apply(q, opts[0]).value, opts[1..]);
    }
  }

  /**
   Options of which no two set the same field, with their file transfers in the same relative
   order, leave the very same request in any order.
   */
  lemma SameRequest(q: Request, a: seq<Reading>, b: seq<Reading>)
    requires multiset(a) == multiset(b) && AllFaithful(a) && AllFaithful(b) && AllSound(a) && AllSound(b)
    requires SetOnce(a) && Total(a).transfers == Total(b).transfers
    ensures Fold(q, a).Ok? ==> Fold(q, a) == Fold(q, b)
  {
    OrderDoesNotMatter(q, a, b);
    if Fold(q, a).Ok? {
      SameUses(a, b);
      SameFields(a, b);
      FoldLeaves(q, a);
      FoldLeaves(q, b);
      JsdlTells(q, a);
      JsdlTells(q, b);
    }
  }

  lemma {:induction false} FoldConcat(q: Request, a: seq<Reading>, b: seq<Reading>)
    ensures Fold(q, a + b) == match Fold(q, a) case Error(e) => Error(e) case Ok(r) => Fold(r, b)
    decreases |a|
  {
    if a == [] {
      assert a + b == b;
    } else {
      assert (a + b)[1..] == a[1..] + b;
      match Apply(q, a[0])
      case Error(_) =>
      case Ok(next) => FoldConcat(next, a[1..], b);
    }
  }

  lemma {:induction false} MapConcat<T, U>(f: T -> U, a: seq<T>, b: seq<T>)
    ensures Map(f, a + b) == Map(f, a) + Map(f, b)
  {
    if a == [] {
      assert a + b == b;
    } else {
      assert (a + b)[1..] == a[1..] + b;
      MapConcat(f, a[1..], b);
    }
  }

  lemma {:induction false} MapPermuted<T, U>(f: T -> U, a: seq<T>, b: seq<T>)
    requires multiset(a) == multiset(b)
    ensures multiset(Map(f, a)) == multiset(Map(f, b))
    decreases |a|
  {
    if a == [] {
      assert |multiset(b)| == 0;
    } else {
      var left, right := Found(a, b);
      MapPermuted(f, a[1..], left + right);
      MapConcat(f, left, right);
      MapConcat(f, left, [a[0]] + right);
      assert ([a[0]] + right)[1..] == right;
      MovedToFront(Map(f, left), f(a[0]), Map(f, right));
      assert multiset([f(a[0])] + Map(f, a[1..])) == multiset{f(a[0])} + multiset(Map(f, a[1..]));
    }
  }
}
