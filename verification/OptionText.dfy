/**
 The arguments of the options as a user writes them, and what reading them gives back.
 */
module OptionText {
  import opened Text
  import opened Numbers
  import opened TimeFields
  import opened DateOption
  import OptionReading
  import ScriptLexer
  import ScriptRoundTrip

  // ---- Numbers -------------------------------------------------------------------------

  /** Text of digits that reads as this number. */
  predicate Means(text: string, n: int) {
    IsNumerical(text) && ConvertToInt(text) == n
  }

  predicate Fits(n: nat) {
    n <= INT_MAX
  }

  /** A written number is digits only, so it holds none of the separators. */
  lemma WrittenNumber(n: nat, c: char)
    requires Fits(n) && c !in DIGITS
    ensures IsNumerical(Decimal(n)) && ConvertToInt(Decimal(n)) == n && c !in Decimal(n)
  {
    DecimalRoundTrip(n);
  }

  lemma ProcessorsRoundTrip(low: nat, high: nat)
    requires Fits(low) && Fits(high)
    ensures OptionReading.ReadProcessors(Decimal(low) + ("," + Decimal(high)))
         == Ok(OptionReading.Effect(
              {}, map[OptionReading.Of(OptionReading.Processors) := OptionReading.Num(low),
                      OptionReading.MaxProcessors := OptionReading.Num(high)], []))
  {
    WrittenNumber(low, ',');
    WrittenNumber(high, ',');
    var rest := "," + Decimal(high);
    assert rest[0..1] == "," && At(rest, ",", 0);
    FindAfterClean(Decimal(low), rest, ",");
    var arg := Decimal(low) + rest;
    assert arg[..|Decimal(low)|] == Decimal(low) && arg[|Decimal(low)| + 1..] == Decimal(high);
  }

  // ---- Times and dates -----------------------------------------------------------------

  lemma TwoTokens(a: string, b: string, c: char)
    requires c !in a && c !in b
    ensures Tokens(Join([a, b], [c]), c) == [b, a]
  {
    assert [a, b][1..] == [b];
    SplitJoin([a, b], c);
    assert Reverse([a, b]) == Reverse([b]) + [a] && Reverse([b]) == Reverse([]) + [b];
  }

  lemma WallTimeOf(text: string, minutes: string, hours: string)
    requires text != "" && text[0] != ':' && Tokens(text, ':') == [minutes, hours]
    requires IsNumerical(minutes) && IsNumerical(hours)
    ensures OptionReading.WallTime(text) == Ok(ConvertToInt(minutes) + 60 * ConvertToInt(hours))
  {
    TwoNumbers(minutes, hours);
  }

  /** A run limit of so many hours and minutes, leading zeros or not. */
  lemma WallTimeIsRead(hours: string, minutes: string, h: int, m: int)
    requires Means(hours, h) && Means(minutes, m)
    ensures OptionReading.WallTime(Join([hours, minutes], ":")) == Ok(60 * h + m)
  {
    assert [':'] == ":";
    TwoTokens(hours, minutes, ':');
    StartsLike(hours, minutes);
    WallTimeOf(Join([hours, minutes], ":"), minutes, hours);
  }

  lemma StartsLike(a: string, b: string)
    requires a != "" && ':' !in a
    ensures var s := Join([a, b], ":"); s != "" && s[0] != ':'
  {
    assert [a, b][1..] == [b];
  }

  lemma TwoNumbers(a: string, b: string)
    requires IsNumerical(a) && IsNumerical(b)
    ensures OptionReading.AllNumerical([a, b])
  {
    assert [a, b][1..] == [b] && [b][1..] == [];
  }

  function Optional(n: Option<nat>): seq<string> {
    if n.Some? then [Decimal(n.value)] else []
  }

  /** A date as it is written, its largest given field first. */
  function DateParts(f: Fields): seq<string> {
    Optional(f.year) + Optional(f.month) + Optional(f.day) + [Decimal(f.hour), Decimal(f.minute)]
  }

  lemma {:induction false} NumbersAreFree(parts: seq<string>, c: char)
    requires c !in DIGITS && forall i | 0 <= i < |parts| :: IsNumerical(parts[i])
    ensures FreeOf(parts, c)
  {
    if parts != [] {
      assert IsNumerical(parts[0]);
      NumbersAreFree(parts[1..], c);
    }
  }

  lemma ReverseTwo(front: seq<string>, a: string, b: string)
    ensures Reverse(front + [a, b]) == [b, a] + Reverse(front)
  {
    ReverseConcat(front, [a, b]);
    assert [a, b][1..] == [b] && [b][1..] == [];
    assert Reverse([a, b]) == [b, a];
  }

  lemma ReverseOptional(y: Option<nat>, m: Option<nat>, d: Option<nat>)
    ensures Reverse(Optional(y) + Optional(m) + Optional(d)) == Optional(d) + Optional(m) + Optional(y)
  {
    ReverseConcat(Optional(y) + Optional(m), Optional(d));
    ReverseConcat(Optional(y), Optional(m));
    ReverseOne(y);
    ReverseOne(m);
    ReverseOne(d);
    assert Optional(d) + (Optional(m) + Optional(y)) == Optional(d) + Optional(m) + Optional(y);
  }

  lemma ReverseOne(n: Option<nat>)
    ensures Reverse(Optional(n)) == Optional(n)
  {
    if n.Some? { assert Optional(n)[1..] == []; }
  }

  /** The fields of a written date, from the right. */
  lemma DateTokens(f: Fields)
    ensures Tokens(Join(DateParts(f), ":"), ':')
         == [Decimal(f.minute), Decimal(f.hour)] + (Optional(f.day) + Optional(f.month) + Optional(f.year))
  {
    assert [':'] == ":";
    NumbersAreFree(DateParts(f), ':');
    SplitJoin(DateParts(f), ':');
    ReverseTwo(Optional(f.year) + Optional(f.month) + Optional(f.day), Decimal(f.hour), Decimal(f.minute));
    ReverseOptional(f.year, f.month, f.day);
  }

  lemma ReadsAs(tokens: seq<string>, f: Fields)
    requires Proper(f) && (f.year.Some? ==> Fits(f.year.value))
    requires |tokens| == 2 + |Optional(f.day)| + |Optional(f.month)| + |Optional(f.year)|
    requires Means(tokens[0], f.minute) && Means(tokens[1], f.hour)
    requires f.day.Some? ==> Means(tokens[2], f.day.value)
    requires f.month.Some? ==> Means(tokens[3], f.month.value)
    requires f.year.Some? ==> Means(tokens[4], f.year.value)
    ensures ReadFields(tokens) == Ok(f)
  {
    forall i | 0 <= i < |tokens| ensures IsNumerical(tokens[i]) {
      assert i == 0 || i == 1 || i == 2 || i == 3 || i == 4;
    }
  }

  lemma WrittenIfGiven(n: Option<nat>)
    requires n.Some? ==> Fits(n.value)
    ensures IfGiven(Optional(n), n)
  {
    if n.Some? { WrittenNumber(n.value, ':'); }
  }

  /** A written date is read back field by field. */
  lemma DateRoundTrip(f: Fields)
    requires Proper(f) && (f.year.Some? ==> Fits(f.year.value))
    ensures ReadFields(Tokens(Join(DateParts(f), ":"), ':')) == Ok(f)
  {
    DateTokens(f);
    WrittenNumber(f.minute, ':');
    WrittenNumber(f.hour, ':');
    WrittenIfGiven(f.day);
    WrittenIfGiven(f.month);
    WrittenIfGiven(f.year);
    InOrder(Decimal(f.minute), Decimal(f.hour), Optional(f.day), Optional(f.month), Optional(f.year), f);
  }

  lemma InOrder(minute: string, hour: string, day: seq<string>, month: seq<string>, year: seq<string>, f: Fields)
    requires Proper(f) && (f.year.Some? ==> Fits(f.year.value))
    requires Means(minute, f.minute) && Means(hour, f.hour)
    requires IfGiven(day, f.day) && IfGiven(month, f.month) && IfGiven(year, f.year)
    ensures ReadFields([minute, hour] + (day + month + year)) == Ok(f)
  {
    var tokens := [minute, hour] + (day + month + year);
    assert f.day.Some? ==> tokens[2] == day[0];
    assert f.month.Some? ==> tokens[3] == month[0];
    assert f.year.Some? ==> tokens[4] == year[0];
    ReadsAs(tokens, f);
  }

  predicate IfGiven(parts: seq<string>, n: Option<nat>) {
    if n.Some? then |parts| == 1 && Means(parts[0], n.value) else parts == []
  }

  // ---- File transfers ------------------------------------------------------------------

  function Operator(d: OptionReading.Direction): string {
    match d
    case ToExec => ">"
    case FromExec => "<"
    case FromExecAppend => "<<"
    case Both => "><"
  }

  function TransferTokens(x: OptionReading.XFile): seq<string> {
    [x.subFn, Operator(x.direction)] + if x.execFn.Some? then [x.execFn.value] else []
  }

  lemma OperatorIsToken(d: OptionReading.Direction)
    ensures ScriptLexer.IsToken(Operator(d)) && OptionReading.DirectionOf(Operator(d)) == Some(d)
  {
    ScriptRoundTrip.NoSpacesIsToken(Operator(d));
  }

  /** A file transfer between names without blanks. */
  lemma TransferRoundTrip(x: OptionReading.XFile)
    requires ScriptLexer.IsToken(x.subFn) && (x.execFn.Some? ==> ScriptLexer.IsToken(x.execFn.value))
    ensures OptionReading.ReadTransfer(ScriptRoundTrip.Spaced(TransferTokens(x))) == Ok(x)
  {
    OperatorIsToken(x.direction);
    ScriptRoundTrip.SpacedTokens(TransferTokens(x));
  }

  // ---- Checkpoints ---------------------------------------------------------------------

  lemma {:induction false} DigitsAreToken(before: string, digits: string)
    requires IsNumerical(digits) && (before == "" || before == OptionReading.INIT)
    ensures ScriptLexer.IsToken(before + digits)
  {
    var t := before + digits;
    forall i | 0 <= i < |t| ensures !ScriptLexer.IsSpace(t[i]) {
      if i >= |before| { assert t[i] == digits[i - |before|]; }
    }
    ScriptRoundTrip.NoSpacesIsToken(t);
  }

  /** A checkpoint directory with a first and a regular period. */
  lemma CheckpointIsRead(dir: string, first: string, period: string, f: int, p: int)
    requires ScriptLexer.IsToken(dir) && Means(first, f) && Means(period, p)
    ensures OptionReading.ReadCheckpoint(ScriptRoundTrip.Spaced([dir, OptionReading.INIT + first, period]))
         == Ok(OptionReading.Effect(
              {OptionReading.Of(OptionReading.Checkpoint), OptionReading.CheckpointPeriod},
              map[OptionReading.Of(OptionReading.Checkpoint) := OptionReading.Str(dir),
                  OptionReading.FirstCheckpoint := OptionReading.Num(f),
                  OptionReading.CheckpointPeriod := OptionReading.Num(p)], []))
  {
    var tokens := [dir, OptionReading.INIT + first, period];
    DigitsAreToken(OptionReading.INIT, first);
    DigitsAreToken("", period);
    assert "" + period == period;
    ScriptRoundTrip.SpacedTokens(tokens);
    assert tokens[1][|OptionReading.INIT|..] == first;
    assert StartsWith(tokens[1], OptionReading.INIT);
    NotMethod(period);
  }

  lemma NotMethod(digits: string)
    requires IsNumerical(digits)
    ensures !StartsWith(digits, OptionReading.METHOD)
  {
    AtHead(digits, OptionReading.METHOD, 0);
  }
}
