/**
 Reading a built command back: the positions of the separators, and the slices between them
 that each command's decoder takes. Some decoders measure the first slice by the distance
 between two separators, others by an offset that fits only a given number of digits.
 */
module MapperDecode {
  import opened Text
  import opened Numbers
  import opened Mapper

  function Positions(msg: string, from: nat): seq<nat>
    decreases |msg| - from
  {
    if from >= |msg| then []
    else if msg[from] == '#' then [from] + Positions(msg, from + 1)
    else Positions(msg, from + 1)
  }

  /** Ascending positions of separators, none before `from`. */
  predicate Ordered(msg: string, from: nat, seps: seq<nat>) {
    && (forall i | 0 <= i < |seps| :: from <= seps[i] < |msg| && msg[seps[i]] == '#')
    && (forall i, j | 0 <= i < j < |seps| :: seps[i] < seps[j])
  }

  lemma {:induction false} PositionsOrdered(msg: string, from: nat)
    ensures Ordered(msg, from, Positions(msg, from)) && Ordered(msg, 0, Positions(msg, from))
    decreases |msg| - from
  {
    if from < |msg| {
      PositionsOrdered(msg, from + 1);
      var later := Positions(msg, from + 1);
      if msg[from] == '#' {
        var all := [from] + later;
        assert forall i | 1 <= i < |all| :: all[i] == later[i - 1];
      }
    }
  }

  method FindSeparator(s: string) returns (vec: seq<nat>)
    ensures vec == Positions(s, 0)
  {
    vec := [];
    var cpt := 0;
    while true
      invariant cpt <= |s|
      invariant Positions(s, 0) == vec + Positions(s, cpt)
      decreases |s| - cpt
    {
      var found := Find(s, "#", cpt);
      if found == NPOS {
        SkipPositions(s, cpt, |s|);
        break;
      }
      SkipPositions(s, cpt, found);
      assert s[found] == s[found..found + 1][0];
      vec := vec + [found];
      cpt := found + 1;
    }
  }

  lemma {:induction false} SkipPositions(s: string, from: nat, to: nat)
    requires from <= to <= |s|
    requires forall i: nat | from <= i < to :: !At(s, "#", i)
    ensures Positions(s, from) == Positions(s, to)
    decreases |s| - from
  {
    if from < to {
      assert s[from..from + 1] == [s[from]];
      assert !At(s, "#", from);
      SkipPositions(s, from + 1, to);
    }
  }

  // ---- The decoders --------------------------------------------------------------------

  /** How a decoder measures its first slice, when it takes more than one. */
  datatype First = ByDistance | ByOffset(width: nat)

  /** What a decoder does with its last slice. */
  datatype Last = Whole | Chopped | UnlessOneChar | IfPresent

  /** A decoder: the command whose name it prints, and the slices it takes. */
  datatype Layout = Layout(printed: nat, slices: nat, first: First, last: Last)

  datatype Decoded = Command(printed: nat, fields: seq<string>) | Unknown | OutOfRange

  function FmsLayout(code: int): Option<Layout> {
    if code == 1 || code == 4 || code == 9 || 15 <= code <= 17 then Some(Layout(code, 1, ByDistance, Whole))
    else if code == 2 || code == 3 || 5 <= code <= 8 || code == 10 then Some(Layout(code, 2, ByDistance, Whole))
    else if 11 <= code <= 14 then Some(Layout(code, 3, ByDistance, Whole))
    else None
  }

  function TmsLayout(code: int): Option<Layout> {
    if code == 1 || code == 2 || code == 7 then Some(Layout(code, 2, ByOffset(1), Whole))
    else if code == 4 then Some(Layout(code, 2, ByOffset(1), UnlessOneChar))
    else if code == 6 then Some(Layout(code, 3, ByOffset(1), Whole))
    else if code == 3 || code == 5 || code == 8 then Some(Layout(code, 1, ByDistance, Whole))
    else if code == 9 then Some(Layout(code, 1, ByDistance, Chopped))
    else None
  }

  const UMS_CONNECT: int := 1
  const UMS_RECONNECT: int := 2
  const UMS_CHANGE_PASSWORD: int := 7
  const UMS_DELETE_ACCOUNT: int := 11
  const UMS_DELETE_AUTH_ACCOUNT: int := 26
  const UMS_DEFINE_AUTH: int := 32
  const UMS_DEFINE_WORK: int := 33
  const UMS_EXPORT: int := 34

  function UmsLayout(code: int): Option<Layout> {
    if code == 3 then Some(Layout(code, 0, ByDistance, Whole))
    else if code == 6 then Some(Layout(code, 1, ByDistance, IfPresent))
    else if code == UMS_CHANGE_PASSWORD then Some(Layout(code, 2, ByOffset(1), Whole))
    else if code == UMS_DELETE_ACCOUNT then Some(Layout(code, 2, ByOffset(2), Whole))
    else if code == UMS_DELETE_AUTH_ACCOUNT then Some(Layout(UMS_DELETE_ACCOUNT, 2, ByOffset(2), Whole))
    else if code == UMS_DEFINE_WORK then Some(Layout(UMS_DEFINE_AUTH, 1, ByDistance, Whole))
    else if code == UMS_EXPORT then Some(Layout(code, 2, ByOffset(1), Whole))
    else if 4 <= code <= 32 then Some(Layout(code, 1, ByDistance, Whole))
    else None
  }

  /** `substr(sep0 + 1, sep1 - (w + 1))` in 32-bit unsigned arithmetic. */
  function OffsetSlice(msg: string, sep0: nat, sep1: nat, width: nat): string {
    if sep0 >= |msg| then "" else Substr(msg, sep0 + 1, (sep1 - (width + 1)) % 0x1_0000_0000)
  }

  function Cut(msg: string, from: nat, to: nat): string {
    if from <= to <= |msg| then msg[from..to] else ""
  }

  /** The slices measured by the separators alone, the last one to the end. */
  function Slices(msg: string, seps: seq<nat>, n: nat): seq<string>
    requires n <= |seps|
  {
    if n == 0 then []
    else if n == 1 then [Cut(msg, seps[0] + 1, |msg|)]
    else [Cut(msg, seps[0] + 1, seps[1])] + Slices(msg, seps[1..], n - 1)
  }

  function Render(msg: string, seps: seq<nat>, layout: Layout): Decoded {
    if |seps| < layout.slices then
      if layout.last == IfPresent then Command(layout.printed, []) else OutOfRange
    else
      var general := Slices(msg, seps, layout.slices);
      var fields :=
        if layout.slices >= 2 && layout.first.ByOffset?
        then general[0 := OffsetSlice(msg, seps[0], seps[1], layout.first.width)] else general;
      match layout.last
      case Chopped =>
        if fields == [] || fields[|fields| - 1] == "" then Command(layout.printed, fields)
        else
          var last := fields[|fields| - 1];
          Command(layout.printed, fields[|fields| - 1 := last[..|last| - 1]])
      case UnlessOneChar =>
        if |fields| >= 2 && |seps| >= 2 && seps[1] == |msg| - 2
        then Command(layout.printed, fields[..1]) else Command(layout.printed, fields)
      case _ => Command(layout.printed, fields)
  }

  /** `decode`: the number before the first separator selects the decoder. */
  function Decode(layouts: int -> Option<Layout>, msg: string): Decoded {
    var seps := Positions(msg, 0);
    var func := if seps != [] then Cut(msg, 0, seps[0]) else msg;
    match layouts(ConvertToInt(func))
    case None => Unknown
    case Some(layout) => Render(msg, seps, layout)
  }

  // ---- Encoding, then slicing ----------------------------------------------------------

  ghost predicate SeparatorFree(param: string) {
    '#' !in param
  }

  /** All parameters but the last are free of separators. */
  ghost predicate Sliceable(params: seq<string>) {
    |params| <= 1 || (SeparatorFree(params[0]) && Sliceable(params[1..]))
  }

  function CodedAll(params: seq<string>): seq<string> {
    if params == [] then [] else [Coded(params[0])] + CodedAll(params[1..])
  }

  lemma {:induction false} CodedLength(params: seq<string>)
    ensures |CodedAll(params)| == |params|
  {
    if params != [] { CodedLength(params[1..]); }
  }

  lemma NoSeparatorInside(msg: string, from: nat, field: string)
    requires SeparatorFree(field) && from + |field| <= |msg| && msg[from..from + |field|] == field
    ensures Positions(msg, from) == Positions(msg, from + |field|)
  {
    forall i: nat | from <= i < from + |field| ensures !At(msg, "#", i) {
      assert msg[i] == field[i - from];
      assert msg[i..i + 1] == [msg[i]];
    }
    SkipPositions(msg, from, from + |field|);
  }

  /** One parameter after its separator, up to the next separator. */
  lemma OneSlice(msg: string, start: nat, field: string)
    requires SeparatorFree(field) && start + 1 + |field| < |msg|
    requires msg[start] == '#' && msg[start + 1..start + 1 + |field|] == field
    requires msg[start + 1 + |field|] == '#'
    ensures Positions(msg, start) == [start] + Positions(msg, start + 1 + |field|)
    ensures |Positions(msg, start + 1 + |field|)| >= 1
    ensures Positions(msg, start + 1 + |field|)[0] == start + 1 + |field|
  {
    var next := start + 1 + |field|;
    NoSeparatorInside(msg, start + 1, field);
    assert Positions(msg, start) == [start] + Positions(msg, start + 1);
    assert Positions(msg, next) == [next] + Positions(msg, next + 1);
  }

  lemma TailStarts(msg: string, start: nat, field: string, rest: string)
    requires start <= |msg| && msg[start..] == "#" + field + rest
    ensures start + 1 + |field| <= |msg| && msg[start] == '#'
    ensures msg[start + 1..start + 1 + |field|] == field
    ensures msg[start + 1 + |field|..] == rest
  {
    var tail := msg[start..];
    assert tail[1..1 + |field|] == field && tail[1 + |field|..] == rest;
  }

  /** Past the start of the parameters, the slices are the coded parameters. */
  lemma {:induction false} TailSlices(msg: string, start: nat, params: seq<string>)
    requires params != [] && Sliceable(params) && start <= |msg| && msg[start..] == Tail(params)
    ensures var seps := Positions(msg, start);
            && |seps| >= |params| && seps[0] == start
            && (|params| >= 2 ==> seps[1] == start + 1 + |Coded(params[0])|)
            && Slices(msg, seps, |params|) == CodedAll(params)
    decreases |params|
  {
    var field, others := Coded(params[0]), params[1..];
    TailStarts(msg, start, field, Tail(others));
    var next := start + 1 + |field|;
    if others == [] {
      assert msg[start + 1..] == field;
      LastSlice(msg, start, params);
    } else {
      assert msg[next] == msg[next..][0] == '#';
      OneSlice(msg, start, field);
      TailSlices(msg, next, others);
      MoreSlices(msg, start, Positions(msg, start), Positions(msg, next), params);
    }
  }

  lemma LastSlice(msg: string, sep: nat, params: seq<string>)
    requires |params| == 1 && sep < |msg| && msg[sep] == '#' && msg[sep + 1..] == Coded(params[0])
    ensures var seps := Positions(msg, sep);
            |seps| >= 1 && seps[0] == sep && Slices(msg, seps, |params|) == CodedAll(params)
  {
    assert msg[sep + 1..] == msg[sep + 1..|msg|];
    assert CodedAll(params) == [Coded(params[0])];
  }

  lemma MoreSlices(msg: string, sep: nat, all: seq<nat>, seps: seq<nat>, params: seq<string>)
    requires 2 <= |params| <= |seps| + 1 && all == [sep] + seps
    requires sep < seps[0] <= |msg| && msg[sep + 1..seps[0]] == Coded(params[0])
    requires Slices(msg, seps, |params| - 1) == CodedAll(params[1..])
    ensures Slices(msg, all, |params|) == CodedAll(params)
  {
    assert all[1..] == seps && all[0] == sep && all[1] == seps[0];
  }

  /** The number in front holds no separator. */
  lemma NumberSkipped(code: int, rest: string)
    ensures var head := ConvertToString(code); Positions(head + rest, 0) == Positions(head + rest, |head|)
  {
    var head := ConvertToString(code);
    assert (head + rest)[0..|head|] == head;
    NoSeparatorInside(head + rest, 0, head);
  }

  /** The shape of an encoded message as the decoder sees it. */
  lemma {:induction false} EncodedSlices(code: int, params: seq<string>)
    requires Sliceable(params)
    ensures var msg := Encode(code, params);
            var seps := Positions(msg, 0);
            && |seps| >= |params| && Ordered(msg, 0, seps)
            && (params == [] ==> seps == [] && msg == ConvertToString(code))
            && (params != [] ==> seps[0] == |ConvertToString(code)| < |msg| && msg[..seps[0]] == ConvertToString(code))
            && (|params| >= 2 ==> seps[1] == seps[0] + 1 + |Coded(params[0])| < |msg|)
            && Slices(msg, seps, |params|) == CodedAll(params)
  {
    var head := ConvertToString(code);
    var msg := Encode(code, params);
    PositionsOrdered(msg, 0);
    NumberSkipped(code, Tail(params));
    if params == [] {
      assert msg == head;
    } else {
      assert msg[|head|..] == Tail(params) && msg[..|head|] == head;
      TailSlices(msg, |head|, params);
    }
  }

  /** For any message: the constant offset gives the first slice exactly at its own width. */
  lemma OffsetFitsOneWidth(msg: string, sep0: nat, sep1: nat, width: nat)
    requires sep0 < sep1 < |msg| < 0x8000_0000 && width < 0x8000_0000
    ensures OffsetSlice(msg, sep0, sep1, width) == msg[sep0 + 1..sep1] <==> width == sep0
  {
    var slice := OffsetSlice(msg, sep0, sep1, width);
    assert |msg[sep0 + 1..sep1]| == sep1 - sep0 - 1;
    if sep1 < width + 1 {
      assert (sep1 - (width + 1)) % 0x1_0000_0000 == sep1 - (width + 1) + 0x1_0000_0000;
      assert |slice| == |msg| - sep0 - 1;
    } else {
      assert (sep1 - (width + 1)) % 0x1_0000_0000 == sep1 - (width + 1);
    }
    if width == sep0 {
      assert slice == msg[sep0 + 1..][..sep1 - sep0 - 1];
    }
  }

  /** The offset, where there is one, fits the digits of the command's number. */
  predicate OffsetFits(code: nat, layout: Layout) {
    layout.first.ByOffset? && layout.slices >= 2 ==> layout.first.width == |ConvertToString(code)|
  }

  /** Every offset in the three mappers fits its command, save that of the export command. */
  lemma OffsetsFit(code: nat)
    ensures FmsLayout(code).Some? ==> OffsetFits(code, FmsLayout(code).value)
    ensures TmsLayout(code).Some? ==> OffsetFits(code, TmsLayout(code).value)
    ensures UmsLayout(code).Some? ==> (OffsetFits(code, UmsLayout(code).value) <==> code != UMS_EXPORT)
  {
    if 10 <= code <= 99 {
      assert |Decimal(code)| == |Decimal(code / 10)| + 1;
    }
  }

  /** The number in front selects the layout it was encoded for. */
  lemma DecodeSelects(layouts: int -> Option<Layout>, code: nat, params: seq<string>)
    requires code <= INT_MAX && layouts(code).Some? && Sliceable(params)
    ensures var msg := Encode(code, params);
            Decode(layouts, msg) == Render(msg, Positions(msg, 0), layouts(code).value)
  {
    DecimalRoundTrip(code);
    EncodedSlices(code, params);
  }

  /**
   A command of the layout's arity decodes to the parameters it was built from exactly when
   the offset fits the digits of its number.
   */
  lemma DecodeRoundTrip(layouts: int -> Option<Layout>, code: nat, params: seq<string>)
    requires code <= INT_MAX && layouts(code).Some? && layouts(code).value.last in {Whole, IfPresent}
    requires |params| == layouts(code).value.slices && Sliceable(params)
    requires |Encode(code, params)| < 0x8000_0000
    requires layouts(code).value.first.ByOffset? ==> layouts(code).value.first.width < 0x8000_0000
    ensures Decode(layouts, Encode(code, params)) == Command(layouts(code).value.printed, CodedAll(params))
       <==> OffsetFits(code, layouts(code).value)
  {
    DecodeSelects(layouts, code, params);
    EncodedSlices(code, params);
    CodedLength(params);
    RenderRoundTrip(Encode(code, params), layouts(code).value, CodedAll(params), |ConvertToString(code)|);
  }

  lemma RenderRoundTrip(msg: string, layout: Layout, fields: seq<string>, digits: nat)
    requires layout.last in {Whole, IfPresent} && |msg| < 0x8000_0000
    requires layout.first.ByOffset? ==> layout.first.width < 0x8000_0000
    requires |fields| == layout.slices <= |Positions(msg, 0)| && Ordered(msg, 0, Positions(msg, 0))
    requires |fields| >= 1 ==> Positions(msg, 0)[0] == digits
    requires Slices(msg, Positions(msg, 0), |fields|) == fields
    ensures Render(msg, Positions(msg, 0), layout) == Command(layout.printed, fields)
       <==> (layout.first.ByOffset? && layout.slices >= 2 ==> layout.first.width == digits)
  {
    var seps := Positions(msg, 0);
    if layout.slices >= 2 && layout.first.ByOffset? {
      OffsetRendered(msg, seps, layout);
      OffsetFitsOneWidth(msg, seps[0], seps[1], layout.first.width);
      assert fields[0] == msg[seps[0] + 1..seps[1]];
      FirstIs(fields, OffsetSlice(msg, seps[0], seps[1], layout.first.width));
    } else {
      DistanceRendered(msg, seps, layout);
    }
  }

  lemma OffsetRendered(msg: string, seps: seq<nat>, layout: Layout)
    requires layout.last in {Whole, IfPresent} && 2 <= layout.slices <= |seps| && layout.first.ByOffset?
    ensures |Slices(msg, seps, layout.slices)| == layout.slices ==>
            Render(msg, seps, layout) == Command(layout.printed,
              Slices(msg, seps, layout.slices)[0 := OffsetSlice(msg, seps[0], seps[1], layout.first.width)])
  {
  }

  lemma DistanceRendered(msg: string, seps: seq<nat>, layout: Layout)
    requires layout.last in {Whole, IfPresent} && layout.slices <= |seps|
    requires !(layout.slices >= 2 && layout.first.ByOffset?)
    ensures Render(msg, seps, layout) == Command(layout.printed, Slices(msg, seps, layout.slices))
  {
  }

  lemma FirstIs(fields: seq<string>, slice: string)
    requires fields != []
    ensures fields[0 := slice] == fields <==> slice == fields[0]
  {
    assert fields[0 := slice][0] == slice;
  }

  /** What a two-slice decoder with an offset sees. */
  lemma TwoFields(layouts: int -> Option<Layout>, code: nat, first: string, second: string)
    returns (msg: string, seps: seq<nat>)
    requires code <= INT_MAX && layouts(code).Some? && SeparatorFree(first)
    ensures msg == Encode(code, [first, second]) && seps == Positions(msg, 0)
    ensures Decode(layouts, msg) == Render(msg, seps, layouts(code).value)
    ensures |seps| >= 2 && seps[0] == |ConvertToString(code)| && seps[0] < seps[1] < |msg|
    ensures Slices(msg, seps, 2) == [Coded(first), Coded(second)]
    ensures msg[seps[0] + 1..seps[1]] == Coded(first) && msg[seps[1]] == '#'
    ensures |msg| == seps[1] + 1 + |Coded(second)|
  {
    var params := [first, second];
    msg, seps := Encode(code, params), Positions(Encode(code, params), 0);
    DecodeSelects(layouts, code, params);
    EncodedSlices(code, params);
    TwoCoded(first, second);
    assert Slices(msg, seps, 2)[0] == Cut(msg, seps[0] + 1, seps[1]);
  }

  lemma TwoCoded(first: string, second: string)
    ensures CodedAll([first, second]) == [Coded(first), Coded(second)]
    ensures |Tail([first, second])| == 2 + |Coded(first)| + |Coded(second)|
  {
    assert [first, second][1..] == [second] && [second][1..] == [];
    assert CodedAll([second]) == [Coded(second)];
    assert |Tail([second])| == 1 + |Coded(second)|;
  }

  lemma OneMoreThanFits(msg: string, sep0: nat, sep1: nat, width: nat)
    requires sep0 < sep1 < |msg| < 0x8000_0000 && sep0 == width + 1
    ensures OffsetSlice(msg, sep0, sep1, width) == msg[sep0 + 1..sep1] + [msg[sep1]]
  {
    assert OffsetSlice(msg, sep0, sep1, width) == msg[sep0 + 1..sep1 + 1];
  }

  lemma TwoDigits()
    ensures |ConvertToString(UMS_EXPORT)| == 2
  {
    assert |Decimal(34)| == |Decimal(3)| + 1;
  }

  lemma FirstReplaced(a: string, b: string, c: string)
    ensures [a, b][0 := c] == [c, b]
  {
  }

  /** The exported session's identifier is always printed with a separator behind it. */
  lemma ExportKeepsTheSeparator(session: string, file: string)
    requires SeparatorFree(session) && |Encode(UMS_EXPORT, [session, file])| < 0x8000_0000
    ensures Decode(UmsLayout, Encode(UMS_EXPORT, [session, file]))
         == Command(UMS_EXPORT, [Coded(session) + "#", Coded(file)])
  {
    var msg, seps := TwoFields(UmsLayout, UMS_EXPORT, session, file);
    TwoDigits();
    OneMoreThanFits(msg, seps[0], seps[1], 1);
    assert [msg[seps[1]]] == "#";
    FirstReplaced(Coded(session), Coded(file), Coded(session) + "#");
  }

  const TMS_LIST_QUEUES: int := 4

  /** The queue asked for is printed exactly when its name has at least two characters. */
  lemma OneCharacterQueueIsLost(machine: string, queue: string)
    requires SeparatorFree(machine) && |Encode(TMS_LIST_QUEUES, [machine, queue])| < 0x8000_0000
    ensures Decode(TmsLayout, Encode(TMS_LIST_QUEUES, [machine, queue]))
         == Command(TMS_LIST_QUEUES, if |queue| >= 2 then [Coded(machine), queue] else [Coded(machine)])
  {
    var msg, seps := TwoFields(TmsLayout, TMS_LIST_QUEUES, machine, queue);
    OffsetFitsOneWidth(msg, seps[0], seps[1], 1);
    var general := [Coded(machine), Coded(queue)];
    assert general[0 := Coded(machine)] == general;
    assert general[..1] == [Coded(machine)];
  }

  const TMS_ADD_WORK: int := 9

  /** The options of an added work always reach their parser without their last character. */
  lemma AddWorkIsCutShort(options: string)
    requires |Encode(TMS_ADD_WORK, [options])| < 0x8000_0000
    ensures Decode(TmsLayout, Encode(TMS_ADD_WORK, [options]))
         == Command(TMS_ADD_WORK, [Coded(options)[..|Coded(options)| - 1]])
  {
    var msg := Encode(TMS_ADD_WORK, [options]);
    DecodeSelects(TmsLayout, TMS_ADD_WORK, [options]);
    EncodedSlices(TMS_ADD_WORK, [options]);
    assert CodedAll([options]) == [Coded(options)] + CodedAll([]);
    assert [Coded(options)][0 := Coded(options)[..|Coded(options)| - 1]] == [Coded(options)[..|Coded(options)| - 1]];
  }

  // ---- The command's name --------------------------------------------------------------

  /** Every decoder names its own command, save two of the UMS ones; two more print nothing. */
  lemma PrintedNames(code: int)
    ensures FmsLayout(code).Some? ==> FmsLayout(code).value.printed == code
    ensures TmsLayout(code).Some? ==> TmsLayout(code).value.printed == code
    ensures 1 <= code <= 34 ==>
      (UmsLayout(code).Some? && UmsLayout(code).value.printed == code <==>
       code !in {UMS_CONNECT, UMS_RECONNECT, UMS_DELETE_AUTH_ACCOUNT, UMS_DEFINE_WORK})
  {
  }

  lemma DecodesToNothing(layouts: int -> Option<Layout>, code: int, params: seq<string>)
    requires -INT_MAX - 1 <= code <= INT_MAX && layouts(code).None? && Sliceable(params)
    ensures Decode(layouts, Encode(code, params)) == Unknown
  {
    DecimalRoundTrip(code);
    EncodedSlices(code, params);
  }

  lemma RenderPrints(msg: string, seps: seq<nat>, layout: Layout)
    requires layout.slices <= |seps|
    ensures Render(msg, seps, layout).Command? && Render(msg, seps, layout).printed == layout.printed
  {
  }

  /** A complete command is decoded under the name that its layout prints. */
  lemma DecodePrints(layouts: int -> Option<Layout>, code: nat, params: seq<string>)
    requires code <= INT_MAX && layouts(code).Some?
    requires |params| == layouts(code).value.slices && Sliceable(params)
    ensures Decode(layouts, Encode(code, params)).Command?
    ensures Decode(layouts, Encode(code, params)).printed == layouts(code).value.printed
  {
    DecodeSelects(layouts, code, params);
    EncodedSlices(code, params);
    RenderPrints(Encode(code, params), Positions(Encode(code, params), 0), layouts(code).value);
  }

  /** A complete FMS command is decoded under its own name. */
  lemma {:induction false} FmsPrintsItsName(code: nat, params: seq<string>)
    requires FmsLayout(code).Some? && |params| == FmsLayout(code).value.slices && Sliceable(params)
    ensures Decode(FmsLayout, Encode(code, params)).Command?
    ensures Decode(FmsLayout, Encode(code, params)).printed == code
  {
    FmsKnown(code);
    DecodePrints(FmsLayout, code, params);
  }

  lemma FmsKnown(code: int)
    requires FmsLayout(code).Some?
    ensures 1 <= code <= 17 && FmsLayout(code).value.printed == code
  {
  }

  /** And so is a complete TMS command. */
  lemma {:induction false} TmsPrintsItsName(code: nat, params: seq<string>)
    requires TmsLayout(code).Some? && |params| == TmsLayout(code).value.slices && Sliceable(params)
    ensures Decode(TmsLayout, Encode(code, params)).Command?
    ensures Decode(TmsLayout, Encode(code, params)).printed == code
  {
    TmsKnown(code);
    DecodePrints(TmsLayout, code, params);
  }

  lemma TmsKnown(code: int)
    requires TmsLayout(code).Some?
    ensures 1 <= code <= 9 && TmsLayout(code).value.printed == code
  {
  }

  /**
   Of the UMS commands, numbered from 1 to 34, two decode to nothing and two under the name of
   another; a complete command is decoded under its own name exactly if it is none of the four.
   */
  lemma {:induction false} UmsPrintsItsName(code: nat, params: seq<string>)
    requires 1 <= code <= 34 && Sliceable(params)
    requires UmsLayout(code).Some? ==> |params| == UmsLayout(code).value.slices
    ensures (Decode(UmsLayout, Encode(code, params)).Command?
             && Decode(UmsLayout, Encode(code, params)).printed == code)
       <==> code !in {UMS_CONNECT, UMS_RECONNECT, UMS_DELETE_AUTH_ACCOUNT, UMS_DEFINE_WORK}
  {
    PrintedNames(code);
    if UmsLayout(code).Some? {
      DecodePrints(UmsLayout, code, params);
    } else {
      DecodesToNothing(UmsLayout, code, params);
    }
  }

  /** Deleting an authentication account is decoded as deleting the local account. */
  lemma DeleteAuthAccountReadsAsLocal(first: string, second: string)
    requires SeparatorFree(first)
    requires |Encode(UMS_DELETE_AUTH_ACCOUNT, [first, second])| < 0x8000_0000
    ensures Decode(UmsLayout, Encode(UMS_DELETE_AUTH_ACCOUNT, [first, second]))
         == Command(UMS_DELETE_ACCOUNT, [Coded(first), Coded(second)])
         == Decode(UmsLayout, Encode(UMS_DELETE_ACCOUNT, [first, second]))
  {
    var params := [first, second];
    assert Sliceable(params[1..]);
    TwoCoded(first, second);
    SameLength(UMS_DELETE_ACCOUNT, UMS_DELETE_AUTH_ACCOUNT, params);
    OffsetsFit(UMS_DELETE_AUTH_ACCOUNT);
    OffsetsFit(UMS_DELETE_ACCOUNT);
    DecodeRoundTrip(UmsLayout, UMS_DELETE_AUTH_ACCOUNT, params);
    DecodeRoundTrip(UmsLayout, UMS_DELETE_ACCOUNT, params);
  }

  lemma SameLength(a: nat, b: nat, params: seq<string>)
    requires 10 <= a <= 99 && 10 <= b <= 99
    ensures |Encode(a, params)| == |Encode(b, params)|
  {
    assert |Decimal(a)| == |Decimal(a / 10)| + 1 && |Decimal(b)| == |Decimal(b / 10)| + 1;
  }

  lemma OneField(layouts: int -> Option<Layout>, code: nat, field: string)
    requires code <= INT_MAX && layouts(code).Some? && |Encode(code, [field])| < 0x8000_0000
    requires layouts(code).value.slices == 1 && layouts(code).value.first.ByDistance?
    requires layouts(code).value.last == Whole
    ensures Decode(layouts, Encode(code, [field])) == Command(layouts(code).value.printed, [Coded(field)])
  {
    assert CodedAll([field]) == [Coded(field)] + CodedAll([]);
    DecodeRoundTrip(layouts, code, [field]);
  }

  lemma DefineWorkReads(format: string)
    requires |Encode(UMS_DEFINE_WORK, [format])| < 0x8000_0000
    ensures Decode(UmsLayout, Encode(UMS_DEFINE_WORK, [format])) == Command(UMS_DEFINE_AUTH, [Coded(format)])
  {
    OneField(UmsLayout, UMS_DEFINE_WORK, format);
  }

  lemma DefineAuthReads(format: string)
    requires |Encode(UMS_DEFINE_AUTH, [format])| < 0x8000_0000
    ensures Decode(UmsLayout, Encode(UMS_DEFINE_AUTH, [format])) == Command(UMS_DEFINE_AUTH, [Coded(format)])
  {
    OneField(UmsLayout, UMS_DEFINE_AUTH, format);
  }

  lemma DefineLengths(format: string)
    ensures |Encode(UMS_DEFINE_WORK, [format])| == |Encode(UMS_DEFINE_AUTH, [format])|
  {
    SameLength(UMS_DEFINE_WORK, UMS_DEFINE_AUTH, [format]);
  }

  /** Defining the work identifier cannot be told from defining the authentication identifier. */
  lemma DefineWorkReadsAsAuth(format: string)
    requires |Encode(UMS_DEFINE_WORK, [format])| < 0x8000_0000
    ensures Decode(UmsLayout, Encode(UMS_DEFINE_WORK, [format]))
         == Command(UMS_DEFINE_AUTH, [Coded(format)])
         == Decode(UmsLayout, Encode(UMS_DEFINE_AUTH, [format]))
  {
    DefineLengths(format);
    DefineWorkReads(format);
    DefineAuthReads(format);
  }

  // ---- From the builder to the decoder -------------------------------------------------

  /** What a decoder needs of the message it is given. */
  ghost predicate Complete(layouts: int -> Option<Layout>, code: int, params: seq<string>) {
    && 0 <= code <= INT_MAX && layouts(code).Some? && layouts(code).value.last in {Whole, IfPresent}
    && (layouts(code).value.first.ByOffset? ==> layouts(code).value.first.width < 0x8000_0000)
    && |params| == layouts(code).value.slices && Sliceable(params)
    && |Encode(code, params)| < 0x8000_0000
  }

  /**
   A finished command, however its building was interleaved with others, decodes to the
   parameters appended since its allocation exactly if its offset fits.
   */
  lemma FinishedCommandDecodes(
      layouts: int -> Option<Layout>, names: seq<(int, string)>,
      calls: seq<Call>, replies: seq<Reply>, states: seq<State>, i: nat)
    returns (a: nat)
    requires Run(names, calls, replies, states)
    requires i < |calls| && calls[i].Finalize? && replies[i].Message?
    ensures a < i && Live(calls[..i], replies[..i], calls[i].finished, a)
    ensures var code := NumberOf(names, calls[a].text, calls[a].stale);
            var params := Appended(calls[..i][a + 1..], calls[i].finished);
            Complete(layouts, code, params) ==>
            (Decode(layouts, replies[i].text) == Command(layouts(code).value.printed, CodedAll(params))
             <==> OffsetFits(code, layouts(code).value))
  {
    a := FinalizeReturnsTheBuilt(names, calls, replies, states, i);
    var code := NumberOf(names, calls[a].text, calls[a].stale);
    var params := Appended(calls[..i][a + 1..], calls[i].finished);
    if Complete(layouts, code, params) {
      DecodeRoundTrip(layouts, code, params);
    }
  }

  /**
   A finished command whose name the mapper does not hold carries whatever number its variable
   was left with: it decodes as the command of that number, and to nothing if there is none.
   */
  lemma {:induction false} UnknownNameDecodesAsStale(
      layouts: int -> Option<Layout>, names: seq<(int, string)>,
      calls: seq<Call>, replies: seq<Reply>, states: seq<State>, i: nat)
    returns (a: nat)
    requires Run(names, calls, replies, states)
    requires i < |calls| && calls[i].Finalize? && replies[i].Message?
    ensures a < i && Live(calls[..i], replies[..i], calls[i].finished, a)
    ensures !Named(names, calls[a].text) ==>
      var stale := calls[a].stale;
      var params := Appended(calls[..i][a + 1..], calls[i].finished);
      && replies[i].text == Encode(stale, params)
      && (Complete(layouts, stale, params) && OffsetFits(stale, layouts(stale).value) ==>
           Decode(layouts, replies[i].text) == Command(layouts(stale).value.printed, CodedAll(params)))
      && (-INT_MAX - 1 <= stale <= INT_MAX && layouts(stale).None? && Sliceable(params) ==>
           Decode(layouts, replies[i].text) == Unknown)
  {
    a := FinalizeReturnsTheBuilt(names, calls, replies, states, i);
    NumberOfName(names, calls[a].text, calls[a].stale);
    if !Named(names, calls[a].text) {
      StaleDecodes(layouts, calls[a].stale, Appended(calls[..i][a + 1..], calls[i].finished));
    }
  }

  lemma {:induction false} StaleDecodes(layouts: int -> Option<Layout>, stale: int, params: seq<string>)
    ensures Complete(layouts, stale, params) && OffsetFits(stale, layouts(stale).value) ==>
      Decode(layouts, Encode(stale, params)) == Command(layouts(stale).value.printed, CodedAll(params))
    ensures -INT_MAX - 1 <= stale <= INT_MAX && layouts(stale).None? && Sliceable(params) ==>
      Decode(layouts, Encode(stale, params)) == Unknown
  {
    if Complete(layouts, stale, params) { DecodeRoundTrip(layouts, stale, params); }
    if -INT_MAX - 1 <= stale <= INT_MAX && layouts(stale).None? && Sliceable(params) {
      DecodesToNothing(layouts, stale, params);
    }
  }
}
