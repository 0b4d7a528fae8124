/**
 The commands of the three mappers one by one: what each decodes to when it is complete, and
 that it fails when it is not.
 */
module CommandTable {
  import opened Text
  import opened Numbers
  import opened Mapper
  import opened MapperDecode

  /** The messages a decoder can measure with its 32-bit numbers. */
  predicate Short(msg: string) {
    |msg| < 0x8000_0000
  }

  /** Decoding gives the parameters back under this name. */
  ghost predicate ComesBack(layouts: int -> Option<Layout>, code: nat, params: seq<string>, printed: nat) {
    Short(Encode(code, params)) ==>
    Decode(layouts, Encode(code, params)) == Command(printed, CodedAll(params))
  }

  /** The parameters as they come back: an empty one as a space. */
  lemma {:induction false} CodedEach(params: seq<string>)
    ensures |CodedAll(params)| == |params|
    ensures forall i | 0 <= i < |params| :: CodedAll(params)[i] == if params[i] == "" then " " else params[i]
  {
    if params != [] { CodedEach(params[1..]); }
  }

  lemma RoundTrip(layouts: int -> Option<Layout>, code: nat, params: seq<string>, printed: nat)
    requires code <= INT_MAX && layouts(code).Some? && layouts(code).value.last in {Whole, IfPresent}
    requires |params| == layouts(code).value.slices && Sliceable(params)
    requires OffsetFits(code, layouts(code).value) && layouts(code).value.printed == printed
    requires layouts(code).value.first.ByOffset? ==> layouts(code).value.first.width < 0x8000_0000
    ensures ComesBack(layouts, code, params, printed)
  {
    if Short(Encode(code, params)) { DecodeRoundTrip(layouts, code, params); }
  }

  // ---- How many parameters each command takes ------------------------------------------

  function FmsTakes(code: nat): nat {
    if code in {1, 4, 9, 15, 16, 17} then 1 else if code in {11, 12, 13, 14} then 3 else 2
  }

  function TmsTakes(code: nat): nat {
    if code in {3, 5, 8, 9} then 1 else if code == 6 then 3 else 2
  }

  function UmsTakes(code: nat): nat {
    if code == 3 then 0 else if code in {7, 11, 26, 34} then 2 else 1
  }

  lemma FmsKnows(code: nat)
    requires 1 <= code <= 17
    ensures var layout := FmsLayout(code);
            layout.Some? && layout.value.slices == FmsTakes(code) && layout.value.last == Whole
  {
  }

  lemma TmsKnows(code: nat)
    requires 1 <= code <= 9
    ensures var layout := TmsLayout(code);
            && layout.Some? && layout.value.slices == TmsTakes(code) && layout.value.last != IfPresent
            && (code != 4 && code != 9 ==> layout.value.last == Whole)
            && (layout.value.first.ByOffset? ==> layout.value.first.width == 1)
  {
  }

  lemma UmsKnows(code: nat)
    requires 3 <= code <= 34
    ensures var layout := UmsLayout(code);
            && layout.Some? && layout.value.slices == UmsTakes(code)
            && layout.value.last == (if code == 6 then IfPresent else Whole)
            && layout.value.printed == (if code == 26 then 11 else if code == 33 then 32 else code)
            && (layout.value.first.ByOffset? ==> layout.value.first.width <= 2)
  {
  }

  // ---- Complete commands ---------------------------------------------------------------

  lemma {:induction false} FmsComesBack(code: nat, params: seq<string>)
    requires 1 <= code <= 17 && |params| == FmsTakes(code) && Sliceable(params)
    ensures ComesBack(FmsLayout, code, params, code)
  {
    FmsKnown(code);
    FmsKnows(code);
    OffsetsFit(code);
    RoundTrip(FmsLayout, code, params, code);
  }

  /** The fourth and the ninth have laws of their own. */
  lemma {:induction false} TmsComesBack(code: nat, params: seq<string>)
    requires 1 <= code <= 9 && code != 4 && code != 9 && |params| == TmsTakes(code) && Sliceable(params)
    ensures ComesBack(TmsLayout, code, params, code)
  {
    TmsKnown(code);
    TmsKnows(code);
    OffsetsFit(code);
    RoundTrip(TmsLayout, code, params, code);
  }

  /** Two commands come back under the name of another; the last has a law of its own. */
  lemma {:induction false} UmsComesBack(code: nat, params: seq<string>)
    requires 3 <= code < 34 && |params| == UmsTakes(code) && Sliceable(params)
    ensures ComesBack(UmsLayout, code, params, if code == 26 then 11 else if code == 33 then 32 else code)
  {
    UmsKnows(code);
    OffsetsFit(code);
    RoundTrip(UmsLayout, code, params, if code == 26 then 11 else if code == 33 then 32 else code);
  }

  /** The sixth also comes back without its parameter. */
  lemma OptionalParameter()
    ensures Decode(UmsLayout, Encode(6, [])) == Command(6, [])
  {
    DecodeSelects(UmsLayout, 6, []);
    EncodedSlices(6, []);
  }

  // ---- Incomplete and unknown commands -------------------------------------------------

  predicate AllFree(params: seq<string>) {
    params == [] || ('#' !in params[0] && AllFree(params[1..]))
  }

  lemma {:induction false} FreeIsSliceable(params: seq<string>)
    requires AllFree(params)
    ensures Sliceable(params)
  {
    if params != [] { FreeIsSliceable(params[1..]); }
  }

  /** Parameters without separators leave as many separators as there are parameters. */
  lemma {:induction false} TailPositions(msg: string, start: nat, params: seq<string>)
    requires AllFree(params) && start <= |msg| && msg[start..] == Tail(params)
    ensures |Positions(msg, start)| == |params|
    decreases |params|
  {
    if params != [] {
      var field, others := Coded(params[0]), params[1..];
      TailStarts(msg, start, field, Tail(others));
      NoSeparatorInside(msg, start + 1, field);
      assert Positions(msg, start) == [start] + Positions(msg, start + 1);
      TailPositions(msg, start + 1 + |field|, others);
    }
  }

  lemma NumberHasNoSeparator(code: int)
    ensures '#' !in ConvertToString(code)
  {
  }

  lemma AsManySeparators(code: int, params: seq<string>)
    requires AllFree(params)
    ensures |Positions(Encode(code, params), 0)| == |params|
  {
    var head, msg := ConvertToString(code), Encode(code, params);
    assert msg[0..|head|] == head && msg[|head|..] == Tail(params);
    NumberHasNoSeparator(code);
    NoSeparatorInside(msg, 0, head);
    TailPositions(msg, |head|, params);
  }

  lemma RenderTooFew(msg: string, seps: seq<nat>, layout: Layout)
    requires |seps| < layout.slices && layout.last != IfPresent
    ensures Render(msg, seps, layout) == OutOfRange
  {
  }

  /** A decoder that takes more slices than there are parameters reads past the last separator. */
  lemma {:induction false} TooFew(layouts: int -> Option<Layout>, code: nat, params: seq<string>)
    requires code <= INT_MAX && layouts(code).Some? && AllFree(params)
    requires |params| < layouts(code).value.slices && layouts(code).value.last != IfPresent
    ensures Decode(layouts, Encode(code, params)) == OutOfRange
  {
    FreeIsSliceable(params);
    DecodeSelects(layouts, code, params);
    AsManySeparators(code, params);
    RenderTooFew(Encode(code, params), Positions(Encode(code, params), 0), layouts(code).value);
  }

  lemma {:induction false} FmsIncomplete(code: nat, params: seq<string>)
    requires 1 <= code <= 17 && AllFree(params) && |params| < FmsTakes(code)
    ensures Decode(FmsLayout, Encode(code, params)) == OutOfRange
  {
    FmsKnows(code);
    TooFew(FmsLayout, code, params);
  }

  lemma TmsIncomplete(code: nat, params: seq<string>)
    requires 1 <= code <= 9 && AllFree(params) && |params| < TmsTakes(code)
    ensures Decode(TmsLayout, Encode(code, params)) == OutOfRange
  {
    TmsKnows(code);
    TooFew(TmsLayout, code, params);
  }

  lemma UmsIncomplete(code: nat, params: seq<string>)
    requires 3 <= code <= 34 && code != 6 && AllFree(params) && |params| < UmsTakes(code)
    ensures Decode(UmsLayout, Encode(code, params)) == OutOfRange
  {
    UmsKnows(code);
    TooFew(UmsLayout, code, params);
  }

  /** Numbers that no command of the three has, among them those of the two UMS commands that connect. */
  lemma NoSuchCommand(layouts: int -> Option<Layout>, code: int, params: seq<string>)
    requires -INT_MAX - 1 <= code <= INT_MAX && Sliceable(params)
    requires || (layouts == FmsLayout && (code < 1 || 17 < code))
             || (layouts == TmsLayout && (code < 1 || 9 < code))
             || (layouts == UmsLayout && (code < 3 || 34 < code))
    ensures Decode(layouts, Encode(code, params)) == Unknown
  {
    DecodesToNothing(layouts, code, params);
  }
}
