/**
 The command mappers: commands are built a parameter at a time in a map shared by all
 sessions, under keys handed out on demand, and taken out whole when finished.
 */
module Mapper {
  import opened Text
  import opened Numbers

  // ---- The builder map -----------------------------------------------------------------

  /** What a parameter becomes in the message: an empty one comes back as one space. */
  function Coded(param: string): string {
    if param == "" then " " else param
  }

  function Tail(params: seq<string>): string {
    if params == [] then "" else "#" + Coded(params[0]) + Tail(params[1..])
  }

  /** The message of a command: its number, then every parameter after a separator. */
  function Encode(code: int, params: seq<string>): string {
    ConvertToString(code) + Tail(params)
  }

  lemma {:induction false} TailAppend(params: seq<string>, param: string)
    ensures Tail(params + [param]) == Tail(params) + "#" + Coded(param)
  {
    if params == [] {
      assert [param][1..] == [];
      assert [] + [param] == [param];
    } else {
      assert (params + [param])[1..] == params[1..] + [param];
      TailAppend(params[1..], param);
    }
  }

  lemma Regrouped(a: string, b: string, c: string, d: string)
    ensures a + (b + c + d) == a + b + c + d
  {
  }

  lemma EncodeAppend(code: int, params: seq<string>, param: string)
    ensures Encode(code, params + [param]) == Encode(code, params) + "#" + Coded(param)
  {
    TailAppend(params, param);
    Regrouped(ConvertToString(code), Tail(params), "#", Coded(param));
  }

  lemma TwoAtOnce(a: string, b: string, c: string)
    ensures a + b + c == a + (b + c) && a + "" == a
  {
  }

  lemma EncodeOneMore(code: int, params: seq<string>, param: string)
    ensures Encode(code, params + [param]) == Encode(code, params) + ("#" + Coded(param))
  {
    EncodeAppend(code, params, param);
    TwoAtOnce(Encode(code, params), "#", Coded(param));
  }

  lemma EncodeNoMore(code: int, params: seq<string>)
    ensures Encode(code, params + []) == Encode(code, params) + ""
  {
    assert params + [] == params;
    TwoAtOnce(Encode(code, params), "", "");
  }

  /** The first key from `from` on that no command is being built under. */
  function Probe(live: set<int>, from: int): (k: int)
    ensures from <= k && k !in live && forall j | from <= j < k :: j in live
    decreases set j | j in live && from <= j
  {
    if from !in live then from
    else
      assert (set j | j in live && from + 1 <= j) == (set j | j in live && from <= j) - {from};
      Probe(live, from + 1)
  }

  lemma {:induction false} IntervalFits(live: set<int>, a: int, b: int)
    requires a <= b && forall j | a <= j < b :: j in live
    ensures b - a <= |live|
    decreases b - a
  {
    if a < b {
      IntervalFits(live - {a}, a + 1, b);
    }
  }

  /** A fresh key: never 0, never live, and within one of twice the number of live keys. */
  lemma FreshKey(live: set<int>)
    ensures var k := Probe(live, |live| + 1);
            k !in live && |live| + 1 <= k <= 2 * |live| + 1 && k != 0
  {
    IntervalFits(live, |live| + 1, Probe(live, |live| + 1));
  }

  datatype State = State(commands: map<int, string>, locked: bool)

  /** `Blocked` waits for a mutex that no one will release. */
  datatype Reply = Key(key: int) | Done | Message(text: string) | Thrown | Blocked

  /** `stale` is whatever `code` finds in its unset number when the name is unknown. */
  datatype Call = Code(text: string, key: nat, stale: int) | Finalize(finished: int)

  function NumberOf(names: seq<(int, string)>, command: string, stale: int): int {
    if names == [] then stale
    else if names[0].1 == command then names[0].0
    else NumberOf(names[1..], command, stale)
  }

  predicate Named(names: seq<(int, string)>, command: string) {
    names != [] && (names[0].1 == command || Named(names[1..], command))
  }

  /** A name that the mapper holds has its own number; any other gets the unset one. */
  lemma {:induction false} NumberOfName(names: seq<(int, string)>, command: string, stale: int)
    ensures if Named(names, command) then (NumberOf(names, command, stale), command) in names
            else NumberOf(names, command, stale) == stale
    ensures Named(names, command) ==> NumberOf(names, command, stale) == NumberOf(names, command, 0)
  {
    if names != [] && names[0].1 != command {
      NumberOfName(names[1..], command, stale);
    }
  }

  function Perform(names: seq<(int, string)>, s: State, call: Call): (State, Reply) {
    match call
    case Code(text, key, stale) =>
      if key != 0 then
        if key !in s.commands then (s, Thrown)
        else (s.(commands := s.commands[key := s.commands[key] + "#" + Coded(text)]), Done)
      else if s.locked then (s, Blocked)
      else
        var k := Probe(s.commands.Keys, |s.commands| + 1);
        (s.(commands := s.commands[k := ConvertToString(NumberOf(names, text, stale))]), Key(k))
    case Finalize(k) =>
      if s.locked then (s, Blocked)
      else if k !in s.commands then (s.(locked := true), Thrown)
      else (s.(commands := s.commands - {k}), Message(s.commands[k]))
  }

  class Mapper {
    const names: seq<(int, string)>
    var commands: map<int, string>
    var locked: bool

    constructor (names: seq<(int, string)>)
      ensures this.names == names && Current() == State(map[], false)
    {
      this.names := names;
      commands, locked := map[], false;
    }

    function Current(): State
      reads this
    {
      State(commands, locked)
    }

    method GetKey(command: string, stale: int) returns (key: int)
      ensures key == NumberOf(names, command, stale)
    {
      var i := 0;
      while i < |names|
        invariant i <= |names|
        invariant NumberOf(names, command, stale) == NumberOf(names[i..], command, stale)
      {
        assert names[i..][1..] == names[i + 1..];
        if names[i].1 == command {
          return names[i].0;
        }
        i := i + 1;
      }
      key := stale;
    }

    method Code(cmd: string, code: nat, stale: int) returns (r: Reply)
      modifies this
      ensures (Current(), r) == Perform(names, old(Current()), Call.Code(cmd, code, stale))
    {
      if code != 0 {
        if code !in commands {
          return Thrown;
        }
        var text := commands[code] + "#";
        text := text + if cmd == "" then " " else cmd;
        commands := commands[code := text];
        return Done;
      }
      if locked {
        return Blocked;
      }
      locked := true;
      var size := |commands| + 1;
      while size in commands
        invariant forall j | |commands| + 1 <= j < size :: j in commands
        invariant |commands| + 1 <= size
        decreases set j | j in commands && size <= j
      {
        assert (set j | j in commands && size + 1 <= j) == (set j | j in commands && size <= j) - {size};
        size := size + 1;
      }
      assert size == Probe(commands.Keys, |commands| + 1);
      var keycode := GetKey(cmd, stale);
      commands := commands[size := ConvertToString(keycode)];
      locked := false;
      return Key(size);
    }

    method Finalize(key: int) returns (r: Reply)
      modifies this
      ensures (Current(), r) == Perform(names, old(Current()), Call.Finalize(key))
    {
      if locked {
        return Blocked;
      }
      locked := true;
      if key !in commands {
        return Thrown;
      }
      r := Message(commands[key]);
      commands := commands - {key};
      locked := false;
    }
  }

  // ---- Interleaved builders ------------------------------------------------------------

  /** Any number of sessions calling the mapper, in the order their calls took effect. */
  ghost predicate Run(
      names: seq<(int, string)>, calls: seq<Call>, replies: seq<Reply>, states: seq<State>)
  {
    && |replies| == |calls| && |states| == |calls| + 1
    && states[0] == State(map[], false)
    && forall i | 0 <= i < |calls| :: (states[i + 1], replies[i]) == Perform(names, states[i], calls[i])
  }

  lemma RunPrefix(
      names: seq<(int, string)>, calls: seq<Call>, replies: seq<Reply>, states: seq<State>, n: nat)
    requires Run(names, calls, replies, states) && n <= |calls|
    ensures Run(names, calls[..n], replies[..n], states[..n + 1])
  {
  }

  /** The parameters that these calls append under a key. */
  function Appended(calls: seq<Call>, k: int): seq<string> {
    if calls == [] then []
    else
      var last := calls[|calls| - 1];
      var before := Appended(calls[..|calls| - 1], k);
      if last.Code? && last.key == k then before + [last.text] else before
  }

  /** Call `a` allocated `k`, and nothing has taken it out since. */
  ghost predicate Live(calls: seq<Call>, replies: seq<Reply>, k: int, a: nat)
    requires |replies| == |calls|
  {
    && a < |calls| && calls[a].Code? && calls[a].key == 0 && replies[a] == Key(k)
    && forall j | a < j < |calls| :: !(calls[j] == Finalize(k) && replies[j].Message?)
  }

  function Built(names: seq<(int, string)>, calls: seq<Call>, k: int, a: nat): string
    requires a < |calls| && calls[a].Code?
  {
    Encode(NumberOf(names, calls[a].text, calls[a].stale), Appended(calls[a + 1..], k))
  }

  lemma AppendedNext(calls: seq<Call>, call: Call, k: int, a: nat)
    requires a < |calls|
    ensures Appended((calls + [call])[a + 1..], k)
         == Appended(calls[a + 1..], k) + if call.Code? && call.key == k then [call.text] else []
  {
    var later := (calls + [call])[a + 1..];
    assert later == calls[a + 1..] + [call];
    assert later[..|later| - 1] == calls[a + 1..];
  }

  lemma LiveNext(calls: seq<Call>, replies: seq<Reply>, call: Call, reply: Reply, k: int, a: nat)
    requires |replies| == |calls| && Live(calls, replies, k, a)
    requires !(call == Finalize(k) && reply.Message?)
    ensures Live(calls + [call], replies + [reply], k, a)
  {
  }

  lemma BuiltNext(names: seq<(int, string)>, calls: seq<Call>, call: Call, k: int, a: nat)
    requires a < |calls| && calls[a].Code?
    ensures Built(names, calls + [call], k, a) == Built(names, calls, k, a)
         + if call.Code? && call.key == k then "#" + Coded(call.text) else ""
  {
    AppendedNext(calls, call, k, a);
    var number, params := NumberOf(names, calls[a].text, calls[a].stale), Appended(calls[a + 1..], k);
    if call.Code? && call.key == k {
      EncodeOneMore(number, params, call.text);
    } else {
      EncodeNoMore(number, params);
    }
  }

  lemma BuiltAtOnce(names: seq<(int, string)>, calls: seq<Call>, k: int)
    requires calls != [] && calls[|calls| - 1].Code?
    ensures var call := calls[|calls| - 1];
            Built(names, calls, k, |calls| - 1) == ConvertToString(NumberOf(names, call.text, call.stale))
  {
    var call := calls[|calls| - 1];
    assert calls[|calls|..] == [];
    assert ConvertToString(NumberOf(names, call.text, call.stale)) + ""
        == ConvertToString(NumberOf(names, call.text, call.stale));
  }

  /** What a call does to a builder that it neither allocates nor takes out. */
  lemma BuilderNext(names: seq<(int, string)>, s: State, call: Call, k: int)
    requires k != 0 && k in Perform(names, s, call).0.commands && Perform(names, s, call).1 != Key(k)
    ensures k in s.commands && !(call == Finalize(k) && Perform(names, s, call).1.Message?)
    ensures Perform(names, s, call).0.commands[k] == s.commands[k]
         + if call.Code? && call.key == k then "#" + Coded(call.text) else ""
  {
    if k in s.commands {
      assert s.commands[k] + "" == s.commands[k];
      assert call.Code? ==> s.commands[k] + "#" + Coded(call.text) == s.commands[k] + ("#" + Coded(call.text));
    }
  }

  /** What is being built under a live key, whatever the other sessions do. */
  lemma {:induction false} BuildersDoNotMix(
      names: seq<(int, string)>, calls: seq<Call>, replies: seq<Reply>, states: seq<State>, k: int)
    returns (a: nat)
    requires Run(names, calls, replies, states) && k in states[|calls|].commands
    ensures k != 0 && Live(calls, replies, k, a)
    ensures states[|calls|].commands[k] == Built(names, calls, k, a)
    decreases |calls|
  {
    var n := |calls| - 1;
    var call, reply := calls[n], replies[n];
    RunPrefix(names, calls, replies, states, n);
    assert calls == calls[..n] + [call] && replies == replies[..n] + [reply];
    assert (states[n + 1], reply) == Perform(names, states[n], call);
    FreshKey(states[n].commands.Keys);
    if reply == Key(k) {
      a := n;
      BuiltAtOnce(names, calls, k);
    } else {
      a := BuildersDoNotMix(names, calls[..n], replies[..n], states[..n + 1], k);
      BuilderNext(names, states[n], call, k);
      LiveNext(calls[..n], replies[..n], call, reply, k, a);
      BuiltNext(names, calls[..n], call, k, a);
    }
  }

  /** A finished command is exactly what was appended under its key since its allocation. */
  lemma FinalizeReturnsTheBuilt(
      names: seq<(int, string)>, calls: seq<Call>, replies: seq<Reply>, states: seq<State>, i: nat)
    returns (a: nat)
    requires Run(names, calls, replies, states)
    requires i < |calls| && calls[i].Finalize? && replies[i].Message?
    ensures a < i && Live(calls[..i], replies[..i], calls[i].finished, a)
    ensures replies[i].text == Built(names, calls[..i], calls[i].finished, a)
  {
    RunPrefix(names, calls, replies, states, i);
    assert (states[i + 1], replies[i]) == Perform(names, states[i], calls[i]);
    a := BuildersDoNotMix(names, calls[..i], replies[..i], states[..i + 1], calls[i].finished);
  }

  // ---- The mutex left locked -----------------------------------------------------------

  lemma {:induction false} LockedSince(
      names: seq<(int, string)>, calls: seq<Call>, replies: seq<Reply>, states: seq<State>)
    requires Run(names, calls, replies, states)
    ensures states[|calls|].locked <==>
      exists i | 0 <= i < |calls| :: calls[i].Finalize? && replies[i] == Thrown
    decreases |calls|
  {
    if calls != [] {
      var n := |calls| - 1;
      RunPrefix(names, calls, replies, states, n);
      LockedSince(names, calls[..n], replies[..n], states[..n + 1]);
    }
  }

  /**
   Finalizing an unknown key throws with the mutex held: from then on, and only then, every
   allocation and every finalization waits for ever.
   */
  lemma UnknownKeyBlocksForEver(
      names: seq<(int, string)>, calls: seq<Call>, replies: seq<Reply>, states: seq<State>, j: nat)
    requires Run(names, calls, replies, states)
    requires j < |calls| && (calls[j].Finalize? || calls[j].key == 0)
    ensures replies[j] == Blocked <==>
      exists i | 0 <= i < j :: calls[i].Finalize? && replies[i] == Thrown
  {
    RunPrefix(names, calls, replies, states, j);
    assert (states[j + 1], replies[j]) == Perform(names, states[j], calls[j]);
    LockedSince(names, calls[..j], replies[..j], states[..j + 1]);
  }

  // ---- Each call, spelled out ----------------------------------------------------------

  /** A message is its number, and every parameter behind a `#`, an empty one as a space. */
  lemma EncodedLiterally(code: int, params: seq<string>, param: string)
    ensures Encode(code, []) == ConvertToString(code)
    ensures Encode(code, params + [""]) == Encode(code, params) + "# "
    ensures param != "" ==> Encode(code, params + [param]) == Encode(code, params) + ("#" + param)
  {
    EncodeOneMore(code, params, "");
    EncodeOneMore(code, params, param);
    assert "#" + " " == "# ";
  }

  /** Of equal names, the number of the first. */
  lemma {:induction false} FirstNameCounts(
      before: seq<(int, string)>, number: int, command: string, after: seq<(int, string)>, stale: int)
    requires forall i | 0 <= i < |before| :: before[i].1 != command
    ensures NumberOf(before + ([(number, command)] + after), command, stale) == number
  {
    var names := before + ([(number, command)] + after);
    if before == [] {
      assert names[0] == (number, command);
    } else {
      assert names[1..] == before[1..] + ([(number, command)] + after) && names[0] == before[0];
      FirstNameCounts(before[1..], number, command, after, stale);
    }
  }

  lemma HeldNext(names: seq<(int, string)>, s: State, call: Call, k: int)
    requires k in s.commands && !(call == Finalize(k) && Perform(names, s, call).1.Message?)
    ensures k in Perform(names, s, call).0.commands
  {
  }

  /** A key stays with its builder until it is finalized. */
  lemma {:induction false} LiveIsHeld(
      names: seq<(int, string)>, calls: seq<Call>, replies: seq<Reply>, states: seq<State>, k: int, a: nat)
    requires Run(names, calls, replies, states) && Live(calls, replies, k, a)
    ensures k in states[|calls|].commands
    decreases |calls|
  {
    var n := |calls| - 1;
    RunPrefix(names, calls, replies, states, n);
    assert (states[n + 1], replies[n]) == Perform(names, states[n], calls[n]);
    if a < n {
      assert Live(calls[..n], replies[..n], k, a);
      LiveIsHeld(names, calls[..n], replies[..n], states[..n + 1], k, a);
      HeldNext(names, states[n], calls[n], k);
    }
  }

  /** Appending never waits: it fails exactly where its key is not, or no longer, being built. */
  lemma AppendNeverWaits(
      names: seq<(int, string)>, calls: seq<Call>, replies: seq<Reply>, states: seq<State>, j: nat)
    requires Run(names, calls, replies, states)
    requires j < |calls| && calls[j].Code? && calls[j].key != 0
    ensures replies[j] == Done || replies[j] == Thrown
    ensures replies[j] == Done <==> exists a: nat :: Live(calls[..j], replies[..j], calls[j].key, a)
  {
    RunPrefix(names, calls, replies, states, j);
    assert (states[j + 1], replies[j]) == Perform(names, states[j], calls[j]);
    var k: int := calls[j].key;
    if k in states[j].commands {
      var a := BuildersDoNotMix(names, calls[..j], replies[..j], states[..j + 1], k);
    }
    if a: nat :| Live(calls[..j], replies[..j], k, a) {
      LiveIsHeld(names, calls[..j], replies[..j], states[..j + 1], k, a);
    }
  }

  /** An allocation that does not wait gives the least free key above the number of live ones. */
  lemma AllocatesLeastKey(
      names: seq<(int, string)>, calls: seq<Call>, replies: seq<Reply>, states: seq<State>, j: nat)
    requires Run(names, calls, replies, states)
    requires j < |calls| && calls[j].Code? && calls[j].key == 0 && replies[j] != Blocked
    ensures var before := states[j].commands;
            && replies[j].Key? && |before| < replies[j].key && replies[j].key !in before
            && (forall k | |before| < k < replies[j].key :: k in before)
            && states[j + 1].commands.Keys == before.Keys + {replies[j].key}
  {
    assert (states[j + 1], replies[j]) == Perform(names, states[j], calls[j]);
    assert |states[j].commands.Keys| == |states[j].commands|;
  }
}
