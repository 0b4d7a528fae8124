/**
 The watch's sweep as a protocol: it copies the registry, pings the copy's servers one by
 one, and takes a silent server out in a separate step. Servers subscribe and unsubscribe
 between any two of its steps.
 */
module Sweep {
  import opened ServerCodec
  import opened Annuary

  datatype Event =
    | Subscribe(server: Server)
    | Unsubscribe(key: Key)
    | Answer(key: Key)
    | Silence(key: Key)
    | Drop(key: Key)

  /** `next` is the next server to ping; `failed` says its ping failed and it is to go. */
  datatype State = State(registry: seq<Server>, snapshot: seq<Server>, next: nat, failed: bool)

  function Begin(registry: seq<Server>): State {
    State(registry, registry, 0, false)
  }

  predicate Next(s: State, e: Event, t: State) {
    match e
    case Subscribe(server) => t == s.(registry := Added(s.registry, server))
    case Unsubscribe(k) => t == s.(registry := Removed(s.registry, k))
    case Answer(k) =>
      && !s.failed && s.next < |s.snapshot| && k == KeyOf(s.snapshot[s.next])
      && t == s.(next := s.next + 1)
    case Silence(k) =>
      && !s.failed && s.next < |s.snapshot| && k == KeyOf(s.snapshot[s.next])
      && t == s.(failed := true)
    case Drop(k) =>
      && s.failed && s.next < |s.snapshot| && k == KeyOf(s.snapshot[s.next])
      && t == State(Removed(s.registry, k), s.snapshot, s.next + 1, false)
  }

  /** `states` is a run of the sweep under the interleaving `events`. */
  ghost predicate Run(states: seq<State>, events: seq<Event>) {
    && |states| == |events| + 1
    && states[0] == Begin(states[0].registry)
    && forall i | 0 <= i < |events| :: Next(states[i], events[i], states[i + 1])
  }

  predicate Removes(e: Event, k: Key) {
    (e.Unsubscribe? || e.Drop?) && e.key == k
  }

  ghost predicate RemovedFrom(events: seq<Event>, from: nat, k: Key) {
    exists j | from <= j < |events| :: Removes(events[j], k)
  }

  /** A subscription of `k` that nothing took back. */
  ghost predicate Standing(events: seq<Event>, k: Key) {
    exists j: nat | j < |events| ::
      events[j].Subscribe? && KeyOf(events[j].server) == k && !RemovedFrom(events, j, k)
  }

  // ---- The registry, read off the events alone -----------------------------------------

  lemma HasKeyAdded(servers: seq<Server>, s: Server, k: Key)
    ensures HasKey(Added(servers, s), k) <==> HasKey(servers, k) || KeyOf(s) == k
  {
    AddCounts(servers, s, k);
    EntriesPositive(servers, k);
    EntriesPositive(Added(servers, s), k);
  }

  lemma HasKeyRemoved(servers: seq<Server>, k: Key, other: Key)
    ensures HasKey(Removed(servers, k), other) <==> HasKey(servers, other) && other != k
  {
    RemoveCounts(servers, k, other);
    EntriesPositive(servers, other);
    EntriesPositive(Removed(servers, k), other);
  }

  lemma StandingNext(events: seq<Event>, e: Event, k: Key)
    ensures RemovedFrom(events + [e], 0, k) <==> RemovedFrom(events, 0, k) || Removes(e, k)
    ensures Standing(events + [e], k) <==>
      (Standing(events, k) && !Removes(e, k)) || (e.Subscribe? && KeyOf(e.server) == k)
  {
    var more := events + [e];
    assert more[|events|] == e;
    assert forall j | 0 <= j < |events| :: more[j] == events[j];
    forall from: nat | from <= |events|
      ensures RemovedFrom(more, from, k) <==> RemovedFrom(events, from, k) || Removes(e, k)
    {
      if RemovedFrom(events, from, k) {
        var j :| from <= j < |events| && Removes(events[j], k);
        assert Removes(more[j], k);
      }
      if Removes(e, k) { assert Removes(more[|events|], k); }
    }
    if Standing(events, k) && !Removes(e, k) {
      var j: nat :| j < |events| && events[j].Subscribe? && KeyOf(events[j].server) == k
        && !RemovedFrom(events, j, k);
      assert more[j].Subscribe? && !RemovedFrom(more, j, k);
    }
    if e.Subscribe? && KeyOf(e.server) == k {
      assert more[|events|].Subscribe? && !RemovedFrom(more, |events|, k);
    }
    if Standing(more, k) {
      var j: nat :| j < |more| && more[j].Subscribe? && KeyOf(more[j].server) == k
        && !RemovedFrom(more, j, k);
      if j < |events| { assert events[j].Subscribe? && !RemovedFrom(events, j, k); }
    }
  }

  lemma RunPrefix(states: seq<State>, events: seq<Event>)
    requires Run(states, events) && events != []
    ensures Run(states[..|events|], events[..|events| - 1])
    ensures events == events[..|events| - 1] + [events[|events| - 1]]
    ensures Next(states[|events| - 1], events[|events| - 1], states[|events|])
  {
  }

  /** After any run, exactly these keys are registered. */
  lemma {:induction false} RegistryOfEvents(states: seq<State>, events: seq<Event>, k: Key)
    requires Run(states, events)
    ensures HasKey(states[|events|].registry, k) <==>
      Standing(events, k) || (HasKey(states[0].registry, k) && !RemovedFrom(events, 0, k))
    decreases |events|
  {
    if events != [] {
      var n := |events| - 1;
      RunPrefix(states, events);
      RegistryOfEvents(states[..|events|], events[..n], k);
      StandingNext(events[..n], events[n], k);
      match events[n]
      case Subscribe(server) => HasKeyAdded(states[n].registry, server, k);
      case Unsubscribe(gone) => HasKeyRemoved(states[n].registry, gone, k);
      case Drop(gone) => HasKeyRemoved(states[n].registry, gone, k);
      case _ =>
    }
  }

  // ---- What the sweep itself does ------------------------------------------------------

  /** How far the pings have come: every server before `next` answered or was dropped. */
  ghost predicate Progress(s: State, initial: seq<Server>, events: seq<Event>) {
    && s.snapshot == initial && s.next <= |initial| && (s.failed ==> s.next < |initial|)
    && forall i | 0 <= i < s.next ::
         Answer(KeyOf(initial[i])) in events || Drop(KeyOf(initial[i])) in events
  }

  lemma {:induction false} SweepProgress(states: seq<State>, events: seq<Event>)
    requires Run(states, events)
    ensures Progress(states[|events|], states[0].registry, events)
    decreases |events|
  {
    if events != [] {
      RunPrefix(states, events);
      SweepProgress(states[..|events|], events[..|events| - 1]);
    }
  }

  /** Only servers of the snapshot are asked for an answer. */
  lemma {:induction false} AnswersAreOfTheSnapshot(states: seq<State>, events: seq<Event>, k: Key)
    requires Run(states, events) && Answer(k) in events
    ensures HasKey(states[0].registry, k)
    decreases |events|
  {
    var n := |events| - 1;
    RunPrefix(states, events);
    if Answer(k) in events[..n] {
      AnswersAreOfTheSnapshot(states[..|events|], events[..n], k);
    } else {
      SweepProgress(states[..|events|], events[..n]);
      assert events[n] == Answer(k);
      assert KeyOf(states[0].registry[states[n].next]) == k;
    }
  }

  lemma DropRemoves(events: seq<Event>, k: Key)
    ensures Drop(k) in events ==> RemovedFrom(events, 0, k)
  {
    if Drop(k) in events {
      var j :| 0 <= j < |events| && events[j] == Drop(k);
      assert Removes(events[j], k);
    }
  }

  /**
   When the sweep ends, a key is registered exactly when a subscription of it still stands,
   or it answered its ping in this sweep and nothing removed it.
   */
  lemma SweepEnd(states: seq<State>, events: seq<Event>, k: Key)
    requires Run(states, events)
    requires states[|events|].next == |states[|events|].snapshot|
    ensures HasKey(states[|events|].registry, k) <==>
      Standing(events, k) || (Answer(k) in events && !RemovedFrom(events, 0, k))
  {
    RegistryOfEvents(states, events, k);
    SweepProgress(states, events);
    if HasKey(states[0].registry, k) && !RemovedFrom(events, 0, k) {
      var i :| 0 <= i < |states[0].registry| && KeyOf(states[0].registry[i]) == k;
      DropRemoves(events, k);
    }
    if Answer(k) in events {
      AnswersAreOfTheSnapshot(states, events, k);
    }
  }

  /** So the server a request is then dispatched to answered, or subscribed since. */
  lemma ElectedIsAlive(states: seq<State>, events: seq<Event>, service: string)
    requires Run(states, events)
    requires states[|events|].next == |states[|events|].snapshot|
    requires Offering(states[|events|].registry, service) != []
    ensures var k := KeyOf(Offering(states[|events|].registry, service)[0]);
            Standing(events, k) || Answer(k) in events
  {
    var s := Offering(states[|events|].registry, service)[0];
    OfferingMembers(states[|events|].registry, service, s);
    assert s in states[|events|].registry;
    SweepEnd(states, events, KeyOf(s));
  }

  /**
   No interleaving gives a key a second entry: one that was not registered gets at most one,
   and one that the start-up configuration lists several times never gets more.
   */
  lemma {:induction false} NeverTwice(states: seq<State>, events: seq<Event>, k: Key)
    requires Run(states, events)
    ensures var before := Entries(states[0].registry, k);
            Entries(states[|events|].registry, k) <= if before == 0 then 1 else before
    decreases |events|
  {
    if events != [] {
      var n := |events| - 1;
      RunPrefix(states, events);
      NeverTwice(states[..|events|], events[..n], k);
      match events[n]
      case Subscribe(server) => AddCounts(states[n].registry, server, k);
      case Unsubscribe(gone) => RemoveCounts(states[n].registry, gone, k);
      case Drop(gone) => RemoveCounts(states[n].registry, gone, k);
      case _ =>
    }
  }

  /** A server that subscribes again between its failed ping and its removal is lost all the same. */
  lemma LateSubscriptionIsLost(s: Server) returns (states: seq<State>, events: seq<Event>)
    ensures events == [Silence(KeyOf(s)), Subscribe(s), Drop(KeyOf(s))]
    ensures Run(states, events) && states[0].registry == [s]
    ensures states[3].next == |states[3].snapshot| && states[3].registry == []
  {
    var k := KeyOf(s);
    events := [Silence(k), Subscribe(s), Drop(k)];
    var s0 := Begin([s]);
    var s1 := s0.(failed := true);
    assert KeyOf([s][0]) == k && HasKey([s], k);
    assert Removed([s], k) == [];
    states := [s0, s1, s1, State([], [s], 1, false)];
  }
}
