/**
 The thread pool over its blocking queue, at the grain of single accesses under the mutex.
 A wait releases the mutex and parks the worker in one step; a notification, or nothing at
 all (a spurious wakeup), makes a parked worker contend for the mutex again.
 */
module WorkerPool {

  type Task = nat

  /** Where a worker stands in its loop and in `wait_and_pop`. */
  datatype Worker = Top | Checking | Parked | Woken | Taken(task: Task) | Running(task: Task)

  /** Where a producer stands in `push`. */
  datatype Producer = Idle | Locked(task: Task) | Pushed | Notified

  datatype Owner = Nobody | ByWorker(i: nat) | ByProducer(j: nat)

  /** `submitted` and `taken` record every push and every pop, the latter with its worker. */
  datatype State = State(
    workers: seq<Worker>, producers: seq<Producer>, mutex: Owner, data: seq<Task>,
    submitted: seq<Task>, taken: seq<(nat, Task)>)

  datatype Step =
    | LockToPush(j: nat, task: Task) | Push(j: nat) | NotifyNobody(j: nat) | NotifyOne(j: nat, i: nat)
    | UnlockPusher(j: nat)
    | LockToPop(i: nat) | Park(i: nat) | Take(i: nat) | UnlockPopper(i: nat) | Return(i: nat)
    | SpuriousWakeup(i: nat)

  function Initial(workers: nat, producers: nat): State {
    State(seq(workers, _ => Top), seq(producers, _ => Idle), Nobody, [], [], [])
  }

  ghost predicate AnyParked(s: State) {
    exists i | 0 <= i < |s.workers| :: s.workers[i] == Parked
  }

  ghost predicate Enabled(s: State, step: Step) {
    match step
    case LockToPush(j, _) => j < |s.producers| && s.producers[j] == Idle && s.mutex == Nobody
    case Push(j) => j < |s.producers| && s.producers[j].Locked?
    case NotifyNobody(j) => j < |s.producers| && s.producers[j] == Pushed && !AnyParked(s)
    case NotifyOne(j, i) =>
      j < |s.producers| && s.producers[j] == Pushed && i < |s.workers| && s.workers[i] == Parked
    case UnlockPusher(j) => j < |s.producers| && s.producers[j] == Notified
    case LockToPop(i) => i < |s.workers| && s.workers[i] in {Top, Woken} && s.mutex == Nobody
    case Park(i) => i < |s.workers| && s.workers[i] == Checking && s.data == []
    case Take(i) => i < |s.workers| && s.workers[i] == Checking && s.data != []
    case UnlockPopper(i) => i < |s.workers| && s.workers[i].Taken?
    case Return(i) => i < |s.workers| && s.workers[i].Running?
    case SpuriousWakeup(i) => i < |s.workers| && s.workers[i] == Parked
  }

  ghost function Apply(s: State, step: Step): State
    requires Enabled(s, step)
  {
    match step
    case LockToPush(j, task) => s.(producers := s.producers[j := Locked(task)], mutex := ByProducer(j))
    case Push(j) =>
      var task := s.producers[j].task;
      s.(producers := s.producers[j := Pushed], data := s.data + [task], submitted := s.submitted + [task])
    case NotifyNobody(j) => s.(producers := s.producers[j := Notified])
    case NotifyOne(j, i) => s.(producers := s.producers[j := Notified], workers := s.workers[i := Woken])
    case UnlockPusher(j) => s.(producers := s.producers[j := Idle], mutex := Nobody)
    case LockToPop(i) => s.(workers := s.workers[i := Checking], mutex := ByWorker(i))
    case Park(i) => s.(workers := s.workers[i := Parked], mutex := Nobody)
    case Take(i) =>
      s.(workers := s.workers[i := Taken(s.data[0])], data := s.data[1..], taken := s.taken + [(i, s.data[0])])
    case UnlockPopper(i) => s.(workers := s.workers[i := Running(s.workers[i].task)], mutex := Nobody)
    case Return(i) => s.(workers := s.workers[i := Top])
    case SpuriousWakeup(i) => s.(workers := s.workers[i := Woken])
  }

  /** The state after `steps`, taken in order, each of them enabled. */
  ghost predicate Reaches(s: State, steps: seq<Step>, t: State)
    decreases |steps|
  {
    if steps == [] then s == t
    else
      var n := |steps| - 1;
      exists u :: Reaches(s, steps[..n], u) && Enabled(u, steps[n]) && t == Apply(u, steps[n])
  }

  // ---- Counting over the threads -------------------------------------------------------

  function Sum<T>(s: seq<T>, weight: T -> nat): nat {
    if s == [] then 0 else weight(s[0]) + Sum(s[1..], weight)
  }

  lemma {:induction false} SumUpdate<T>(s: seq<T>, i: nat, x: T, weight: T -> nat)
    requires i < |s|
    ensures Sum(s[i := x], weight) + weight(s[i]) == Sum(s, weight) + weight(x)
  {
    if i == 0 {
      assert s[0 := x][1..] == s[1..];
    } else {
      assert s[i := x][1..] == s[1..][i - 1 := x];
      SumUpdate(s[1..], i - 1, x, weight);
    }
  }

  lemma {:induction false} SumZero<T>(s: seq<T>, weight: T -> nat)
    requires forall i | 0 <= i < |s| :: weight(s[i]) == 0
    ensures Sum(s, weight) == 0
  {
    if s != [] { SumZero(s[1..], weight); }
  }

  /** A worker awake and about to look at the queue again. */
  function Rechecking(w: Worker): nat {
    if w in {Woken, Checking} then 1 else 0
  }

  function Unannounced(p: Producer): nat {
    if p == Pushed then 1 else 0
  }

  // ---- The invariant -------------------------------------------------------------------

  predicate WorkerInside(w: Worker) {
    w == Checking || w.Taken?
  }

  ghost predicate Exclusive(s: State) {
    && (forall i: nat | i < |s.workers| :: WorkerInside(s.workers[i]) <==> s.mutex == ByWorker(i))
    && (forall j: nat | j < |s.producers| :: s.producers[j] != Idle <==> s.mutex == ByProducer(j))
    && (s.mutex.ByWorker? ==> s.mutex.i < |s.workers|)
    && (s.mutex.ByProducer? ==> s.mutex.j < |s.producers|)
  }

  function Tasks(taken: seq<(nat, Task)>): seq<Task> {
    seq(|taken|, i requires 0 <= i < |taken| => taken[i].1)
  }

  /** Tasks leave in the order they came, each once. */
  ghost predicate Conserved(s: State) {
    s.submitted == Tasks(s.taken) + s.data
  }

  /** Parked workers imply enough awake ones for everything queued and announced. */
  ghost predicate NoLostWakeup(s: State) {
    AnyParked(s) ==> |s.data| <= Sum(s.workers, Rechecking) + Sum(s.producers, Unannounced)
  }

  ghost predicate Inv(s: State) {
    Exclusive(s) && Conserved(s) && NoLostWakeup(s)
  }

  lemma StepKeepsExclusion(s: State, step: Step)
    requires Exclusive(s) && Conserved(s) && Enabled(s, step)
    ensures Exclusive(Apply(s, step)) && Conserved(Apply(s, step))
  {
    if step.Take? {
      var t := Apply(s, step);
      assert Tasks(t.taken) == Tasks(s.taken) + [s.data[0]];
      assert s.data == [s.data[0]] + s.data[1..];
    }
  }

  lemma StepKeepsWakeups(s: State, step: Step)
    requires Inv(s) && Enabled(s, step)
    ensures NoLostWakeup(Apply(s, step))
  {
    var t := Apply(s, step);
    match step
    case LockToPush(j, task) => SumUpdate(s.producers, j, Locked(task), Unannounced);
    case Push(j) => SumUpdate(s.producers, j, Pushed, Unannounced);
    case NotifyNobody(j) => SumUpdate(s.producers, j, Notified, Unannounced);
    case NotifyOne(j, i) =>
      SumUpdate(s.producers, j, Notified, Unannounced);
      SumUpdate(s.workers, i, Woken, Rechecking);
    case UnlockPusher(j) => SumUpdate(s.producers, j, Idle, Unannounced);
    case LockToPop(i) => SumUpdate(s.workers, i, Checking, Rechecking);
    case Park(i) =>
    case Take(i) => SumUpdate(s.workers, i, Taken(s.data[0]), Rechecking);
    case UnlockPopper(i) => SumUpdate(s.workers, i, Running(s.workers[i].task), Rechecking);
    case Return(i) => SumUpdate(s.workers, i, Top, Rechecking);
    case SpuriousWakeup(i) => SumUpdate(s.workers, i, Woken, Rechecking);
  }

  lemma InitialInv(workers: nat, producers: nat)
    ensures Inv(Initial(workers, producers))
  {
    var s := Initial(workers, producers);
    assert Tasks([]) + [] == [];
  }

  /** In every reachable state of any number of threads no wakeup is lost. */
  lemma {:induction false} Safety(workers: nat, producers: nat, steps: seq<Step>, s: State)
    requires Reaches(Initial(workers, producers), steps, s)
    ensures Inv(s) && |s.workers| == workers && |s.producers| == producers
    decreases |steps|
  {
    if steps == [] {
      InitialInv(workers, producers);
    } else {
      var n := |steps| - 1;
      var u :| Reaches(Initial(workers, producers), steps[..n], u) && Enabled(u, steps[n])
        && s == Apply(u, steps[n]);
      Safety(workers, producers, steps[..n], u);
      StepKeepsExclusion(u, steps[n]);
      StepKeepsWakeups(u, steps[n]);
    }
  }

  // ---- Quiescence ----------------------------------------------------------------------

  /** Nothing left to do but run tasks, wait, or submit more. */
  ghost predicate Quiescent(s: State) {
    && s.mutex == Nobody
    && (forall i | 0 <= i < |s.workers| :: s.workers[i] == Parked || s.workers[i].Running?)
    && (forall j | 0 <= j < |s.producers| :: s.producers[j] == Idle)
  }

  /** A quiescent pool has an empty queue, or every worker busy. */
  lemma WorkConserving(s: State)
    requires Inv(s) && Quiescent(s)
    ensures s.data == [] || forall i | 0 <= i < |s.workers| :: s.workers[i].Running?
  {
    SumZero(s.workers, Rechecking);
    SumZero(s.producers, Unannounced);
  }

  /** Steps a thread takes on its own: no new submission, no task returning, no spurious wakeup. */
  predicate Internal(step: Step) {
    !step.LockToPush? && !step.Return? && !step.SpuriousWakeup?
  }

  /** The pool never deadlocks: until it is quiescent, some thread can move. */
  lemma Progress(s: State) returns (step: Step)
    requires Inv(s) && !Quiescent(s)
    ensures Internal(step) && Enabled(s, step)
  {
    match s.mutex
    case ByWorker(i) =>
      step := if s.workers[i].Taken? then UnlockPopper(i) else if s.data == [] then Park(i) else Take(i);
    case ByProducer(j) =>
      if s.producers[j].Locked? {
        step := Push(j);
      } else if s.producers[j] == Notified {
        step := UnlockPusher(j);
      } else {
        step := NotifyNobody(j);
        if i: nat :| i < |s.workers| && s.workers[i] == Parked {
          step := NotifyOne(j, i);
        }
      }
    case Nobody =>
      var i: nat :| i < |s.workers| && s.workers[i] != Parked && !s.workers[i].Running?;
      step := LockToPop(i);
  }

  function WorkerDistance(w: Worker): nat {
    match w
    case Top => 3
    case Woken => 3
    case Checking => 2
    case Taken(_) => 1
    case _ => 0
  }

  function ProducerDistance(p: Producer): nat {
    match p
    case Locked(_) => 6
    case Pushed => 5
    case Notified => 1
    case Idle => 0
  }

  function Distance(s: State): nat {
    Sum(s.workers, WorkerDistance) + Sum(s.producers, ProducerDistance)
  }

  lemma InternalStepsApproach(s: State, step: Step)
    requires Enabled(s, step) && Internal(step)
    ensures Distance(Apply(s, step)) < Distance(s)
  {
    match step
    case Push(j) => SumUpdate(s.producers, j, Pushed, ProducerDistance);
    case NotifyNobody(j) => SumUpdate(s.producers, j, Notified, ProducerDistance);
    case NotifyOne(j, i) =>
      SumUpdate(s.producers, j, Notified, ProducerDistance);
      SumUpdate(s.workers, i, Woken, WorkerDistance);
    case UnlockPusher(j) => SumUpdate(s.producers, j, Idle, ProducerDistance);
    case LockToPop(i) => SumUpdate(s.workers, i, Checking, WorkerDistance);
    case Park(i) => SumUpdate(s.workers, i, Parked, WorkerDistance);
    case Take(i) => SumUpdate(s.workers, i, Taken(s.data[0]), WorkerDistance);
    case UnlockPopper(i) => SumUpdate(s.workers, i, Running(s.workers[i].task), WorkerDistance);
  }

  /**
   Left to itself the pool comes to rest, whatever the scheduler does: every internal run is
   at most `Distance` steps long, and one that cannot be continued ends quiescent.
   */
  lemma {:induction false} InternalRunsEnd(s: State, steps: seq<Step>, t: State)
    requires Inv(s) && Reaches(s, steps, t) && forall step | step in steps :: Internal(step)
    ensures Inv(t) && |steps| + Distance(t) <= Distance(s)
    ensures (forall step :: Internal(step) ==> !Enabled(t, step)) ==> Quiescent(t)
    decreases |steps|
  {
    if steps != [] {
      var n := |steps| - 1;
      var u :| Reaches(s, steps[..n], u) && Enabled(u, steps[n]) && t == Apply(u, steps[n]);
      InternalRunsEnd(s, steps[..n], u);
      StepKeepsExclusion(u, steps[n]);
      StepKeepsWakeups(u, steps[n]);
      InternalStepsApproach(u, steps[n]);
    }
    if !Quiescent(t) {
      var step := Progress(t);
    }
  }

  // ---- As many never-returning tasks as threads ----------------------------------------

  function Takers(taken: seq<(nat, Task)>): seq<nat> {
    seq(|taken|, i requires 0 <= i < |taken| => taken[i].0)
  }

  ghost predicate Distinct(s: seq<nat>) {
    forall i, j | 0 <= i < j < |s| :: s[i] != s[j]
  }

  predicate Holds(w: Worker, task: Task) {
    w == Taken(task) || w == Running(task)
  }

  /** While no task returns, every pop binds a fresh worker to its task for good. */
  ghost predicate Bound(s: State) {
    && Distinct(Takers(s.taken))
    && (forall p | 0 <= p < |s.taken| ::
          s.taken[p].0 < |s.workers| && Holds(s.workers[s.taken[p].0], s.taken[p].1))
    && (forall i | 0 <= i < |s.workers| && (s.workers[i].Taken? || s.workers[i].Running?) ::
          i in Takers(s.taken))
  }

  lemma StepKeepsBound(s: State, step: Step)
    requires Bound(s) && Enabled(s, step) && !step.Return?
    ensures Bound(Apply(s, step))
  {
    var t := Apply(s, step);
    if step.Take? {
      assert Takers(t.taken) == Takers(s.taken) + [step.i];
      forall p | 0 <= p < |s.taken| ensures Takers(s.taken)[p] != step.i {
        assert Holds(s.workers[s.taken[p].0], s.taken[p].1);
      }
    }
  }

  lemma {:induction false} BoundWithoutReturns(workers: nat, producers: nat, steps: seq<Step>, s: State)
    requires Reaches(Initial(workers, producers), steps, s)
    requires forall step | step in steps :: !step.Return?
    ensures Bound(s)
    decreases |steps|
  {
    if steps != [] {
      var n := |steps| - 1;
      var u :| Reaches(Initial(workers, producers), steps[..n], u) && Enabled(u, steps[n])
        && s == Apply(u, steps[n]);
      BoundWithoutReturns(workers, producers, steps[..n], u);
      StepKeepsBound(u, steps[n]);
    }
  }

  function Below(n: nat): (r: set<nat>)
    ensures |r| == n
    ensures forall i :: i in r <==> 0 <= i < n
  {
    if n == 0 then {}
    else
      var smaller := Below(n - 1);
      assert n - 1 !in smaller;
      smaller + {n - 1}
  }

  function Elements(s: seq<nat>): set<nat> {
    set x | x in s
  }

  lemma {:induction false} DistinctSize(s: seq<nat>)
    requires Distinct(s)
    ensures |Elements(s)| == |s|
  {
    if s != [] {
      DistinctSize(s[1..]);
      assert Elements(s) == {s[0]} + Elements(s[1..]);
      assert s[0] !in Elements(s[1..]);
    }
  }

  lemma SubsetSize(a: set<nat>, b: set<nat>)
    requires a <= b
    ensures |a| <= |b| && (|a| == |b| ==> a == b)
  {
    assert b == a + (b - a);
    assert |b| == |a| + |b - a|;
  }

  /** n distinct threads among n are all of them; and all n of them make at least n. */
  lemma Pigeonhole(s: seq<nat>, n: nat)
    requires Distinct(s) && forall i | 0 <= i < |s| :: s[i] < n
    ensures |s| <= n && (|s| == n <==> forall i: nat | i < n :: i in s)
  {
    DistinctSize(s);
    SubsetSize(Elements(s), Below(n));
    if forall i: nat | i < n :: i in s {
      SubsetSize(Below(n), Elements(s));
    }
    if |s| == n {
      forall i: nat | i < n ensures i in s {
        assert i in Elements(s);
      }
    }
  }

  /**
   n tasks that never return, on n threads: once the pool is at rest the queue is empty, and
   threads and tasks are matched one to one, each thread running its task.
   */
  lemma Saturation(n: nat, producers: nat, steps: seq<Step>, s: State)
    requires Reaches(Initial(n, producers), steps, s)
    requires forall step | step in steps :: !step.Return?
    requires Quiescent(s) && |s.submitted| == n
    ensures s.data == [] && Tasks(s.taken) == s.submitted && |s.workers| == n
    ensures Distinct(Takers(s.taken)) && forall i: nat | i < n :: i in Takers(s.taken)
    ensures forall p | 0 <= p < n :: s.taken[p].0 < n && s.workers[s.taken[p].0] == Running(s.submitted[p])
  {
    Safety(n, producers, steps, s);
    BoundWithoutReturns(n, producers, steps, s);
    WorkConserving(s);
    Pigeonhole(Takers(s.taken), n);
    assert |s.submitted| == |s.taken| + |s.data|;
    assert Tasks(s.taken) + [] == Tasks(s.taken);
    forall p | 0 <= p < |s.taken|
      ensures s.taken[p].0 < n && s.workers[s.taken[p].0] == Running(Tasks(s.taken)[p])
    {
      assert Holds(s.workers[s.taken[p].0], s.taken[p].1);
    }
  }
}
