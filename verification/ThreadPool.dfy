/** The worker pool: N workers and the accept loop share a FIFO, one mutex and
    one condition variable. Every program point of the two routines is a state,
    every atomic action an event, and the scheduler picks any enabled event.

    An event models one atomic action: acquiring or releasing the mutex, the
    test of the `while` condition, the queue operation inside the critical
    section, falling asleep (which releases the mutex atomically), the signal.
    The signal comes after the unlock, and a sleeper may also wake by itself. */
module ThreadPool {
  import opened Basics

  type Task = int // the accepted socket; a failed accept pushes a negative one

  /** The program points of `ThreadRoutine`. */
  datatype Worker =
    | Locking               // about to lock, at the top of the endless loop
    | Testing               // owns the mutex, about to test for an empty queue
    | CallingWait           // owns the mutex, about to wait
    | Asleep                // blocked on the condition variable
    | Relocking             // woken, about to own the mutex again
    | Popping               // owns the mutex, about to pop
    | Unlocking(task: Task) // owns the mutex and a task, about to unlock
    | Serving(task: Task)   // processing the task

  /** The program points of the accept loop and of `PushTask` inside it. */
  datatype Producer =
    | Accepting
    | PushLocking(task: Task)
    | Pushing(task: Task)
    | PushUnlocking
    | Signalling

  datatype Owner = Nobody | TheProducer | TheWorker(id: nat)

  /** The shared state and the control points. `accepted`, `pushed`, `popped`
      and `closed` record the history of sockets through each stage. */
  datatype State = State(
    queue: seq<Task>,
    owner: Owner,
    workers: seq<Worker>,
    producer: Producer,
    accepted: seq<Task>,
    pushed: seq<Task>,
    popped: seq<Task>,
    closed: seq<Task>)

  datatype Event =
    | Accept(sock: Task)  // a connection arrives
    | Produce(wake: nat)  // the producer moves on; a signal picks the sleeper `wake`
    | Work(id: nat)       // worker `id` moves on
    | Spurious(id: nat)   // worker `id` wakes without a signal

  function Init(n: nat): State {
    State([], Nobody, seq(n, _ => Locking), Accepting, [], [], [], [])
  }

  // ---------- The transition system ----------

  predicate SomeAsleep(ws: seq<Worker>) {
    exists i :: 0 <= i < |ws| && ws[i].Asleep?
  }

  predicate Enabled(s: State, e: Event) {
    match e
    case Accept(_) => s.producer.Accepting?
    case Produce(wake) =>
      (match s.producer
       case Accepting => false
       case PushLocking(_) => s.owner.Nobody?
       case Pushing(_) => true
       case PushUnlocking => true
       case Signalling => SomeAsleep(s.workers) ==> wake < |s.workers| && s.workers[wake].Asleep?)
    case Work(i) =>
      i < |s.workers| &&
      (match s.workers[i]
       case Locking => s.owner.Nobody?
       case Relocking => s.owner.Nobody?
       case Asleep => false
       case _ => true)
    case Spurious(i) => i < |s.workers| && s.workers[i].Asleep?
  }

  /** Popping an empty queue is undefined in the source; the model then hands
      out a socket that nobody pushed, which conservation would expose. */
  function Front(q: seq<Task>): Task {
    if q == [] then -1 else q[0]
  }

  function Rest(q: seq<Task>): seq<Task> {
    if q == [] then [] else q[1..]
  }

  function WorkerStep(s: State, i: nat): State
    requires Enabled(s, Work(i))
  {
    match s.workers[i]
    case Locking => s.(owner := TheWorker(i), workers := s.workers[i := Testing])
    case Testing => s.(workers := s.workers[i := if s.queue == [] then CallingWait else Popping])
    case CallingWait => s.(owner := Nobody, workers := s.workers[i := Asleep])
    case Relocking => s.(owner := TheWorker(i), workers := s.workers[i := Testing])
    case Popping =>
      s.(queue := Rest(s.queue), popped := s.popped + [Front(s.queue)],
         workers := s.workers[i := Unlocking(Front(s.queue))])
    case Unlocking(t) => s.(owner := Nobody, workers := s.workers[i := Serving(t)])
    case Serving(t) => s.(closed := s.closed + [t], workers := s.workers[i := Locking])
  }

  function ProducerStep(s: State, wake: nat): State
    requires Enabled(s, Produce(wake))
  {
    match s.producer
    case PushLocking(t) => s.(owner := TheProducer, producer := Pushing(t))
    case Pushing(t) => s.(queue := s.queue + [t], pushed := s.pushed + [t], producer := PushUnlocking)
    case PushUnlocking => s.(owner := Nobody, producer := Signalling)
    case Signalling =>
      s.(producer := Accepting,
         workers := if SomeAsleep(s.workers) then s.workers[wake := Relocking] else s.workers)
  }

  function Step(s: State, e: Event): State
    requires Enabled(s, e)
  {
    match e
    case Accept(sock) => s.(accepted := s.accepted + [sock], producer := PushLocking(sock))
    case Produce(wake) => ProducerStep(s, wake)
    case Work(i) => WorkerStep(s, i)
    case Spurious(i) => s.(workers := s.workers[i := Relocking])
  }

  /** A schedule: every event is enabled in the state it meets. */
  predicate Runs(s: State, es: seq<Event>)
    decreases |es|
  {
    es != [] ==> Enabled(s, es[0]) && Runs(Step(s, es[0]), es[1..])
  }

  function After(s: State, es: seq<Event>): State
    requires Runs(s, es)
    decreases |es|
  {
    if es == [] then s else After(Step(s, es[0]), es[1..])
  }

  // ---------- Sums over the workers ----------

  function Sum(ws: seq<Worker>, f: Worker -> nat): nat {
    if ws == [] then 0 else f(ws[0]) + Sum(ws[1..], f)
  }

  function Carried(w: Worker): multiset<Task> {
    match w
    case Unlocking(t) => multiset{t}
    case Serving(t) => multiset{t}
    case _ => multiset{}
  }

  function InService(ws: seq<Worker>): multiset<Task> {
    if ws == [] then multiset{} else Carried(ws[0]) + InService(ws[1..])
  }

  function Sleeps(w: Worker): nat { if w.Asleep? then 1 else 0 }

  function Busy(w: Worker): nat { if w.Unlocking? || w.Serving? then 1 else 0 }

  lemma {:induction false} SumUpdate(ws: seq<Worker>, f: Worker -> nat, i: nat, w: Worker)
    requires i < |ws|
    ensures Sum(ws[i := w], f) == Sum(ws, f) - f(ws[i]) + f(w)
  {
    if i == 0 {
      assert ws[i := w][1..] == ws[1..];
    } else {
      assert ws[i := w][1..] == ws[1..][i - 1 := w];
      SumUpdate(ws[1..], f, i - 1, w);
    }
  }

  lemma AddBoth(c: multiset<Task>, u: multiset<Task>, x: multiset<Task>, v: multiset<Task>, y: multiset<Task>)
    requires u + x == v + y
    ensures (c + u) + x == (c + v) + y
  {
    assert (c + u) + x == c + (u + x);
    assert (c + v) + y == c + (v + y);
  }

  lemma {:induction false} InServiceUpdate(ws: seq<Worker>, i: nat, w: Worker)
    requires i < |ws|
    ensures InService(ws[i := w]) + Carried(ws[i]) == InService(ws) + Carried(w)
  {
    var us := ws[i := w];
    if i == 0 {
      assert us[1..] == ws[1..];
    } else {
      assert us[1..] == ws[1..][i - 1 := w];
      InServiceUpdate(ws[1..], i - 1, w);
      AddBoth(Carried(ws[0]), InService(us[1..]), Carried(ws[i]), InService(ws[1..]), Carried(w));
    }
  }

  lemma {:induction false} SameInService(ws: seq<Worker>, i: nat, w: Worker)
    requires i < |ws| && Carried(ws[i]) == Carried(w)
    ensures InService(ws[i := w]) == InService(ws)
  {
    if i == 0 {
      assert ws[i := w][1..] == ws[1..];
    } else {
      assert ws[i := w][1..] == ws[1..][i - 1 := w];
      SameInService(ws[1..], i - 1, w);
    }
  }

  lemma {:induction false} BusyCount(ws: seq<Worker>)
    ensures |InService(ws)| == Sum(ws, Busy)
  {
    if ws != [] { BusyCount(ws[1..]); }
  }

  lemma {:induction false} BusyOrAsleep(ws: seq<Worker>)
    ensures Sum(ws, Busy) + Sum(ws, Sleeps) <= |ws|
  {
    if ws != [] { BusyOrAsleep(ws[1..]); }
  }

  lemma {:induction false} AsleepCount(ws: seq<Worker>)
    ensures Sum(ws, Sleeps) > 0 <==> SomeAsleep(ws)
  {
    if ws != [] {
      AsleepCount(ws[1..]);
      if SomeAsleep(ws[1..]) {
        var j :| 0 <= j < |ws[1..]| && ws[1..][j].Asleep?;
        assert ws[j + 1].Asleep?;
      } else {
        assert forall i :: 1 <= i < |ws| ==> ws[i] == ws[1..][i - 1];
      }
    }
  }

  // ---------- The invariant ----------

  predicate OwnsMutex(w: Worker) {
    w.Testing? || w.CallingWait? || w.Popping? || w.Unlocking?
  }

  predicate ProducerOwnsMutex(p: Producer) { p.Pushing? || p.PushUnlocking? }

  /** The owner is the one thread inside a critical section, if there is one. */
  predicate MutualExclusion(s: State) {
    && (forall i :: 0 <= i < |s.workers| ==> (OwnsMutex(s.workers[i]) <==> s.owner == TheWorker(i)))
    && (ProducerOwnsMutex(s.producer) <==> s.owner == TheProducer)
    && (s.owner.TheWorker? ==> s.owner.id < |s.workers|)
  }

  /** What the test found is still true when the worker acts on it. */
  predicate TestStillTrue(s: State) {
    forall i :: 0 <= i < |s.workers| ==>
      (s.workers[i].CallingWait? ==> s.queue == []) && (s.workers[i].Popping? ==> s.queue != [])
  }

  function Pending(p: Producer): seq<Task> {
    match p
    case PushLocking(t) => [t]
    case Pushing(t) => [t]
    case _ => []
  }

  /** No task is lost, duplicated or overtaken. */
  predicate Conservation(s: State) {
    && s.accepted == s.pushed + Pending(s.producer)
    && s.pushed == s.popped + s.queue
    && multiset(s.popped) == InService(s.workers) + multiset(s.closed)
  }

  /** A signal not yet given for a task already pushed. */
  function Owed(p: Producer): nat { if p.PushUnlocking? || p.Signalling? then 1 else 0 }

  /** Enough workers are up, or about to be, for the work there is. */
  predicate WorkConserved(s: State) {
    Min(|s.workers|, |s.queue| + Sum(s.workers, Busy))
      <= |s.workers| - Sum(s.workers, Sleeps) + Owed(s.producer)
  }

  predicate Inv(s: State) {
    MutualExclusion(s) && TestStillTrue(s) && Conservation(s) && WorkConserved(s)
  }

  lemma {:induction false} AllLocking(n: nat)
    ensures InService(Init(n).workers) == multiset{}
    ensures Sum(Init(n).workers, Rank) == 3 * n
  {
    if n > 0 {
      AllLocking(n - 1);
      assert Init(n).workers[1..] == Init(n - 1).workers;
    }
  }

  lemma InitInv(n: nat)
    ensures Inv(Init(n))
  {
    AllLocking(n);
    BusyCount(Init(n).workers);
    AsleepCount(Init(n).workers);
  }

  lemma StepMutex(s: State, e: Event)
    requires MutualExclusion(s) && TestStillTrue(s) && Enabled(s, e)
    ensures MutualExclusion(Step(s, e)) && TestStillTrue(Step(s, e))
  {}

  lemma StepConservation(s: State, e: Event)
    requires TestStillTrue(s) && Conservation(s) && Enabled(s, e)
    ensures Conservation(Step(s, e))
  {
    match e
    case Accept(_) =>
    case Produce(wake) => ProduceConserves(s, wake);
    case Work(i) => WorkConservation(s, i);
    case Spurious(i) => SameInService(s.workers, i, Relocking);
  }

  lemma ProduceConserves(s: State, wake: nat)
    requires Conservation(s) && Enabled(s, Produce(wake))
    ensures Conservation(ProducerStep(s, wake))
  {
    if s.producer.Signalling? && SomeAsleep(s.workers) {
      SameInService(s.workers, wake, Relocking);
    }
  }

  lemma TaskArrives(p: multiset<Task>, a: multiset<Task>, b: multiset<Task>, c: multiset<Task>, t: Task)
    requires p == a + c && b + multiset{} == a + multiset{t}
    ensures p + multiset{t} == b + c
  {
    assert b + multiset{} == b;
    assert p + multiset{t} == (a + multiset{t}) + c;
  }

  lemma TaskLeaves(p: multiset<Task>, a: multiset<Task>, b: multiset<Task>, c: multiset<Task>, t: Task)
    requires p == a + c && b + multiset{t} == a + multiset{}
    ensures p == b + (c + multiset{t})
  {
    assert a + multiset{} == a;
    assert b + (c + multiset{t}) == (b + multiset{t}) + c;
  }

  lemma WorkConservation(s: State, i: nat)
    requires TestStillTrue(s) && Conservation(s) && Enabled(s, Work(i))
    ensures Conservation(WorkerStep(s, i))
  {
    if s.workers[i].Popping? {
      PopConserves(s, i);
    } else if s.workers[i].Serving? {
      CloseConserves(s, i);
    } else {
      SameInService(s.workers, i, WorkerStep(s, i).workers[i]);
    }
  }

  lemma PopConserves(s: State, i: nat)
    requires Conservation(s) && i < |s.workers| && s.workers[i].Popping? && s.queue != []
    ensures Conservation(WorkerStep(s, i))
  {
    var t, w' := s.queue[0], Unlocking(s.queue[0]);
    assert s.popped + s.queue == (s.popped + [t]) + s.queue[1..];
    assert multiset(s.popped + [t]) == InService(s.workers[i := w']) + multiset(s.closed) by {
      InServiceUpdate(s.workers, i, w');
      TaskArrives(multiset(s.popped), InService(s.workers), InService(s.workers[i := w']), multiset(s.closed), t);
    }
  }

  lemma CloseConserves(s: State, i: nat)
    requires Conservation(s) && i < |s.workers| && s.workers[i].Serving?
    ensures Conservation(WorkerStep(s, i))
  {
    var t := s.workers[i].task;
    assert multiset(s.popped) == InService(s.workers[i := Locking]) + multiset(s.closed + [t]) by {
      InServiceUpdate(s.workers, i, Locking);
      TaskLeaves(multiset(s.popped), InService(s.workers), InService(s.workers[i := Locking]), multiset(s.closed), t);
    }
  }

  /** The heart of the matter: who falls asleep saw an empty queue, and every
      busy worker is up; who pushes owes a signal until it has woken somebody. */
  lemma StepWork(s: State, e: Event)
    requires TestStillTrue(s) && WorkConserved(s) && Enabled(s, e)
    ensures WorkConserved(Step(s, e))
  {
    match e
    case Accept(_) =>
    case Produce(wake) => ProducerKeepsWork(s, wake);
    case Work(i) => WorkerKeepsWork(s, i);
    case Spurious(i) =>
      CountsUpdate(s.workers, i, Relocking);
  }

  /** Without sleepers everybody is up, so nothing is owed to anyone. */
  lemma ProducerKeepsWork(s: State, wake: nat)
    requires WorkConserved(s) && Enabled(s, Produce(wake))
    ensures WorkConserved(ProducerStep(s, wake))
  {
    AsleepCount(s.workers);
    if s.producer.Signalling? && SomeAsleep(s.workers) { CountsUpdate(s.workers, wake, Relocking); }
  }

  lemma WorkerKeepsWork(s: State, i: nat)
    requires TestStillTrue(s) && WorkConserved(s) && Enabled(s, Work(i))
    ensures WorkConserved(WorkerStep(s, i))
  {
    var ws' := WorkerStep(s, i).workers;
    CountsUpdate(s.workers, i, ws'[i]);
    BusyOrAsleep(ws');
  }

  lemma CountsUpdate(ws: seq<Worker>, i: nat, w: Worker)
    requires i < |ws|
    ensures Sum(ws[i := w], Busy) == Sum(ws, Busy) - Busy(ws[i]) + Busy(w)
    ensures Sum(ws[i := w], Sleeps) == Sum(ws, Sleeps) - Sleeps(ws[i]) + Sleeps(w)
  {
    SumUpdate(ws, Busy, i, w);
    SumUpdate(ws, Sleeps, i, w);
  }

  lemma StepInv(s: State, e: Event)
    requires Inv(s) && Enabled(s, e)
    ensures Inv(Step(s, e)) && |Step(s, e).workers| == |s.workers|
  {
    StepMutex(s, e);
    StepConservation(s, e);
    StepWork(s, e);
  }

  /** Every state of every run of every pool keeps the invariant. */
  lemma {:induction false} RunInv(s: State, es: seq<Event>)
    requires Inv(s) && Runs(s, es)
    ensures Inv(After(s, es)) && |After(s, es).workers| == |s.workers|
    decreases |es|
  {
    if es != [] {
      StepInv(s, es[0]);
      RunInv(Step(s, es[0]), es[1..]);
    }
  }

  // ---------- Main results ----------

  /** Critical sections exclude each other, no pop meets an empty queue, tasks
      leave in the order in which they were accepted, each accepted connection
      is at exactly one place, and no wakeup is lost. */
  predicate Safe(s: State) {
    && (forall i, j :: 0 <= i < j < |s.workers| ==> !(OwnsMutex(s.workers[i]) && OwnsMutex(s.workers[j])))
    && (forall i :: 0 <= i < |s.workers| && s.workers[i].Popping? ==> s.queue != [])
    && s.popped + s.queue + Pending(s.producer) == s.accepted
    && multiset(s.accepted)
       == multiset(Pending(s.producer)) + multiset(s.queue) + InService(s.workers) + multiset(s.closed)
    && Min(|s.workers|, |s.queue| + |InService(s.workers)|)
       <= |s.workers| - Sum(s.workers, Sleeps) + Owed(s.producer)
  }

  lemma EachAtOnePlace(popped: seq<Task>, queue: seq<Task>, pending: seq<Task>, served: multiset<Task>, closed: multiset<Task>)
    requires multiset(popped) == served + closed
    ensures multiset(popped + queue + pending) == multiset(pending) + multiset(queue) + served + closed
  {
    assert multiset(popped + queue + pending) == multiset(popped) + multiset(queue) + multiset(pending);
  }

  lemma InvSafe(s: State)
    requires Inv(s)
    ensures Safe(s)
  {
    BusyCount(s.workers);
    EachAtOnePlace(s.popped, s.queue, Pending(s.producer), InService(s.workers), multiset(s.closed));
  }

  /** Every state that any schedule of any pool reaches is safe. */
  lemma EveryRunIsSafe(n: nat, es: seq<Event>)
    requires Runs(Init(n), es)
    ensures Safe(After(Init(n), es)) && |After(Init(n), es).workers| == n
  {
    InitInv(n);
    RunInv(Init(n), es);
    InvSafe(After(Init(n), es));
  }

  // ---------- Draining ----------

  predicate Progress(e: Event) { e.Produce? || e.Work? }

  function Rank(w: Worker): nat {
    match w
    case Asleep => 0
    case CallingWait => 1
    case Popping => 1
    case Testing => 2
    case Locking => 3
    case Relocking => 3
    case Serving(_) => 4
    case Unlocking(_) => 5
  }

  function ProducerRank(p: Producer): nat {
    match p
    case Accepting => 0
    case Signalling => 4
    case PushUnlocking => 5
    case Pushing(_) => 12
    case PushLocking(_) => 13
  }

  /** Steps still to come when no connection arrives and no sleeper wakes by itself. */
  function Measure(s: State): nat {
    6 * |s.queue| + Sum(s.workers, Rank) + ProducerRank(s.producer)
  }

  function Cost(e: Event): nat {
    match e
    case Accept(_) => 14
    case Spurious(_) => 4
    case _ => 0
  }

  function TotalCost(es: seq<Event>): nat {
    if es == [] then 0 else Cost(es[0]) + TotalCost(es[1..])
  }

  lemma StepMeasure(s: State, e: Event)
    requires TestStillTrue(s) && Enabled(s, e)
    ensures Measure(Step(s, e)) + 1 <= Measure(s) + Cost(e)
  {
    match e
    case Accept(_) =>
    case Produce(wake) =>
      if s.producer.Signalling? && SomeAsleep(s.workers) {
        SumUpdate(s.workers, Rank, wake, Relocking);
      }
    case Work(i) => SumUpdate(s.workers, Rank, i, WorkerStep(s, i).workers[i]);
    case Spurious(i) => SumUpdate(s.workers, Rank, i, Relocking);
  }

  lemma {:induction false} RunMeasure(s: State, es: seq<Event>)
    requires Inv(s) && Runs(s, es)
    ensures |es| + Measure(After(s, es)) <= Measure(s) + TotalCost(es)
    decreases |es|
  {
    if es != [] {
      StepInv(s, es[0]);
      StepMeasure(s, es[0]);
      RunMeasure(Step(s, es[0]), es[1..]);
    }
  }

  predicate Drained(s: State) {
    && s.queue == [] && s.producer.Accepting?
    && forall i :: 0 <= i < |s.workers| ==> s.workers[i].Asleep?
  }

  /** The scheduler always has a move that makes progress until the pool is drained. */
  lemma NextMove(s: State) returns (e: Event)
    requires Inv(s) && !Drained(s) && s.workers != []
    ensures Progress(e) && Enabled(s, e)
  {
    match s.owner
    case TheProducer => e := Produce(0);
    case TheWorker(i) => e := Work(i);
    case Nobody =>
      if s.producer.Signalling? && SomeAsleep(s.workers) {
        var i :| 0 <= i < |s.workers| && s.workers[i].Asleep?;
        e := Produce(i);
      } else if !s.producer.Accepting? {
        e := Produce(0);
      } else {
        if forall i :: 0 <= i < |s.workers| ==> s.workers[i].Asleep? {
          AllAsleep(s.workers);
          assert false;
        }
        var i :| 0 <= i < |s.workers| && !s.workers[i].Asleep?;
        e := Work(i);
      }
  }

  lemma {:induction false} AllAsleep(ws: seq<Worker>)
    requires forall i :: 0 <= i < |ws| ==> ws[i].Asleep?
    ensures Sum(ws, Sleeps) == |ws| && InService(ws) == multiset{}
  {
    if ws != [] { AllAsleep(ws[1..]); }
  }

  /** Progress is impossible in the drained states and in no other, and there
      every accepted task has been closed. */
  lemma StuckIffDrained(s: State)
    requires Inv(s) && s.workers != []
    ensures (forall e :: Progress(e) ==> !Enabled(s, e)) <==> Drained(s)
    ensures Drained(s) ==> s.popped == s.accepted && multiset(s.closed) == multiset(s.accepted)
  {
    if Drained(s) {
      AllAsleep(s.workers);
    } else {
      var e := NextMove(s);
      assert Progress(e) && Enabled(s, e);
    }
  }

  /** No schedule of a pool with at least one worker lasts longer than its
      arrivals and spurious wakeups pay for; and where it can make no further
      progress, everything that was accepted has been served, in order, and
      closed exactly once, and every worker waits. */
  lemma Drains(n: nat, es: seq<Event>)
    requires n > 0 && Runs(Init(n), es)
    ensures |es| <= 3 * n + TotalCost(es)
    ensures var s := After(Init(n), es);
      && ((forall e :: Progress(e) ==> !Enabled(s, e)) <==> Drained(s))
      && (Drained(s) ==> s.popped == s.accepted && multiset(s.closed) == multiset(s.accepted))
  {
    InitInv(n);
    AllLocking(n);
    RunInv(Init(n), es);
    RunMeasure(Init(n), es);
    StuckIffDrained(After(Init(n), es));
  }

  // ---------- Every socket can be served ----------

  lemma {:induction false} RunsAppend(s: State, es: seq<Event>, more: seq<Event>)
    requires Runs(s, es) && Runs(After(s, es), more)
    ensures Runs(s, es + more) && After(s, es + more) == After(After(s, es), more)
    decreases |es|
  {
    if es == [] {
      assert es + more == more;
    } else {
      assert (es + more)[1..] == es[1..] + more;
      RunsAppend(Step(s, es[0]), es[1..], more);
    }
  }

  lemma {:induction false} DrainOn(s: State) returns (es: seq<Event>)
    requires Inv(s) && s.workers != []
    ensures Runs(s, es) && Drained(After(s, es)) && After(s, es).accepted == s.accepted
    decreases Measure(s)
  {
    if Drained(s) {
      es := [];
    } else {
      var e := NextMove(s);
      StepInv(s, e);
      StepMeasure(s, e);
      var more := DrainOn(Step(s, e));
      es := [e] + more;
      assert es[1..] == more;
    }
  }

  lemma {:induction false} ServeOn(s: State, socks: seq<Task>) returns (es: seq<Event>)
    requires Inv(s) && s.workers != [] && Drained(s)
    ensures Runs(s, es) && Drained(After(s, es)) && After(s, es).accepted == s.accepted + socks
    decreases |socks|
  {
    if socks == [] {
      es := [];
      assert s.accepted + socks == s.accepted;
    } else {
      var arrived := Step(s, Accept(socks[0]));
      StepInv(s, Accept(socks[0]));
      var served := DrainOn(arrived);
      RunInv(arrived, served);
      var more := ServeOn(After(arrived, served), socks[1..]);
      RunsAppend(arrived, served, more);
      es := [Accept(socks[0])] + (served + more);
      assert es[1..] == served + more;
      assert s.accepted + [socks[0]] + socks[1..] == s.accepted + socks;
    }
  }

  /** Whatever sockets arrive, in any number, a pool with at least one worker can
      accept them all, serve them in order, close each once and come to rest. */
  lemma CanServe(n: nat, socks: seq<Task>) returns (es: seq<Event>)
    requires n > 0
    ensures Runs(Init(n), es)
    ensures var s := After(Init(n), es);
      Drained(s) && s.accepted == s.popped == socks && multiset(s.closed) == multiset(socks)
  {
    InitInv(n);
    var rest := DrainOn(Init(n));
    RunInv(Init(n), rest);
    var more := ServeOn(After(Init(n), rest), socks);
    RunsAppend(Init(n), rest, more);
    es := rest + more;
    RunInv(Init(n), es);
    StuckIffDrained(After(Init(n), es));
    assert [] + socks == socks;
  }

  /** Nothing but the mutex and sleep holds anybody up: any socket may arrive while
      the producer accepts, any sleeper may wake by itself or be the one that a
      signal wakes, and every other worker can go on unless it needs a mutex that
      is taken. */
  lemma NothingElseWaits(s: State)
    ensures forall sock :: Enabled(s, Accept(sock)) <==> s.producer.Accepting?
    ensures forall i: nat :: Enabled(s, Spurious(i)) <==> i < |s.workers| && s.workers[i].Asleep?
    ensures s.producer.Signalling? ==>
      forall i: nat :: i < |s.workers| && s.workers[i].Asleep? ==> Enabled(s, Produce(i))
    ensures forall i: nat :: i < |s.workers| ==>
      (Enabled(s, Work(i)) <==>
         !s.workers[i].Asleep? && (s.workers[i].Locking? || s.workers[i].Relocking? ==> s.owner == Nobody))
  {}

  // ---------- The pool object ----------

  class ThreadPool {
    var taskQueue: seq<Task>
    var owner: Owner
    var workers: seq<Worker>
    var producer: Producer
    ghost var accepted: seq<Task>
    ghost var pushed: seq<Task>
    ghost var popped: seq<Task>
    ghost var closed: seq<Task>

    ghost function View(): State
      reads this
    {
      State(taskQueue, owner, workers, producer, accepted, pushed, popped, closed)
    }

    constructor (num: nat)
      ensures View() == Init(num)
    {
      taskQueue, owner, producer := [], Nobody, Accepting;
      workers := seq(num, _ => Locking);
      accepted, pushed, popped, closed := [], [], [], [];
    }

    predicate TaskQueueIsEmpty()
      reads this
    {
      taskQueue == []
    }

    method Lock(who: Owner)
      requires owner.Nobody?
      modifies this`owner
      ensures owner == who
    {
      owner := who;
    }

    method UnLock()
      modifies this`owner
      ensures owner == Nobody
    {
      owner := Nobody;
    }

    method PopTask() returns (task: Task)
      requires taskQueue != []
      modifies this`taskQueue, this`popped
      ensures old(taskQueue) == [task] + taskQueue
      ensures popped == old(popped) + [task]
    {
      task := taskQueue[0];
      taskQueue := taskQueue[1..];
      popped := popped + [task];
    }

    /** Wakes one sleeper if there is any; the scheduler says which. */
    method ThreadWakeup(wake: nat)
      requires SomeAsleep(workers) ==> wake < |workers| && workers[wake].Asleep?
      modifies this`workers
      ensures workers == if SomeAsleep(old(workers)) then old(workers)[wake := Relocking] else old(workers)
    {
      if SomeAsleep(workers) { workers := workers[wake := Relocking]; }
    }

    /** One atomic action of `ThreadRoutine` by worker i. */
    method ThreadRoutine(i: nat)
      requires Inv(View()) && Enabled(View(), Work(i))
      modifies this
      ensures View() == Step(old(View()), Work(i))
    {
      match workers[i]
      case Locking =>
        Lock(TheWorker(i));
        workers := workers[i := Testing];
      case Testing =>
        if TaskQueueIsEmpty() {
          workers := workers[i := CallingWait];
        } else {
          workers := workers[i := Popping];
        }
      case CallingWait =>
        UnLock();
        workers := workers[i := Asleep];
      case Relocking =>
        Lock(TheWorker(i));
        workers := workers[i := Testing];
      case Popping =>
        var task := PopTask();
        workers := workers[i := Unlocking(task)];
      case Unlocking(task) =>
        UnLock();
        workers := workers[i := Serving(task)];
      case Serving(task) =>
        closed := closed + [task];
        workers := workers[i := Locking];
    }

    /** One atomic action of `PushTask` by the accept loop. */
    method PushTask(wake: nat)
      requires Enabled(View(), Produce(wake))
      modifies this
      ensures View() == Step(old(View()), Produce(wake))
    {
      match producer
      case PushLocking(task) =>
        Lock(TheProducer);
        producer := Pushing(task);
      case Pushing(task) =>
        taskQueue := taskQueue + [task];
        pushed := pushed + [task];
        producer := PushUnlocking;
      case PushUnlocking =>
        UnLock();
        producer := Signalling;
      case Signalling =>
        ThreadWakeup(wake);
        producer := Accepting;
    }

    method Perform(e: Event)
      requires Inv(View()) && Enabled(View(), e)
      modifies this
      ensures View() == Step(old(View()), e)
    {
      match e
      case Accept(sock) =>
        accepted := accepted + [sock];
        producer := PushLocking(sock);
      case Produce(wake) => PushTask(wake);
      case Work(i) => ThreadRoutine(i);
      case Spurious(i) => workers := workers[i := Relocking];
    }

    /** Any schedule, performed on the object: the invariant is what makes each
        `PopTask` on the way legal. */
    method Execute(es: seq<Event>)
      requires Inv(View()) && Runs(View(), es)
      modifies this
      ensures Inv(View()) && View() == After(old(View()), es)
    {
      var k := 0;
      while k < |es|
        invariant k <= |es|
        invariant Inv(View()) && Runs(View(), es[k..])
        invariant After(View(), es[k..]) == After(old(View()), es)
      {
        StepInv(View(), es[k]);
        assert es[k..][1..] == es[k + 1..];
        Perform(es[k]);
        k := k + 1;
      }
    }
  }
}
