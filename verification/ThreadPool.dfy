/** The bounded thread pool of ThreadPool.cc as a protocol of atomic steps.
    A step is one pass through a critical section, one read of the running flag, the end of a task,
    or a wakeup. Any number of threads may be inside run at a time, workers among them: a task
    may call run itself, and then its own worker is the thread that blocks. */
module ThreadPools {
  import opened Wrappers

  type Tid = nat
  type Task = nat

  /** A thread inside run: blocked on notFull, or awakened and yet to look again. */
  datatype Producer = WaitFull(task: Task) | AwakeFull(task: Task)

  /** A worker: about to read running_, about to call take, blocked on notEmpty,
      awakened and yet to look again, running a task, or gone. */
  datatype Worker = AtLoop | Entering | WaitEmpty | AwakeEmpty | Running(task: Task) | Exited

  datatype State = State(
    maxQueueSize: nat,
    queue: seq<Task>,
    running: bool,
    producers: map<Tid, Producer>,
    workers: map<Tid, Worker>,
    accepted: seq<Task>,   // every task run has accepted, in order
    taken: seq<Task>)      // every task a worker (or an inline run) has taken, in order
  {
    predicate IsFull() {
      maxQueueSize > 0 && |queue| >= maxQueueSize
    }

    function WaitingWorkers(): set<Tid> {
      set w | w in workers && workers[w].WaitEmpty?
    }

    function AwakeWorkers(): set<Tid> {
      set w | w in workers && workers[w].AwakeEmpty?
    }

    function WaitingProducers(): set<Tid> {
      set p | p in producers && producers[p].WaitFull?
    }

    function AwakeProducers(): set<Tid> {
      set p | p in producers && producers[p].AwakeFull?
    }
  }

  /** Steps; woken is the thread a notify of the step picks, if any waits. */
  datatype Label =
    | Call(p: Tid, task: Task, woken: Option<Tid>)    // a thread, or a worker's task, enters run
    | Retry(p: Tid, woken: Option<Tid>)               // an awakened thread looks again
    | Check(w: Tid)                                   // a worker reads running_
    | Take(w: Tid, woken: Option<Tid>)                // a worker enters take, or looks again
    | Finish(w: Tid)                                  // a task returns
    | SpuriousWorker(w: Tid)
    | SpuriousProducer(p: Tid)
    | Stop

  /** notify wakes one waiting thread, if there is one. */
  predicate Picks(woken: Option<Tid>, waiting: set<Tid>) {
    if waiting == {} then woken.None? else woken.Some? && woken.value in waiting
  }

  function WakeWorker(s: State, woken: Option<Tid>): State {
    if woken.Some? then s.(workers := s.workers[woken.value := AwakeEmpty]) else s
  }

  function WakeProducer(s: State, woken: Option<Tid>): State
    requires woken.Some? ==> woken.value in s.producers
  {
    if woken.Some? then
      s.(producers := s.producers[woken.value := AwakeFull(s.producers[woken.value].task)])
    else s
  }

  /** One pass through run's critical section by p. */
  function Attempt(s: State, p: Tid, task: Task, woken: Option<Tid>): State {
    if s.IsFull() && s.running then s.(producers := s.producers[p := WaitFull(task)])
    else if !s.running then s.(producers := s.producers - {p})
    else WakeWorker(Pushed(s, p, task), woken)
  }

  predicate AttemptPicks(s: State, woken: Option<Tid>) {
    if s.IsFull() || !s.running then woken.None? else Picks(woken, s.WaitingWorkers())
  }

  predicate TakePicks(s: State, woken: Option<Tid>) {
    if s.queue == [] || s.maxQueueSize == 0 then woken.None? else Picks(woken, s.WaitingProducers())
  }

  predicate Enabled(s: State, l: Label) {
    match l
    case Call(p, task, woken) =>
      && p !in s.producers && (p in s.workers ==> s.workers[p].Running?)
      && (if s.workers.Keys == {} then woken.None? else AttemptPicks(s, woken))
    case Retry(p, woken) => p in s.producers && s.producers[p].AwakeFull? && AttemptPicks(s, woken)
    case Check(w) => w in s.workers && s.workers[w].AtLoop?
    case Take(w, woken) =>
      w in s.workers && (s.workers[w].Entering? || s.workers[w].AwakeEmpty?) && TakePicks(s, woken)
    case Finish(w) => w in s.workers && s.workers[w].Running? && w !in s.producers
    case SpuriousWorker(w) => w in s.WaitingWorkers()
    case SpuriousProducer(p) => p in s.WaitingProducers()
    case Stop => true
  }

  function Step(s: State, l: Label): State
    requires Enabled(s, l)
  {
    match l
    case Call(p, task, woken) =>
      if s.workers.Keys == {} then s.(accepted := s.accepted + [task], taken := s.taken + [task])
      else Attempt(s, p, task, woken)
    case Retry(p, woken) => Attempt(s, p, s.producers[p].task, woken)
    case Check(w) => s.(workers := s.workers[w := if s.running then Entering else Exited])
    case Take(w, woken) =>
      if s.queue == [] then s.(workers := s.workers[w := if s.running then WaitEmpty else AtLoop])
      else WakeProducer(Popped(s, w), woken)
    case Finish(w) => s.(workers := s.workers[w := AtLoop])
    case SpuriousWorker(w) => s.(workers := s.workers[w := AwakeEmpty])
    case SpuriousProducer(p) => WakeProducer(s, Some(p))
    case Stop =>
      s.(running := false,
         workers := map w | w in s.workers :: if s.workers[w].WaitEmpty? then AwakeEmpty else s.workers[w],
         producers := map p | p in s.producers :: AwakeFull(s.producers[p].task))
  }

  /** The state start leaves behind. */
  predicate Initial(s: State) {
    && s.queue == [] && s.running && s.producers == map[] && s.accepted == [] && s.taken == []
    && forall w :: w in s.workers ==> s.workers[w].AtLoop?
  }

  /** A run of the pool, as the steps taken from a state. */
  predicate Legal(s: State, ls: seq<Label>)
    decreases |ls|
  {
    ls != [] ==> Enabled(s, ls[0]) && Legal(Step(s, ls[0]), ls[1..])
  }

  function After(s: State, ls: seq<Label>): State
    requires Legal(s, ls)
    decreases |ls|
  {
    if ls == [] then s else After(Step(s, ls[0]), ls[1..])
  }

  /* ---- The invariant ---- */

  /** Tasks are taken in the order they were accepted, and none is lost or invented. */
  predicate Conserved(s: State) {
    s.accepted == s.taken + s.queue
  }

  predicate Bounded(s: State) {
    if s.maxQueueSize > 0 then |s.queue| <= s.maxQueueSize else s.WaitingProducers() == {}
  }

  /** While a worker waits unsignalled, every queued task has an awakened worker on its way. */
  predicate NoLostWorkerWakeup(s: State) {
    s.running && s.WaitingWorkers() != {} ==> |s.queue| <= |s.AwakeWorkers()|
  }

  /** While a producer waits unsignalled, every free slot has an awakened producer on its way. */
  predicate NoLostProducerWakeup(s: State) {
    s.running && s.WaitingProducers() != {} ==> s.maxQueueSize - |s.queue| <= |s.AwakeProducers()|
  }

  predicate NobodyWaitsStopped(s: State) {
    !s.running ==> s.WaitingWorkers() == {} && s.WaitingProducers() == {}
  }

  /** Without workers run executes tasks itself: the queue is never used and nobody blocks. */
  predicate InlineOnly(s: State) {
    s.workers.Keys == {} ==> s.queue == [] && s.producers.Keys == {}
  }

  predicate NobodyExitsRunning(s: State) {
    s.running ==> forall w :: w in s.workers ==> !s.workers[w].Exited?
  }

  predicate Safe(s: State) {
    && InlineOnly(s) && Conserved(s) && Bounded(s) && NoLostWorkerWakeup(s) && NoLostProducerWakeup(s)
    && NobodyWaitsStopped(s)
  }

  /** A worker held up in run is there on behalf of its task. */
  predicate CallsFromTasks(s: State) {
    forall w :: w in s.workers && w in s.producers ==> s.workers[w].Running?
  }

  predicate Inv(s: State) {
    Safe(s) && NobodyExitsRunning(s) && CallsFromTasks(s)
  }

  /* ---- How the sets of waiting and awakened threads move ---- */

  lemma WorkerMoves(s: State, w: Tid, x: Worker)
    ensures var s' := s.(workers := s.workers[w := x]);
            && s'.WaitingWorkers() == (if x.WaitEmpty? then s.WaitingWorkers() + {w} else s.WaitingWorkers() - {w})
            && s'.AwakeWorkers() == (if x.AwakeEmpty? then s.AwakeWorkers() + {w} else s.AwakeWorkers() - {w})
  {
  }

  lemma ProducerMoves(s: State, p: Tid, x: Producer)
    ensures var s' := s.(producers := s.producers[p := x]);
            && s'.WaitingProducers()
               == (if x.WaitFull? then s.WaitingProducers() + {p} else s.WaitingProducers() - {p})
            && s'.AwakeProducers()
               == (if x.AwakeFull? then s.AwakeProducers() + {p} else s.AwakeProducers() - {p})
  {
  }

  lemma ProducerLeaves(s: State, p: Tid)
    ensures var s' := s.(producers := s.producers - {p});
            s'.WaitingProducers() == s.WaitingProducers() - {p} && s'.AwakeProducers() == s.AwakeProducers() - {p}
  {
  }

  lemma StopMoves(s: State)
    ensures Step(s, Stop).WaitingWorkers() == {} && Step(s, Stop).WaitingProducers() == {}
  {
  }

  /** A worker's wait begins only on an empty queue, and its recheck uses up at most one task. */
  lemma TakeKeepsSafe(s: State, w: Tid, woken: Option<Tid>)
    requires Safe(s) && Enabled(s, Take(w, woken))
    ensures Safe(Step(s, Take(w, woken)))
  {
    if s.queue == [] {
      WorkerMoves(s, w, if s.running then WaitEmpty else AtLoop);
    } else {
      var s1 := Popped(s, w);
      PopMoves(s, w);
      if woken.Some? {
        ProducerMoves(s1, woken.value, AwakeFull(s1.producers[woken.value].task));
      }
    }
  }

  /** The state after w has popped the front task, before it notifies. */
  function Popped(s: State, w: Tid): State
    requires s.queue != []
  {
    s.(workers := s.workers[w := Running(s.queue[0])],
       queue := s.queue[1..], taken := s.taken + [s.queue[0]])
  }

  lemma PopMoves(s: State, w: Tid)
    requires s.queue != [] && Conserved(s)
    ensures var s1 := Popped(s, w);
            && Conserved(s1)
            && s1.WaitingWorkers() == s.WaitingWorkers() - {w} && |s1.AwakeWorkers()| >= |s.AwakeWorkers()| - 1
            && s1.WaitingProducers() == s.WaitingProducers() && s1.AwakeProducers() == s.AwakeProducers()
  {
    WorkerMoves(s, w, Running(s.queue[0]));
    var s1 := Popped(s, w);
    assert s1.accepted == s1.taken + s1.queue;
    assert s1.AwakeWorkers() == s.AwakeWorkers() - {w};
  }

  /** A producer's wait begins only on a full queue, and its recheck fills at most one slot. */
  lemma AttemptKeepsSafe(s: State, p: Tid, task: Task, woken: Option<Tid>)
    requires Safe(s) && s.workers.Keys != {} && AttemptPicks(s, woken) && p !in s.WaitingProducers()
    ensures Safe(Attempt(s, p, task, woken))
  {
    if s.IsFull() && s.running {
      ProducerMoves(s, p, WaitFull(task));
    } else if !s.running {
      ProducerLeaves(s, p);
    } else {
      PushMoves(s, p, task);
      if woken.Some? {
        WorkerMoves(Pushed(s, p, task), woken.value, AwakeEmpty);
      }
    }
  }

  /** The state after p has pushed its task, before it notifies. */
  function Pushed(s: State, p: Tid, task: Task): State {
    s.(producers := s.producers - {p}, queue := s.queue + [task], accepted := s.accepted + [task])
  }

  lemma PushMoves(s: State, p: Tid, task: Task)
    requires Conserved(s)
    ensures var s1 := Pushed(s, p, task);
            && Conserved(s1)
            && s1.WaitingProducers() == s.WaitingProducers() - {p}
            && |s1.AwakeProducers()| >= |s.AwakeProducers()| - 1
            && s1.WaitingWorkers() == s.WaitingWorkers() && s1.AwakeWorkers() == s.AwakeWorkers()
  {
    ProducerLeaves(s, p);
    var s1 := Pushed(s, p, task);
    assert s1.accepted == s1.taken + s1.queue;
    assert s1.AwakeProducers() == s.AwakeProducers() - {p};
  }

  lemma CallKeepsSafe(s: State, p: Tid, task: Task, woken: Option<Tid>)
    requires Safe(s) && Enabled(s, Call(p, task, woken))
    ensures Safe(Step(s, Call(p, task, woken)))
  {
    if s.workers.Keys == {} {
      var t := Step(s, Call(p, task, woken));
      assert t.accepted == t.taken + [];
    } else {
      AttemptKeepsSafe(s, p, task, woken);
    }
  }

  lemma MoveKeepsSafe(s: State, l: Label)
    requires Safe(s) && Enabled(s, l) && (l.Check? || l.Finish? || l.SpuriousWorker?)
    ensures Safe(Step(s, l))
  {
    match l
    case Check(w) => WorkerMoves(s, w, if s.running then Entering else Exited);
    case Finish(w) => WorkerMoves(s, w, AtLoop);
    case SpuriousWorker(w) => WorkerMoves(s, w, AwakeEmpty);
  }

  lemma StepKeepsSafe(s: State, l: Label)
    requires Safe(s) && Enabled(s, l)
    ensures Safe(Step(s, l))
  {
    match l
    case Call(p, task, woken) => CallKeepsSafe(s, p, task, woken);
    case Retry(p, woken) =>
      assert s.workers.Keys != {} by { assert p in s.producers.Keys; }
      AttemptKeepsSafe(s, p, s.producers[p].task, woken);
    case Take(w, woken) => TakeKeepsSafe(s, w, woken);
    case SpuriousProducer(p) => ProducerMoves(s, p, AwakeFull(s.producers[p].task));
    case Stop => StopMoves(s);
    case _ => MoveKeepsSafe(s, l);
  }

  lemma StepKeepsInv(s: State, l: Label)
    requires Inv(s) && Enabled(s, l)
    ensures Inv(Step(s, l))
  {
    StepKeepsSafe(s, l);
    OnlyStopExits(s, l);
    HeldUpStaysRunning(s, l);
  }

  lemma HeldUpStaysRunning(s: State, l: Label)
    requires CallsFromTasks(s) && Enabled(s, l)
    ensures CallsFromTasks(Step(s, l))
  {
  }

  lemma OnlyStopExits(s: State, l: Label)
    requires NobodyExitsRunning(s) && Enabled(s, l)
    ensures NobodyExitsRunning(Step(s, l))
  {
  }

  /** In every reachable state tasks are conserved in order, the bound holds and no wakeup is lost. */
  lemma {:induction false} Safety(s: State, ls: seq<Label>)
    requires Initial(s) && Legal(s, ls)
    ensures Inv(After(s, ls))
  {
    assert s.WaitingWorkers() == {} && s.WaitingProducers() == {};
    SafetyFrom(s, ls);
  }

  lemma {:induction false} SafetyFrom(s: State, ls: seq<Label>)
    requires Inv(s) && Legal(s, ls)
    ensures Inv(After(s, ls))
    decreases |ls|
  {
    if ls != [] {
      StepKeepsInv(s, ls[0]);
      SafetyFrom(Step(s, ls[0]), ls[1..]);
    }
  }

  /** The thread is blocked on notFull, nobody having signalled it. */
  predicate HeldUp(s: State, p: Tid) {
    p in s.producers && s.producers[p].WaitFull?
  }

  /** A worker that will look at the queue again: it neither waits, nor has exited, nor runs a task
      that is itself held up in run. */
  predicate OnItsWay(s: State, w: Tid) {
    w in s.workers && !s.workers[w].WaitEmpty? && !s.workers[w].Exited? && !HeldUp(s, w)
  }

  /** Every worker runs a task that is held up in run. */
  predicate AllHeldUp(s: State) {
    s.workers.Keys != {} && forall w :: w in s.workers ==> s.workers[w].Running? && HeldUp(s, w)
  }

  /** Hence while the pool runs a queued task has a worker on its way to it exactly when the workers'
      own tasks are not all held up in run, and a free slot never faces producers that are all asleep. */
  lemma NobodySleepsOnWork(s: State, ls: seq<Label>)
    requires Initial(s) && Legal(s, ls)
    ensures var t := After(s, ls);
            && (t.running && t.queue != [] ==> ((exists w :: OnItsWay(t, w)) <==> !AllHeldUp(t)))
            && (t.running && !t.IsFull() && t.producers != map[] ==>
                  exists p :: p in t.producers && !t.producers[p].WaitFull?)
  {
    Safety(s, ls);
    var t := After(s, ls);
    if t.running && t.queue != [] && !AllHeldUp(t) {
      SomebodyOnItsWay(t);
    }
    if t.running && !t.IsFull() && t.producers != map[] {
      var p :| p in t.producers;
      if t.producers[p].WaitFull? {
        assert p in t.WaitingProducers();
        assert t.AwakeProducers() != {};
        var q :| q in t.AwakeProducers();
      }
    }
  }

  lemma SomebodyOnItsWay(t: State)
    requires Inv(t) && t.running && t.queue != [] && !AllHeldUp(t)
    ensures exists w :: OnItsWay(t, w)
  {
    var w :| w in t.workers && !(t.workers[w].Running? && HeldUp(t, w));
    if t.workers[w].WaitEmpty? {
      assert w in t.WaitingWorkers();
      assert t.AwakeWorkers() != {};
      var v :| v in t.AwakeWorkers();
      assert OnItsWay(t, v);
    } else {
      assert OnItsWay(t, w);
    }
  }

  /* ---- Everything accepted gets done ---- */

  /** The workers at rank k or above. */
  function AtLeast(workers: map<Tid, Worker>, rank: Worker -> nat, k: nat): set<Tid> {
    set w | w in workers && rank(workers[w]) >= k
  }

  /** The sum of ranks up to three. */
  function RankSum(workers: map<Tid, Worker>, rank: Worker -> nat): nat {
    |AtLeast(workers, rank, 1)| + |AtLeast(workers, rank, 2)| + |AtLeast(workers, rank, 3)|
  }

  lemma AtLeastMoves(workers: map<Tid, Worker>, rank: Worker -> nat, w: Tid, x: Worker, k: nat)
    requires w in workers
    ensures |AtLeast(workers[w := x], rank, k)|
            == |AtLeast(workers, rank, k)|
               - (if rank(workers[w]) >= k then 1 else 0) + (if rank(x) >= k then 1 else 0)
  {
    var before, after := AtLeast(workers, rank, k), AtLeast(workers[w := x], rank, k);
    assert before - {w} == after - {w} by {
      assert forall v :: v in before - {w} <==> v in after - {w};
    }
    assert |before - {w}| == |before| - (if w in before then 1 else 0);
    assert |after - {w}| == |after| - (if w in after then 1 else 0);
  }

  lemma RankMoves(workers: map<Tid, Worker>, rank: Worker -> nat, w: Tid, x: Worker)
    requires w in workers && rank(workers[w]) <= 3 && rank(x) <= 3
    ensures RankSum(workers[w := x], rank) == RankSum(workers, rank) - rank(workers[w]) + rank(x)
  {
    AtLeastMoves(workers, rank, w, x, 1);
    AtLeastMoves(workers, rank, w, x, 2);
    AtLeastMoves(workers, rank, w, x, 3);
  }

  /** How many steps a worker is from waiting again. */
  function Busy(x: Worker): nat {
    match x
    case Running(_) => 3
    case AtLoop => 2
    case Entering => 1
    case AwakeEmpty => 1
    case _ => 0
  }

  /** The steps that the tasks in hand and the threads on their way still need. */
  function Work(s: State): nat {
    RankSum(s.workers, Busy) + 4 * |s.queue| + 5 * |s.producers.Keys| + |s.AwakeProducers()|
  }

  /** Neither a new call nor stop. */
  predicate Quiet(l: Label) {
    !l.Call? && !l.Stop?
  }

  predicate Spurious(l: Label) {
    l.SpuriousWorker? || l.SpuriousProducer?
  }

  lemma TakeProgress(s: State, w: Tid, woken: Option<Tid>)
    requires s.running && Enabled(s, Take(w, woken))
    ensures Work(Step(s, Take(w, woken))) < Work(s)
  {
    if s.queue == [] {
      RankMoves(s.workers, Busy, w, WaitEmpty);
    } else {
      var s1 := Popped(s, w);
      RankMoves(s.workers, Busy, w, Running(s.queue[0]));
      if woken.Some? {
        var p := woken.value;
        ProducerMoves(s1, p, AwakeFull(s1.producers[p].task));
        assert WakeProducer(s1, woken).producers.Keys == s1.producers.Keys;
      }
    }
  }

  lemma RetryProgress(s: State, p: Tid, woken: Option<Tid>)
    requires s.running && Enabled(s, Retry(p, woken))
    ensures Work(Step(s, Retry(p, woken))) < Work(s)
  {
    var task := s.producers[p].task;
    assert p in s.AwakeProducers();
    if s.IsFull() {
      ProducerMoves(s, p, WaitFull(task));
      assert Step(s, Retry(p, woken)).producers.Keys == s.producers.Keys;
    } else {
      PushProgress(s, p, task);
      if woken.Some? {
        RankMoves(s.workers, Busy, woken.value, AwakeEmpty);
      }
    }
  }

  lemma PushProgress(s: State, p: Tid, task: Task)
    requires p in s.AwakeProducers()
    ensures Work(Pushed(s, p, task)) == Work(s) - 2
  {
    ProducerLeaves(s, p);
    assert Pushed(s, p, task).producers.Keys == s.producers.Keys - {p};
  }

  lemma MoveProgress(s: State, l: Label)
    requires s.running && Enabled(s, l) && Quiet(l) && !l.Take? && !l.Retry?
    ensures if Spurious(l) then Work(Step(s, l)) == Work(s) + 1 else Work(Step(s, l)) < Work(s)
  {
    match l
    case Check(w) => RankMoves(s.workers, Busy, w, Entering);
    case Finish(w) => RankMoves(s.workers, Busy, w, AtLoop);
    case SpuriousWorker(w) => RankMoves(s.workers, Busy, w, AwakeEmpty);
    case SpuriousProducer(p) =>
      ProducerMoves(s, p, AwakeFull(s.producers[p].task));
      assert Step(s, l).producers.Keys == s.producers.Keys;
  }

  /** While the pool runs every step but a call, stop or a spurious wakeup makes the work in hand
      smaller, and a spurious wakeup adds one step to it. */
  lemma QuietProgress(s: State, l: Label)
    requires s.running && Enabled(s, l) && Quiet(l)
    ensures if Spurious(l) then Work(Step(s, l)) == Work(s) + 1 else Work(Step(s, l)) < Work(s)
  {
    match l
    case Take(w, woken) => TakeProgress(s, w, woken);
    case Retry(p, woken) => RetryProgress(s, p, woken);
    case _ => MoveProgress(s, l);
  }

  function SpuriousIn(ls: seq<Label>): nat {
    if ls == [] then 0 else (if Spurious(ls[0]) then 1 else 0) + SpuriousIn(ls[1..])
  }

  /** So without calls and stop a run ends: its length is bounded by the work in hand and
      the number of spurious wakeups. */
  lemma {:induction false} QuietRunsEnd(s: State, ls: seq<Label>)
    requires s.running && Legal(s, ls) && forall l :: l in ls ==> Quiet(l)
    ensures After(s, ls).running
    ensures |ls| + Work(After(s, ls)) <= Work(s) + 2 * SpuriousIn(ls)
    decreases |ls|
  {
    if ls != [] {
      QuietProgress(s, ls[0]);
      QuietRunsEnd(Step(s, ls[0]), ls[1..]);
    }
  }

  /** No step but calls, stop and spurious wakeups is left. */
  ghost predicate OutOfSteps(s: State) {
    forall l :: Enabled(s, l) ==> !Quiet(l) || Spurious(l)
  }

  /** Every accepted task has been taken and has returned, nobody is held up in run, all workers wait. */
  predicate AllDone(s: State) {
    && s.queue == [] && s.taken == s.accepted && s.producers.Keys == {}
    && forall w :: w in s.workers ==> s.workers[w].WaitEmpty?
  }

  /** And when the pool is out of steps all is done, unless every worker runs a task that is held up
      in run on the full queue. */
  lemma QuietDone(s: State)
    requires Inv(s) && s.running && OutOfSteps(s)
    ensures AllDone(s) <==> !AllHeldUp(s)
    ensures AllHeldUp(s) ==> s.IsFull() && s.queue != []
  {
    EverybodyWaits(s);
    assert s.AwakeWorkers() == {} && s.AwakeProducers() == {} && s.producers.Keys == s.WaitingProducers();
    if s.workers.Keys != {} {
      var w :| w in s.workers.Keys;
      if AllHeldUp(s) {
        assert w in s.WaitingProducers();
      } else {
        var v :| v in s.workers && !(s.workers[v].Running? && HeldUp(s, v));
        assert v in s.WaitingWorkers();
      }
    }
  }

  lemma EverybodyWaits(s: State)
    requires Inv(s) && s.running && OutOfSteps(s)
    ensures forall w :: w in s.workers ==> s.workers[w].WaitEmpty? || (s.workers[w].Running? && HeldUp(s, w))
    ensures forall p :: p in s.producers ==> s.producers[p].WaitFull?
  {
    forall p | p in s.producers
      ensures s.producers[p].WaitFull?
    {
      var woken := if s.IsFull() then None else Pick(s.WaitingWorkers());
      assert !Enabled(s, Retry(p, woken));
    }
    forall w | w in s.workers
      ensures s.workers[w].WaitEmpty? || (s.workers[w].Running? && HeldUp(s, w))
    {
      var woken := if s.queue == [] || s.maxQueueSize == 0 then None else Pick(s.WaitingProducers());
      assert !Enabled(s, Check(w)) && !Enabled(s, Finish(w)) && !Enabled(s, Take(w, woken));
    }
  }

  /** The queue is full and every worker is inside its own task's call of run. */
  predicate Deadlocked(s: State) {
    && s.running && s.IsFull() && s.workers.Keys != {}
    && forall w :: w in s.workers ==> s.workers[w].Running? && w in s.producers
  }

  lemma DeadlockedStep(s: State, l: Label)
    requires Deadlocked(s) && Enabled(s, l) && l != Stop
    ensures var t := Step(s, l);
            Deadlocked(t) && t.queue == s.queue && t.taken == s.taken && t.workers == s.workers
  {
    assert s.WaitingWorkers() == {};
  }

  /** Such a pool stays as it is, whatever the other threads do and whoever is awakened, until stop. */
  lemma {:induction false} DeadlockLasts(s: State, ls: seq<Label>)
    requires Deadlocked(s) && Legal(s, ls) && Stop !in ls
    ensures var t := After(s, ls);
            Deadlocked(t) && t.queue == s.queue && t.taken == s.taken && t.workers == s.workers
    decreases |ls|
  {
    if ls != [] {
      DeadlockedStep(s, ls[0]);
      DeadlockLasts(Step(s, ls[0]), ls[1..]);
    }
  }

  /** QuietDone's exception leads there. */
  lemma HeldUpIsDeadlock(s: State)
    requires Inv(s) && s.running && OutOfSteps(s) && AllHeldUp(s)
    ensures Deadlocked(s)
  {
    QuietDone(s);
  }

  predicate Goes(s: State, l: Label, t: State) {
    Enabled(s, l) && Step(s, l) == t
  }

  lemma Chain(s: State, l: Label, t: State, ls: seq<Label>)
    requires Goes(s, l, t) && Legal(t, ls)
    ensures Legal(s, [l] + ls) && After(s, [l] + ls) == After(t, ls)
  {
    assert ([l] + ls)[1..] == ls;
  }

  /** One worker, one slot. */
  function Small(queue: seq<Task>, producers: map<Tid, Producer>, worker: Worker,
                 accepted: seq<Task>, taken: seq<Task>): State {
    State(1, queue, true, producers, map[0 := worker], accepted, taken)
  }

  lemma SmallCallPushes(p: Tid, worker: Worker, task: Task, accepted: seq<Task>, taken: seq<Task>)
    requires p == 0 ==> worker.Running?
    requires !worker.WaitEmpty?
    ensures Goes(Small([], map[], worker, accepted, taken), Call(p, task, None),
                 Small([task], map[], worker, accepted + [task], taken))
  {
    var s := Small([], map[], worker, accepted, taken);
    assert s.WaitingWorkers() == {};
    assert s.workers.Keys == {0};
    assert s.producers - {p} == map[];
  }

  lemma SmallTakes(task: Task)
    ensures Goes(Small([task], map[], AtLoop, [task], []), Check(0), Small([task], map[], Entering, [task], []))
    ensures Goes(Small([task], map[], Entering, [task], []), Take(0, None),
                 Small([], map[], Running(task), [task], [task]))
  {
    var s := Small([task], map[], Entering, [task], []);
    assert s.WaitingProducers() == {};
  }

  lemma SmallHeldUp(task: Task, x: Task, y: Task)
    ensures var s := Small([x], map[], Running(task), [task, x], [task]);
            var t := Small([x], map[0 := WaitFull(y)], Running(task), [task, x], [task]);
            Goes(s, Call(0, y, None), t) && AllHeldUp(t) && OutOfSteps(t)
  {
    var s := Small([x], map[], Running(task), [task, x], [task]);
    assert s.workers.Keys == {0};
    assert 0 in Step(s, Call(0, y, None)).workers.Keys;
  }

  /** And it is reachable: one worker, one slot, and a task that calls run twice. */
  lemma WorkersCanDeadlock() returns (s: State, ls: seq<Label>)
    ensures Initial(s) && |s.workers| == 1 && s.maxQueueSize == 1 && Legal(s, ls) && |ls| == 5
    ensures AllHeldUp(After(s, ls)) && OutOfSteps(After(s, ls))
  {
    s := Small([], map[], AtLoop, [], []);
    var s1 := Small([7], map[], AtLoop, [7], []);
    var s2 := Small([7], map[], Entering, [7], []);
    var s3 := Small([], map[], Running(7), [7], [7]);
    var s4 := Small([8], map[], Running(7), [7, 8], [7]);
    var s5 := Small([8], map[0 := WaitFull(9)], Running(7), [7, 8], [7]);
    SmallCallPushes(1, AtLoop, 7, [], []);
    SmallTakes(7);
    SmallCallPushes(0, Running(7), 8, [7], [7]);
    SmallHeldUp(7, 8, 9);
    Chain(s4, Call(0, 9, None), s5, []);
    Chain(s3, Call(0, 8, None), s4, [Call(0, 9, None)]);
    Chain(s2, Take(0, None), s3, [Call(0, 8, None)] + [Call(0, 9, None)]);
    Chain(s1, Check(0), s2, [Take(0, None)] + ([Call(0, 8, None)] + [Call(0, 9, None)]));
    ls := [Check(0)] + ([Take(0, None)] + ([Call(0, 8, None)] + [Call(0, 9, None)]));
    Chain(s, Call(1, 7, None), s1, ls);
    ls := [Call(1, 7, None)] + ls;
  }

  ghost function Pick(waiting: set<Tid>): (woken: Option<Tid>)
    ensures Picks(woken, waiting)
  {
    if waiting == {} then None else var t :| t in waiting; Some(t)
  }

  /** Any thread that waits may be awakened without a signal, at any time. */
  lemma AnyWaiterMayWake(s: State, t: Tid)
    ensures t in s.workers && s.workers[t].WaitEmpty? ==>
              && Enabled(s, SpuriousWorker(t))
              && Step(s, SpuriousWorker(t)) == s.(workers := s.workers[t := AwakeEmpty])
    ensures t in s.producers && s.producers[t].WaitFull? ==>
              && Enabled(s, SpuriousProducer(t))
              && Step(s, SpuriousProducer(t))
                 == s.(producers := s.producers[t := AwakeFull(s.producers[t].task)])
  {
  }

  /* ---- What a call does ---- */

  /** The task a step accepts: a call, or an awakened caller, gets through in a pool without workers,
      or while the pool runs and there is room. */
  function Accepts(s: State, l: Label): seq<Task> {
    var room := s.running && (s.maxQueueSize == 0 || |s.queue| < s.maxQueueSize);
    match l
    case Call(_, task, _) => if s.workers.Keys == {} || room then [task] else []
    case Retry(p, _) => if p in s.producers && room then [s.producers[p].task] else []
    case _ => []
  }

  /** The task a step takes: the front of the queue, running or not, or a call's own without workers. */
  function Takes(s: State, l: Label): seq<Task> {
    match l
    case Call(_, task, _) => if s.workers.Keys == {} then [task] else []
    case Take(_, _) => if s.queue != [] then [s.queue[0]] else []
    case _ => []
  }

  function AcceptedIn(s: State, ls: seq<Label>): seq<Task>
    requires Legal(s, ls)
    decreases |ls|
  {
    if ls == [] then [] else Accepts(s, ls[0]) + AcceptedIn(Step(s, ls[0]), ls[1..])
  }

  function TakenIn(s: State, ls: seq<Label>): seq<Task>
    requires Legal(s, ls)
    decreases |ls|
  {
    if ls == [] then [] else Takes(s, ls[0]) + TakenIn(Step(s, ls[0]), ls[1..])
  }

  lemma StepAccepts(s: State, l: Label)
    requires Enabled(s, l)
    ensures Step(s, l).accepted == s.accepted + Accepts(s, l)
    ensures Step(s, l).taken == s.taken + Takes(s, l)
  {
  }

  lemma Assoc(a: seq<Task>, b: seq<Task>, c: seq<Task>)
    ensures (a + b) + c == a + (b + c)
  {
  }

  /** In every run the accepted tasks are exactly those of the calls and retries that get through, and
      the taken ones those that workers pop or that a pool without workers runs inline, in order. */
  lemma {:induction false} AcceptedAndTaken(s: State, ls: seq<Label>)
    requires Legal(s, ls)
    ensures After(s, ls).accepted == s.accepted + AcceptedIn(s, ls)
    ensures After(s, ls).taken == s.taken + TakenIn(s, ls)
    decreases |ls|
  {
    if ls != [] {
      var t := Step(s, ls[0]);
      StepAccepts(s, ls[0]);
      AcceptedAndTaken(t, ls[1..]);
      Assoc(s.accepted, Accepts(s, ls[0]), AcceptedIn(t, ls[1..]));
      Assoc(s.taken, Takes(s, ls[0]), TakenIn(t, ls[1..]));
    }
  }

  /** The flag is down exactly after a stop. */
  lemma {:induction false} RunningUntilStop(s: State, ls: seq<Label>)
    requires Legal(s, ls)
    ensures After(s, ls).running <==> s.running && Stop !in ls
    decreases |ls|
  {
    if ls != [] {
      RunningUntilStop(Step(s, ls[0]), ls[1..]);
    }
  }

  function CallsIn(ls: seq<Label>): nat {
    if ls == [] then 0 else (if ls[0].Call? then 1 else 0) + CallsIn(ls[1..])
  }

  function FinishesIn(ls: seq<Label>): nat {
    if ls == [] then 0 else (if ls[0].Finish? then 1 else 0) + FinishesIn(ls[1..])
  }

  /** The workers that run a task. */
  function RunningWorkers(s: State): set<Tid> {
    AtLeast(s.workers, Busy, 3)
  }

  /** While the pool runs every call's task is accepted or still held by its caller. */
  lemma {:induction false} NoCallIsDropped(s: State, ls: seq<Label>)
    requires Legal(s, ls) && s.running && Stop !in ls
    ensures var t := After(s, ls);
            |t.accepted| + |t.producers.Keys| == |s.accepted| + |s.producers.Keys| + CallsIn(ls)
    decreases |ls|
  {
    if ls != [] {
      CallStep(s, ls[0]);
      NoCallIsDropped(Step(s, ls[0]), ls[1..]);
    }
  }

  lemma CallStep(s: State, l: Label)
    requires Enabled(s, l) && s.running && l != Stop
    ensures var t := Step(s, l);
            && t.running
            && |t.accepted| + |t.producers.Keys|
               == |s.accepted| + |s.producers.Keys| + (if l.Call? then 1 else 0)
  {
    StepAccepts(s, l);
    CallersMove(s, l);
  }

  /** Who is inside run after a step. */
  lemma CallersMove(s: State, l: Label)
    requires Enabled(s, l) && s.running && l != Stop
    ensures Step(s, l).producers.Keys
            == if l.Call? && s.workers.Keys != {} && s.IsFull() then s.producers.Keys + {l.p}
               else if l.Retry? && !s.IsFull() then s.producers.Keys - {l.p}
               else s.producers.Keys
  {
  }

  /** Every task a worker takes is run by it: it is running or has returned. */
  lemma {:induction false} TakenIsRun(s: State, ls: seq<Label>)
    requires Legal(s, ls) && s.workers.Keys != {}
    ensures var t := After(s, ls);
            |t.taken| + |RunningWorkers(s)| == |s.taken| + |RunningWorkers(t)| + FinishesIn(ls)
    decreases |ls|
  {
    if ls != [] {
      RunStep(s, ls[0]);
      TakenIsRun(Step(s, ls[0]), ls[1..]);
    }
  }

  lemma RunStep(s: State, l: Label)
    requires Enabled(s, l) && s.workers.Keys != {}
    ensures var t := Step(s, l);
            && t.workers.Keys != {}
            && |t.taken| + |RunningWorkers(s)|
               == |s.taken| + |RunningWorkers(t)| + (if l.Finish? then 1 else 0)
  {
    StepAccepts(s, l);
    KeysStay(s, l);
    match l
    case Take(w, _) => AtLeastMoves(s.workers, Busy, w, Step(s, l).workers[w], 3);
    case Finish(w) => AtLeastMoves(s.workers, Busy, w, AtLoop, 3);
    case _ => OthersKeepRunning(s, l);
  }

  lemma KeysStay(s: State, l: Label)
    requires Enabled(s, l)
    ensures Step(s, l).workers.Keys == s.workers.Keys
  {
  }

  lemma OthersKeepRunning(s: State, l: Label)
    requires Enabled(s, l) && !l.Take? && !l.Finish?
    ensures RunningWorkers(Step(s, l)) == RunningWorkers(s)
  {
    KeysStay(s, l);
  }

  /* ---- Whose task it is ---- */

  /** Whether the step starts a queued task on worker w. */
  predicate Starts(s: State, l: Label, w: Tid) {
    l.Take? && l.w == w && s.queue != []
  }

  /** The front of the queue when w last took a task, or x if it took none. */
  function LastStart(s: State, ls: seq<Label>, w: Tid, x: Task): Task
    requires Legal(s, ls)
    decreases |ls|
  {
    if ls == [] then x
    else LastStart(Step(s, ls[0]), ls[1..], w, if Starts(s, ls[0], w) then s.queue[0] else x)
  }

  /** The task p last called run with, or x if it has not called. */
  function LastCall(ls: seq<Label>, p: Tid, x: Task): Task
    decreases |ls|
  {
    if ls == [] then x else LastCall(ls[1..], p, if ls[0].Call? && ls[0].p == p then ls[0].task else x)
  }

  /** A worker runs the task it took from the front of the queue, whatever the others do meanwhile. */
  lemma {:induction false} WorkerRunsItsTask(s: State, ls: seq<Label>, w: Tid, x: Task)
    requires Legal(s, ls)
    requires w in s.workers && s.workers[w].Running? ==> s.workers[w].task == x
    ensures var t := After(s, ls);
            w in t.workers && t.workers[w].Running? ==> t.workers[w].task == LastStart(s, ls, w, x)
    decreases |ls|
  {
    if ls != [] {
      WorkerRunsItsTask(Step(s, ls[0]), ls[1..], w, if Starts(s, ls[0], w) then s.queue[0] else x);
    }
  }

  /** A thread held up in run holds, and will enqueue, the task of its own call, however often it is awakened. */
  lemma {:induction false} CallerKeepsItsTask(s: State, ls: seq<Label>, p: Tid, x: Task)
    requires Legal(s, ls)
    requires p in s.producers ==> s.producers[p].task == x
    ensures var t := After(s, ls);
            p in t.producers ==> t.producers[p].task == LastCall(ls, p, x)
    decreases |ls|
  {
    if ls != [] {
      CallerKeepsItsTask(Step(s, ls[0]), ls[1..], p, if ls[0].Call? && ls[0].p == p then ls[0].task else x);
    }
  }

  /* ---- Shutdown ---- */

  /** How many of its own steps a worker has left once the flag is down. */
  function Rank(x: Worker): nat {
    match x
    case Exited => 0
    case AtLoop => 1
    case Running(_) => 2
    case _ => 3
  }

  /** The same for a worker of the pool: a task held up in run has to leave it first. */
  function RankOf(s: State, w: Tid): nat
    requires w in s.workers
  {
    Rank(s.workers[w]) + (if w in s.producers then 1 else 0)
  }

  /** The thread whose step it is; a call leaves the pool as it is once the flag is down. */
  function Actor(l: Label): Option<Tid> {
    match l
    case Check(w) => Some(w)
    case Take(w, _) => Some(w)
    case Finish(w) => Some(w)
    case Retry(p, _) => Some(p)
    case _ => None
  }

  function StepsOf(w: Tid, ls: seq<Label>): nat {
    if ls == [] then 0 else (if Actor(ls[0]) == Some(w) then 1 else 0) + StepsOf(w, ls[1..])
  }

  function StartsOf(s: State, w: Tid, ls: seq<Label>): nat
    requires Legal(s, ls)
    decreases |ls|
  {
    if ls == [] then 0
    else (if Starts(s, ls[0], w) then 1 else 0) + StartsOf(Step(s, ls[0]), w, ls[1..])
  }

  /** One step after stop: the flag stays down, nothing is enqueued, nobody starts waiting, and only
      a worker's own steps move it, each time closer to its exit. */
  lemma StoppedStep(s: State, l: Label, w: Tid)
    requires Inv(s) && !s.running && Enabled(s, l) && w in s.workers
    ensures var t := Step(s, l);
            && !t.running && t.accepted == s.accepted && t.workers.Keys == s.workers.Keys
            && t.WaitingWorkers() == {} && t.WaitingProducers() == {}
            && (if Actor(l) == Some(w) then RankOf(t, w) < RankOf(s, w)
                else t.workers[w] == s.workers[w] && RankOf(t, w) == RankOf(s, w))
            && (Starts(s, l, w) ==> Rank(s.workers[w]) == 3 && Rank(t.workers[w]) < 3)
            && Rank(t.workers[w]) <= Rank(s.workers[w])
  {
    StepKeepsInv(s, l);
    assert w !in s.WaitingWorkers();
    assert l.Take? ==> s.WaitingProducers() == {};
  }

  /** After stop each worker takes at most three more steps, calls of run by its task aside, and starts
      at most one more task, and nothing is enqueued, whatever the other threads do. */
  lemma {:induction false} Shutdown(s: State, ls: seq<Label>, w: Tid)
    requires Inv(s) && !s.running && Legal(s, ls) && w in s.workers
    ensures var t := After(s, ls);
            && !t.running && t.accepted == s.accepted && w in t.workers
            && t.WaitingWorkers() == {} && t.WaitingProducers() == {}
            && StepsOf(w, ls) + RankOf(t, w) <= RankOf(s, w) <= 3
            && StartsOf(s, w, ls) <= (if Rank(s.workers[w]) == 3 then 1 else 0)
    decreases |ls|
  {
    if ls != [] {
      StoppedStep(s, ls[0], w);
      StepKeepsInv(s, ls[0]);
      Shutdown(Step(s, ls[0]), ls[1..], w);
    }
  }

  /** After stop a worker that has not exited can always move, and so can a thread held up in run:
      when neither can, all workers have exited and nobody is inside run. */
  lemma ShutdownNeverStuck(s: State)
    requires Inv(s) && !s.running
    requires forall l :: Enabled(s, l) ==> Actor(l).None?
    ensures s.producers.Keys == {} && forall w :: w in s.workers ==> s.workers[w].Exited?
  {
    StoppedCallersCanMove(s);
    assert forall p :: p in s.producers ==> Actor(Retry(p, None)).None?;
    forall w | w in s.workers
      ensures s.workers[w].Exited?
    {
      assert w !in s.WaitingWorkers();
      assert !Enabled(s, Check(w)) && !Enabled(s, Finish(w)) && !Enabled(s, Take(w, None)) by {
        assert Actor(Check(w)).Some? && Actor(Finish(w)).Some? && Actor(Take(w, None)).Some?;
      }
      assert TakePicks(s, None);
    }
  }

  lemma StoppedCallersCanMove(s: State)
    requires Inv(s) && !s.running
    ensures forall p :: p in s.producers ==> Enabled(s, Retry(p, None))
  {
    assert forall p :: p in s.producers ==> p !in s.WaitingProducers();
  }

  /** The steps all threads have left together: the workers' ranks, and one for each thread inside run. */
  function StepsLeft(s: State): nat {
    RankSum(s.workers, Rank) + |s.producers.Keys|
  }

  /** After stop every step of a worker or of a thread held up in run makes the measure smaller and no
      other step changes it; it is zero exactly when all workers have exited and nobody is inside run. */
  lemma ShutdownMeasure(s: State, l: Label)
    requires Inv(s) && !s.running && Enabled(s, l)
    ensures if Actor(l).Some? then StepsLeft(Step(s, l)) < StepsLeft(s) else StepsLeft(Step(s, l)) == StepsLeft(s)
    ensures StepsLeft(s) == 0 <==>
              s.producers.Keys == {} && forall w :: w in s.workers ==> s.workers[w].Exited?
  {
    AllExited(s);
    WorkersMove(s, l);
    ProducersMove(s, l);
    if Actor(l).Some? && !l.Retry? {
      var w := Actor(l).value;
      StoppedStep(s, l, w);
      RankMoves(s.workers, Rank, w, Step(s, l).workers[w]);
    }
  }

  /** After stop a step moves no worker but the one that takes it. */
  lemma WorkersMove(s: State, l: Label)
    requires Inv(s) && !s.running && Enabled(s, l)
    ensures var t := Step(s, l);
            if Actor(l).Some? && !l.Retry? then
              var w := Actor(l).value;
              w in s.workers && w in t.workers && t.workers == s.workers[w := t.workers[w]]
            else t.workers == s.workers
  {
    OthersStay(s, l);
  }

  /** And nobody enters run to stay, while a thread held up there leaves at its next step. */
  lemma ProducersMove(s: State, l: Label)
    requires Inv(s) && !s.running && Enabled(s, l)
    ensures Step(s, l).producers.Keys == if l.Retry? then s.producers.Keys - {l.p} else s.producers.Keys
  {
    assert l.Take? ==> s.WaitingProducers() == {};
  }

  /** The workers from which a task may yet start. */
  function MayStart(s: State): set<Tid> {
    AtLeast(s.workers, Rank, 3)
  }

  function Min(a: nat, b: nat): nat {
    if a < b then a else b
  }

  /** After stop all workers together start exactly as many of the queued tasks as there are workers
      inside take, once those have moved on; the tasks queued behind those are dropped. */
  lemma {:induction false} ShutdownTotal(s: State, ls: seq<Label>)
    requires Inv(s) && !s.running && s.workers.Keys != {} && Legal(s, ls)
    ensures var t := After(s, ls);
            && |t.taken| + Min(|t.queue|, |MayStart(t)|) == |s.taken| + Min(|s.queue|, |MayStart(s)|)
            && |t.taken| + |t.queue| == |s.taken| + |s.queue|
    decreases |ls|
  {
    if ls != [] {
      StepKeepsInv(s, ls[0]);
      StoppedTakes(s, ls[0]);
      ShutdownTotal(Step(s, ls[0]), ls[1..]);
    }
  }

  lemma StoppedTakes(s: State, l: Label)
    requires Inv(s) && !s.running && s.workers.Keys != {} && Enabled(s, l)
    ensures var t := Step(s, l);
            && !t.running && t.workers.Keys == s.workers.Keys
            && |t.taken| + Min(|t.queue|, |MayStart(t)|) == |s.taken| + Min(|s.queue|, |MayStart(s)|)
            && |t.taken| + |t.queue| == |s.taken| + |s.queue|
  {
    WorkersMove(s, l);
    OthersStay(s, l);
    var u :| u in s.workers.Keys;
    StoppedStep(s, l, u);
    StepAccepts(s, l);
    if Actor(l).Some? && !l.Retry? {
      var w := Actor(l).value;
      StoppedStep(s, l, w);
      AtLeastMoves(s.workers, Rank, w, Step(s, l).workers[w], 3);
      assert l.Take? ==> w in MayStart(s);
    }
  }

  lemma OthersStay(s: State, l: Label)
    requires Inv(s) && !s.running && Enabled(s, l)
    ensures var t := Step(s, l);
            t.workers.Keys == s.workers.Keys
            && forall v :: v in s.workers && (l.Retry? || Actor(l) != Some(v)) ==> t.workers[v] == s.workers[v]
  {
    if s.workers != map[] {
      var u :| u in s.workers;
      StoppedStep(s, l, u);
    }
    forall v | v in s.workers && !l.Retry? && Actor(l) != Some(v)
      ensures Step(s, l).workers[v] == s.workers[v]
    {
      StoppedStep(s, l, v);
    }
  }

  lemma AllExited(s: State)
    ensures RankSum(s.workers, Rank) == 0 <==> forall w :: w in s.workers ==> s.workers[w].Exited?
  {
    var ws := s.workers;
    assert AtLeast(ws, Rank, 2) <= AtLeast(ws, Rank, 1) && AtLeast(ws, Rank, 3) <= AtLeast(ws, Rank, 1);
    if RankSum(ws, Rank) == 0 {
      forall w | w in ws
        ensures ws[w].Exited?
      {
        assert w !in AtLeast(ws, Rank, 1);
      }
    } else {
      var w :| w in AtLeast(ws, Rank, 1);
      assert !ws[w].Exited?;
    }
  }

  /* ---- The pool object ---- */

  /** The pool's fields, with the places its threads are at; each method is one critical section. */
  class ThreadPool {
    const maxQueueSize: nat
    var queue: seq<Task>
    var running: bool
    var producers: map<Tid, Producer>
    var workers: map<Tid, Worker>
    ghost var accepted: seq<Task>
    ghost var taken: seq<Task>

    ghost function View(): State
      reads this
    {
      State(maxQueueSize, queue, running, producers, workers, accepted, taken)
    }

    /** setMaxQueueSize and start: the workers are at the top of runInThread's loop. */
    constructor (maxQueueSize: nat, threads: set<Tid>)
      ensures Initial(View()) && View().maxQueueSize == maxQueueSize && View().workers.Keys == threads
    {
      this.maxQueueSize := maxQueueSize;
      queue, running, producers := [], true, map[];
      workers := map w | w in threads :: AtLoop;
      accepted, taken := [], [];
    }

    method IsFull() returns (full: bool)
      ensures full == View().IsFull()
    {
      full := maxQueueSize > 0 && |queue| >= maxQueueSize;
    }

    method NotifyNotEmpty() returns (ghost woken: Option<Tid>)
      modifies this
      ensures Picks(woken, old(View()).WaitingWorkers()) && View() == WakeWorker(old(View()), woken)
    {
      var waiting := set w | w in workers && workers[w].WaitEmpty?;
      woken := None;
      if waiting != {} {
        var w :| w in waiting;
        workers := workers[w := AwakeEmpty];
        woken := Some(w);
      }
    }

    method NotifyNotFull() returns (ghost woken: Option<Tid>)
      modifies this
      ensures Picks(woken, old(View()).WaitingProducers())
      ensures woken.Some? ==> woken.value in old(View()).producers
      ensures View() == WakeProducer(old(View()), woken)
    {
      var waiting := set p | p in producers && producers[p].WaitFull?;
      woken := None;
      if waiting != {} {
        var p :| p in waiting;
        producers := producers[p := AwakeFull(producers[p].task)];
        woken := Some(p);
      }
    }

    /** run with the lock held, from the loop test on: p has just entered or just been awakened. */
    method RunLocked(p: Tid, task: Task) returns (ghost woken: Option<Tid>)
      modifies this
      requires p in producers ==> producers[p].AwakeFull?
      ensures AttemptPicks(old(View()), woken) && View() == Attempt(old(View()), p, task, woken)
    {
      woken := None;
      var full := IsFull();
      if full && running {
        producers := producers[p := WaitFull(task)];
        return;
      }
      producers := producers - {p};
      if !running {
        return;
      }
      var stillFull := IsFull();
      assert !stillFull;
      queue := queue + [task];
      accepted := accepted + [task];
      assert View().WaitingWorkers() == old(View()).WaitingWorkers();
      woken := NotifyNotEmpty();
    }

    method Run(p: Tid, task: Task) returns (ghost l: Label)
      requires p !in producers && (p in workers ==> workers[p].Running?)
      modifies this
      ensures Enabled(old(View()), l) && l.Call? && l.p == p && l.task == task
      ensures View() == Step(old(View()), l)
    {
      ghost var woken: Option<Tid> := None;
      if workers.Keys == {} {
        accepted, taken := accepted + [task], taken + [task];
      } else {
        woken := RunLocked(p, task);
      }
      l := Call(p, task, woken);
    }

    method RunAwakened(p: Tid) returns (ghost l: Label)
      requires p in producers && producers[p].AwakeFull?
      modifies this
      ensures Enabled(old(View()), l) && l.Retry? && l.p == p && View() == Step(old(View()), l)
    {
      ghost var woken := RunLocked(p, producers[p].task);
      l := Retry(p, woken);
    }

    /** take with the lock held, from the loop test on. */
    method Take(w: Tid) returns (ghost l: Label)
      requires w in workers && (workers[w].Entering? || workers[w].AwakeEmpty?)
      modifies this
      ensures Enabled(old(View()), l) && l.Take? && l.w == w && View() == Step(old(View()), l)
    {
      ghost var woken: Option<Tid> := None;
      if queue == [] && running {
        workers := workers[w := WaitEmpty];
      } else if queue != [] {
        var task := queue[0];
        queue := queue[1..];
        taken := taken + [task];
        workers := workers[w := Running(task)];
        if maxQueueSize > 0 {
          assert View().WaitingProducers() == old(View()).WaitingProducers();
          woken := NotifyNotFull();
        }
      } else {
        workers := workers[w := AtLoop];
      }
      l := Label.Take(w, woken);
    }

    method CheckRunning(w: Tid)
      requires w in workers && workers[w].AtLoop?
      modifies this
      ensures View() == Step(old(View()), Check(w))
    {
      workers := workers[w := if running then Entering else Exited];
    }

    method FinishTask(w: Tid)
      requires w in workers && workers[w].Running? && w !in producers
      modifies this
      ensures View() == Step(old(View()), Finish(w))
    {
      workers := workers[w := AtLoop];
    }

    /** The locked part of stop; joining the workers is what the shutdown lemmas are about. */
    method Stop()
      modifies this
      ensures View() == Step(old(View()), Label.Stop)
    {
      running := false;
      workers := map w | w in workers :: if workers[w].WaitEmpty? then AwakeEmpty else workers[w];
      producers := map p | p in producers :: AwakeFull(producers[p].task);
    }
  }
}
