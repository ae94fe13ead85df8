/** Cross-thread posting of Dispatcher.cpp as a protocol of atomic steps: any number of posting
    threads, one event loop, and the loop's pending flag for the post callback. */
module Posting {
  type Tid = nat
  type PostCb = nat

  /** A poster that found the list empty: about to ask enabled(), or about to activate the event. */
  datatype Poster = MustArm | Arming

  /** The loop: elsewhere, inside runPostCallbacks before the list is taken, or running a batch. */
  datatype Loop = Elsewhere | Entered | Batch(rest: seq<PostCb>)

  datatype State = State(
    postCallbacks: seq<PostCb>,
    pending: bool,
    loop: Loop,
    posters: map<Tid, Poster>,
    pushed: seq<PostCb>,       // everything ever posted, in order
    executed: seq<PostCb>,     // everything run so far, in order
    drained: nat)              // how many posts earlier batches and the current one took
  {
    function Rest(): seq<PostCb> {
      if loop.Batch? then loop.rest else []
    }
  }

  datatype Label =
    | Push(p: Tid, cb: PostCb)   // the locked part of post
    | AskEnabled(p: Tid)         // enabled() in scheduleCallbackCurrentIteration
    | Activate(p: Tid)           // event_active
    | Enter                      // Dispatcher::run calls runPostCallbacks before the loop starts
    | Fire                       // the loop clears the flag and calls the callback
    | TakeList                   // the locked part of runPostCallbacks
    | RunFront                   // one callback runs and is popped
    | EndBatch

  predicate Enabled(s: State, l: Label) {
    match l
    case Push(p, _) => p !in s.posters
    case AskEnabled(p) => p in s.posters && s.posters[p].MustArm?
    case Activate(p) => p in s.posters && s.posters[p].Arming?
    case Enter => s.loop.Elsewhere?
    case Fire => s.loop.Elsewhere? && s.pending
    case TakeList => s.loop.Entered?
    case RunFront => s.loop.Batch? && s.loop.rest != []
    case EndBatch => s.loop.Batch? && s.loop.rest == []
  }

  function Step(s: State, l: Label): State
    requires Enabled(s, l)
  {
    match l
    case Push(p, cb) =>
      s.(postCallbacks := s.postCallbacks + [cb], pushed := s.pushed + [cb],
         posters := if s.postCallbacks == [] then s.posters[p := MustArm] else s.posters)
    case AskEnabled(p) =>
      s.(posters := if s.pending then s.posters - {p} else s.posters[p := Arming])
    case Activate(p) => s.(pending := true, posters := s.posters - {p})
    case Enter => s.(loop := Entered)
    case Fire => s.(pending := false, loop := Entered)
    case TakeList => s.(loop := Batch(s.postCallbacks), postCallbacks := [],
                        drained := s.drained + |s.postCallbacks|)
    case RunFront => s.(loop := Batch(s.loop.rest[1..]), executed := s.executed + [s.loop.rest[0]])
    case EndBatch => s.(loop := Elsewhere)
  }

  predicate Initial(s: State) {
    s == State([], false, Elsewhere, map[], [], [], 0)
  }

  predicate Legal(s: State, ls: seq<Label>)
    decreases |ls|
  {
    ls != [] ==> Enabled(s, ls[0]) && Legal(Step(s, ls[0]), ls[1..])
  }

  function After(s: State, ls: seq<Label>): State
    requires Legal(s, ls)
    decreases |ls|
  {
    if ls == [] then s else After(Step(s, ls[0]), ls[1..])
  }

  /** Nothing lost, nothing reordered, nothing twice. */
  predicate Conserved(s: State) {
    s.pushed == s.executed + s.Rest() + s.postCallbacks && s.drained == |s.executed + s.Rest()|
  }

  /** A non-empty list is on its way to the loop: the callback is pending, or entered and not yet
      at the list, or a poster that saw the list empty has not finished arming. */
  predicate Armed(s: State) {
    s.postCallbacks != [] ==> s.pending || s.loop.Entered? || s.posters.Keys != {}
  }

  predicate Inv(s: State) {
    Conserved(s) && Armed(s)
  }

  lemma Assoc(a: seq<PostCb>, b: seq<PostCb>, c: seq<PostCb>)
    ensures (a + b) + c == a + (b + c)
  {
  }

  lemma FrontMoves(executed: seq<PostCb>, rest: seq<PostCb>)
    requires rest != []
    ensures executed + [rest[0]] + rest[1..] == executed + rest
  {
  }

  lemma StepConserves(s: State, l: Label)
    requires Conserved(s) && Enabled(s, l)
    ensures Conserved(Step(s, l))
  {
    match l
    case Push(p, cb) => Assoc(s.executed + s.Rest(), s.postCallbacks, [cb]);
    case RunFront => FrontMoves(s.executed, s.loop.rest);
    case TakeList => TakeConserves(s);
    case _ =>
  }

  lemma TakeConserves(s: State)
    requires Conserved(s) && s.loop.Entered?
    ensures Conserved(Step(s, TakeList))
  {
    var t := Step(s, TakeList);
    assert s.executed + s.Rest() == s.executed;
    assert t.executed + t.Rest() + t.postCallbacks == s.executed + s.postCallbacks;
  }

  lemma StepKeepsArmed(s: State, l: Label)
    requires Armed(s) && Enabled(s, l)
    ensures Armed(Step(s, l))
  {
    var t := Step(s, l);
    if l.Push? && s.postCallbacks == [] {
      assert l.p in t.posters.Keys;
    }
    if l.AskEnabled? && !s.pending {
      assert l.p in t.posters.Keys;
    }
  }

  lemma StepKeepsInv(s: State, l: Label)
    requires Inv(s) && Enabled(s, l)
    ensures Inv(Step(s, l))
  {
    StepConserves(s, l);
    StepKeepsArmed(s, l);
  }

  lemma {:induction false} InvFrom(s: State, ls: seq<Label>)
    requires Inv(s) && Legal(s, ls)
    ensures Inv(After(s, ls))
    decreases |ls|
  {
    if ls != [] {
      StepKeepsInv(s, ls[0]);
      InvFrom(Step(s, ls[0]), ls[1..]);
    }
  }

  /** In every interleaving every post is executed, in the current batch or in the list, exactly once
      and in push order, and a non-empty list is never forgotten. */
  lemma {:induction false} NoLostPosts(s: State, ls: seq<Label>)
    requires Initial(s) && Legal(s, ls)
    ensures Inv(After(s, ls))
  {
    InvFrom(s, ls);
  }

  /** The callbacks that the posts of a run bring, in order. */
  function Posts(ls: seq<Label>): seq<PostCb> {
    if ls == [] then [] else (if ls[0].Push? then [ls[0].cb] else []) + Posts(ls[1..])
  }

  /** Everything posted is pushed, in order, and nothing else is. */
  lemma {:induction false} PushedIsPosted(s: State, ls: seq<Label>)
    requires Legal(s, ls)
    ensures After(s, ls).pushed == s.pushed + Posts(ls)
    decreases |ls|
  {
    if ls != [] {
      var t := Step(s, ls[0]);
      PushedIsPosted(t, ls[1..]);
      Assoc(s.pushed, if ls[0].Push? then [ls[0].cb] else [], Posts(ls[1..]));
    }
  }

  /** How often a run takes the list, and how often posters ask whether the callback is pending. */
  function TakesIn(ls: seq<Label>): nat {
    if ls == [] then 0 else (if ls[0].TakeList? then 1 else 0) + TakesIn(ls[1..])
  }

  function AsksIn(ls: seq<Label>): nat {
    if ls == [] then 0 else (if ls[0].AskEnabled? then 1 else 0) + AsksIn(ls[1..])
  }

  /** The posters that have found the list empty and not asked yet, and the one that may next. */
  function MayAsk(s: State): nat {
    |MustArmers(s)| + (if s.postCallbacks == [] then 1 else 0)
  }

  /** The list is armed only by the post that finds it empty: at most once for each time it is taken. */
  lemma {:induction false} OneArmPerBatch(s: State, ls: seq<Label>)
    requires Legal(s, ls)
    ensures AsksIn(ls) + MayAsk(After(s, ls)) <= TakesIn(ls) + MayAsk(s)
    decreases |ls|
  {
    if ls != [] {
      AskStep(s, ls[0]);
      OneArmPerBatch(Step(s, ls[0]), ls[1..]);
    }
  }

  lemma AskStep(s: State, l: Label)
    requires Enabled(s, l)
    ensures (if l.AskEnabled? then 1 else 0) + MayAsk(Step(s, l))
            <= (if l.TakeList? then 1 else 0) + MayAsk(s)
  {
    var before, after := MustArmers(s), MustArmers(Step(s, l));
    match l
    case Push(p, cb) => assert after == if s.postCallbacks == [] then before + {p} else before;
    case AskEnabled(p) => assert after == before - {p} && p in before;
    case _ => assert after == before;
  }

  /** So once no poster is in the middle of post, a loop that is elsewhere has its callback pending
      for as long as anything is posted. */
  lemma NeverAsleepOnPosts(s: State, ls: seq<Label>)
    requires Initial(s) && Legal(s, ls)
    ensures var t := After(s, ls);
            t.postCallbacks != [] && t.posters.Keys == {} && t.loop.Elsewhere? ==> Enabled(t, Fire)
  {
    NoLostPosts(s, ls);
  }

  /** What has been executed only grows, along the order of posting. */
  lemma {:induction false} ExecutedGrows(s: State, ls: seq<Label>)
    requires Inv(s) && Legal(s, ls)
    ensures var t := After(s, ls);
            s.executed <= t.executed <= t.pushed && s.pushed <= t.pushed && s.drained <= t.drained
    decreases |ls|
  {
    if ls != [] {
      StepKeepsInv(s, ls[0]);
      ExecutedGrows(Step(s, ls[0]), ls[1..]);
    }
  }

  /** Posts made while a batch runs never run in that batch: until the list is taken again,
      only posts made before the batch began are executed. */
  lemma {:induction false} BatchIsolation(s: State, ls: seq<Label>)
    requires Inv(s) && Legal(s, ls) && TakeList !in ls
    ensures var t := After(s, ls);
            && t.drained == s.drained <= |s.pushed|
            && t.executed <= s.pushed[..s.drained] && s.pushed <= t.pushed
    decreases |ls|
  {
    ExecutedGrows(s, ls);
    InvFrom(s, ls);
    if ls != [] {
      StepKeepsInv(s, ls[0]);
      BatchIsolation(Step(s, ls[0]), ls[1..]);
    }
  }

  function MustArmers(s: State): set<Tid> {
    set p | p in s.posters && s.posters[p].MustArm?
  }

  /** The steps that the posts in hand still need, while nobody posts. */
  function Work(s: State): nat {
    2 * |s.Rest()| + 2 * |s.postCallbacks|
    + (match s.loop case Elsewhere => 0 case Entered => 2 case Batch(_) => 1)
    + (if s.pending then 3 else 0) + 4 * |s.posters.Keys| + |MustArmers(s)|
  }

  lemma AskProgress(s: State, p: Tid)
    requires Enabled(s, AskEnabled(p))
    ensures Work(Step(s, AskEnabled(p))) < Work(s)
  {
    var t := Step(s, AskEnabled(p));
    assert MustArmers(t) == MustArmers(s) - {p};
    assert p in MustArmers(s);
    assert t.posters.Keys == (if s.pending then s.posters.Keys - {p} else s.posters.Keys);
  }

  lemma ActivateProgress(s: State, p: Tid)
    requires Enabled(s, Activate(p))
    ensures Work(Step(s, Activate(p))) < Work(s)
  {
    var t := Step(s, Activate(p));
    assert t.posters.Keys == s.posters.Keys - {p} && p in s.posters.Keys;
    assert MustArmers(t) == MustArmers(s);
  }

  lemma LoopProgress(s: State, l: Label)
    requires Enabled(s, l) && (l.Fire? || l.TakeList? || l.RunFront? || l.EndBatch?)
    ensures Work(Step(s, l)) < Work(s)
  {
    assert MustArmers(Step(s, l)) == MustArmers(s);
  }

  /** Without new posts, every step but another Enter makes the work in hand smaller. */
  lemma QuietProgress(s: State, l: Label)
    requires Enabled(s, l) && !l.Push? && !l.Enter?
    ensures Work(Step(s, l)) < Work(s)
  {
    match l
    case AskEnabled(p) => AskProgress(s, p);
    case Activate(p) => ActivateProgress(s, p);
    case _ => LoopProgress(s, l);
  }

  /** And when no such step is left, everything posted has been executed, in order. */
  lemma QuietDone(s: State)
    requires Inv(s) && forall l :: Enabled(s, l) ==> l.Push? || l.Enter?
    ensures s.executed == s.pushed
  {
    assert !Enabled(s, TakeList) && !Enabled(s, RunFront) && !Enabled(s, EndBatch) && !Enabled(s, Fire);
    assert forall p :: p in s.posters ==> Enabled(s, AskEnabled(p)) || Enabled(s, Activate(p));
    assert s.loop.Elsewhere?;
    assert s.postCallbacks == [];
  }

  /* ---- The dispatcher's posting half; each method is one atomic section ---- */

  class PostQueue {
    var postCallbacks: seq<PostCb>
    var pending: bool
    var loop: Loop
    var posters: map<Tid, Poster>
    ghost var pushed: seq<PostCb>
    ghost var executed: seq<PostCb>
    ghost var drained: nat

    ghost function View(): State
      reads this
    {
      State(postCallbacks, pending, loop, posters, pushed, executed, drained)
    }

    constructor ()
      ensures Initial(View())
    {
      postCallbacks, pending, loop, posters := [], false, Elsewhere, map[];
      pushed, executed, drained := [], [], 0;
    }

    method Post(p: Tid, callback: PostCb)
      requires p !in posters
      modifies this
      ensures View() == Step(old(View()), Push(p, callback))
    {
      var doPost := postCallbacks == [];
      postCallbacks := postCallbacks + [callback];
      pushed := pushed + [callback];
      if doPost {
        posters := posters[p := MustArm];
      }
    }

    method ScheduleCallbackCurrentIteration(p: Tid)
      requires p in posters && posters[p].MustArm?
      modifies this
      ensures View() == Step(old(View()), AskEnabled(p))
    {
      if pending {
        posters := posters - {p};
        return;
      }
      posters := posters[p := Arming];
    }

    method EventActive(p: Tid)
      requires p in posters && posters[p].Arming?
      modifies this
      ensures View() == Step(old(View()), Activate(p))
    {
      pending := true;
      posters := posters - {p};
    }

    /** run enters runPostCallbacks before the loop starts. */
    method EnterFromRun()
      requires loop.Elsewhere?
      modifies this
      ensures View() == Step(old(View()), Enter)
    {
      loop := Entered;
    }

    method FireCallback()
      requires loop.Elsewhere? && pending
      modifies this
      ensures View() == Step(old(View()), Fire)
    {
      pending := false;
      loop := Entered;
    }

    /** The locked move at the start of runPostCallbacks. */
    method TakeCallbacks()
      requires loop.Entered?
      modifies this
      ensures View() == Step(old(View()), TakeList)
    {
      drained := drained + |postCallbacks|;
      loop := Batch(postCallbacks);
      postCallbacks := [];
    }

    /** One turn of runPostCallbacks' loop. */
    method RunFrontCallback()
      requires loop.Batch? && loop.rest != []
      modifies this
      ensures View() == Step(old(View()), RunFront)
    {
      executed := executed + [loop.rest[0]];
      loop := Batch(loop.rest[1..]);
    }

    /** runPostCallbacks returns. */
    method FinishBatch()
      requires loop.Batch? && loop.rest == []
      modifies this
      ensures View() == Step(old(View()), EndBatch)
    {
      loop := Elsewhere;
    }
  }
}
