/** Deferred deletion of Dispatcher.cpp: two vectors, one filled while the other is being destroyed,
    by objects whose destructors may submit more objects or ask for another clear. */
module DeferredDeletion {
  import opened Scheduling
  import opened Wrappers

  /** An object with what its destructor does; deferredRun wraps a closure in such an object. */
  datatype Obj = Obj(id: nat, onDestroy: seq<Action>)

  datatype Action = Submit(obj: Obj) | SubmitNull | Clear

  /** The objects a destructor submits; null pointers are ignored. */
  function Submissions(script: seq<Action>): seq<Obj> {
    if script == [] then []
    else (if script[0].Submit? then [script[0].obj] else []) + Submissions(script[1..])
  }

  /** What destroying a list of objects, first to last, submits. */
  function NextLevel(objs: seq<Obj>): seq<Obj> {
    if objs == [] then [] else Submissions(objs[0].onDestroy) + NextLevel(objs[1..])
  }

  /** Every object of a spawn tree, once. */
  ghost function TreeNodes(o: Obj): multiset<Obj>
    decreases o
  {
    multiset{o} + ScriptNodes(o.onDestroy)
  }

  ghost function ScriptNodes(script: seq<Action>): multiset<Obj>
    decreases script
  {
    if script == [] then multiset{}
    else ActionNodes(script[0]) + ScriptNodes(script[1..])
  }

  ghost function ActionNodes(a: Action): multiset<Obj>
    decreases a
  {
    match a
    case Submit(o) => TreeNodes(o)
    case _ => multiset{}
  }

  /** Every object of a spawn forest, once. */
  ghost function Nodes(objs: seq<Obj>): multiset<Obj> {
    if objs == [] then multiset{} else TreeNodes(objs[0]) + Nodes(objs[1..])
  }

  lemma {:induction false} NodesOfSubmissions(script: seq<Action>)
    ensures ScriptNodes(script) == Nodes(Submissions(script))
    decreases script
  {
    if script != [] {
      NodesOfSubmissions(script[1..]);
      if script[0].Submit? {
        assert Submissions(script)[1..] == Submissions(script[1..]);
      } else {
        assert Submissions(script) == Submissions(script[1..]);
      }
    }
  }

  lemma {:induction false} NodesConcat(xs: seq<Obj>, ys: seq<Obj>)
    ensures Nodes(xs + ys) == Nodes(xs) + Nodes(ys)
  {
    if xs == [] {
      assert xs + ys == ys;
    } else {
      assert (xs + ys)[1..] == xs[1..] + ys;
      NodesConcat(xs[1..], ys);
    }
  }

  /** A forest is its roots and what the roots spawn. */
  lemma {:induction false} NodesByLevel(objs: seq<Obj>)
    ensures Nodes(objs) == multiset(objs) + Nodes(NextLevel(objs))
  {
    if objs != [] {
      NodesByLevel(objs[1..]);
      NodesOfSubmissions(objs[0].onDestroy);
      NodesConcat(Submissions(objs[0].onDestroy), NextLevel(objs[1..]));
      assert objs == [objs[0]] + objs[1..];
      assert multiset(objs) == multiset{objs[0]} + multiset(objs[1..]);
    }
  }

  /** Generation after generation. */
  ghost function BreadthFirst(objs: seq<Obj>): seq<Obj>
    decreases |Nodes(objs)|
  {
    if objs == [] then []
    else
      NodesByLevel(objs);
      assert |multiset(objs)| == |objs|;
      objs + BreadthFirst(NextLevel(objs))
  }

  /** The number of generations. */
  ghost function Depth(objs: seq<Obj>): nat
    decreases |Nodes(objs)|
  {
    if objs == [] then 0
    else
      NodesByLevel(objs);
      assert |multiset(objs)| == |objs|;
      1 + Depth(NextLevel(objs))
  }

  lemma Unroll(objs: seq<Obj>)
    requires objs != []
    ensures |Nodes(NextLevel(objs))| < |Nodes(objs)|
    ensures BreadthFirst(objs) == objs + BreadthFirst(NextLevel(objs))
    ensures Depth(objs) == 1 + Depth(NextLevel(objs))
  {
    NodesByLevel(objs);
    assert |multiset(objs)| == |objs|;
  }

  /** Breadth first visits every object of the forest exactly once. */
  lemma {:induction false} BreadthFirstIsComplete(objs: seq<Obj>)
    ensures multiset(BreadthFirst(objs)) == Nodes(objs)
    decreases |Nodes(objs)|
  {
    if objs != [] {
      NodesByLevel(objs);
      assert |multiset(objs)| == |objs|;
      BreadthFirstIsComplete(NextLevel(objs));
      assert multiset(objs + BreadthFirst(NextLevel(objs)))
             == multiset(objs) + multiset(BreadthFirst(NextLevel(objs)));
    }
  }

  lemma Assoc(a: seq<Obj>, b: seq<Obj>, c: seq<Obj>)
    ensures (a + b) + c == a + (b + c)
  {
  }

  /** The objects a vector of pointers still owns. */
  function Owned(v: seq<Option<Obj>>): seq<Obj> {
    if v == [] then [] else (if v[0].Some? then [v[0].value] else []) + Owned(v[1..])
  }

  lemma {:induction false} OwnedAppend(v: seq<Option<Obj>>, o: Obj)
    ensures Owned(v + [Some(o)]) == Owned(v) + [o]
  {
    if v != [] {
      OwnedAppend(v[1..], o);
      assert (v + [Some(o)])[1..] == v[1..] + [Some(o)];
    }
  }

  /** Resetting the first pointer that is left gives up its object and keeps the rest. */
  lemma {:induction false} OwnedReset(v: seq<Option<Obj>>, i: nat)
    requires i < |v| && v[i].Some? && forall j :: 0 <= j < i ==> v[j].None?
    ensures Owned(v) == [v[i].value] + Owned(v[i := None])
  {
    if i > 0 {
      OwnedReset(v[1..], i - 1);
      assert v[i := None][1..] == v[1..][i - 1 := None];
    } else {
      assert v[0 := None][1..] == v[1..];
    }
  }

  lemma {:induction false} NothingOwned(v: seq<Option<Obj>>)
    requires forall j :: 0 <= j < |v| ==> v[j].None?
    ensures Owned(v) == []
  {
    if v != [] {
      NothingOwned(v[1..]);
    }
  }

  lemma {:induction false} AllOwned(v: seq<Option<Obj>>)
    requires forall j :: 0 <= j < |v| ==> v[j].Some?
    ensures |Owned(v)| == |v| && forall j :: 0 <= j < |v| ==> Owned(v)[j] == v[j].value
  {
    if v != [] {
      AllOwned(v[1..]);
    }
  }

  /** The first i pointers of a vector have been reset, the others still own their objects. */
  ghost predicate ResetUpTo(v: seq<Option<Obj>>, batch: seq<Obj>, i: nat) {
    && i <= |v| == |batch|
    && (forall j :: 0 <= j < i ==> v[j].None?)
    && (forall j :: i <= j < |v| ==> v[j] == Some(batch[j]))
  }

  lemma ResetNext(v: seq<Option<Obj>>, batch: seq<Obj>, i: nat)
    requires ResetUpTo(v, batch, i) && i < |v|
    ensures ResetUpTo(v[i := None], batch, i + 1)
  {
  }

  lemma {:induction false} SubmissionsConcat(script: seq<Action>, more: seq<Action>)
    ensures Submissions(script + more) == Submissions(script) + Submissions(more)
  {
    if script == [] {
      assert script + more == more;
    } else {
      SubmissionsConcat(script[1..], more);
      assert (script + more)[1..] == script[1..] + more;
      Assoc(if script[0].Submit? then [script[0].obj] else [], Submissions(script[1..]), Submissions(more));
    }
  }

  /** A destructor's submissions are those of its actions, in order: the object of a submission,
      and nothing for a null pointer or a clear. */
  lemma SubmissionsInOrder(script: seq<Action>, more: seq<Action>, o: Obj)
    ensures Submissions(script + more) == Submissions(script) + Submissions(more)
    ensures Submissions([Submit(o)]) == [o] && Submissions([SubmitNull]) == [] && Submissions([Clear]) == []
  {
    SubmissionsConcat(script, more);
  }

  /** What a list of objects submits is what each submits, in order. */
  lemma {:induction false} LevelInOrder(objs: seq<Obj>, more: seq<Obj>, o: Obj)
    ensures NextLevel(objs + more) == NextLevel(objs) + NextLevel(more)
    ensures NextLevel([o]) == Submissions(o.onDestroy)
  {
    if objs == [] {
      assert objs + more == more;
    } else {
      LevelInOrder(objs[1..], more, o);
      assert (objs + more)[1..] == objs[1..] + more;
      Assoc(Submissions(objs[0].onDestroy), NextLevel(objs[1..]), NextLevel(more));
    }
  }

  /** What one more object destroyed adds behind what was there. */
  lemma PrefixNext(batch: seq<Obj>, i: nat, destroyed: seq<Obj>, submitted: seq<Obj>, owned: seq<Obj>)
    requires i < |batch|
    ensures var spawned, more := NextLevel(batch[..i]), Submissions(batch[i].onDestroy);
            var spawned' := NextLevel(batch[..i + 1]);
            && destroyed + batch[..i] + [batch[i]] == destroyed + batch[..i + 1]
            && submitted + spawned + more == submitted + spawned'
            && owned + spawned + more == owned + spawned'
            && (spawned' == [] <==> spawned == [] && more == [])
  {
    assert batch[..i + 1] == batch[..i] + [batch[i]];
    LevelInOrder(batch[..i], [batch[i]], batch[i]);
  }

  class Dispatcher {
    const deferredDeleteCb: SchedulableCallback
    var toDelete1: seq<Option<Obj>>
    var toDelete2: seq<Option<Obj>>
    var firstIsCurrent: bool
    var deferredDeleting: bool
    ghost var submitted: seq<Obj>
    ghost var destroyed: seq<Obj>

    function Current(): seq<Option<Obj>>
      reads this
    {
      if firstIsCurrent then toDelete1 else toDelete2
    }

    function Other(): seq<Option<Obj>>
      reads this
    {
      if firstIsCurrent then toDelete2 else toDelete1
    }

    /** Objects are destroyed in submission order, and those not yet destroyed sit first in the vector
        being cleared, then in the current one; outside a deletion the other vector is empty. */
    ghost predicate Ordered()
      reads this
    {
      && submitted == destroyed + Owned(Other()) + Owned(Current())
      && (forall j :: 0 <= j < |Current()| ==> Current()[j].Some?)
      && (!deferredDeleting ==> Other() == [])
    }

    /** What holds whenever user code runs: besides, a non-empty current vector has its callback pending. */
    ghost predicate Valid()
      reads this, deferredDeleteCb
    {
      Ordered() && (Current() != [] ==> deferredDeleteCb.pending)
    }

    constructor ()
      ensures Valid() && Current() == [] && !deferredDeleting && !deferredDeleteCb.pending
      ensures submitted == [] && destroyed == [] && fresh(deferredDeleteCb)
    {
      deferredDeleteCb := new SchedulableCallback();
      toDelete1, toDelete2, firstIsCurrent, deferredDeleting := [], [], true, false;
      submitted, destroyed := [], [];
      new;
      assert Owned(Other()) == [] && Owned(Current()) == [];
    }

    method DeferredDelete(toDelete: Option<Obj>)
      requires Valid()
      modifies this, deferredDeleteCb
      ensures Valid() && Other() == old(Other()) && deferredDeleting == old(deferredDeleting)
      ensures firstIsCurrent == old(firstIsCurrent)
      ensures Current() == if toDelete.Some? then old(Current()) + [toDelete] else old(Current())
      ensures submitted == if toDelete.Some? then old(submitted) + [toDelete.value] else old(submitted)
      ensures destroyed == old(destroyed)
      ensures deferredDeleteCb.pending == (old(deferredDeleteCb.pending) || toDelete.Some?)
    {
      if toDelete.Some? {
        OwnedAppend(Current(), toDelete.value);
        if firstIsCurrent {
          toDelete1 := toDelete1 + [toDelete];
        } else {
          toDelete2 := toDelete2 + [toDelete];
        }
        submitted := submitted + [toDelete.value];
        if |Current()| == 1 {
          deferredDeleteCb.ScheduleCallbackCurrentIteration();
        }
      }
    }

    /** A destructor's body, while a deletion is in progress. */
    method RunDestructor(script: seq<Action>)
      requires Valid() && deferredDeleting
      modifies this, deferredDeleteCb
      ensures Valid() && deferredDeleting && Other() == old(Other()) && firstIsCurrent == old(firstIsCurrent)
      ensures destroyed == old(destroyed)
      ensures Owned(Current()) == old(Owned(Current())) + Submissions(script)
      ensures submitted == old(submitted) + Submissions(script)
      ensures deferredDeleteCb.pending == (old(deferredDeleteCb.pending) || Submissions(script) != [])
      decreases 1, 1
    {
      for i := 0 to |script|
        invariant Valid() && deferredDeleting && Other() == old(Other()) && firstIsCurrent == old(firstIsCurrent)
        invariant destroyed == old(destroyed)
        invariant Owned(Current()) == old(Owned(Current())) + Submissions(script[..i])
        invariant submitted == old(submitted) + Submissions(script[..i])
        invariant deferredDeleteCb.pending == (old(deferredDeleteCb.pending) || Submissions(script[..i]) != [])
      {
        assert script[..i + 1] == script[..i] + [script[i]];
        SubmissionsConcat(script[..i], [script[i]]);
        Assoc(old(submitted), Submissions(script[..i]), Submissions([script[i]]));
        Assoc(old(Owned(Current())), Submissions(script[..i]), Submissions([script[i]]));
        Perform(script[i]);
      }
      assert script[..|script|] == script;
    }

    /** One thing a destructor does. */
    method Perform(action: Action)
      requires Valid() && deferredDeleting
      modifies this, deferredDeleteCb
      ensures Valid() && deferredDeleting && Other() == old(Other()) && firstIsCurrent == old(firstIsCurrent)
      ensures destroyed == old(destroyed)
      ensures Owned(Current()) == old(Owned(Current())) + Submissions([action])
      ensures submitted == old(submitted) + Submissions([action])
      ensures deferredDeleteCb.pending == (old(deferredDeleteCb.pending) || Submissions([action]) != [])
      decreases 1, 0
    {
      match action {
        case Submit(obj) =>
          OwnedAppend(Current(), obj);
          DeferredDelete(Some(obj));
        case SubmitNull =>
          DeferredDelete(None);
        case Clear =>
          ClearDeferredDeleteList();
      }
    }

    /** An effective clear destroys exactly the objects submitted before it began, in order; what their
        destructors submit fills the other vector. Otherwise nothing changes. */
    method ClearDeferredDeleteList()
      requires Ordered() && (deferredDeleting ==> Valid())
      modifies this, deferredDeleteCb
      ensures Valid() && deferredDeleting == old(deferredDeleting)
      ensures var effective := !old(deferredDeleting) && old(Current()) != [];
              var batch := old(Owned(Current()));
              if effective then
                && firstIsCurrent == !old(firstIsCurrent) && Other() == []
                && destroyed == old(destroyed) + batch
                && submitted == old(submitted) + NextLevel(batch)
                && Owned(Current()) == NextLevel(batch)
                && deferredDeleteCb.pending == (old(deferredDeleteCb.pending) || NextLevel(batch) != [])
              else
                && firstIsCurrent == old(firstIsCurrent)
                && Current() == old(Current()) && Other() == old(Other())
                && destroyed == old(destroyed) && submitted == old(submitted)
                && deferredDeleteCb.pending == old(deferredDeleteCb.pending)
      decreases if deferredDeleting then 0 else 2, 0
    {
      var numToDelete := |Current()|;
      if deferredDeleting || numToDelete == 0 {
        return;
      }
      DestroyCurrent();
    }

    /** The vectors change places and the one that was current is destroyed and emptied. */
    method DestroyCurrent()
      requires Ordered() && !deferredDeleting
      modifies this, deferredDeleteCb
      ensures Valid() && !deferredDeleting && firstIsCurrent == !old(firstIsCurrent) && Other() == []
      ensures destroyed == old(destroyed) + old(Owned(Current()))
      ensures submitted == old(submitted) + NextLevel(old(Owned(Current())))
      ensures Owned(Current()) == NextLevel(old(Owned(Current())))
      ensures deferredDeleteCb.pending == (old(deferredDeleteCb.pending) || NextLevel(old(Owned(Current()))) != [])
      decreases 1, 4
    {
      ghost var batch := Owned(Current());
      SwapVectors();
      DestroyInOrder(|Other()|, batch);
      EmptyOther();
    }

    method SwapVectors()
      requires Ordered() && !deferredDeleting
      modifies this`firstIsCurrent, this`deferredDeleting
      ensures Valid() && deferredDeleting && firstIsCurrent == !old(firstIsCurrent)
      ensures ResetUpTo(Other(), old(Owned(Current())), 0) && Current() == []
    {
      AllOwned(Current());
      firstIsCurrent := !firstIsCurrent;
      deferredDeleting := true;
    }

    method EmptyOther()
      requires Valid() && forall j :: 0 <= j < |Other()| ==> Other()[j].None?
      modifies this`toDelete1, this`toDelete2, this`deferredDeleting
      ensures Valid() && !deferredDeleting && Current() == old(Current()) && Other() == []
    {
      NothingOwned(Other());
      if firstIsCurrent {
        toDelete2 := [];
      } else {
        toDelete1 := [];
      }
      deferredDeleting := false;
    }

    /** Destroys the vector not in use, first to last. */
    method DestroyInOrder(numToDelete: nat, ghost batch: seq<Obj>)
      requires Valid() && deferredDeleting && |Other()| == numToDelete && ResetUpTo(Other(), batch, 0)
      modifies this, deferredDeleteCb
      ensures Valid() && deferredDeleting && firstIsCurrent == old(firstIsCurrent)
      ensures |Other()| == numToDelete && ResetUpTo(Other(), batch, numToDelete)
      ensures destroyed == old(destroyed) + batch
      ensures submitted == old(submitted) + NextLevel(batch)
      ensures Owned(Current()) == old(Owned(Current())) + NextLevel(batch)
      ensures deferredDeleteCb.pending == (old(deferredDeleteCb.pending) || NextLevel(batch) != [])
      decreases 1, 3
    {
      ghost var destroyed0, submitted0, owned0 := destroyed, submitted, Owned(Current());
      assert batch[..0] == [] && batch[..numToDelete] == batch;
      for i := 0 to numToDelete
        invariant Valid() && deferredDeleting && firstIsCurrent == old(firstIsCurrent)
        invariant ResetUpTo(Other(), batch, i)
        invariant destroyed == destroyed0 + batch[..i]
        invariant submitted == submitted0 + NextLevel(batch[..i])
        invariant Owned(Current()) == owned0 + NextLevel(batch[..i])
        invariant deferredDeleteCb.pending == (old(deferredDeleteCb.pending) || NextLevel(batch[..i]) != [])
      {
        PrefixNext(batch, i, destroyed0, submitted0, owned0);
        ResetPointer(i, batch);
      }
    }

    /** unique_ptr::reset on the first pointer that still owns an object: null first, then the destructor. */
    method ResetPointer(i: nat, ghost batch: seq<Obj>)
      requires Valid() && deferredDeleting && i < |batch| && ResetUpTo(Other(), batch, i)
      modifies this, deferredDeleteCb
      ensures Valid() && deferredDeleting && firstIsCurrent == old(firstIsCurrent)
      ensures ResetUpTo(Other(), batch, i + 1)
      ensures destroyed == old(destroyed) + [batch[i]]
      ensures Owned(Current()) == old(Owned(Current())) + Submissions(batch[i].onDestroy)
      ensures submitted == old(submitted) + Submissions(batch[i].onDestroy)
      ensures deferredDeleteCb.pending
              == (old(deferredDeleteCb.pending) || Submissions(batch[i].onDestroy) != [])
      decreases 1, 2
    {
      var obj := Other()[i].value;
      ResetNext(Other(), batch, i);
      OwnedReset(Other(), i);
      Assoc(destroyed, [obj], Owned(Other()[i := None]));
      if firstIsCurrent {
        toDelete2 := toDelete2[i := None];
      } else {
        toDelete1 := toDelete1[i := None];
      }
      destroyed := destroyed + [obj];
      RunDestructor(obj.onDestroy);
    }

    /** The loop fires the callback: every object submitted so far is destroyed, in order. */
    method FireDeferredDelete()
      requires Valid() && !deferredDeleting && deferredDeleteCb.pending
      modifies this, deferredDeleteCb
      ensures Valid() && !deferredDeleting
      ensures destroyed == old(destroyed + Owned(Current())) == old(submitted)
      ensures Owned(Current()) == NextLevel(old(Owned(Current())))
      ensures deferredDeleteCb.pending <==> Owned(Current()) != []
    {
      AllOwned(Current());
      assert destroyed + Owned(Other()) == destroyed;
      deferredDeleteCb.Fire();
      if Current() == [] {
        assert destroyed + Owned(Current()) == destroyed;
      }
      ClearDeferredDeleteList();
    }

    /** Firing for as long as the callback is pending destroys the whole spawn forest, breadth first,
        in as many firings as there are generations (and one more if it was pending for nothing). */
    method RunUntilQuiet() returns (firings: nat)
      requires Valid() && !deferredDeleting
      modifies this, deferredDeleteCb
      ensures Valid() && !deferredDeleting && !deferredDeleteCb.pending && Owned(Current()) == []
      ensures destroyed == old(destroyed) + BreadthFirst(old(Owned(Current()))) == submitted
      ensures firings == Depth(old(Owned(Current())))
                         + (if old(deferredDeleteCb.pending) && old(Owned(Current())) == [] then 1 else 0)
      decreases |Nodes(Owned(Current()))|, if deferredDeleteCb.pending then 1 else 0
    {
      ghost var batch := Owned(Current());
      AllOwned(Current());
      firings := 0;
      if deferredDeleteCb.pending {
        if batch != [] {
          Unroll(batch);
          Assoc(destroyed, batch, BreadthFirst(NextLevel(batch)));
        }
        FireDeferredDelete();
        var more := RunUntilQuiet();
        firings := 1 + more;
      }
    }
  }
}
