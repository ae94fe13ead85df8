/** Injected file events of file_event_impl.cc. */
module FileEvents {
  import opened Scheduling

  /** The three defined bits of a FileReadyType mask; a mask is a set, its union the bitwise or. */
  datatype FileReadyType = Read | Write | Closed

  /** libevent's own bits. */
  datatype EventBit = EV_TIMEOUT | EV_READ | EV_WRITE | EV_PERSIST | EV_ET | EV_CLOSED

  type Events = set<FileReadyType>

  datatype TriggerType = Level | Edge

  /** What can happen to a file event, each as one step of the loop thread. */
  datatype Op =
    | Activate(events: Events)
    | SetEnabled(events: Events)
    | FdReady(what: set<EventBit>)      // libevent reports the descriptor
    | ActivationFired          // the activation callback fires

  /** The libevent report in the caller's terms. */
  function FromLibevent(what: set<EventBit>): Events {
    (if EV_READ in what then {Read} else {})
    + (if EV_WRITE in what then {Write} else {})
    + (if EV_CLOSED in what then {Closed} else {})
  }

  /** The activated bits nobody has been told of: those since the last other step. */
  function Outstanding(history: seq<Op>): Events {
    if history == [] then {}
    else
      var last := history[|history| - 1];
      if last.Activate? then Outstanding(history[..|history| - 1]) + last.events else {}
  }

  /** What the user callback is told by a step, if the step calls it. */
  function Delivery(before: seq<Op>, op: Op): seq<Events> {
    match op
    case FdReady(what) => [FromLibevent(what) + Outstanding(before)]
    case ActivationFired => [Outstanding(before)]
    case _ => []
  }

  function Delivered(history: seq<Op>): seq<Events> {
    if history == [] then []
    else
      var before := history[..|history| - 1];
      Delivered(before) + Delivery(before, history[|history| - 1])
  }

  lemma {:induction false} OneMore(history: seq<Op>, op: Op)
    ensures Outstanding(history + [op]) == if op.Activate? then Outstanding(history) + op.events else {}
    ensures Delivered(history + [op]) == Delivered(history) + Delivery(history, op)
  {
    assert (history + [op])[..|history|] == history;
  }

  /** The activation at k asked for the bit and has not been overtaken by a delivery or a setEnabled. */
  predicate Asks(history: seq<Op>, k: nat, bit: FileReadyType)
    requires k < |history|
  {
    (forall j :: k <= j < |history| ==> history[j].Activate?) && bit in history[k].events
  }

  predicate SomebodyAsks(history: seq<Op>, bit: FileReadyType) {
    exists k :: 0 <= k < |history| && Asks(history, k, bit)
  }

  lemma AsksLast(before: seq<Op>, last: Op, bit: FileReadyType)
    requires last.Activate?
    ensures SomebodyAsks(before + [last], bit) <==> SomebodyAsks(before, bit) || bit in last.events
  {
    var history, n := before + [last], |before|;
    forall k | 0 <= k < n
      ensures Asks(history, k, bit) <==> Asks(before, k, bit)
    {
      assert forall j :: 0 <= j < n ==> history[j] == before[j];
      assert history[n] == last;
    }
    assert Asks(history, n, bit) <==> bit in last.events;
    if k :| 0 <= k < n && Asks(before, k, bit) {
      assert Asks(history, k, bit);
    }
  }

  /** A bit is outstanding exactly when an activation that still stands asked for it. */
  lemma {:induction false} OutstandingIff(history: seq<Op>, bit: FileReadyType)
    ensures bit in Outstanding(history) <==> SomebodyAsks(history, bit)
  {
    if history != [] {
      var before, last := history[..|history| - 1], history[|history| - 1];
      assert history == before + [last];
      if last.Activate? {
        OutstandingIff(before, bit);
        AsksLast(before, last, bit);
      } else {
        assert !history[|history| - 1].Activate?;
      }
    }
  }

  /** Every bit an activation asked for is in the very next delivery, unless setEnabled comes first. */
  lemma ActivatedIsDelivered(before: seq<Op>, events: Events, between: seq<Op>, op: Op, bit: FileReadyType)
    requires op.FdReady? || op.ActivationFired?
    requires forall x :: x in between ==> x.Activate?
    requires bit in events
    ensures var history := before + [Activate(events)] + between;
            && |Delivery(history, op)| == 1 && bit in Delivery(history, op)[0]
            && Delivered(history + [op]) == Delivered(history) + Delivery(history, op)
            && Outstanding(history + [op]) == {}
  {
    var history := before + [Activate(events)] + between;
    var k := |before|;
    assert history[k] == Activate(events);
    forall j | k < j < |history|
      ensures history[j].Activate?
    {
      assert history[j] == between[j - k - 1];
    }
    assert Asks(history, k, bit);
    OutstandingIff(history, bit);
    OneMore(history, op);
  }

  /** Where nothing is outstanding the history may as well begin. */
  lemma {:induction false} BeginsAnew(start: seq<Op>, later: seq<Op>)
    requires Outstanding(start) == {}
    ensures Outstanding(start + later) == Outstanding(later)
    ensures Delivered(start + later) == Delivered(start) + Delivered(later)
  {
    if later == [] {
      assert start + later == start;
    } else {
      var earlier, op := later[..|later| - 1], later[|later| - 1];
      BeginsAnew(start, earlier);
      AnewStep(start, earlier, start + earlier, op);
      LastApart(start, later);
    }
  }

  lemma LastApart(start: seq<Op>, later: seq<Op>)
    requires later != []
    ensures var earlier, op := later[..|later| - 1], later[|later| - 1];
            later == earlier + [op] && start + later == (start + earlier) + [op]
  {
  }

  lemma AnewStep(start: seq<Op>, earlier: seq<Op>, whole: seq<Op>, op: Op)
    requires Outstanding(whole) == Outstanding(earlier)
    requires Delivered(whole) == Delivered(start) + Delivered(earlier)
    ensures Outstanding(whole + [op]) == Outstanding(earlier + [op])
    ensures Delivered(whole + [op]) == Delivered(start) + Delivered(earlier + [op])
  {
    OneMore(earlier, op);
    OneMore(whole, op);
    assert Delivery(whole, op) == Delivery(earlier, op);
    Regroup(Delivered(start), Delivered(earlier), Delivery(earlier, op));
  }

  lemma Regroup(a: seq<Events>, b: seq<Events>, c: seq<Events>)
    ensures (a + b) + c == a + (b + c)
  {
  }

  /** After setEnabled nothing activated before it is ever delivered: what follows is delivered as if
      the history began there. */
  lemma SetEnabledForgets(before: seq<Op>, events: Events, later: seq<Op>)
    ensures var history := before + [SetEnabled(events)] + later;
            && Outstanding(history) == Outstanding(later)
            && Delivered(history) == Delivered(before) + Delivered(later)
  {
    OneMore(before, SetEnabled(events));
    BeginsAnew(before + [SetEnabled(events)], later);
  }

  /** What each step tells the user callback, bit by bit: a report of the descriptor the bits libevent
      reports and those that somebody asked for, the activation callback only the latter. */
  lemma DeliveryBits(before: seq<Op>, what: set<EventBit>, events: Events)
    ensures var d := Delivery(before, FdReady(what));
            && |d| == 1
            && (Read in d[0] <==> EV_READ in what || SomebodyAsks(before, Read))
            && (Write in d[0] <==> EV_WRITE in what || SomebodyAsks(before, Write))
            && (Closed in d[0] <==> EV_CLOSED in what || SomebodyAsks(before, Closed))
    ensures var d := Delivery(before, ActivationFired);
            |d| == 1 && forall bit :: bit in d[0] <==> SomebodyAsks(before, bit)
    ensures Delivery(before, Activate(events)) == [] && Delivery(before, SetEnabled(events)) == []
  {
    forall bit: FileReadyType
      ensures bit in Outstanding(before) <==> SomebodyAsks(before, bit)
    {
      OutstandingIff(before, bit);
    }
  }

  lemma MergedBits(what: set<EventBit>, injected: Events)
    ensures var merged := FromLibevent(what) + injected;
            && (Read in merged <==> EV_READ in what || Read in injected)
            && (Write in merged <==> EV_WRITE in what || Write in injected)
            && (Closed in merged <==> EV_CLOSED in what || Closed in injected)
  {
  }

  /** The mask libevent is asked to watch for. */
  predicate Watches(registered: set<EventBit>, events: Events, trigger: TriggerType) {
    && (EV_READ in registered <==> Read in events)
    && (EV_WRITE in registered <==> Write in events)
    && (EV_CLOSED in registered <==> Closed in events)
    && (EV_ET in registered <==> trigger.Edge?)
    && EV_PERSIST in registered && EV_TIMEOUT !in registered
  }

  class FileEventImpl {
    const trigger: TriggerType
    const activationCb: SchedulableCallback
    var enabledEvents: Events
    var registered: set<EventBit>   // what libevent watches the descriptor for
    var registrations: nat     // how often the descriptor has been (re-)added
    var injectedActivationEvents: Events
    ghost var history: seq<Op>
    ghost var delivered: seq<Events>

    /** What holds whenever user code runs. */
    ghost predicate Valid()
      reads this, activationCb
    {
      && injectedActivationEvents == Outstanding(history)
      && (activationCb.pending <==> injectedActivationEvents != {})
      && delivered == Delivered(history)
      && Watches(registered, enabledEvents, trigger)
    }

    constructor (trigger: TriggerType, events: Events)
      ensures Valid() && history == [] && fresh(activationCb)
      ensures this.trigger == trigger && enabledEvents == events && registrations == 1
    {
      this.trigger := trigger;
      activationCb := new SchedulableCallback();
      injectedActivationEvents := {};
      registrations := 1;
      history, delivered := [], [];
      new;
      AssignEvents(events);
    }

    method Activate(events: Events)
      requires Valid() && events != {}
      modifies this, activationCb
      ensures Valid() && history == old(history) + [Op.Activate(events)]
      ensures enabledEvents == old(enabledEvents) && registrations == old(registrations)
    {
      if injectedActivationEvents == {} {
        assert !activationCb.pending;
        activationCb.ScheduleCallbackNextIteration();
      }
      assert activationCb.pending;
      ghost var bit :| bit in events;
      injectedActivationEvents := injectedActivationEvents + events;
      assert bit in injectedActivationEvents;
      OneMore(history, Op.Activate(events));
      history := history + [Op.Activate(events)];
    }

    method AssignEvents(events: Events)
      modifies this`enabledEvents, this`registered
      ensures enabledEvents == events && Watches(registered, events, trigger)
    {
      enabledEvents := events;
      registered := {EV_PERSIST}
                    + (if trigger == Edge then {EV_ET} else {})
                    + (if Read in events then {EV_READ} else {})
                    + (if Write in events then {EV_WRITE} else {})
                    + (if Closed in events then {EV_CLOSED} else {});
    }

    method UpdateEvents(events: Events)
      modifies this`enabledEvents, this`registered, this`registrations
      requires Watches(registered, enabledEvents, trigger)
      ensures enabledEvents == events && Watches(registered, events, trigger)
      ensures registrations == old(registrations)
                + (if events == old(enabledEvents) && trigger.Level? then 0 else 1)
    {
      if events == enabledEvents && trigger != Edge {
        return;
      }
      AssignEvents(events);
      registrations := registrations + 1;
    }

    method SetEnabled(events: Events)
      requires Valid()
      modifies this, activationCb
      ensures Valid() && history == old(history) + [Op.SetEnabled(events)]
      ensures injectedActivationEvents == {} && !activationCb.pending && delivered == old(delivered)
      ensures enabledEvents == events
      ensures registrations == old(registrations)
                + (if events == old(enabledEvents) && trigger.Level? then 0 else 1)
    {
      if injectedActivationEvents != {} {
        injectedActivationEvents := {};
        activationCb.Cancel();
      }
      UpdateEvents(events);
      OneMore(history, Op.SetEnabled(events));
      history := history + [Op.SetEnabled(events)];
    }

    /** The merged events are what the user callback is called with, as the last thing this does;
        whatever the callback does next is the next step. */
    method MergeInjectedEventsAndRunCb(events: Events) returns (callbackArg: Events)
      modifies this`injectedActivationEvents, activationCb
      ensures callbackArg == events + old(injectedActivationEvents)
      ensures injectedActivationEvents == {}
      ensures activationCb.pending == (old(activationCb.pending) && old(injectedActivationEvents) == {})
    {
      callbackArg := events;
      if injectedActivationEvents != {} {
        callbackArg := callbackArg + injectedActivationEvents;
        injectedActivationEvents := {};
        activationCb.Cancel();
      }
    }

    /** The first half of the callback registered with libevent. */
    static method Translate(what: set<EventBit>) returns (events: Events)
      ensures events == FromLibevent(what)
    {
      events := {};
      if EV_READ in what {
        events := events + {Read};
      }
      if EV_WRITE in what {
        events := events + {Write};
      }
      if EV_CLOSED in what {
        events := events + {Closed};
      }
    }

    method FdReady(what: set<EventBit>) returns (callbackArg: Events)
      requires Valid() && (EV_READ in what || EV_WRITE in what || EV_CLOSED in what)
      modifies this, activationCb
      ensures Valid() && history == old(history) + [Op.FdReady(what)]
      ensures delivered == old(delivered) + [callbackArg]
      ensures Read in callbackArg <==> EV_READ in what || Read in old(injectedActivationEvents)
      ensures Write in callbackArg <==> EV_WRITE in what || Write in old(injectedActivationEvents)
      ensures Closed in callbackArg <==> EV_CLOSED in what || Closed in old(injectedActivationEvents)
      ensures injectedActivationEvents == {} && !activationCb.pending
    {
      var events := Translate(what);
      callbackArg := MergeInjectedEventsAndRunCb(events);
      MergedBits(what, old(injectedActivationEvents));
      OneMore(history, Op.FdReady(what));
      history := history + [Op.FdReady(what)];
      delivered := delivered + [callbackArg];
    }

    /** The activation callback fires: there always is something to deliver. */
    method FireActivation() returns (callbackArg: Events)
      requires Valid() && activationCb.pending
      modifies this, activationCb
      ensures Valid() && history == old(history) + [ActivationFired]
      ensures delivered == old(delivered) + [callbackArg]
      ensures callbackArg == old(injectedActivationEvents) != {}
      ensures injectedActivationEvents == {} && !activationCb.pending
    {
      activationCb.Fire();
      assert injectedActivationEvents != {};
      callbackArg := MergeInjectedEventsAndRunCb({});
      assert callbackArg == old(injectedActivationEvents);
      OneMore(history, ActivationFired);
      history := history + [ActivationFired];
      delivered := delivered + [callbackArg];
    }
  }
}
