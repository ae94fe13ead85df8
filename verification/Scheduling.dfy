/** SchedulableCallbackImpl over one libevent pending flag: event_active and event_add set it,
    event_del clears it, and firing clears it before the callback body runs. */
module Scheduling {
  class SchedulableCallback {
    var pending: bool

    constructor ()
      ensures !pending
    {
      pending := false;
    }

    method Enabled() returns (enabled: bool)
      ensures enabled == pending
    {
      enabled := pending;
    }

    method ScheduleCallbackCurrentIteration()
      modifies this
      ensures pending
    {
      var enabled := Enabled();
      if enabled {
        return;
      }
      pending := true;
    }

    method ScheduleCallbackNextIteration()
      modifies this
      ensures pending
    {
      var enabled := Enabled();
      if enabled {
        return;
      }
      pending := true;
    }

    method Cancel()
      modifies this
      ensures !pending
    {
      pending := false;
    }

    /** The loop picks the event up. */
    method Fire()
      requires pending
      modifies this
      ensures !pending
    {
      pending := false;
    }
  }
}
