# Verified model of the event server's calendar, pool, dispatcher and buffer

A Dafny model of the four parts of the event server where correctness is not obvious from one function:

* **Civil time and time zones** (`CInt`, `Calendar`, `CivilTime`, `TimeZones`, `ZoneTheorems`, `TzFile`,
  `TzRoundTrip`): Gregorian dates and Julian Day Numbers in truncating arithmetic, seconds and broken-down
  time, the two zone lookups, and the TZif reader over a byte cursor.
* **The bounded thread pool** (`ThreadPools`): one mutex, two condition variables, a running flag and
  spurious wakeups, as atomic steps of any number of producers and workers.
* **The dispatcher** (`Scheduling`, `Posting`, `DeferredDeletion`, `FileEvents`): cross-thread posting,
  double-buffered deferred deletion that destructors re-enter, and injected file events. libevent is one
  pending flag per callback: `event_active` and `event_add` set it, `event_del` clears it, firing clears it
  before the callback body runs, and each of these calls is atomic.
* **The network buffer** (`Endian`, `Buffers`): one array with two indices, compaction or growth, cheap
  prepend, a two-segment read and network-order integers.

Code that changes state step by step is a class whose methods are proved against a specification function or
a labelled transition; the results proper are lemmas about those functions and about whole runs. `dafny verify
dfyconfig.toml` checks the project.

Where the code does not keep the obvious promise, the code is modelled as it is and the exact condition is
proved:

* Truncating division makes `getJulianDayNumber` one too large before 1 March -4800, except in March-based
  leap years (`EncodeExact`). So up to -4800 the day after a 29 February has the same day number, and the day
  after a 28 February that follows a leap year has one two greater; everywhere else succession holds
  (`Succession`, inputs in `SuccessionFailsBeforeOrigin`). Day-number order is date order but for those equal
  pairs (`DayNumberOrder`), and 400 years count as 146097 days except for the common March-based years of the
  last 400 before the origin, where they count as 146096 (`FourCenturies`). `getYearMonthDay` yields a date
  exactly from day -32044 on (`DecodeIsDateIff`).
* `weekDay` is right exactly for day numbers at least -1 and for Sundays, and advances by one exactly for day
  numbers at least -1 and before Sundays (`WeekDayExact`, an input in `WeekDayFails`); weekdays repeat after
  400 years under the condition of `FourCenturies`.
* The int arithmetic of the decoding stays in range exactly for days -536902956 to 536838867
  (`DecodeFitsIff`, `BreakFitsIff`), that of the encoding for dates from 13 May -5884290 to 15 December 5874689
  (`EncodeFitsIff`); outside them the C++ behaviour is undefined, and the model, whose integers are
  unbounded, says nothing about the code.
* `shrink` keeps the contents exactly when they are shorter than 2^31 bytes, since their length is narrowed to
  int on the way (`StepRefines`, an input in `ShrinkCanLoseAll`).
* A pool whose tasks call `run` can block for good: when the queue is full and every worker is inside such a call,
  nothing moves until `stop` (`DeadlockLasts`, a run in `WorkersCanDeadlock`). Otherwise everything accepted gets
  done (`QuietDone`).
* A local time does not lead back to its instant before the first transition when the clock already shows the
  first transition's local time, nor just before the last transition when it already shows that one's
  (`ZoneRoundTripIff`, `LostBeforeFirst`, `LostBeforeLast`): the lookup does not look for repeats there.
* `TimeZone.h` promises 1970 to 2100; the results hold for every instant whose day the calendar can decode.

A transition number is written i, its UTC time u_i, its local time l_i. A zone is *well spaced* when neighbouring
u_i are further apart than any two offsets of the zone.

## Model

| member | source | states |
|---|---|---|
| Calendar.DayNumberRoundTrip | event_server/common/Date.cc:21-43 | from day -32044 on, decoding gives a valid Gregorian date and encoding that date gives the day back; the C++ agrees up to day 536838867, beyond which int overflows |
| Calendar.DecodeIsDateIff | event_server/common/Date.cc:30-43 | decoding a day number gives a valid date exactly from -32044 on; the C++ agrees where DecodeFitsIff says its int does not overflow |
| Calendar.DateRoundTripIff | event_server/common/Date.cc:21-43 | a valid date survives encoding and decoding exactly when it is not before 1 March -4800; the C++ agrees for the dates of EncodeFitsIff |
| Calendar.EncodeExact | event_server/common/Date.cc:21-28 | the truncating formula gives the true day number of every date, or one more exactly in common March-based years before the origin; the C++ agrees for the dates of EncodeFitsIff |
| Calendar.Succession | event_server/common/Date.cc:21-28 | for every date, the next date's day number is one greater, but equal after a 29 February up to -4800 and two greater after a 28 February up to -4800 that follows a leap year; the C++ agrees for the dates of EncodeFitsIff |
| Calendar.SuccessionFailsBeforeOrigin | event_server/common/Date.cc:21-28 | concrete dates before the origin where succession fails either way |
| Calendar.ProlepticSuccession | event_server/common/Date.cc:21-28 | the reference day number of the next calendar date is one greater, for every date (month ends, leap rule) |
| Calendar.DayNumberOrder | event_server/common/Date.h:107-115 | for any two dates, day-number order and equality are lexicographic date order and equality, except exactly for the equal pair at the end of a leap February up to -4800; the C++ agrees for the dates of EncodeFitsIff |
| Calendar.DecodeWalksCalendar | event_server/common/Date.cc:30-43 | decoding day -32044 + n is what walking n days through the calendar from 1 March -4800 reaches |
| Calendar.EpochDay | event_server/common/Date.cc:45 | the day number of 1 January 1970 is 2440588 |
| Calendar.FourCenturies | event_server/common/Date.h:95-99 | for every date, 400 years are 146097 days, or 146096 exactly for common March-based years from -400 to -1; the computed weekday repeats exactly when the distance is right and neither or both days are negative (or it is a Sunday); the C++ agrees for the dates of EncodeFitsIff |
| Calendar.WeekDayExact | event_server/common/Date.h:95-99 | the computed weekday is the real one exactly for days at least -1 and Sundays, and advances by one modulo 7 exactly for days at least -1 and before Sundays |
| Calendar.WeekDayFails | event_server/common/Date.h:95-99 | the weekday computed for day -2 is -1 |
| Calendar.DecodeFitsIff | event_server/common/Date.cc:30-43 | no intermediate of the decoding leaves int exactly from day -536902956 to 536838867 |
| Calendar.EncodeFitsIff | event_server/common/Date.cc:21-28 | no intermediate of the encoding leaves int exactly for dates from 13 May -5884290 to 15 December 5874689 |
| Calendar.EncodeFitsOnImage | event_server/common/Date.cc:21-28 | encoding a decoded date of the range never overflows |
| CivilTime.FillHMS | event_server/common/TimeZone.cc:285-291 | hour, minute and second are in range and add up to the given seconds |
| CivilTime.BreakTime | event_server/common/TimeZone.cc:293-312 | truncating division corrected for negative remainders is the split by floor division and the decoded date, whenever the day count and every intermediate of the decoding fit int |
| CivilTime.BreakFitsIff | event_server/common/TimeZone.cc:293-312 | that is so exactly for days -536902956 to 536838867 |
| CivilTime.BreaksAsCalendar | event_server/common/TimeZone.cc:293-312 | an instant breaks into the date that many calendar days after (or before) 1 January 1970 as 86400 goes into it, and the rest as a time of day |
| CivilTime.ComposesAsCalendar | event_server/common/TimeZone.cc:498-504 | the instant of any valid time is 86400 for each calendar day between its date and 1 January 1970, plus the seconds in the day (plus the excess day of EncodeExact before the origin) |
| CivilTime.SecondsRoundTripIff | event_server/common/TimeZone.cc:293-312 | breaking an instant gives a valid time that names the same instant exactly from the first decodable day on, negative instants included; the C++ agrees up to day 536838867 |
| CivilTime.DateTimeRoundTripIff | event_server/common/TimeZone.cc:498-504 | a valid time comes back from its instant exactly when its date is not before the origin |
| CivilTime.InRangeFits | event_server/common/TimeZone.cc:293-312 | in the decodable range no int or int64 intermediate overflows in BreakTime or in fromUtcTime (its encoding, seconds, day difference, product and sum) |
| TimeZones.UpperBound | event_server/common/TimeZone.cc:339-341 | the binary search by either key finds the position after the one a linear scan finds |
| TimeZones.ZoneData.Fixed | event_server/common/TimeZone.cc:454-459 | a fixed zone has one type and no transitions |
| TimeZones.ZoneData.AddLocalTime | event_server/common/TimeZone.cc:49-52 | appends one type and changes nothing else |
| TimeZones.ZoneData.AddTransition | event_server/common/TimeZone.cc:54-58 | throws exactly for an index outside the types; else appends the transition with local time = UTC time + that type's offset |
| TimeZones.ZoneData.FindByUtc | event_server/common/TimeZone.cc:318-356 | returns the type of the last transition not after the instant, the first type before all of them |
| TimeZones.ZoneData.FindByLocal | event_server/common/TimeZone.cc:358-430 | the case analysis with its reassigned iterator chooses the type of the gap/overlap/unique rule |
| TimeZones.ZoneData.ToLocalTime | event_server/common/TimeZone.cc:461-478 | gives the offset in force and, where BreakTime does not overflow, the clock reading at an instant |
| TimeZones.ZoneData.FromLocalTime | event_server/common/TimeZone.cc:480-491 | resolves a local time with the type the local lookup chooses |
| ZoneTheorems.WellSpacedSorted | event_server/common/TimeZone.cc:369-371 | well-spaced zones are sorted by UTC and by local time, as both binary searches need |
| ZoneTheorems.TypeInForce | event_server/common/TimeZone.cc:318-356 | before all transitions, or without any, the first type is in force, else that of the last transition begun |
| ZoneTheorems.AtTheEdges | event_server/common/TimeZone.cc:358-378 | without transitions or before l_0 every local time is resolved with the first type, from l_(n-1) on with the last transition's, for both flags |
| ZoneTheorems.LayersAgree | event_server/common/TimeZone.cc:461-491 | a local date and time stands for the instant plus the offset in force, and is resolved as its seconds are |
| ZoneTheorems.InstantsShowing | event_server/common/TimeZone.cc:369-430 | for l_0 <= L < l_(n-1), the instants from u_0 on that show L are exactly the two resolutions, earlier first, or none |
| ZoneTheorems.UniqueLocalTime | event_server/common/TimeZone.cc:428-429 | if exactly one instant shows L, both flags find it |
| ZoneTheorems.RepeatedLocalTime | event_server/common/TimeZone.cc:406-426 | if two instants show L there are no others; false finds the earlier and true the later |
| ZoneTheorems.SkippedLocalTime | event_server/common/TimeZone.cc:380-404 | if none shows L it lies in a gap of width g at some transition; false lands past it showing L + g, true before it showing L - g |
| ZoneTheorems.ZoneRoundTripIff | event_server/common/TimeZone.cc:461-491 | through all three layers an instant comes back for one of the two flags exactly when it is not one of the two lost kinds |
| ZoneTheorems.FlagRoundTripIff | event_server/common/TimeZone.cc:461-491 | for each flag exactly when the instant comes back: it is not lost and, for false, the clock did not show the same before the last transition, or, for true, does not show it again after the next one |
| ZoneTheorems.LostBeforeFirst | event_server/common/TimeZone.cc:363-367 | a well-spaced zone with an instant lost before its first transition |
| ZoneTheorems.LostBeforeLast | event_server/common/TimeZone.cc:374-378 | a well-spaced zone with an instant lost just before its last transition |
| TzFile.File.Fread | event_server/common/TimeZone.cc:111-118 | delivers as many bytes as there are and moves the cursor by that many |
| TzFile.File.ReadBytes | event_server/common/TimeZone.cc:111-118 | throws exactly when the bytes are not all there |
| TzFile.File.ReadToEnd | event_server/common/TimeZone.cc:120-130 | reading in chunks returns everything after the cursor, nothing past the end |
| TzFile.File.ReadInt64 | event_server/common/TimeZone.cc:132-139 | the big-endian signed 64-bit number at the cursor, or a throw |
| TzFile.File.ReadInt32 | event_server/common/TimeZone.cc:141-148 | the big-endian signed 32-bit number at the cursor, or a throw |
| TzFile.File.Skip | event_server/common/TimeZone.cc:159-162 | a relative seek, refused when the target is negative |
| TzFile.ReadTimes | event_server/common/TimeZone.cc:186-198 | reads all transition times in order, or throws when any is missing or the count is negative |
| TzFile.ReadTypes | event_server/common/TimeZone.cc:208-216 | reads all six-byte local time types into empty data, or throws |
| TzFile.AddTransitions | event_server/common/TimeZone.cc:218-222 | succeeds exactly when every index names a type, and then every local time is consistent |
| TzFile.ReadDataBlock | event_server/common/TimeZone.cc:169-236 | returns true exactly for an acceptable block, and then the data are exactly what the layout of RFC 8536 says |
| TzFile.ReadSecondBlock | event_server/common/TimeZone.cc:260-268 | reads the block after the second header, where the skip lands |
| TzFile.ReadTimeZoneFile | event_server/common/TimeZone.cc:238-283 | true exactly when the file exists and its relevant block is acceptable; all throws become false |
| TzFile.LoadZoneFile | event_server/common/TimeZone.cc:439-447 | data are there exactly after a successful read, and are the file's zone |
| TzRoundTrip.BlockRoundTrip | event_server/common/TimeZone.cc:169-236 | a zone encoded as RFC 8536 sections 3.1 and 3.2 prescribe is accepted and read back exactly |
| TzRoundTrip.FirstVersionRoundTrip | event_server/common/TimeZone.cc:270-275 | in a file that begins "TZif" and any version byte but '2' the first block is read, and gives the zone back |
| TzRoundTrip.SecondVersionRoundTrip | event_server/common/TimeZone.cc:258-269 | in a version '2' file the skip over any first block lands on the second header, and the footer string is exactly the remaining bytes |
| TzRoundTrip.AcceptedIsWellFormed | event_server/common/TimeZone.cc:208-222 | whatever file is accepted, every index is below the number of types and every local time is UTC time + that type's offset; the zone is well formed exactly when it has a type |
| TzRoundTrip.FileLayout | event_server/common/TimeZone.cc:238-283 | by bytes and offsets: a file that is short or does not begin "TZif" is refused; unless the fifth byte is '2' the block at 20 decides, else the one after the second "TZif" at the computed skip |
| TzRoundTrip.BlockLayout | event_server/common/TimeZone.cc:169-222 | by offsets: exactly the blocks without leap seconds, with absent or complete indicators, complete arrays and indices in range are accepted |
| TzRoundTrip.ZoneLayout | event_server/common/TimeZone.cc:186-234 | by offsets: the sizes, the designations and the footer behind the indicators |
| TzRoundTrip.TypeLayout | event_server/common/TimeZone.cc:208-216 | by offsets: six bytes a type, offset, any non-zero byte as daylight saving, designation index |
| TzRoundTrip.TransitionLayout | event_server/common/TimeZone.cc:186-222 | by offsets: each transition's time, type index and local time |
| ThreadPools.Safety | event_server/thread/ThreadPool.cc:72-118 | in every reachable state accepted = taken + queue as sequences, the bound holds, no worker or producer wakeup is lost despite spurious ones, and nobody waits after stop |
| ThreadPools.NobodySleepsOnWork | event_server/thread/ThreadPool.cc:72-112 | while running, a queued task has a worker that neither waits nor has exited nor is held up in its own task's call of run, exactly when not all workers are held up so; a free slot never faces only sleeping producers |
| ThreadPools.QuietProgress | event_server/thread/ThreadPool.cc:72-135 | while running, every step but a call, stop or a spurious wakeup makes the work in hand smaller, and a spurious wakeup adds one step |
| ThreadPools.QuietRunsEnd | event_server/thread/ThreadPool.cc:72-135 | a run without calls and stop is bounded by the work in hand and the number of spurious wakeups |
| ThreadPools.QuietDone | event_server/thread/ThreadPool.cc:72-135 | when no such step is left, every accepted task has been taken and has returned, nobody is held up in run and all workers wait, exactly when not every worker runs a task that is held up in run; in that case the queue is full |
| ThreadPools.HeldUpIsDeadlock | event_server/thread/ThreadPool.cc:80-84 | QuietDone's exception means a full queue with all workers inside their own tasks' calls of run |
| ThreadPools.DeadlockLasts | event_server/thread/ThreadPool.cc:80-84 | a pool with a full queue whose workers are all inside their own tasks' calls of run takes no task, whatever the others do and whoever is awakened, until stop |
| ThreadPools.WorkersCanDeadlock | event_server/thread/ThreadPool.cc:72-135 | a run of one worker and one slot, with a task that calls run twice, that ends there |
| ThreadPools.WorkerRunsItsTask | event_server/thread/ThreadPool.cc:93-135 | in every run a worker runs the task it last took from the front of the queue |
| ThreadPools.CallerKeepsItsTask | event_server/thread/ThreadPool.cc:72-91 | in every run a thread held up in run holds the task of its own last call |
| ThreadPools.AcceptedAndTaken | event_server/thread/ThreadPool.cc:72-112 | in every run the accepted tasks are exactly those of calls and retries that find the pool running with room, or without workers, and the taken ones those popped, running or not, or run inline, in order |
| ThreadPools.NoCallIsDropped | event_server/thread/ThreadPool.cc:72-91 | while the pool runs every call's task is accepted or still held by its caller |
| ThreadPools.TakenIsRun | event_server/thread/ThreadPool.cc:93-135 | every task a worker takes is running or has returned |
| ThreadPools.RunningUntilStop | event_server/thread/ThreadPool.cc:52-59 | the flag is down exactly after a stop |
| ThreadPools.AnyWaiterMayWake | event_server/thread/ThreadPool.cc:80-100 | any waiting thread may be awakened without a signal at any time |
| ThreadPools.Shutdown | event_server/thread/ThreadPool.cc:52-135 | after stop, whatever the others do, a worker takes at most three more steps (calls of run by its task, which return at once, aside) and starts at most one more task, nothing is enqueued and nobody waits |
| ThreadPools.ShutdownTotal | event_server/thread/ThreadPool.cc:52-135 | after stop all workers together start exactly as many queued tasks as there are workers inside take (or fewer tasks, if fewer are queued), once those have moved on; the queue behind those stays |
| ThreadPools.ShutdownNeverStuck | event_server/thread/ThreadPool.cc:52-135 | after stop, when no worker and no thread held up in run can move, all workers have exited and nobody is inside run |
| ThreadPools.ShutdownMeasure | event_server/thread/ThreadPool.cc:52-135 | after stop every step of a worker or of a thread held up in run decreases a measure that no other step changes and that is zero exactly when all workers have exited and nobody is inside run |
| ThreadPools.ThreadPool.constructor | event_server/thread/ThreadPool.cc:33-50 | start leaves all workers at the top of their loop and the flag up |
| ThreadPools.ThreadPool.RunLocked | event_server/thread/ThreadPool.cc:80-90 | one pass through run's critical section: block, return, or enqueue and notify; the assertion that the queue is not full holds |
| ThreadPools.ThreadPool.Run | event_server/thread/ThreadPool.cc:72-91 | a call of run, inline without workers, is a step of the protocol |
| ThreadPools.ThreadPool.RunAwakened | event_server/thread/ThreadPool.cc:81-84 | an awakened caller that looks again is a step of the protocol |
| ThreadPools.ThreadPool.Take | event_server/thread/ThreadPool.cc:93-112 | one pass through take's critical section is a step of the protocol |
| ThreadPools.ThreadPool.CheckRunning | event_server/thread/ThreadPool.cc:128 | the unlocked read of the flag is a step of the protocol |
| ThreadPools.ThreadPool.Stop | event_server/thread/ThreadPool.cc:52-59 | the locked part of stop is a step of the protocol |
| Posting.NoLostPosts | event_server/event/Dispatcher.cpp:63-126 | in every interleaving pushed = executed + rest of batch + list, and a non-empty list is pending, entered or being armed |
| Posting.PushedIsPosted | event_server/event/Dispatcher.cpp:63-69 | in every run what is pushed is exactly the callbacks of the posts, in order |
| Posting.OneArmPerBatch | event_server/event/Dispatcher.cpp:63-74 | the list is armed only by the post that finds it empty, at most once for each time it is taken |
| Posting.NeverAsleepOnPosts | event_server/event/Dispatcher.cpp:63-74 | once posters are done, a non-empty list has its callback pending whenever the loop is elsewhere |
| Posting.ExecutedGrows | event_server/event/Dispatcher.cpp:97-126 | what was executed only grows, along push order |
| Posting.BatchIsolation | event_server/event/Dispatcher.cpp:103-125 | posts made while a batch runs are never executed in that batch |
| Posting.QuietProgress | event_server/event/schedulable_cb_impl.cc:20-42 | without new posts every further step makes the work in hand smaller |
| Posting.QuietDone | event_server/event/Dispatcher.cpp:63-126 | when no such step is left, everything posted has been executed in order |
| Posting.PostQueue.Post | event_server/event/Dispatcher.cpp:63-74 | the locked part of post: push, and arm only if the list was empty |
| Posting.PostQueue.ScheduleCallbackCurrentIteration | event_server/event/schedulable_cb_impl.cc:20-27 | asking whether the event is pending is one step, activating it another |
| Posting.PostQueue.TakeCallbacks | event_server/event/Dispatcher.cpp:103-113 | the whole list becomes the batch and the list is empty |
| Posting.PostQueue.RunFrontCallback | event_server/event/Dispatcher.cpp:116-125 | the front callback runs and is popped |
| Posting.PostQueue.EnterFromRun | event_server/event/Dispatcher.cpp:160-170 | run enters runPostCallbacks before the loop starts |
| Posting.PostQueue.FinishBatch | event_server/event/Dispatcher.cpp:116-126 | an exhausted batch ends the callback |
| Scheduling.SchedulableCallback.ScheduleCallbackCurrentIteration | event_server/event/schedulable_cb_impl.cc:20-27 | afterwards the callback is pending |
| Scheduling.SchedulableCallback.ScheduleCallbackNextIteration | event_server/event/schedulable_cb_impl.cc:29-38 | afterwards the callback is pending |
| Scheduling.SchedulableCallback.Cancel | event_server/event/schedulable_cb_impl.cc:40 | afterwards the callback is not pending |
| DeferredDeletion.Dispatcher.DeferredDelete | event_server/event/Dispatcher.cpp:187-197 | appends a non-null object to the current vector, keeps submission order, and leaves a non-empty vector's callback pending |
| DeferredDeletion.Dispatcher.RunDestructor | event_server/event/deferred_task.h:18-31 | a destructor's submissions go behind the current vector in order; its calls of clear do nothing |
| DeferredDeletion.Dispatcher.ClearDeferredDeleteList | event_server/event/Dispatcher.cpp:204-235 | an effective clear destroys exactly the objects submitted before it, in order, and leaves exactly what their destructors submitted; any other clear changes nothing |
| DeferredDeletion.Dispatcher.FireDeferredDelete | event_server/event/Dispatcher.cpp:204-235 | a firing destroys all that was submitted so far, and the callback is pending again exactly when something new was submitted |
| DeferredDeletion.Dispatcher.RunUntilQuiet | event_server/event/Dispatcher.cpp:187-235 | a finite spawn forest is destroyed completely, breadth first, in as many firings as it has generations |
| DeferredDeletion.BreadthFirstIsComplete | event_server/event/Dispatcher.cpp:226-233 | that order contains every object of the forest exactly once, counted independently by structure |
| DeferredDeletion.Unroll | event_server/event/Dispatcher.cpp:226-233 | that order is the objects themselves, then, in the same order, what they submit, one generation more |
| DeferredDeletion.LevelInOrder | event_server/event/Dispatcher.cpp:226-233 | what a list of objects submits is what each submits, in order |
| DeferredDeletion.SubmissionsInOrder | event_server/event/Dispatcher.cpp:187-197 | what a destructor submits is the object of each submission, in order, and nothing for a null pointer or a clear |
| FileEvents.FileEventImpl.Activate | event_server/event/file_event_impl.cc:28-46 | injected bits are what is outstanding and are non-zero exactly when the callback is pending; both assertions hold |
| FileEvents.FileEventImpl.AssignEvents | event_server/event/file_event_impl.cc:48-60 | libevent watches for exactly the bits of the mask, edge-triggered exactly for an edge trigger |
| FileEvents.FileEventImpl.UpdateEvents | event_server/event/file_event_impl.cc:82-100 | the descriptor is re-registered unless the mask is unchanged under level triggering |
| FileEvents.FileEventImpl.SetEnabled | event_server/event/file_event_impl.cc:102-113 | outstanding bits are dropped, the callback cancelled and the mask updated |
| FileEvents.FileEventImpl.MergeInjectedEventsAndRunCb | event_server/event/file_event_impl.cc:138-157 | the user callback gets the reported and the injected bits, and nothing stays injected |
| FileEvents.FileEventImpl.FdReady | event_server/event/file_event_impl.cc:61-78 | a report of the descriptor delivers exactly the bits libevent reports, each as its own, and all outstanding ones |
| FileEvents.DeliveryBits | event_server/event/file_event_impl.cc:61-78 | a delivery holds a bit exactly when libevent reports it or a standing activation asked for it |
| FileEvents.FileEventImpl.FireActivation | event_server/event/file_event_impl.cc:11-14 | whenever the activation callback fires there is something to deliver, and exactly that is delivered |
| FileEvents.OutstandingIff | event_server/event/file_event_impl.cc:28-46 | a bit is outstanding exactly when an activation not followed by a delivery or a setEnabled asked for it |
| FileEvents.ActivatedIsDelivered | event_server/event/file_event_impl.cc:138-157 | every activated bit is in the very next delivery unless setEnabled comes first |
| FileEvents.SetEnabledForgets | event_server/event/file_event_impl.cc:102-113 | what is delivered after a setEnabled is what would be delivered had the history begun there |
| Endian.NetworkOrder | event_server/network/Endian.h:29-57 | on either kind of host the converted number lies in memory most significant byte first, and converting back restores it |
| Endian.SignedRoundTrip | event_server/network/Endian.h:29-57 | every signed number of any width survives network order |
| Endian.BytesRoundTrip | event_server/network/Endian.h:29-57 | every byte string is the encoding of the number it spells |
| Endian.SignedBytes | event_server/network/Endian.h:29-57 | byte i of a w-byte number is its two's complement digit of weight 256^(w-1-i) |
| Endian.SignedRanges | event_server/network/Endian.h:29-57 | the numbers of 8, 16, 32 and 64 bits |
| Endian.MemoryBytes | event_server/network/Endian.h:29-57 | a little-endian host holds the least significant byte first, a big-endian one the most significant |
| Buffers.BufferRefinesQueue | event_server/network/Buffer.h:117-223 | over any legal history in which shrink truncates nothing the readable bytes are those of a plain byte queue; without prepends at least 8 bytes stay prependable in any legal history |
| Buffers.StepRefines | event_server/network/Buffer.h:117-373 | a legal step changes the readable bytes as it changes the queue exactly when it is not a shrink of 2^31 bytes or more |
| Buffers.ShrinkCanLoseAll | event_server/network/Buffer.h:366-373 | shrinking 2^32 readable bytes leaves none |
| Buffers.SizeChangesOnlyWhenNeeded | event_server/network/Buffer.h:394-413 | the array grows exactly when the bytes neither fit nor fit after compaction, and then to exactly the size needed |
| Buffers.RoomAfter | event_server/network/Buffer.h:117-223 | the room before and behind the readable bytes after each step: what is reset, reserved, compacted or grown |
| Buffers.LegalIff | event_server/network/Buffer.h:117-128 | for how many bytes each step may be called, and how many one read delivers |
| Buffers.FilledIsAppended | event_server/network/Buffer.cc:25-57 | the two-segment read equals one append of the bytes read, whether the overflow grows or compacts |
| Buffers.TypedFifo | event_server/network/Buffer.h:228-327 | signed integers of any widths written and read with the same widths come back in order |
| Buffers.Buffer.constructor | event_server/network/Buffer.h:48-56 | an empty buffer with 8 prependable bytes and the initial room |
| Buffers.Buffer.MakeSpace | event_server/network/Buffer.h:394-413 | grows or compacts without changing the readable bytes; the assertion that the reader is past 8 holds |
| Buffers.Buffer.CopyDown | event_server/network/Buffer.h:406-408 | the overlapping copy moves the readable bytes intact |
| Buffers.Buffer.EnsureWritableBytes | event_server/network/Buffer.h:198-205 | afterwards the room suffices and the contents are unchanged |
| Buffers.Buffer.Append | event_server/network/Buffer.h:186-191 | the bytes lie behind the contents |
| Buffers.Buffer.Prepend | event_server/network/Buffer.h:358-364 | the bytes lie before the contents |
| Buffers.Buffer.Retrieve | event_server/network/Buffer.h:117-128 | drops bytes from the front, and moves both indices back when all are dropped |
| Buffers.Buffer.RetrieveAsString | event_server/network/Buffer.h:168-174 | returns exactly the bytes it drops |
| Buffers.Buffer.Unwrite | event_server/network/Buffer.h:219-223 | drops bytes from the back |
| Buffers.Buffer.Shrink | event_server/network/Buffer.h:366-373 | a new array with the reserved room, holding as much of the contents as their length narrowed to int |
| Buffers.Buffer.ToStringPiece | event_server/network/Buffer.h:176-179 | the readable bytes, up to their number narrowed to int |
| Buffers.Buffer.ReadFd | event_server/network/Buffer.cc:25-57 | appends exactly the bytes read across both segments and returns their number, at most 131071 when both are offered; a failed read changes nothing |
| Buffers.Buffer.FindCRLF | event_server/network/Buffer.h:91-98 | the first CR LF at or after a position, or none when there is none |
| Buffers.Buffer.AppendInt | event_server/network/Buffer.h:228-252 | appends the number in network order, on either kind of host |
| Buffers.Buffer.PrependInt | event_server/network/Buffer.h:332-356 | prepends the number in network order |
| Buffers.Buffer.PeekInt | event_server/network/Buffer.h:294-327 | the number the first bytes spell |
| Buffers.Buffer.ReadInt | event_server/network/Buffer.h:258-288 | that number, dropping its bytes |
| Buffers.Buffer.AppendAll | event_server/network/Buffer.h:228-252 | a series of appended integers lies behind the contents in network order |
| Buffers.Buffer.ReadAll | event_server/network/Buffer.h:258-288 | a series of reads decodes the front of the contents and leaves the rest |
| Buffers.Buffer.Execute | event_server/network/Buffer.h:117-223 | the array and its indices follow the model over a whole legal history |

## Left out

- CivilTime.BreakTime: (and ToLocalTime through it) where the cast, the addition of the epoch day or the decoding leaves int (outside the days of BreakFitsIff) the result is not specified.
- Overflow in fromUtcTime: its arithmetic is unbounded in the model. InRangeFits shows that it cannot overflow in the decodable range; for dates whose encoding leaves int the C++ behaviour is undefined.
- TzFile.File.ReadBytes: a negative length (a negative designation count) is undefined behaviour in C++; the model lets it fail.
- TzFile.ReadDataBlock: the sum of a transition time and an offset is unbounded; its overflow near the ends of int64 is undefined in C++. Memory exhaustion by huge counts is not modelled.
- TzFile.ReadSecondBlock: the int products in the skip are unbounded; they could overflow only for counts beyond 2^28.
- TimeZones.ZoneData.FindByLocal: requires transitions sorted by local time, as std::upper_bound does; the theorems prove it for well-spaced zones.
- A zone with no local time type: the lookups read the first type without checking, so they require one.
- The TZ footer string's meaning: the code keeps the last offset forever and uses the first type before the first transition.
- ThreadPools.Shutdown: assumes that tasks return and do not call stop themselves, which would join their own thread; tasks still queued when all workers have exited are dropped, as in the code.
- ThreadPools.Safety: start is one step; run is called only after it has returned. Thread creation, joining, the init callback and exceptions of tasks are not modelled.
- A callback that itself calls post is one more poster of the protocol, interleaved with all others. A task that calls run is modelled as its own worker's call, one call at a time.
- libevent internals, poll order, and the callbacks' place in an iteration: only the pending flag is modelled.
- FileEvents: a mask is the set of the three defined bits; other bits of a mask passed to setEnabled and the EmulatedEdge branches are not modelled.
- DeferredDeletion: a destructor is the finite list of its submissions and clears; it may not run the loop.
- Buffers.Buffer.Shrink: contents whose narrowed length is negative, for which the append asks for a huge size and fails, are not legal in the model.
- Buffers: capacity beyond size, findEOL and the retrieve-until variant, which follow the members modelled.
- Sockets, acceptor, connector, connections, server, timestamps, timers, logging and text formatting.
