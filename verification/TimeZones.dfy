/** A time zone as TimeZone.cc stores it, and its two lookups. */
module TimeZones {
  import opened CInt
  import opened CivilTime
  import opened Endian

  datatype LocalTime = LocalTime(utcOffset: int, isDst: bool, desigIdx: int)

  datatype Transition = Transition(utctime: int, localtime: int, localtimeIdx: int)

  /** The contents of a loaded zone. */
  datatype Zone = Zone(transitions: seq<Transition>, localtimes: seq<LocalTime>,
                       abbreviation: seq<byte>, tzstring: seq<byte>) {
    /** What a successful read guarantees, for a zone with at least one local time type. */
    predicate WellFormed() {
      localtimes != [] && Consistent()
    }

    /** Every index names a type, and every local time is the UTC time plus that type's offset. */
    predicate Consistent() {
      forall i :: 0 <= i < |transitions| ==>
        0 <= transitions[i].localtimeIdx < |localtimes|
        && transitions[i].localtime
           == transitions[i].utctime + localtimes[transitions[i].localtimeIdx].utcOffset
    }

    /** The type in force from transition i on. */
    function Kind(i: int): LocalTime
      requires WellFormed() && 0 <= i < |transitions|
    {
      localtimes[transitions[i].localtimeIdx]
    }

    function Offset(i: int): int
      requires WellFormed() && 0 <= i < |transitions|
    {
      Kind(i).utcOffset
    }
  }

  function UtcKey(t: Transition): int { t.utctime }

  function LocalKey(t: Transition): int { t.localtime }

  predicate SortedBy(ts: seq<Transition>, key: Transition -> int) {
    forall i, j :: 0 <= i < j < |ts| ==> key(ts[i]) <= key(ts[j])
  }

  /** Linear scan from the back: the last transition whose key is at most x, or -1. */
  function Last(ts: seq<Transition>, key: Transition -> int, x: int): (k: int)
    ensures -1 <= k < |ts|
    ensures k >= 0 ==> key(ts[k]) <= x
    ensures forall i :: k < i < |ts| ==> x < key(ts[i])
  {
    if ts == [] then -1
    else if key(ts[|ts| - 1]) <= x then |ts| - 1
    else Last(ts[..|ts| - 1], key, x)
  }

  /** The type in force at an instant: that of the last transition not after it, else the first type. */
  function LookupUtc(z: Zone, t: int): LocalTime
    requires z.WellFormed()
  {
    var k := Last(z.transitions, UtcKey, t);
    if k < 0 then z.localtimes[0] else z.Kind(k)
  }

  /** The type chosen for a local time: skipped times take the type before or after the gap,
      repeated times the type before or after the overlap. */
  function LookupLocal(z: Zone, local: int, postTransition: bool): LocalTime
    requires z.WellFormed()
  {
    var k := Last(z.transitions, LocalKey, local);
    if k < 0 then z.localtimes[0]
    else if k == |z.transitions| - 1 then z.Kind(k)
    else if z.transitions[k + 1].utctime + z.Offset(k) <= local then
      z.Kind(if postTransition then k + 1 else k)
    else if k > 0 && local < z.transitions[k].utctime + z.Offset(k - 1) then
      z.Kind(if postTransition then k else k - 1)
    else z.Kind(k)
  }

  /** std::upper_bound: the first position whose key exceeds x, by halving. */
  method UpperBound(ts: seq<Transition>, key: Transition -> int, x: int) returns (first: nat)
    requires SortedBy(ts, key)
    ensures first == Last(ts, key, x) + 1
  {
    first := 0;
    var len := |ts|;
    while len > 0
      invariant 0 <= len && first + len <= |ts|
      invariant forall i :: 0 <= i < first ==> key(ts[i]) <= x
      invariant forall i :: first + len <= i < |ts| ==> x < key(ts[i])
    {
      var half := len / 2;
      var middle := first + half;
      if x < key(ts[middle]) {
        len := half;
      } else {
        first := middle + 1;
        len := len - half - 1;
      }
    }
    LastUnique(ts, key, x, first);
  }

  lemma {:induction false} LastUnique(ts: seq<Transition>, key: Transition -> int, x: int, first: nat)
    requires first <= |ts|
    requires forall i :: 0 <= i < first ==> key(ts[i]) <= x
    requires forall i :: first <= i < |ts| ==> x < key(ts[i])
    ensures Last(ts, key, x) == first - 1
  {
    if first < |ts| {
      LastUnique(ts[..|ts| - 1], key, x, first);
    }
  }

  /** TimeZone::Data: vectors filled by the reader, then only looked up. */
  class ZoneData {
    var transitions: seq<Transition>
    var localtimes: seq<LocalTime>
    var abbreviation: seq<byte>
    var tzstring: seq<byte>

    constructor ()
      ensures Value() == Zone([], [], [], [])
    {
      transitions, localtimes, abbreviation, tzstring := [], [], [], [];
    }

    /** A zone with one offset and no transitions. */
    constructor Fixed(eastOfUtc: int, name: seq<byte>)
      ensures Value() == Zone([], [LocalTime(eastOfUtc, false, 0)], name, [])
    {
      transitions, localtimes := [], [LocalTime(eastOfUtc, false, 0)];
      abbreviation, tzstring := name, [];
    }

    function Value(): Zone
      reads this
    {
      Zone(transitions, localtimes, abbreviation, tzstring)
    }

    method AddLocalTime(utcOffset: int, isDst: bool, desigIdx: int)
      modifies this
      ensures Value() == old(Value()).(localtimes := old(localtimes) + [LocalTime(utcOffset, isDst, desigIdx)])
    {
      localtimes := localtimes + [LocalTime(utcOffset, isDst, desigIdx)];
    }

    /** An index outside the types throws and changes nothing. */
    method AddTransition(utcTime: int, localtimeIdx: int) returns (threw: bool)
      modifies this
      ensures threw <==> !(0 <= localtimeIdx < |old(localtimes)|)
      ensures threw ==> Value() == old(Value())
      ensures !threw ==>
                Value() == old(Value()).(transitions := old(transitions)
                  + [Transition(utcTime, utcTime + old(localtimes)[localtimeIdx].utcOffset, localtimeIdx)])
    {
      if !(0 <= localtimeIdx < |localtimes|) {
        return true;
      }
      var lt := localtimes[localtimeIdx];
      transitions := transitions + [Transition(utcTime, utcTime + lt.utcOffset, localtimeIdx)];
      return false;
    }

    /** findLocalTime by instant: the binary search finds what a linear scan finds. */
    method FindByUtc(utcTime: int) returns (local: LocalTime)
      requires Value().WellFormed() && SortedBy(transitions, UtcKey)
      ensures local == LookupUtc(Value(), utcTime)
    {
      if transitions == [] || utcTime < transitions[0].utctime {
        assert forall i :: 0 <= i < |transitions| ==> UtcKey(transitions[0]) <= UtcKey(transitions[i]);
        local := localtimes[0];
      } else {
        var transI := UpperBound(transitions, UtcKey, utcTime);
        if transI != |transitions| {
          transI := transI - 1;
          local := localtimes[transitions[transI].localtimeIdx];
        } else {
          local := localtimes[transitions[|transitions| - 1].localtimeIdx];
        }
      }
    }

    /** findLocalTime by local time. */
    method FindByLocal(lt: DateTime, postTransition: bool) returns (r: LocalTime)
      requires Value().WellFormed() && SortedBy(transitions, LocalKey)
      ensures r == LookupLocal(Value(), FromUtcTime(lt), postTransition)
    {
      var localtime := FromUtcTime(lt);
      if transitions == [] || localtime < transitions[0].localtime {
        assert forall i :: 0 <= i < |transitions| ==> LocalKey(transitions[0]) <= LocalKey(transitions[i]);
        return localtimes[0];
      }
      var transI := UpperBound(transitions, LocalKey, localtime);
      if transI == |transitions| {
        return localtimes[transitions[|transitions| - 1].localtimeIdx];
      }
      var priorTrans := transitions[transI - 1];
      var priorSecond := transitions[transI].utctime - 1 + localtimes[priorTrans.localtimeIdx].utcOffset;
      if priorSecond < localtime {
        // skipped
        if postTransition {
          return localtimes[transitions[transI].localtimeIdx];
        } else {
          return localtimes[priorTrans.localtimeIdx];
        }
      }
      transI := transI - 1;
      if transI != 0 {
        priorTrans := transitions[transI - 1];
        priorSecond := transitions[transI].utctime - 1 + localtimes[priorTrans.localtimeIdx].utcOffset;
      }
      if localtime <= priorSecond {
        // repeated, or inside the first period
        if postTransition {
          return localtimes[transitions[transI].localtimeIdx];
        } else {
          return localtimes[priorTrans.localtimeIdx];
        }
      }
      return localtimes[transitions[transI].localtimeIdx];
    }

    method ToLocalTime(seconds: int) returns (dt: DateTime, utcOffset: int)
      requires Value().WellFormed() && SortedBy(transitions, UtcKey)
      requires FitsInt64(seconds + LookupUtc(Value(), seconds).utcOffset)
      ensures utcOffset == LookupUtc(Value(), seconds).utcOffset
      ensures BreakFits(seconds + utcOffset) ==> dt == ToLocal(Value(), seconds)
    {
      var local := FindByUtc(seconds);
      utcOffset := local.utcOffset;
      dt := BreakTime(seconds + local.utcOffset);
    }

    method FromLocalTime(lt: DateTime, postTransition: bool) returns (seconds: int)
      requires Value().WellFormed() && SortedBy(transitions, LocalKey)
      ensures seconds == FromLocal(Value(), lt, postTransition)
    {
      var local := FindByLocal(lt, postTransition);
      var localSeconds := FromUtcTime(lt);
      seconds := localSeconds - local.utcOffset;
    }
  }

  /** The local time, in seconds of the shifted epoch, that clocks show at an instant. */
  function ClockAt(z: Zone, t: int): int
    requires z.WellFormed()
  {
    t + LookupUtc(z, t).utcOffset
  }

  function ToLocal(z: Zone, t: int): DateTime
    requires z.WellFormed()
  {
    CivilOf(ClockAt(z, t))
  }

  /** The instant a local time in seconds is resolved to. */
  function Resolve(z: Zone, local: int, postTransition: bool): int
    requires z.WellFormed()
  {
    local - LookupLocal(z, local, postTransition).utcOffset
  }

  function FromLocal(z: Zone, lt: DateTime, postTransition: bool): int
    requires z.WellFormed()
  {
    Resolve(z, FromUtcTime(lt), postTransition)
  }
}
