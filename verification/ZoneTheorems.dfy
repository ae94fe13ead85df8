/** What the two lookups of a zone promise together. */
module ZoneTheorems {
  import opened CivilTime
  import opened TimeZones

  /** Transitions are further apart than any two offsets of the zone. */
  predicate WellSpaced(z: Zone) {
    && z.WellFormed()
    && forall i :: 0 <= i < |z.transitions| - 1 ==> SpacedAfter(z, i)
  }

  predicate SpacedAfter(z: Zone, i: int)
    requires 0 <= i < |z.transitions| - 1
  {
    forall a, b :: 0 <= a < |z.localtimes| && 0 <= b < |z.localtimes| ==>
      z.transitions[i + 1].utctime - z.transitions[i].utctime
      > z.localtimes[a].utcOffset - z.localtimes[b].utcOffset
  }

  function U(z: Zone, i: int): int
    requires 0 <= i < |z.transitions|
  {
    z.transitions[i].utctime
  }

  function L(z: Zone, i: int): int
    requires 0 <= i < |z.transitions|
  {
    z.transitions[i].localtime
  }

  lemma SpacingStep(z: Zone, i: int, a: int, b: int)
    requires WellSpaced(z) && 0 <= i < |z.transitions| - 1
    requires 0 <= a < |z.localtimes| && 0 <= b < |z.localtimes|
    ensures U(z, i + 1) - U(z, i) > z.localtimes[a].utcOffset - z.localtimes[b].utcOffset
  {
    assert SpacedAfter(z, i);
  }

  /** The spacing of neighbours carries to any two transitions. */
  lemma {:induction false} Spacing(z: Zone, i: int, j: int, a: int, b: int)
    requires WellSpaced(z) && 0 <= i < j < |z.transitions|
    requires 0 <= a < |z.localtimes| && 0 <= b < |z.localtimes|
    ensures U(z, j) - U(z, i) > z.localtimes[a].utcOffset - z.localtimes[b].utcOffset
    ensures U(z, i) < U(z, j)
    decreases j - i
  {
    SpacingStep(z, j - 1, a, b);
    SpacingStep(z, j - 1, a, a);
    if i < j - 1 {
      Spacing(z, i, j - 1, a, a);
    }
  }

  lemma SpacingAt(z: Zone, i: int, j: int, p: int, q: int)
    requires WellSpaced(z) && 0 <= i < j < |z.transitions|
    requires 0 <= p < |z.transitions| && 0 <= q < |z.transitions|
    ensures U(z, j) - U(z, i) > z.Offset(p) - z.Offset(q)
    ensures U(z, i) < U(z, j) && L(z, i) < L(z, j)
  {
    Spacing(z, i, j, z.transitions[p].localtimeIdx, z.transitions[q].localtimeIdx);
    Spacing(z, i, j, z.transitions[i].localtimeIdx, z.transitions[j].localtimeIdx);
  }

  /** A well-spaced zone meets the sortedness both binary searches rely on. */
  lemma WellSpacedSorted(z: Zone)
    requires WellSpaced(z)
    ensures SortedBy(z.transitions, UtcKey) && SortedBy(z.transitions, LocalKey)
  {
    forall i, j | 0 <= i < j < |z.transitions|
      ensures UtcKey(z.transitions[i]) <= UtcKey(z.transitions[j])
      ensures LocalKey(z.transitions[i]) <= LocalKey(z.transitions[j])
    {
      SpacingAt(z, i, j, i, j);
    }
  }

  /** In period k the clock runs at offset k. */
  lemma PeriodAt(z: Zone, t: int, k: int)
    requires WellSpaced(z) && 0 <= k < |z.transitions|
    requires U(z, k) <= t && (k + 1 < |z.transitions| ==> t < U(z, k + 1))
    ensures Last(z.transitions, UtcKey, t) == k && ClockAt(z, t) == t + z.Offset(k)
  {
    var i := Last(z.transitions, UtcKey, t);
    if k + 1 < i {
      SpacingAt(z, k + 1, i, i, i);
    }
  }

  lemma PeriodOf(z: Zone, t: int) returns (k: int)
    requires WellSpaced(z) && z.transitions != [] && t >= U(z, 0)
    ensures 0 <= k < |z.transitions| && k == Last(z.transitions, UtcKey, t)
    ensures U(z, k) <= t && (k + 1 < |z.transitions| ==> t < U(z, k + 1))
    ensures ClockAt(z, t) == t + z.Offset(k)
  {
    k := Last(z.transitions, UtcKey, t);
    if k + 1 < |z.transitions| {
      assert t < UtcKey(z.transitions[k + 1]);
    }
  }

  /** The last transition whose local time is not after a given one. */
  lemma LocalPeriod(z: Zone, local: int) returns (k: int)
    requires WellSpaced(z) && z.transitions != [] && local >= L(z, 0)
    ensures 0 <= k < |z.transitions| && k == Last(z.transitions, LocalKey, local)
    ensures L(z, k) <= local && (k + 1 < |z.transitions| ==> local < L(z, k + 1))
  {
    k := Last(z.transitions, LocalKey, local);
    if k + 1 < |z.transitions| {
      assert local < LocalKey(z.transitions[k + 1]);
    }
  }

  lemma SortedSplit(ts: seq<Transition>, key: Transition -> int, x: int, i: nat)
    requires SortedBy(ts, key) && i <= |ts|
    requires i > 0 ==> key(ts[i - 1]) <= x
    requires i < |ts| ==> x < key(ts[i])
    ensures forall j :: 0 <= j < i ==> key(ts[j]) <= x
    ensures forall j :: i <= j < |ts| ==> x < key(ts[j])
  {
  }

  /** Which type is in force: the first one before all transitions, else that of the last one begun. */
  lemma TypeInForce(z: Zone, t: int, i: int)
    requires z.WellFormed() && SortedBy(z.transitions, UtcKey) && -1 <= i < |z.transitions|
    requires i >= 0 ==> z.transitions[i].utctime <= t
    requires i + 1 < |z.transitions| ==> t < z.transitions[i + 1].utctime
    ensures LookupUtc(z, t) == z.localtimes[if i < 0 then 0 else z.transitions[i].localtimeIdx]
    ensures ClockAt(z, t) == t + LookupUtc(z, t).utcOffset
  {
    SortedSplit(z.transitions, UtcKey, t, i + 1);
    LastUnique(z.transitions, UtcKey, t, i + 1);
  }

  /** Without transitions, before the first local transition time and from the last one on, a local time
      has one resolution, whether or not the clock ever shows it. */
  lemma AtTheEdges(z: Zone, local: int, postTransition: bool)
    requires WellSpaced(z)
    ensures var n := |z.transitions|;
            var a := Resolve(z, local, postTransition);
            && (n == 0 || local < L(z, 0) ==> a == local - z.localtimes[0].utcOffset)
            && (n > 0 && local >= L(z, n - 1) ==>
                  a == local - z.localtimes[z.transitions[n - 1].localtimeIdx].utcOffset)
  {
    var n := |z.transitions|;
    WellSpacedSorted(z);
    if n > 0 && local < L(z, 0) {
      SortedSplit(z.transitions, LocalKey, local, 0);
      LastUnique(z.transitions, LocalKey, local, 0);
    }
    if n > 0 && local >= L(z, n - 1) {
      SortedSplit(z.transitions, LocalKey, local, n);
      LastUnique(z.transitions, LocalKey, local, n);
    }
  }

  /** An instant that shows a local time lies in the period found by local time or the one before. */
  lemma ShowingPeriods(z: Zone, t: int, k: int)
    requires WellSpaced(z) && 0 <= k < |z.transitions| && t >= U(z, 0)
    requires L(z, k) <= ClockAt(z, t) && (k + 1 < |z.transitions| ==> ClockAt(z, t) < L(z, k + 1))
    ensures var i := Last(z.transitions, UtcKey, t); i == k || (i == k - 1 && i >= 0)
  {
    var i := PeriodOf(z, t);
    if k + 1 <= i {
      if k + 1 < i {
        SpacingAt(z, k + 1, i, i, i);
      }
    } else if i < k - 1 {
      SpacingAt(z, i + 1, k, i, k);
    }
  }

  /** The resolutions of a local time in period k: past or before a gap, before or after an overlap. */
  lemma Resolutions(z: Zone, local: int, k: int)
    requires WellSpaced(z) && 0 <= k < |z.transitions| - 1 && k == Last(z.transitions, LocalKey, local)
    ensures var a, b := Resolve(z, local, false), Resolve(z, local, true);
            if U(z, k + 1) + z.Offset(k) <= local then
              a == local - z.Offset(k) && b == local - z.Offset(k + 1)
            else if k > 0 && local < U(z, k) + z.Offset(k - 1) then
              a == local - z.Offset(k - 1) && b == local - z.Offset(k)
            else a == b == local - z.Offset(k)
  {
  }

  /** No instant but the two resolutions can show the local time, and none at all in a gap. */
  lemma OnlyResolutions(z: Zone, local: int, k: int, t: int)
    requires WellSpaced(z) && 0 <= k < |z.transitions| - 1 && k == Last(z.transitions, LocalKey, local)
    requires L(z, k) <= local < L(z, k + 1)
    requires t >= U(z, 0) && ClockAt(z, t) == local
    ensures t == Resolve(z, local, false) || t == Resolve(z, local, true)
    ensures local < U(z, k + 1) + z.Offset(k)
  {
    Resolutions(z, local, k);
    ShowingPeriods(z, t, k);
    var i := PeriodOf(z, t);
    if i == k - 1 {
      SpacingAt(z, k, k + 1, k - 1, k);
    }
  }

  /** Outside a gap both resolutions show the local time, the earlier one first. */
  lemma ResolutionsShow(z: Zone, local: int, k: int)
    requires WellSpaced(z) && 0 <= k < |z.transitions| - 1 && k == Last(z.transitions, LocalKey, local)
    requires L(z, k) <= local < U(z, k + 1) + z.Offset(k)
    ensures var a, b := Resolve(z, local, false), Resolve(z, local, true);
            U(z, 0) <= a <= b && ClockAt(z, a) == local && ClockAt(z, b) == local
  {
    Resolutions(z, local, k);
    PeriodAt(z, local - z.Offset(k), k);
    if k > 0 {
      SpacingAt(z, 0, k, k, k);
      if local < U(z, k) + z.Offset(k - 1) {
        OverlapShows(z, local, k);
      }
    }
  }

  /** In an overlap the local time is also shown before the transition. */
  lemma OverlapShows(z: Zone, local: int, k: int)
    requires WellSpaced(z) && 0 < k < |z.transitions|
    requires L(z, k) <= local < U(z, k) + z.Offset(k - 1)
    ensures var a := local - z.Offset(k - 1); U(z, 0) <= a && ClockAt(z, a) == local
  {
    SpacingAt(z, k - 1, k, k - 1, k);
    PeriodAt(z, local - z.Offset(k - 1), k - 1);
    if k > 1 {
      SpacingAt(z, 0, k - 1, k, k);
    }
  }

  /** Between the first and the last local transition time, the instants from the first transition
      on that show a local time are exactly the two resolutions (earlier, then later), or none. */
  lemma InstantsShowing(z: Zone, local: int)
    requires WellSpaced(z) && z.transitions != []
    requires L(z, 0) <= local < L(z, |z.transitions| - 1)
    ensures var a, b := Resolve(z, local, false), Resolve(z, local, true);
            && (forall t :: t >= U(z, 0) && ClockAt(z, t) == local ==> t == a || t == b)
            && ((exists t :: t >= U(z, 0) && ClockAt(z, t) == local) ==>
                  U(z, 0) <= a <= b && ClockAt(z, a) == local && ClockAt(z, b) == local)
  {
    var k := LocalPeriod(z, local);
    forall t | t >= U(z, 0) && ClockAt(z, t) == local
      ensures t == Resolve(z, local, false) || t == Resolve(z, local, true)
      ensures local < U(z, k + 1) + z.Offset(k)
    {
      OnlyResolutions(z, local, k, t);
    }
    if local < U(z, k + 1) + z.Offset(k) {
      ResolutionsShow(z, local, k);
    }
  }

  /** Unique: if exactly one instant shows the local time, both flags find it. */
  lemma UniqueLocalTime(z: Zone, local: int, t: int)
    requires WellSpaced(z) && z.transitions != []
    requires L(z, 0) <= local < L(z, |z.transitions| - 1)
    requires t >= U(z, 0) && ClockAt(z, t) == local
    requires forall t' :: t' >= U(z, 0) && ClockAt(z, t') == local ==> t' == t
    ensures Resolve(z, local, false) == t && Resolve(z, local, true) == t
  {
    InstantsShowing(z, local);
  }

  /** Repeated: if two instants show it, there are no others; false finds the earlier, true the later. */
  lemma RepeatedLocalTime(z: Zone, local: int, t1: int, t2: int)
    requires WellSpaced(z) && z.transitions != []
    requires L(z, 0) <= local < L(z, |z.transitions| - 1)
    requires U(z, 0) <= t1 < t2 && ClockAt(z, t1) == local && ClockAt(z, t2) == local
    ensures Resolve(z, local, false) == t1 && Resolve(z, local, true) == t2
    ensures forall t :: t >= U(z, 0) && ClockAt(z, t) == local ==> t == t1 || t == t2
  {
    InstantsShowing(z, local);
  }

  /** Skipped: if no instant shows it, it lies in the gap of a transition; false goes past the gap
      by the gap's width, true stays before it by the same width. */
  lemma SkippedLocalTime(z: Zone, local: int) returns (i: int, gap: int)
    requires WellSpaced(z) && z.transitions != []
    requires L(z, 0) <= local < L(z, |z.transitions| - 1)
    requires forall t :: t >= U(z, 0) ==> ClockAt(z, t) != local
    ensures 1 <= i < |z.transitions| && gap == z.Offset(i) - z.Offset(i - 1) > 0
    ensures U(z, i) + z.Offset(i - 1) <= local < U(z, i) + z.Offset(i)
    ensures var a := Resolve(z, local, false); a >= U(z, i) && ClockAt(z, a) == local + gap
    ensures var b := Resolve(z, local, true); b < U(z, i) && ClockAt(z, b) == local - gap
  {
    var k := LocalPeriod(z, local);
    i := k + 1;
    gap := z.Offset(i) - z.Offset(k);
    Resolutions(z, local, k);
    if local < U(z, i) + z.Offset(k) {
      ResolutionsShow(z, local, k);
    }
    GapSides(z, local, k);
  }

  lemma GapSides(z: Zone, local: int, k: int)
    requires WellSpaced(z) && 0 <= k < |z.transitions| - 1
    requires U(z, k + 1) + z.Offset(k) <= local < L(z, k + 1)
    ensures ClockAt(z, local - z.Offset(k)) == local - z.Offset(k) + z.Offset(k + 1)
    ensures ClockAt(z, local - z.Offset(k + 1)) == local - z.Offset(k + 1) + z.Offset(k)
  {
    SpacingAt(z, k, k + 1, k + 1, k);
    if k + 2 < |z.transitions| {
      SpacingAt(z, k + 1, k + 2, k + 1, k);
    }
    PeriodAt(z, local - z.Offset(k), k + 1);
    PeriodAt(z, local - z.Offset(k + 1), k);
  }

  /** The instants that do not survive: those before the first transition whose clock already shows
      its local time, and those just before the last transition whose clock already shows its. */
  predicate Lost(z: Zone, t: int)
    requires z.WellFormed()
  {
    var n := |z.transitions|;
    n > 0 && ((t < U(z, 0) && ClockAt(z, t) >= L(z, 0))
              || (n > 1 && U(z, n - 2) <= t < U(z, n - 1) && ClockAt(z, t) >= L(z, n - 1)))
  }

  lemma BeforeFirst(z: Zone, t: int)
    requires WellSpaced(z) && z.transitions != [] && t < U(z, 0)
    ensures LookupUtc(z, t) == z.localtimes[0]
    ensures ClockAt(z, t) < L(z, 0) ==>
              Resolve(z, ClockAt(z, t), false) == t && Resolve(z, ClockAt(z, t), true) == t
    ensures ClockAt(z, t) >= L(z, 0) ==>
              Resolve(z, ClockAt(z, t), false) != t && Resolve(z, ClockAt(z, t), true) != t
  {
    var k := Last(z.transitions, UtcKey, t);
    if k > 0 {
      SpacingAt(z, 0, k, 0, 0);
    }
    var local := ClockAt(z, t);
    if local < L(z, 0) {
      var m := Last(z.transitions, LocalKey, local);
      if m > 0 {
        SpacingAt(z, 0, m, 0, 0);
      }
    } else {
      var m := LocalPeriod(z, local);
      if m > 0 {
        Spacing(z, 0, m, 0, z.transitions[m].localtimeIdx);
      } else if |z.transitions| > 1 {
        SpacingAt(z, 0, 1, 1, 0);
      }
    }
  }

  /** The clock showed the same time before the transition that t's period begins with. */
  predicate ShownBefore(z: Zone, t: int)
    requires z.WellFormed()
  {
    var k, n := Last(z.transitions, UtcKey, t), |z.transitions|;
    0 < k < n - 1 && t + z.Offset(k) < U(z, k) + z.Offset(k - 1)
  }

  /** The clock shows the same time again after the transition that ends t's period. */
  predicate ShownAgain(z: Zone, t: int)
    requires z.WellFormed()
  {
    var k, n := Last(z.transitions, UtcKey, t), |z.transitions|;
    0 <= k < n - 2 && t + z.Offset(k) >= L(z, k + 1)
  }

  /** What the two flags give for the local time shown at t. */
  predicate FlagsDecide(z: Zone, t: int)
    requires z.WellFormed()
  {
    var local := ClockAt(z, t);
    && (Resolve(z, local, false) == t <==> !Lost(z, t) && !ShownBefore(z, t))
    && (Resolve(z, local, true) == t <==> !Lost(z, t) && !ShownAgain(z, t))
  }

  /** The local lookup finds t's period or the next one. */
  lemma FoundPeriod(z: Zone, t: int, k: int)
    requires WellSpaced(z) && 0 <= k < |z.transitions| && k == Last(z.transitions, UtcKey, t)
    requires U(z, k) <= t && (k + 1 < |z.transitions| ==> t < U(z, k + 1))
    ensures var m := Last(z.transitions, LocalKey, t + z.Offset(k)); m == k || m == k + 1
  {
    if k > 0 {
      SpacingAt(z, 0, k, k, k);
    }
    var m := LocalPeriod(z, t + z.Offset(k));
    if m < k {
      SpacingAt(z, m, k, k, k);
      if m + 1 < k {
        SpacingAt(z, m + 1, k, k, k);
      }
    } else if m > k + 1 {
      SpacingAt(z, k + 1, m, k, m);
    }
  }

  lemma InItsOwnPeriod(z: Zone, t: int, k: int, local: int)
    requires WellSpaced(z) && 0 <= k < |z.transitions| - 1 && local == t + z.Offset(k)
    requires U(z, k) <= t < U(z, k + 1) && k == Last(z.transitions, LocalKey, local)
    ensures Resolve(z, local, false) == t <==> !(0 < k && local < U(z, k) + z.Offset(k - 1))
    ensures Resolve(z, local, true) == t && local < L(z, k + 1)
  {
    Resolutions(z, local, k);
    assert local < LocalKey(z.transitions[k + 1]);
  }

  lemma InTheNextPeriod(z: Zone, t: int, k: int, local: int)
    requires WellSpaced(z) && 0 <= k < |z.transitions| - 2 && local == t + z.Offset(k)
    requires U(z, k) <= t < U(z, k + 1) && k + 1 == Last(z.transitions, LocalKey, local)
    ensures Resolve(z, local, false) == t && !(0 < k && local < U(z, k) + z.Offset(k - 1))
    ensures Resolve(z, local, true) != t && local >= L(z, k + 1)
  {
    Resolutions(z, local, k + 1);
    SpacingAt(z, k + 1, k + 2, k, k + 1);
    if k > 0 {
      SpacingAt(z, k, k + 1, k - 1, k + 1);
    }
  }

  lemma NotLost(z: Zone, t: int)
    requires WellSpaced(z) && z.transitions != [] && t >= U(z, 0)
    requires Last(z.transitions, LocalKey, ClockAt(z, t)) < |z.transitions| - 1
    ensures !Lost(z, t)
  {
    assert ClockAt(z, t) < LocalKey(z.transitions[|z.transitions| - 1]);
  }

  lemma InTheLastPeriod(z: Zone, t: int, k: int)
    requires WellSpaced(z) && 0 <= k < |z.transitions| && k == Last(z.transitions, UtcKey, t)
    requires U(z, k) <= t && (k + 1 < |z.transitions| ==> t < U(z, k + 1))
    requires ClockAt(z, t) == t + z.Offset(k)
    requires |z.transitions| - 1 == Last(z.transitions, LocalKey, t + z.Offset(k)) <= k + 1
    ensures FlagsDecide(z, t)
  {
    if k > 0 {
      SpacingAt(z, 0, k, k, k);
    }
    if 0 < k < |z.transitions| - 1 {
      SpacingAt(z, k, k + 1, k - 1, k + 1);
    }
  }

  lemma BeforeTheLastPeriod(z: Zone, t: int, k: int, m: int)
    requires WellSpaced(z) && 0 <= k < |z.transitions| && k == Last(z.transitions, UtcKey, t)
    requires U(z, 0) <= t && U(z, k) <= t && (k + 1 < |z.transitions| ==> t < U(z, k + 1))
    requires ClockAt(z, t) == t + z.Offset(k) && m == Last(z.transitions, LocalKey, ClockAt(z, t))
    requires k <= m <= k + 1 && m < |z.transitions| - 1
    ensures FlagsDecide(z, t)
  {
    NotLost(z, t);
    if m == k {
      InItsOwnPeriod(z, t, k, ClockAt(z, t));
    } else {
      InTheNextPeriod(z, t, k, ClockAt(z, t));
    }
  }

  lemma FromFirstOn(z: Zone, t: int)
    requires WellSpaced(z) && z.transitions != [] && t >= U(z, 0)
    ensures FlagsDecide(z, t)
  {
    var k := PeriodOf(z, t);
    FoundPeriod(z, t, k);
    var m := Last(z.transitions, LocalKey, ClockAt(z, t));
    if m == |z.transitions| - 1 {
      InTheLastPeriod(z, t, k);
    } else {
      BeforeTheLastPeriod(z, t, k, m);
    }
  }

  lemma EachFlag(z: Zone, t: int)
    requires WellSpaced(z)
    ensures FlagsDecide(z, t)
  {
    if z.transitions != [] {
      if t < U(z, 0) {
        BeforeFirst(z, t);
      } else {
        FromFirstOn(z, t);
      }
    }
  }

  /** Through all three layers: breaking an instant down in the zone and resolving the result with a
      flag gives the instant back exactly when it is not one of the lost ones and, for false, its local
      time was not shown before, or, for true, is not shown again. */
  lemma FlagRoundTripIff(z: Zone, t: int)
    requires WellSpaced(z) && InRange(ClockAt(z, t))
    ensures ToLocal(z, t).Valid()
    ensures FromLocal(z, ToLocal(z, t), false) == t <==> !Lost(z, t) && !ShownBefore(z, t)
    ensures FromLocal(z, ToLocal(z, t), true) == t <==> !Lost(z, t) && !ShownAgain(z, t)
  {
    SecondsRoundTrip(ClockAt(z, t));
    EachFlag(z, t);
  }

  /** No local time is both shown before and shown again: one of the two flags gives the instant back
      exactly when it is not one of the lost ones. */
  lemma ZoneRoundTripIff(z: Zone, t: int)
    requires WellSpaced(z) && InRange(ClockAt(z, t))
    ensures ToLocal(z, t).Valid()
    ensures FromLocal(z, ToLocal(z, t), false) == t || FromLocal(z, ToLocal(z, t), true) == t
            <==> !Lost(z, t)
  {
    FlagRoundTripIff(z, t);
    NotTwice(z, t);
  }

  lemma NotTwice(z: Zone, t: int)
    requires WellSpaced(z)
    ensures !ShownBefore(z, t) || !ShownAgain(z, t)
  {
    var k := Last(z.transitions, UtcKey, t);
    if 0 < k < |z.transitions| - 2 {
      SpacingAt(z, k, k + 1, k - 1, k + 1);
    }
  }

  /** What the layers add up to: a local date and time stands for the instant plus the offset in force,
      and is resolved as its seconds are. */
  lemma LayersAgree(z: Zone, t: int, dt: DateTime, postTransition: bool)
    requires z.WellFormed() && InRange(ClockAt(z, t))
    ensures FromUtcTime(ToLocal(z, t)) == t + LookupUtc(z, t).utcOffset
    ensures FromLocal(z, dt, postTransition) == Resolve(z, FromUtcTime(dt), postTransition)
  {
    SecondsRoundTrip(ClockAt(z, t));
  }

  /** Before a first transition that turns the clock back. */
  lemma LostBeforeFirst() returns (z: Zone, t: int)
    ensures WellSpaced(z) && InRange(ClockAt(z, t)) && Lost(z, t) && t < U(z, 0)
  {
    z := Zone([Transition(0, -3600, 1)], [LocalTime(0, false, 0), LocalTime(-3600, false, 4)], [], []);
    t := -1;
    assert Last(z.transitions, UtcKey, t) == -1;
  }

  /** Just before a last transition that turns the clock back. */
  lemma LostBeforeLast() returns (z: Zone, t: int)
    ensures WellSpaced(z) && InRange(ClockAt(z, t)) && Lost(z, t) && U(z, 0) <= t
  {
    z := Zone([Transition(-90000, -90000, 0), Transition(0, -3600, 1)],
              [LocalTime(0, false, 0), LocalTime(-3600, false, 4)], [], []);
    t := -1;
    PeriodAt(z, t, 0);
  }
}
