/** The TZif reader of TimeZone.cc (RFC 8536, sections 3.1 to 3.3) over a byte cursor. */
module TzFile {
  import opened Endian
  import opened TimeZones
  import opened Wrappers

  /** A call that may throw a std::logic_error. */
  datatype Attempt<+T> = Got(value: T) | Threw {
    predicate IsFailure() { Threw? }

    function PropagateFailure<U>(): Attempt<U>
      requires Threw?
    {
      Threw
    }

    function Extract(): T
      requires Got?
    {
      value
    }
  }

  /** Whether n bytes can be had at a position; nothing can be had anywhere. */
  predicate Available(bytes: seq<byte>, pos: nat, n: int) {
    n >= 0 && (n == 0 || pos + n <= |bytes|)
  }

  function Slice(bytes: seq<byte>, pos: nat, n: nat): seq<byte>
    requires Available(bytes, pos, n)
  {
    if n == 0 then [] else bytes[pos..pos + n]
  }

  function Int32At(bytes: seq<byte>, pos: nat): int
    requires pos + 4 <= |bytes|
  {
    GetSigned(bytes[pos..pos + 4])
  }

  function Int64At(bytes: seq<byte>, pos: nat): int
    requires pos + 8 <= |bytes|
  {
    GetSigned(bytes[pos..pos + 8])
  }

  /** fseek relative to the current position: a negative target is refused. */
  function Moved(pos: nat, n: int): nat {
    if pos + n < 0 then pos else pos + n
  }

  /** How many of n bytes fread can deliver. */
  function Deliverable(bytes: seq<byte>, pos: nat, n: nat): nat {
    if pos >= |bytes| then 0 else if pos + n <= |bytes| then n else |bytes| - pos
  }

  class File {
    const bytes: seq<byte>
    var pos: nat

    constructor (bytes: seq<byte>)
      ensures this.bytes == bytes && pos == 0
    {
      this.bytes := bytes;
      pos := 0;
    }

    /** fread: as many of n bytes as there are. */
    method Fread(n: nat) returns (got: seq<byte>)
      modifies this
      ensures |got| == Deliverable(bytes, old(pos), n) && pos == old(pos) + |got|
      ensures got == (if got == [] then [] else bytes[old(pos)..pos])
    {
      var nr := Deliverable(bytes, pos, n);
      got := if nr == 0 then [] else bytes[pos..pos + nr];
      pos := pos + nr;
    }

    method ReadBytes(n: int) returns (r: Attempt<seq<byte>>)
      modifies this
      ensures r.Got? <==> Available(bytes, old(pos), n)
      ensures r.Got? ==> r.value == Slice(bytes, old(pos), n) && pos == old(pos) + n
    {
      if n < 0 {
        return Threw;
      }
      var got := Fread(n);
      r := if |got| != n then Threw else Got(got);
    }

    method ReadInt32() returns (r: Attempt<int>)
      modifies this
      ensures r.Got? <==> old(pos) + 4 <= |bytes|
      ensures r.Got? ==> r.value == Int32At(bytes, old(pos)) && pos == old(pos) + 4
    {
      var got := Fread(4);
      r := if |got| != 4 then Threw else Got(GetSigned(got));
    }

    method ReadInt64() returns (r: Attempt<int>)
      modifies this
      ensures r.Got? <==> old(pos) + 8 <= |bytes|
      ensures r.Got? ==> r.value == Int64At(bytes, old(pos)) && pos == old(pos) + 8
    {
      var got := Fread(8);
      r := if |got| != 8 then Threw else Got(GetSigned(got));
    }

    method ReadUInt8() returns (r: Attempt<byte>)
      modifies this
      ensures r.Got? <==> old(pos) + 1 <= |bytes|
      ensures r.Got? ==> r.value == bytes[old(pos)] && pos == old(pos) + 1
    {
      var got := Fread(1);
      r := if |got| != 1 then Threw else Got(got[0]);
    }

    method Skip(n: int)
      modifies this
      ensures pos == Moved(old(pos), n)
    {
      pos := if pos + n < 0 then pos else pos + n;
    }

    method ReadToEnd() returns (result: seq<byte>)
      modifies this
      ensures result == (if old(pos) <= |bytes| then bytes[old(pos)..] else [])
    {
      result := [];
      var got := Fread(4096);
      while got != []
        invariant if old(pos) >= |bytes| then got == result == [] else
                    old(pos) + |result| + |got| == pos <= |bytes|
                    && result + got == bytes[old(pos)..pos]
                    && (got == [] ==> pos == |bytes|)
        decreases |bytes| + 1 - |result|
      {
        result := result + got;
        got := Fread(4096);
      }
    }
  }

  /* ---- The layout of a data block, RFC 8536 sections 3.1 and 3.2 ---- */

  datatype Counts = Counts(isutccnt: int, isstdcnt: int, leapcnt: int, timecnt: int, typecnt: int, charcnt: int)

  function CountsAt(b: seq<byte>, p: nat): Counts
    requires p + 24 <= |b|
  {
    Counts(Int32At(b, p), Int32At(b, p + 4), Int32At(b, p + 8),
           Int32At(b, p + 12), Int32At(b, p + 16), Int32At(b, p + 20))
  }

  /** The counts a reader accepts. */
  predicate GoodCounts(c: Counts) {
    && c.leapcnt == 0
    && (c.isutccnt == 0 || c.isutccnt == c.typecnt)
    && (c.isstdcnt == 0 || c.isstdcnt == c.typecnt)
    && c.timecnt >= 0 && c.typecnt >= 0 && c.charcnt >= 0
  }

  /** The size of n transition times. */
  function TimesSize(n: nat, v1: bool): nat {
    if v1 then 4 * n else 8 * n
  }

  function TimeAt(b: seq<byte>, base: nat, v1: bool, i: nat): int
    requires base + TimesSize(i + 1, v1) <= |b|
  {
    if v1 then Int32At(b, base + 4 * i) else Int64At(b, base + 8 * i)
  }

  function TypeAt(b: seq<byte>, base: nat, i: nat): LocalTime
    requires base + 6 * (i + 1) <= |b|
  {
    LocalTime(Int32At(b, base + 6 * i), b[base + 6 * i + 4] != 0, b[base + 6 * i + 5])
  }

  /** Where the parts of the block at p start: transition types, local time types, designations, end. */
  function IndexBase(c: Counts, p: nat, v1: bool): nat
    requires GoodCounts(c)
  {
    p + 24 + TimesSize(c.timecnt, v1)
  }

  function TypeBase(c: Counts, p: nat, v1: bool): nat
    requires GoodCounts(c)
  {
    IndexBase(c, p, v1) + c.timecnt
  }

  function CharBase(c: Counts, p: nat, v1: bool): nat
    requires GoodCounts(c)
  {
    TypeBase(c, p, v1) + 6 * c.typecnt
  }

  /** The type indices after n transition times. */
  function IndexSlice(b: seq<byte>, at: nat, n: nat, v1: bool): seq<byte>
    requires at + TimesSize(n, v1) + n <= |b|
  {
    b[at + TimesSize(n, v1)..at + TimesSize(n, v1) + n]
  }

  /** The type indices of the transitions. */
  function Indices(b: seq<byte>, c: Counts, p: nat, v1: bool): seq<byte>
    requires GoodCounts(c) && TypeBase(c, p, v1) <= |b|
  {
    IndexSlice(b, p + 24, c.timecnt, v1)
  }

  predicate AllBelow(indices: seq<byte>, limit: int) {
    forall i :: 0 <= i < |indices| ==> indices[i] < limit
  }

  /** The arrays up to the local time types are there, and every transition names an existing type. */
  predicate TablesAccepted(b: seq<byte>, at: nat, timecnt: int, typecnt: int, v1: bool) {
    && timecnt >= 0 && typecnt >= 0
    && at + TimesSize(timecnt, v1) + timecnt + 6 * typecnt <= |b|
    && AllBelow(IndexSlice(b, at, timecnt, v1), typecnt)
  }

  predicate TypesHold(b: seq<byte>, at: nat, types: seq<LocalTime>)
    requires at + 6 * |types| <= |b|
  {
    forall i :: 0 <= i < |types| ==> types[i] == TypeAt(b, at, i)
  }

  /** The transitions with times from a position on and the given type indices. */
  predicate TransitionsHold(b: seq<byte>, at: nat, v1: bool, indices: seq<byte>,
                            types: seq<LocalTime>, ts: seq<Transition>)
    requires at + TimesSize(|indices|, v1) <= |b| && AllBelow(indices, |types|)
  {
    && |ts| == |indices|
    && forall i :: 0 <= i < |ts| ==>
         var t := TimeAt(b, at, v1, i);
         ts[i] == Transition(t, t + types[indices[i]].utcOffset, indices[i])
  }

  /** Transitions and local time types are those whose tables lie at a position. */
  predicate TablesHold(b: seq<byte>, at: nat, timecnt: nat, typecnt: nat, v1: bool,
                       ts: seq<Transition>, types: seq<LocalTime>)
    requires TablesAccepted(b, at, timecnt, typecnt, v1)
  {
    && |types| == typecnt && TypesHold(b, at + TimesSize(timecnt, v1) + timecnt, types)
    && TransitionsHold(b, at, v1, IndexSlice(b, at, timecnt, v1), types, ts)
  }

  /** The arrays that counts c announce at p are all there, and every transition names an existing type. */
  predicate PartsAccepted(b: seq<byte>, p: nat, c: Counts, v1: bool) {
    && GoodCounts(c)
    && CharBase(c, p, v1) + c.charcnt <= |b|
    && AllBelow(Indices(b, c, p, v1), c.typecnt)
  }

  /** A block is accepted exactly when its counts and the arrays they announce are. */
  predicate BlockAccepted(b: seq<byte>, p: nat, v1: bool) {
    p + 24 <= |b| && PartsAccepted(b, p, CountsAt(b, p), v1)
  }

  function TransitionAt(b: seq<byte>, p: nat, c: Counts, v1: bool, i: nat): Transition
    requires PartsAccepted(b, p, c, v1) && i < c.timecnt
  {
    var t := TimeAt(b, p + 24, v1, i);
    var idx := Indices(b, c, p, v1)[i];
    Transition(t, t + TypeAt(b, TypeBase(c, p, v1), idx).utcOffset, idx)
  }

  function PartsZone(b: seq<byte>, p: nat, c: Counts, v1: bool): Zone
    requires PartsAccepted(b, p, c, v1)
  {
    var end := CharBase(c, p, v1) + c.charcnt;
    var footer := end + c.isstdcnt + c.isutccnt;
    Zone(seq(c.timecnt, i requires 0 <= i < c.timecnt => TransitionAt(b, p, c, v1, i)),
         seq(c.typecnt, i requires 0 <= i < c.typecnt => TypeAt(b, TypeBase(c, p, v1), i)),
         b[CharBase(c, p, v1)..end],
         if v1 || footer > |b| then [] else b[footer..])
  }

  /** What an accepted block means. */
  function BlockZone(b: seq<byte>, p: nat, v1: bool): Zone
    requires BlockAccepted(b, p, v1)
  {
    PartsZone(b, p, CountsAt(b, p), v1)
  }

  /* ---- The reader ---- */

  method ReadCounts(f: File) returns (r: Attempt<Counts>)
    modifies f
    ensures r.Got? <==> old(f.pos) + 24 <= |f.bytes|
    ensures r.Got? ==> r.value == CountsAt(f.bytes, old(f.pos)) && f.pos == old(f.pos) + 24
  {
    var isutccnt :- f.ReadInt32();
    var isstdcnt :- f.ReadInt32();
    var leapcnt :- f.ReadInt32();
    var timecnt :- f.ReadInt32();
    var typecnt :- f.ReadInt32();
    var charcnt :- f.ReadInt32();
    return Got(Counts(isutccnt, isstdcnt, leapcnt, timecnt, typecnt, charcnt));
  }

  method ReadTimes(f: File, timecnt: int, v1: bool) returns (r: Attempt<seq<int>>)
    requires f.pos <= |f.bytes|
    modifies f
    ensures r.Got? <==> timecnt >= 0 && old(f.pos) + TimesSize(timecnt, v1) <= |f.bytes|
    ensures r.Got? ==> f.pos == old(f.pos) + TimesSize(timecnt, v1) && |r.value| == timecnt
    ensures r.Got? ==> forall i :: 0 <= i < timecnt ==> r.value[i] == TimeAt(f.bytes, old(f.pos), v1, i)
  {
    // reserve() of a negative count throws std::length_error
    if timecnt < 0 {
      return Threw;
    }
    var trans: seq<int> := [];
    for i := 0 to timecnt
      invariant |trans| == i && f.pos == old(f.pos) + TimesSize(i, v1) <= |f.bytes|
      invariant forall j :: 0 <= j < i ==> trans[j] == TimeAt(f.bytes, old(f.pos), v1, j)
    {
      var t;
      if v1 {
        t :- f.ReadInt32();
      } else {
        t :- f.ReadInt64();
      }
      trans := trans + [t];
    }
    return Got(trans);
  }

  method ReadIndices(f: File, timecnt: nat) returns (r: Attempt<seq<byte>>)
    requires f.pos <= |f.bytes|
    modifies f
    ensures r.Got? <==> old(f.pos) + timecnt <= |f.bytes|
    ensures r.Got? ==> f.pos == old(f.pos) + timecnt && r.value == f.bytes[old(f.pos)..f.pos]
  {
    var localtimes: seq<byte> := [];
    for i := 0 to timecnt
      invariant f.pos == old(f.pos) + i <= |f.bytes| && localtimes == f.bytes[old(f.pos)..f.pos]
    {
      var local :- f.ReadUInt8();
      localtimes := localtimes + [local];
    }
    return Got(localtimes);
  }

  method ReadTypes(f: File, data: ZoneData, typecnt: int) returns (r: Attempt<()>)
    requires f.pos <= |f.bytes| && data.Value() == Zone([], [], [], [])
    modifies f, data
    ensures r.Got? <==> typecnt >= 0 && old(f.pos) + 6 * typecnt <= |f.bytes|
    ensures r.Got? ==> f.pos == old(f.pos) + 6 * typecnt && |data.localtimes| == typecnt
    ensures r.Got? ==> data.Value() == Zone([], data.localtimes, [], [])
    ensures r.Got? ==> forall i :: 0 <= i < typecnt ==> data.localtimes[i] == TypeAt(f.bytes, old(f.pos), i)
  {
    if typecnt < 0 {
      return Threw;
    }
    for i := 0 to typecnt
      invariant f.pos == old(f.pos) + 6 * i <= |f.bytes| && |data.localtimes| == i
      invariant data.Value() == Zone([], data.localtimes, [], [])
      invariant forall j :: 0 <= j < i ==> data.localtimes[j] == TypeAt(f.bytes, old(f.pos), j)
    {
      var gmtoff :- f.ReadInt32();
      var isdst :- f.ReadUInt8();
      var abbrind :- f.ReadUInt8();
      data.AddLocalTime(gmtoff, isdst != 0, abbrind);
    }
    return Got(());
  }

  method AddTransitions(data: ZoneData, trans: seq<int>, indices: seq<byte>) returns (r: Attempt<()>)
    requires |trans| == |indices| && data.transitions == []
    modifies data
    ensures r.Got? <==> AllBelow(indices, |old(data.localtimes)|)
    ensures r.Got? ==> |data.transitions| == |trans|
                       && data.Value() == old(data.Value()).(transitions := data.transitions)
    ensures r.Got? ==>
              forall i :: 0 <= i < |trans| ==>
                data.transitions[i]
                == Transition(trans[i], trans[i] + old(data.localtimes)[indices[i]].utcOffset, indices[i])
  {
    for i := 0 to |trans|
      invariant |data.transitions| == i
      invariant data.Value() == old(data.Value()).(transitions := data.transitions)
      invariant forall j :: 0 <= j < i ==> indices[j] < |old(data.localtimes)|
      invariant forall j :: 0 <= j < i ==>
                  data.transitions[j]
                  == Transition(trans[j], trans[j] + old(data.localtimes)[indices[j]].utcOffset, indices[j])
    {
      var threw := data.AddTransition(trans[i], indices[i]);
      if threw {
        return Threw;
      }
    }
    return Got(());
  }

  /** Transition times, transition types and local time types, in file order. */
  method ReadArrays(f: File, data: ZoneData, timecnt: int, typecnt: int, v1: bool)
    returns (r: Attempt<(seq<int>, seq<byte>)>)
    requires f.pos <= |f.bytes|
    requires data.Value() == Zone([], [], [], [])
    modifies f, data
    ensures r.Got? <==> timecnt >= 0 && typecnt >= 0
                        && old(f.pos) + TimesSize(timecnt, v1) + timecnt + 6 * typecnt <= |f.bytes|
    ensures r.Got? ==>
              var index := old(f.pos) + TimesSize(timecnt, v1);
              && f.pos == index + timecnt + 6 * typecnt
              && |r.value.0| == timecnt && r.value.1 == f.bytes[index..index + timecnt]
              && |data.localtimes| == typecnt && data.Value() == Zone([], data.localtimes, [], [])
              && (forall i :: 0 <= i < timecnt ==> r.value.0[i] == TimeAt(f.bytes, old(f.pos), v1, i))
              && (forall i :: 0 <= i < typecnt ==> data.localtimes[i] == TypeAt(f.bytes, index + timecnt, i))
  {
    var trans :- ReadTimes(f, timecnt, v1);
    var indices :- ReadIndices(f, timecnt);
    var _ :- ReadTypes(f, data, typecnt);
    return Got((trans, indices));
  }

  /** The same, and the transitions they make. */
  method ReadTables(f: File, data: ZoneData, timecnt: int, typecnt: int, v1: bool) returns (r: Attempt<()>)
    requires f.pos <= |f.bytes|
    requires data.Value() == Zone([], [], [], [])
    modifies f, data
    ensures r.Got? <==> TablesAccepted(f.bytes, old(f.pos), timecnt, typecnt, v1)
    ensures r.Got? ==> f.pos == old(f.pos) + TimesSize(timecnt, v1) + timecnt + 6 * typecnt
    ensures r.Got? ==> data.Value() == Zone(data.transitions, data.localtimes, [], [])
    ensures r.Got? ==>
              TablesHold(f.bytes, old(f.pos), timecnt, typecnt, v1, data.transitions, data.localtimes)
  {
    var arrays :- ReadArrays(f, data, timecnt, typecnt, v1);
    r := AddTransitions(data, arrays.0, arrays.1);
  }

  /** The arrays of a block whose counts have been checked. */
  method ReadParts(f: File, data: ZoneData, c: Counts, v1: bool) returns (r: Attempt<()>)
    requires f.pos >= 24 && f.pos <= |f.bytes|
    requires c.leapcnt == 0
             && (c.isutccnt == 0 || c.isutccnt == c.typecnt) && (c.isstdcnt == 0 || c.isstdcnt == c.typecnt)
    requires data.Value() == Zone([], [], [], [])
    modifies f, data
    ensures r.Got? <==> PartsAccepted(f.bytes, old(f.pos) - 24, c, v1)
    ensures r.Got? ==> f.pos == CharBase(c, old(f.pos) - 24, v1) + c.charcnt
    ensures r.Got? ==> data.Value() == PartsZone(f.bytes, old(f.pos) - 24, c, v1).(tzstring := [])
  {
    ghost var p := f.pos - 24;
    PartsAcceptedIff(f.bytes, p, c, v1);
    var _ :- ReadTables(f, data, c.timecnt, c.typecnt, v1);
    var abbreviation :- f.ReadBytes(c.charcnt);
    PartsAreZone(f.bytes, p, c, v1, data.transitions, data.localtimes);
    data.abbreviation := abbreviation;
    return Got(());
  }

  /** Acceptance in the order the reader finds it out. */
  lemma PartsAcceptedIff(b: seq<byte>, p: nat, c: Counts, v1: bool)
    requires c.leapcnt == 0
             && (c.isutccnt == 0 || c.isutccnt == c.typecnt) && (c.isstdcnt == 0 || c.isstdcnt == c.typecnt)
    ensures PartsAccepted(b, p, c, v1) <==>
              && TablesAccepted(b, p + 24, c.timecnt, c.typecnt, v1)
              && Available(b, p + 24 + TimesSize(c.timecnt, v1) + c.timecnt + 6 * c.typecnt, c.charcnt)
  {
  }

  lemma PartsAreZone(b: seq<byte>, p: nat, c: Counts, v1: bool, ts: seq<Transition>, types: seq<LocalTime>)
    requires PartsAccepted(b, p, c, v1) && TablesAccepted(b, p + 24, c.timecnt, c.typecnt, v1)
    requires TablesHold(b, p + 24, c.timecnt, c.typecnt, v1, ts, types)
    ensures Zone(ts, types, Slice(b, CharBase(c, p, v1), c.charcnt), [])
            == PartsZone(b, p, c, v1).(tzstring := [])
  {
    TypesAreZone(b, p, c, v1, types);
    TransitionsAreZone(b, p, c, v1, ts, types);
  }

  lemma TypesAreZone(b: seq<byte>, p: nat, c: Counts, v1: bool, types: seq<LocalTime>)
    requires PartsAccepted(b, p, c, v1)
    requires |types| == c.typecnt && TypesHold(b, TypeBase(c, p, v1), types)
    ensures types == PartsZone(b, p, c, v1).localtimes
  {
  }

  lemma TransitionsAreZone(b: seq<byte>, p: nat, c: Counts, v1: bool,
                           ts: seq<Transition>, types: seq<LocalTime>)
    requires PartsAccepted(b, p, c, v1)
    requires |types| == c.typecnt && TypesHold(b, TypeBase(c, p, v1), types)
    requires TransitionsHold(b, p + 24, v1, Indices(b, c, p, v1), types, ts)
    ensures ts == PartsZone(b, p, c, v1).transitions
  {
    var held := PartsZone(b, p, c, v1).transitions;
    forall i | 0 <= i < |ts|
      ensures ts[i] == held[i]
    {
      TransitionHeld(b, p, c, v1, ts, types, i);
    }
  }

  lemma TransitionHeld(b: seq<byte>, p: nat, c: Counts, v1: bool,
                       ts: seq<Transition>, types: seq<LocalTime>, i: nat)
    requires PartsAccepted(b, p, c, v1) && i < c.timecnt
    requires |types| == c.typecnt && TypesHold(b, TypeBase(c, p, v1), types)
    requires TransitionsHold(b, p + 24, v1, Indices(b, c, p, v1), types, ts)
    ensures ts[i] == TransitionAt(b, p, c, v1, i)
  {
    assert Indices(b, c, p, v1)[i] < c.typecnt;
  }

  /** Reads one block into empty data: true exactly for an accepted block, and then the data are its zone. */
  method ReadDataBlock(f: File, data: ZoneData, v1: bool) returns (r: Attempt<bool>)
    requires data.Value() == Zone([], [], [], [])
    modifies f, data
    ensures r == Got(true) <==> BlockAccepted(f.bytes, old(f.pos), v1)
    ensures r == Got(true) ==> data.Value() == BlockZone(f.bytes, old(f.pos), v1)
  {
    var c :- ReadCounts(f);
    if c.leapcnt != 0 {
      return Got(false);
    }
    if c.isutccnt != 0 && c.isutccnt != c.typecnt {
      return Got(false);
    }
    if c.isstdcnt != 0 && c.isstdcnt != c.typecnt {
      return Got(false);
    }
    var _ :- ReadParts(f, data, c, v1);
    ReadFooter(f, data, c, v1);
    return Got(true);
  }

  /** Skips leap seconds and indicators; a version 2 block is followed by the footer. */
  method ReadFooter(f: File, data: ZoneData, c: Counts, v1: bool)
    requires GoodCounts(c) && data.tzstring == []
    modifies f, data
    ensures var footer := old(f.pos) + c.isstdcnt + c.isutccnt;
            data.Value() == old(data.Value()).(
              tzstring := if v1 || footer > |f.bytes| then [] else f.bytes[footer..])
  {
    var timeSize := if v1 then 4 else 8;
    f.Skip(c.leapcnt * (timeSize + 4));
    f.Skip(c.isstdcnt);
    f.Skip(c.isutccnt);
    if !v1 {
      var rest := f.ReadToEnd();
      data.tzstring := rest;
    }
  }

  /* ---- The whole file, RFC 8536 section 3 ---- */

  const MAGIC: seq<byte> := [0x54, 0x5A, 0x69, 0x66]   // "TZif"
  const VERSION_2: byte := 0x32                        // '2'

  /** The size of the version 1 block that a version 2 reader steps over. */
  function FirstBlockSize(c: Counts): int {
    4 * c.timecnt + c.timecnt + 6 * c.typecnt + c.charcnt + 8 * c.leapcnt + c.isstdcnt + c.isutccnt
  }

  datatype BlockRef = BlockRef(pos: nat, v1: bool)

  /** The block that counts: after the second header for version '2', else right after the version. */
  function LocateBlock(b: seq<byte>): Option<BlockRef> {
    if 44 > |b| || b[..4] != MAGIC then None
    else if b[4] != VERSION_2 then Some(BlockRef(20, true))
    else
      var q := Moved(44, FirstBlockSize(CountsAt(b, 20)));
      if q + 4 <= |b| && b[q..q + 4] == MAGIC then Some(BlockRef(q + 20, false)) else None
  }

  predicate FileAccepted(b: seq<byte>) {
    var block := LocateBlock(b);
    block.Some? && BlockAccepted(b, block.value.pos, block.value.v1)
  }

  function FileZone(b: seq<byte>): Zone
    requires FileAccepted(b)
  {
    var block := LocateBlock(b).value;
    BlockZone(b, block.pos, block.v1)
  }

  /** Reads a file: true exactly when the block that counts exists and is accepted. */
  method ReadTimeZoneFile(zonefile: Option<seq<byte>>, data: ZoneData) returns (ok: bool)
    requires data.Value() == Zone([], [], [], [])
    modifies data
    ensures ok <==> zonefile.Some? && FileAccepted(zonefile.value)
    ensures ok ==> data.Value() == FileZone(zonefile.value)
  {
    if zonefile.None? {
      return false;
    }
    var f := new File(zonefile.value);
    var r := ReadOpenFile(f, data);
    ok := r == Got(true);
  }

  /** The version byte and the counts of the first header. */
  method ReadFirstHeader(f: File) returns (r: Attempt<(byte, Counts)>)
    requires f.pos == 0
    modifies f
    ensures r.Got? <==> 44 <= |f.bytes| && f.bytes[..4] == MAGIC
    ensures r.Got? ==> f.pos == 44 && r.value == (f.bytes[4], CountsAt(f.bytes, 20))
  {
    var head :- f.ReadBytes(4);
    if head != MAGIC {
      return Threw;
    }
    var version :- f.ReadBytes(1);
    var _ :- f.ReadBytes(15);
    var c :- ReadCounts(f);
    return Got((version[0], c));
  }

  method ReadOpenFile(f: File, data: ZoneData) returns (r: Attempt<bool>)
    requires f.pos == 0 && data.Value() == Zone([], [], [], [])
    modifies f, data
    ensures r == Got(true) <==> FileAccepted(f.bytes)
    ensures r == Got(true) ==> data.Value() == FileZone(f.bytes)
  {
    var head :- ReadFirstHeader(f);
    if head.0 == VERSION_2 {
      r := ReadSecondBlock(f, data, FirstBlockSize(head.1));
    } else {
      f.Skip(-4 * 6);
      r := ReadDataBlock(f, data, true);
    }
  }

  /** Steps over the first block, checks the second header and reads the block after it. */
  method ReadSecondBlock(f: File, data: ZoneData, skip: int) returns (r: Attempt<bool>)
    requires data.Value() == Zone([], [], [], [])
    modifies f, data
    ensures var q := Moved(old(f.pos), skip);
            && (r == Got(true) <==> q + 4 <= |f.bytes| && f.bytes[q..q + 4] == MAGIC
                                    && BlockAccepted(f.bytes, q + 20, false))
            && (r == Got(true) ==> data.Value() == BlockZone(f.bytes, q + 20, false))
  {
    f.Skip(skip);
    var head :- f.ReadBytes(4);
    if head != MAGIC {
      return Threw;
    }
    f.Skip(16);
    r := ReadDataBlock(f, data, false);
  }

  /** loadZoneFile: no data at all unless the file was read successfully. */
  method LoadZoneFile(zonefile: Option<seq<byte>>) returns (data: ZoneData?)
    ensures data != null <==> zonefile.Some? && FileAccepted(zonefile.value)
    ensures data != null ==> fresh(data) && data.Value() == FileZone(zonefile.value)
  {
    var loaded := new ZoneData();
    var ok := ReadTimeZoneFile(zonefile, loaded);
    data := if ok then loaded else null;
  }
}
