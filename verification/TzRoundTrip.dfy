/** Writing a zone as RFC 8536 prescribes and reading it back. */
module TzRoundTrip {
  import opened Endian
  import opened TimeZones
  import opened TzFile
  import opened Wrappers

  function Flat(rs: seq<seq<byte>>): seq<byte> {
    if rs == [] then [] else rs[0] + Flat(rs[1..])
  }

  lemma {:induction false} FlatLength(rs: seq<seq<byte>>, w: nat)
    requires forall k :: 0 <= k < |rs| ==> |rs[k]| == w
    ensures |Flat(rs)| == w * |rs|
  {
    if rs != [] {
      FlatLength(rs[1..], w);
      Distribute(w, |rs|);
    }
  }

  lemma Distribute(w: nat, n: nat)
    requires n > 0
    ensures w * n == w + w * (n - 1)
  {
  }

  lemma {:induction false} Scale(w: nat, i: nat, n: nat)
    requires i < n
    ensures w * i + w <= w * n
  {
    Distribute(w, n);
    if i < n - 1 {
      Scale(w, i, n - 1);
    }
  }

  /** Record i of equally wide records. */
  lemma {:induction false} FlatAt(rs: seq<seq<byte>>, w: nat, i: nat)
    requires i < |rs| && forall k :: 0 <= k < |rs| ==> |rs[k]| == w
    ensures |Flat(rs)| == w * |rs| && w * i + w <= w * |rs|
    ensures Flat(rs)[w * i..w * i + w] == rs[i]
  {
    FlatLength(rs, w);
    Scale(w, i, |rs|);
    if i > 0 {
      FlatAt(rs[1..], w, i - 1);
      Distribute(w, i);
      ShiftSlice(rs[0], Flat(rs[1..]), w * (i - 1), w);
    } else {
      assert w * i == 0;
    }
  }

  lemma ShiftSlice(x: seq<byte>, y: seq<byte>, at: nat, w: nat)
    requires |x| == w && at + w <= |y|
    ensures (x + y)[w + at..w + at + w] == y[at..at + w]
  {
  }

  /** A zone to write, with its standard/wall and UT/local indicators (absent or one a type). */
  datatype Draft = Draft(z: Zone, isstd: seq<byte>, isut: seq<byte>, v1: bool) {
    function TimeWidth(): nat {
      if v1 then 4 else 8
    }

    predicate Encodable() {
      && z.WellFormed()
      && FitsSigned(|z.transitions|, 4) && FitsSigned(|z.localtimes|, 4) && FitsSigned(|z.abbreviation|, 4)
      && (forall i :: 0 <= i < |z.transitions| ==>
            FitsSigned(z.transitions[i].utctime, TimeWidth()) && z.transitions[i].localtimeIdx < 256)
      && (forall i :: 0 <= i < |z.localtimes| ==>
            FitsSigned(z.localtimes[i].utcOffset, 4) && 0 <= z.localtimes[i].desigIdx < 256)
      && (isstd == [] || |isstd| == |z.localtimes|)
      && (isut == [] || |isut| == |z.localtimes|)
    }

    function Header(): Counts {
      Counts(|isut|, |isstd|, 0, |z.transitions|, |z.localtimes|, |z.abbreviation|)
    }
  }

  /** What the format can express. */
  type Writable = d: Draft | d.Encodable()
    witness Draft(Zone([], [LocalTime(0, false, 0)], [], []), [], [], true)

  function PutCounts(d: Writable): seq<seq<byte>> {
    [PutSigned(|d.isut|, 4), PutSigned(|d.isstd|, 4), PutSigned(0, 4),
     PutSigned(|d.z.transitions|, 4), PutSigned(|d.z.localtimes|, 4), PutSigned(|d.z.abbreviation|, 4)]
  }

  function PutTimes(d: Writable): seq<seq<byte>> {
    seq(|d.z.transitions|, i requires 0 <= i < |d.z.transitions| =>
      PutSigned(d.z.transitions[i].utctime, d.TimeWidth()))
  }

  function PutIndices(d: Writable): seq<byte> {
    seq(|d.z.transitions|, i requires 0 <= i < |d.z.transitions| => d.z.transitions[i].localtimeIdx as byte)
  }

  function PutType(t: LocalTime): (bs: seq<byte>)
    requires FitsSigned(t.utcOffset, 4) && 0 <= t.desigIdx < 256
    ensures |bs| == 6
  {
    PutSigned(t.utcOffset, 4) + [if t.isDst then 1 else 0, t.desigIdx]
  }

  function PutTypes(d: Writable): seq<seq<byte>> {
    seq(|d.z.localtimes|, i requires 0 <= i < |d.z.localtimes| => PutType(d.z.localtimes[i]))
  }

  /** Six pieces in a row. */
  function Row(c: seq<byte>, t: seq<byte>, i: seq<byte>, y: seq<byte>, a: seq<byte>, r: seq<byte>): (bs: seq<byte>)
    ensures |bs| == |c| + |t| + |i| + |y| + |a| + |r|
  {
    c + (t + (i + (y + (a + r))))
  }

  /** RFC 8536 section 3.2, without leap seconds, preceded by the six counts of section 3.1. */
  function PutBlock(d: Writable): seq<byte> {
    Row(Flat(PutCounts(d)), Flat(PutTimes(d)), PutIndices(d), Flat(PutTypes(d)), d.z.abbreviation, d.isstd + d.isut)
  }

  /** A piece of b that starts at position at. */
  predicate Holds(b: seq<byte>, at: nat, piece: seq<byte>) {
    && at + |piece| <= |b|
    && forall k {:trigger piece[k]} :: 0 <= k < |piece| ==> b[at + k] == piece[k]
  }

  lemma SubPiece(b: seq<byte>, at: nat, piece: seq<byte>, i: nat, j: nat)
    requires Holds(b, at, piece) && i <= j <= |piece|
    ensures b[at + i..at + j] == piece[i..j]
  {
    forall k | 0 <= k < j - i
      ensures b[at + i..at + j][k] == piece[i..j][k]
    {
      assert b[at + (i + k)] == piece[i + k];
    }
  }

  lemma SubPieceAt(b: seq<byte>, at: nat, piece: seq<byte>, lo: nat, w: nat, part: seq<byte>)
    requires Holds(b, at, piece) && lo + w <= |piece| && piece[lo..lo + w] == part
    ensures at + lo + w <= |b| && b[at + lo..at + lo + w] == part
  {
    SubPiece(b, at, piece, lo, lo + w);
  }

  /** Record i of equally wide records that lie at a position. */
  lemma RecordAt(b: seq<byte>, at: nat, rs: seq<seq<byte>>, w: nat, i: nat)
    requires forall k :: 0 <= k < |rs| ==> |rs[k]| == w
    requires Holds(b, at, Flat(rs)) && i < |rs|
    ensures w * i + w <= w * |rs| && at + w * |rs| <= |b|
    ensures b[at + w * i..at + w * i + w] == rs[i]
  {
    FlatAt(rs, w, i);
    SubPieceAt(b, at, Flat(rs), w * i, w, rs[i]);
  }

  lemma PieceAfter(b: seq<byte>, at: nat, x: seq<byte>, y: seq<byte>)
    requires Holds(b, at, x + y)
    ensures Holds(b, at, x) && Holds(b, at + |x|, y)
  {
    forall k | 0 <= k < |x|
      ensures b[at + k] == x[k]
    {
      assert (x + y)[k] == x[k];
    }
    forall k | 0 <= k < |y|
      ensures b[at + |x| + k] == y[k]
    {
      assert (x + y)[|x| + k] == y[k];
    }
  }

  /** The five pieces a reader uses lie where the counts say. */
  predicate RowLaid(b: seq<byte>, p: nat, n: Counts, v1: bool,
                    c: seq<byte>, t: seq<byte>, i: seq<byte>, y: seq<byte>, a: seq<byte>)
    requires GoodCounts(n)
  {
    && Holds(b, p, c) && Holds(b, p + 24, t) && Holds(b, IndexBase(n, p, v1), i)
    && Holds(b, TypeBase(n, p, v1), y) && Holds(b, CharBase(n, p, v1), a)
  }

  lemma RowIsLaid(b: seq<byte>, p: nat, n: Counts, v1: bool,
                  c: seq<byte>, t: seq<byte>, i: seq<byte>, y: seq<byte>, a: seq<byte>, r: seq<byte>)
    requires GoodCounts(n) && |c| == 24 && IndexBase(n, p, v1) == p + 24 + |t|
    requires TypeBase(n, p, v1) == IndexBase(n, p, v1) + |i| && CharBase(n, p, v1) == TypeBase(n, p, v1) + |y|
    requires Holds(b, p, Row(c, t, i, y, a, r))
    ensures RowLaid(b, p, n, v1, c, t, i, y, a)
  {
    PiecesAt(b, p, p + 24, IndexBase(n, p, v1), TypeBase(n, p, v1), CharBase(n, p, v1),
             CharBase(n, p, v1) + |a|, c, t, i, y, a, r);
  }

  predicate Laid(b: seq<byte>, p: nat, c: Counts, d: Writable)
    requires GoodCounts(c)
  {
    RowLaid(b, p, c, d.v1, Flat(PutCounts(d)), Flat(PutTimes(d)), PutIndices(d), Flat(PutTypes(d)), d.z.abbreviation)
  }

  lemma BlockLaid(b: seq<byte>, p: nat, c: Counts, d: Writable)
    requires Holds(b, p, PutBlock(d)) && c == d.Header()
    ensures GoodCounts(c) && Laid(b, p, c, d)
  {
    PieceBases(p, c, d);
    RowIsLaid(b, p, c, d.v1, Flat(PutCounts(d)), Flat(PutTimes(d)), PutIndices(d), Flat(PutTypes(d)),
              d.z.abbreviation, d.isstd + d.isut);
  }

  lemma PieceBases(p: nat, c: Counts, d: Writable)
    requires c == d.Header()
    ensures GoodCounts(c) && |Flat(PutCounts(d))| == 24
    ensures IndexBase(c, p, d.v1) == p + 24 + |Flat(PutTimes(d))|
    ensures TypeBase(c, p, d.v1) == IndexBase(c, p, d.v1) + |PutIndices(d)|
    ensures CharBase(c, p, d.v1) == TypeBase(c, p, d.v1) + |Flat(PutTypes(d))|
  {
    PieceSizes(d);
  }

  lemma BlockSize(d: Writable)
    ensures |PutBlock(d)| == 24 + TimesSize(|d.z.transitions|, d.v1) + |d.z.transitions|
                             + 6 * |d.z.localtimes| + |d.z.abbreviation| + |d.isstd| + |d.isut|
  {
    PieceSizes(d);
  }

  lemma PieceSizes(d: Writable)
    ensures |Flat(PutCounts(d))| == 24
    ensures |Flat(PutTimes(d))| == TimesSize(|d.z.transitions|, d.v1)
    ensures |Flat(PutTypes(d))| == 6 * |d.z.localtimes|
  {
    FlatLength(PutCounts(d), 4);
    FlatLength(PutTimes(d), d.TimeWidth());
    FlatLength(PutTypes(d), 6);
  }

  /** Where each of six pieces in a row begins. */
  lemma PiecesAt(b: seq<byte>, p: nat, qt: nat, qi: nat, qy: nat, qa: nat, qr: nat,
                 c: seq<byte>, t: seq<byte>, i: seq<byte>, y: seq<byte>, a: seq<byte>, r: seq<byte>)
    requires qt == p + |c| && qi == qt + |t| && qy == qi + |i| && qa == qy + |y| && qr == qa + |a|
    requires Holds(b, p, Row(c, t, i, y, a, r))
    ensures Holds(b, p, c) && Holds(b, qt, t) && Holds(b, qi, i)
    ensures Holds(b, qy, y) && Holds(b, qa, a) && Holds(b, qr, r)
  {
    PieceAfter(b, p, c, t + (i + (y + (a + r))));
    PieceAfter(b, qt, t, i + (y + (a + r)));
    PieceAfter(b, qi, i, y + (a + r));
    PieceAfter(b, qy, y, a + r);
    PieceAfter(b, qa, a, r);
  }

  lemma CountsRead(b: seq<byte>, p: nat, d: Writable)
    requires Holds(b, p, Flat(PutCounts(d)))
    ensures p + 24 <= |b|
    ensures CountsAt(b, p)
            == d.Header()
  {
    var rs := PutCounts(d);
    CountRead(b, p, rs, 0, |d.isut|);
    CountRead(b, p, rs, 1, |d.isstd|);
    CountRead(b, p, rs, 2, 0);
    CountRead(b, p, rs, 3, |d.z.transitions|);
    CountRead(b, p, rs, 4, |d.z.localtimes|);
    CountRead(b, p, rs, 5, |d.z.abbreviation|);
  }

  lemma CountRead(b: seq<byte>, p: nat, rs: seq<seq<byte>>, k: nat, x: int)
    requires |rs| == 6 && (forall i :: 0 <= i < 6 ==> |rs[i]| == 4) && Holds(b, p, Flat(rs))
    requires k < 6 && FitsSigned(x, 4) && rs[k] == PutSigned(x, 4)
    ensures p + 24 <= |b| && Int32At(b, p + 4 * k) == x
  {
    RecordAt(b, p, rs, 4, k);
    SignedRoundTrip(x, 4);
  }

  lemma TimesRead(b: seq<byte>, base: nat, d: Writable, i: nat)
    requires Holds(b, base, Flat(PutTimes(d)))
    requires i < |d.z.transitions|
    ensures base + TimesSize(i + 1, d.v1) <= |b| && TimeAt(b, base, d.v1, i) == d.z.transitions[i].utctime
  {
    RecordAt(b, base, PutTimes(d), d.TimeWidth(), i);
    SignedRoundTrip(d.z.transitions[i].utctime, d.TimeWidth());
  }

  lemma TypesRead(b: seq<byte>, base: nat, d: Writable, i: nat)
    requires Holds(b, base, Flat(PutTypes(d)))
    requires i < |d.z.localtimes|
    ensures base + 6 * (i + 1) <= |b| && TypeAt(b, base, i) == d.z.localtimes[i]
  {
    RecordAt(b, base, PutTypes(d), 6, i);
    var t := d.z.localtimes[i];
    var at := base + 6 * i;
    assert Holds(b, at, PutType(t));
    SubPiece(b, at, PutType(t), 0, 4);
    assert PutType(t)[..4] == PutSigned(t.utcOffset, 4);
    SignedRoundTrip(t.utcOffset, 4);
    assert b[at + 4] == PutType(t)[4] && b[at + 5] == PutType(t)[5] by {
      assert b[at..at + 6][4] == b[at + 4] && b[at..at + 6][5] == b[at + 5];
    }
  }

  /** Reading an encoded block gives back exactly its transitions, types and designations,
      and, in a version 2 block, all that follows as the footer. */
  lemma BlockRoundTrip(b: seq<byte>, p: nat, d: Writable)
    requires Holds(b, p, PutBlock(d))
    ensures BlockAccepted(b, p, d.v1)
    ensures BlockZone(b, p, d.v1) == d.z.(tzstring := if d.v1 then [] else b[p + |PutBlock(d)|..])
  {
    BlockLaid(b, p, d.Header(), d);
    BlockSize(d);
    CountsRead(b, p, d);
    LaidRoundTrip(b, p, d.Header(), d);
  }

  lemma LaidRoundTrip(b: seq<byte>, p: nat, c: Counts, d: Writable)
    requires c == d.Header() && Laid(b, p, c, d) && p + |PutBlock(d)| <= |b|
    ensures PartsAccepted(b, p, c, d.v1)
    ensures PartsZone(b, p, c, d.v1) == d.z.(tzstring := if d.v1 then [] else b[p + |PutBlock(d)|..])
  {
    PartsThere(b, p, c, d);
    CharsRoundTrip(b, p, c, d);
    TypesRoundTrip(b, p, c, d);
    TransitionsRoundTrip(b, p, c, d);
    FooterRoundTrip(b, p, c, d);
  }

  lemma PartsThere(b: seq<byte>, p: nat, c: Counts, d: Writable)
    requires c == d.Header()
    requires Holds(b, IndexBase(c, p, d.v1), PutIndices(d)) && Holds(b, CharBase(c, p, d.v1), d.z.abbreviation)
    ensures PartsAccepted(b, p, c, d.v1) && Indices(b, c, p, d.v1) == PutIndices(d)
  {
    SubPiece(b, IndexBase(c, p, d.v1), PutIndices(d), 0, |d.z.transitions|);
    assert PutIndices(d)[0..|d.z.transitions|] == PutIndices(d);
  }

  lemma CharsRoundTrip(b: seq<byte>, p: nat, c: Counts, d: Writable)
    requires c == d.Header() && PartsAccepted(b, p, c, d.v1)
    requires Holds(b, CharBase(c, p, d.v1), d.z.abbreviation)
    ensures PartsZone(b, p, c, d.v1).abbreviation == d.z.abbreviation
  {
    SubPiece(b, CharBase(c, p, d.v1), d.z.abbreviation, 0, |d.z.abbreviation|);
    assert d.z.abbreviation[0..|d.z.abbreviation|] == d.z.abbreviation;
  }

  lemma FooterRoundTrip(b: seq<byte>, p: nat, c: Counts, d: Writable)
    requires c == d.Header() && PartsAccepted(b, p, c, d.v1) && p + |PutBlock(d)| <= |b|
    ensures PartsZone(b, p, c, d.v1).tzstring == if d.v1 then [] else b[p + |PutBlock(d)|..]
  {
    BlockSize(d);
  }

  lemma TypesRoundTrip(b: seq<byte>, p: nat, c: Counts, d: Writable)
    requires c == d.Header() && PartsAccepted(b, p, c, d.v1)
    requires Holds(b, TypeBase(c, p, d.v1), Flat(PutTypes(d)))
    ensures PartsZone(b, p, c, d.v1).localtimes == d.z.localtimes
  {
    var types := PartsZone(b, p, c, d.v1).localtimes;
    forall i | 0 <= i < |d.z.localtimes|
      ensures types[i] == d.z.localtimes[i]
    {
      TypesRead(b, TypeBase(c, p, d.v1), d, i);
    }
  }

  lemma TransitionsRoundTrip(b: seq<byte>, p: nat, c: Counts, d: Writable)
    requires c == d.Header() && PartsAccepted(b, p, c, d.v1)
    requires Holds(b, p + 24, Flat(PutTimes(d))) && Holds(b, TypeBase(c, p, d.v1), Flat(PutTypes(d)))
    requires Indices(b, c, p, d.v1) == PutIndices(d)
    ensures PartsZone(b, p, c, d.v1).transitions == d.z.transitions
  {
    var ts := PartsZone(b, p, c, d.v1).transitions;
    forall i | 0 <= i < |d.z.transitions|
      ensures ts[i] == d.z.transitions[i]
    {
      TransitionRead(b, p, c, d, i);
      assert ts[i] == TransitionAt(b, p, c, d.v1, i);
    }
  }

  lemma TransitionRead(b: seq<byte>, p: nat, c: Counts, d: Writable, i: nat)
    requires c == d.Header() && PartsAccepted(b, p, c, d.v1)
    requires Holds(b, p + 24, Flat(PutTimes(d))) && Holds(b, TypeBase(c, p, d.v1), Flat(PutTypes(d)))
    requires Indices(b, c, p, d.v1) == PutIndices(d) && i < |d.z.transitions|
    ensures TransitionAt(b, p, c, d.v1, i) == d.z.transitions[i]
  {
    var t := d.z.transitions[i];
    TimesRead(b, p + 24, d, i);
    TypesRead(b, TypeBase(c, p, d.v1), d, t.localtimeIdx);
    assert Indices(b, c, p, d.v1)[i] == t.localtimeIdx as byte;
    SameTransition(b, p, c, d.v1, i, t, d.z.localtimes[t.localtimeIdx]);
  }

  lemma SameTransition(b: seq<byte>, p: nat, c: Counts, v1: bool, i: nat, t: Transition, kind: LocalTime)
    requires PartsAccepted(b, p, c, v1) && i < c.timecnt
    requires TimeAt(b, p + 24, v1, i) == t.utctime && Indices(b, c, p, v1)[i] as int == t.localtimeIdx
    requires 0 <= t.localtimeIdx < c.typecnt && TypeAt(b, TypeBase(c, p, v1), t.localtimeIdx) == kind
    requires t.localtime == t.utctime + kind.utcOffset
    ensures TransitionAt(b, p, c, v1, i) == t
  {
  }

  /** The part of a header that precedes the counts: magic, version and reserved bytes. */
  predicate IsHead(head: seq<byte>) {
    |head| == 20 && head[..4] == MAGIC
  }

  /** A file of one block, RFC 8536 section 3.1. */
  function FirstVersionFile(head: seq<byte>, block: seq<byte>, rest: seq<byte>): seq<byte> {
    head + (block + rest)
  }

  /** A version 2 file: first header, counts and block, second header and block, footer. */
  function SecondVersionFile(head: seq<byte>, counts: seq<byte>, body: seq<byte>,
                             second: seq<byte>, block: seq<byte>, footer: seq<byte>): seq<byte> {
    Row(head, counts, body, second, block, footer)
  }

  /** A file whose version byte is not '2' is read from its first block. The head is "TZif", the version
      byte and 15 reserved bytes. */
  lemma FirstVersionRoundTrip(head: seq<byte>, d: Writable, rest: seq<byte>)
    requires |head| == 20 && head[..4] == [0x54, 0x5A, 0x69, 0x66] && head[4] != 0x32 && d.v1
    ensures var file := FirstVersionFile(head, PutBlock(d), rest);
            FileAccepted(file) && FileZone(file) == d.z.(tzstring := [])
  {
    BlockSize(d);
    FirstLocated(head, PutBlock(d), rest);
    LocatedRoundTrip(FirstVersionFile(head, PutBlock(d), rest), 20, d, rest);
  }

  lemma FirstLocated(head: seq<byte>, block: seq<byte>, rest: seq<byte>)
    requires IsHead(head) && head[4] != VERSION_2 && |block| >= 24
    ensures var file := FirstVersionFile(head, block, rest);
            && LocateBlock(file) == Some(BlockRef(20, true)) && Holds(file, 20, block)
            && Holds(file, 20 + |block|, rest) && |file| == 20 + |block| + |rest|
  {
    var file := FirstVersionFile(head, block, rest);
    PieceAfter(file, 0, head, block + rest);
    PieceAfter(file, 20, block, rest);
    HeadAt(file, 0, head);
  }

  lemma HeadAt(file: seq<byte>, at: nat, head: seq<byte>)
    requires IsHead(head) && Holds(file, at, head)
    ensures file[at..at + 4] == MAGIC && file[at + 4] == head[4]
  {
    SubPiece(file, at, head, 0, 4);
  }

  /** A file whose block that counts is an encoded zone, followed by a tail, is read as that zone. */
  lemma LocatedRoundTrip(file: seq<byte>, p: nat, d: Writable, tail: seq<byte>)
    requires LocateBlock(file) == Some(BlockRef(p, d.v1)) && Holds(file, p, PutBlock(d))
    requires Holds(file, p + |PutBlock(d)|, tail) && |file| == p + |PutBlock(d)| + |tail|
    ensures FileAccepted(file) && FileZone(file) == d.z.(tzstring := if d.v1 then [] else tail)
  {
    BlockRoundTrip(file, p, d);
    TailAt(file, p + |PutBlock(d)|, tail);
  }

  /** In a version 2 file the computed skip over any first block lands on the second header,
      and the footer string is exactly what follows the second block. */
  lemma SecondVersionRoundTrip(head: seq<byte>, counts: seq<byte>, body: seq<byte>,
                               second: seq<byte>, d: Writable, footer: seq<byte>)
    requires |head| == 20 && head[..4] == [0x54, 0x5A, 0x69, 0x66] && head[4] == 0x32
    requires |second| == 20 && second[..4] == [0x54, 0x5A, 0x69, 0x66] && !d.v1
    requires |counts| == 24
    requires |body| == 5 * Int32At(counts, 12) + 6 * Int32At(counts, 16) + Int32At(counts, 20)
                       + 8 * Int32At(counts, 8) + Int32At(counts, 4) + Int32At(counts, 0)
    ensures var file := SecondVersionFile(head, counts, body, second, PutBlock(d), footer);
            FileAccepted(file) && FileZone(file) == d.z.(tzstring := footer)
  {
    var file := SecondVersionFile(head, counts, body, second, PutBlock(d), footer);
    SecondFound(file, head, counts, body, second, PutBlock(d), footer);
    LocatedRoundTrip(file, 64 + |body|, d, footer);
  }

  lemma SecondLaid(file: seq<byte>, head: seq<byte>, counts: seq<byte>, body: seq<byte>,
                   second: seq<byte>, block: seq<byte>, footer: seq<byte>)
    requires file == SecondVersionFile(head, counts, body, second, block, footer)
    requires |head| == |second| == 20 && |counts| == 24
    ensures var q := 44 + |body|;
            && Holds(file, 0, head) && Holds(file, 20, counts)
            && Holds(file, q, second) && Holds(file, q + 20, block) && Holds(file, q + 20 + |block|, footer)
            && |file| == q + 20 + |block| + |footer|
  {
    var q := 44 + |body|;
    PiecesAt(file, 0, 20, 44, q, q + 20, q + 20 + |block|, head, counts, body, second, block, footer);
  }

  lemma SecondFound(file: seq<byte>, head: seq<byte>, counts: seq<byte>, body: seq<byte>,
                    second: seq<byte>, block: seq<byte>, footer: seq<byte>)
    requires file == SecondVersionFile(head, counts, body, second, block, footer)
    requires IsHead(head) && head[4] == VERSION_2 && IsHead(second)
    requires |counts| == 24 && FirstBlockSize(CountsAt(counts, 0)) == |body|
    ensures LocateBlock(file) == Some(BlockRef(64 + |body|, false))
    ensures Holds(file, 64 + |body|, block) && Holds(file, 64 + |body| + |block|, footer)
    ensures |file| == 64 + |body| + |block| + |footer|
  {
    SecondLaid(file, head, counts, body, second, block, footer);
    SecondLocated(file, head, counts, second, 44 + |body|);
  }

  lemma TailAt(file: seq<byte>, at: nat, tail: seq<byte>)
    requires Holds(file, at, tail) && |file| == at + |tail|
    ensures file[at..] == tail
  {
    SubPiece(file, at, tail, 0, |tail|);
  }

  lemma SecondLocated(file: seq<byte>, head: seq<byte>, counts: seq<byte>, second: seq<byte>, q: nat)
    requires IsHead(head) && head[4] == VERSION_2 && IsHead(second)
    requires |counts| == 24 && q == 44 + FirstBlockSize(CountsAt(counts, 0)) >= 44
    requires Holds(file, 0, head) && Holds(file, 20, counts) && Holds(file, q, second)
    ensures LocateBlock(file) == Some(BlockRef(q + 20, false))
  {
    HeadAt(file, 0, head);
    HeadAt(file, q, second);
    SubPiece(file, 20, counts, 0, 24);
    SameCounts(file, counts);
  }

  lemma SameCounts(b: seq<byte>, counts: seq<byte>)
    requires |b| >= 44 && |counts| == 24 && b[20..44] == counts
    ensures CountsAt(b, 20) == CountsAt(counts, 0)
  {
    SubPiece(b, 20, counts, 0, 4);
    SubPiece(b, 20, counts, 4, 8);
    SubPiece(b, 20, counts, 8, 12);
    SubPiece(b, 20, counts, 12, 16);
    SubPiece(b, 20, counts, 16, 20);
    SubPiece(b, 20, counts, 20, 24);
  }

  /** Whatever file is accepted, every index names a type of the zone and every local time is the
      UTC time plus that type's offset; so the zone is well formed if it has a type at all. */
  lemma AcceptedIsWellFormed(b: seq<byte>)
    requires FileAccepted(b)
    ensures FileZone(b).Consistent()
    ensures FileZone(b).WellFormed() <==> FileZone(b).localtimes != []
  {
    var block := LocateBlock(b).value;
    BlockIsConsistent(b, block.pos, CountsAt(b, block.pos), block.v1);
  }

  lemma BlockIsConsistent(b: seq<byte>, p: nat, c: Counts, v1: bool)
    requires PartsAccepted(b, p, c, v1)
    ensures PartsZone(b, p, c, v1).Consistent()
  {
    var z := PartsZone(b, p, c, v1);
    forall i | 0 <= i < |z.transitions|
      ensures 0 <= z.transitions[i].localtimeIdx < |z.localtimes|
      ensures z.transitions[i].localtime
              == z.transitions[i].utctime + z.localtimes[z.transitions[i].localtimeIdx].utcOffset
    {
      assert z.transitions[i] == TransitionAt(b, p, c, v1, i);
    }
  }

  /* ---- The layout, by offset ---- */

  /** Which block of a file is read: none without 44 bytes that begin "TZif", the first one unless the
      fifth byte is '2', and else the one after the second "TZif", where the sizes of the first block's
      arrays lead. */
  lemma FileLayout(b: seq<byte>)
    ensures |b| < 44 || b[..4] != [0x54, 0x5A, 0x69, 0x66] ==> !FileAccepted(b)
    ensures 44 <= |b| && b[..4] == [0x54, 0x5A, 0x69, 0x66] && b[4] != 0x32 ==>
              && (FileAccepted(b) <==> BlockAccepted(b, 20, true))
              && (FileAccepted(b) ==> FileZone(b) == BlockZone(b, 20, true))
    ensures 44 <= |b| && b[..4] == [0x54, 0x5A, 0x69, 0x66] && b[4] == 0x32 ==>
              var end := 44 + 4 * Int32At(b, 32) + Int32At(b, 32) + 6 * Int32At(b, 36) + Int32At(b, 40)
                         + 8 * Int32At(b, 28) + Int32At(b, 24) + Int32At(b, 20);
              var q := if end < 0 then 44 else end;
              && (FileAccepted(b) <==> q + 4 <= |b| && b[q..q + 4] == [0x54, 0x5A, 0x69, 0x66]
                                       && BlockAccepted(b, q + 20, false))
              && (FileAccepted(b) ==> FileZone(b) == BlockZone(b, q + 20, false))
  {
  }

  /** When the block at p is accepted: its six counts are there, there are no leap seconds, each kind of
      indicator is absent or one a type, nothing is negative, the arrays are all there, and every type
      index is below the number of types. */
  lemma BlockLayout(b: seq<byte>, p: nat, v1: bool)
    ensures BlockAccepted(b, p, v1) <==>
              && p + 24 <= |b|
              && var isut, isstd, leaps := Int32At(b, p), Int32At(b, p + 4), Int32At(b, p + 8);
                 var times, types, chars := Int32At(b, p + 12), Int32At(b, p + 16), Int32At(b, p + 20);
                 var index := p + 24 + (if v1 then 4 * times else 8 * times);
                 && leaps == 0 && (isut == 0 || isut == types) && (isstd == 0 || isstd == types)
                 && times >= 0 && types >= 0 && chars >= 0
                 && index + times + 6 * types + chars <= |b|
                 && forall j :: index <= j < index + times ==> b[j] < types
  {
    if p + 24 <= |b| {
      PartsLayout(b, p, CountsAt(b, p), v1);
    }
  }

  lemma PartsLayout(b: seq<byte>, p: nat, c: Counts, v1: bool)
    ensures PartsAccepted(b, p, c, v1) <==>
              var index := p + 24 + (if v1 then 4 * c.timecnt else 8 * c.timecnt);
              && c.leapcnt == 0 && (c.isutccnt == 0 || c.isutccnt == c.typecnt)
              && (c.isstdcnt == 0 || c.isstdcnt == c.typecnt)
              && c.timecnt >= 0 && c.typecnt >= 0 && c.charcnt >= 0
              && index + c.timecnt + 6 * c.typecnt + c.charcnt <= |b|
              && forall j :: index <= j < index + c.timecnt ==> b[j] < c.typecnt
  {
    if GoodCounts(c) && CharBase(c, p, v1) + c.charcnt <= |b| {
      BelowIff(b, IndexBase(c, p, v1), c.timecnt, c.typecnt);
    }
  }

  lemma BelowIff(b: seq<byte>, at: nat, n: nat, limit: int)
    requires at + n <= |b|
    ensures AllBelow(b[at..at + n], limit) <==> forall j :: at <= j < at + n ==> b[j] < limit
  {
    if AllBelow(b[at..at + n], limit) {
      forall j | at <= j < at + n
        ensures b[j] < limit
      {
        assert b[at..at + n][j - at] < limit;
      }
    }
  }

  /** What an accepted block means: its sizes, the designations, and the footer of a version 2 block. */
  lemma ZoneLayout(b: seq<byte>, p: nat, v1: bool)
    requires BlockAccepted(b, p, v1)
    ensures var isut, isstd := Int32At(b, p), Int32At(b, p + 4);
            var times, types, chars := Int32At(b, p + 12), Int32At(b, p + 16), Int32At(b, p + 20);
            var at := p + 24 + (if v1 then 4 * times else 8 * times) + times + 6 * types;
            var z, footer := BlockZone(b, p, v1), at + chars + isstd + isut;
            && |z.transitions| == times && |z.localtimes| == types
            && 0 <= at <= at + chars <= |b| && footer >= 0
            && z.abbreviation == b[at..at + chars]
            && z.tzstring == (if v1 || footer > |b| then [] else b[footer..])
  {
  }

  /** Its local time types, six bytes each. */
  lemma TypeLayout(b: seq<byte>, p: nat, v1: bool, i: nat)
    requires BlockAccepted(b, p, v1) && i < Int32At(b, p + 16)
    ensures var times := Int32At(b, p + 12);
            var at := p + 24 + (if v1 then 4 * times else 8 * times) + times + 6 * i;
            && 0 <= at && at + 6 <= |b|
            && i < |BlockZone(b, p, v1).localtimes|
            && BlockZone(b, p, v1).localtimes[i] == LocalTime(Int32At(b, at), b[at + 4] != 0, b[at + 5])
  {
    assert BlockZone(b, p, v1).localtimes[i] == TypeAt(b, TypeBase(CountsAt(b, p), p, v1), i);
  }

  /** Its transitions: a time, and behind all times the index of a type, one byte each. */
  lemma TransitionLayout(b: seq<byte>, p: nat, v1: bool, i: nat, at: nat)
    requires BlockAccepted(b, p, v1) && i < Int32At(b, p + 12)
    requires at == p + 24 + (if v1 then 4 * Int32At(b, p + 12) else 8 * Int32At(b, p + 12)) + i
    ensures p + 24 + TimesSize(i + 1, v1) <= at < |b|
    ensures i < |BlockZone(b, p, v1).transitions| && b[at] < |BlockZone(b, p, v1).localtimes|
    ensures BlockZone(b, p, v1).transitions[i].utctime
            == if v1 then Int32At(b, p + 24 + 4 * i) else Int64At(b, p + 24 + 8 * i)
    ensures BlockZone(b, p, v1).transitions[i].localtimeIdx == b[at]
    ensures BlockZone(b, p, v1).transitions[i].localtime
            == BlockZone(b, p, v1).transitions[i].utctime + BlockZone(b, p, v1).localtimes[b[at]].utcOffset
  {
    var c := CountsAt(b, p);
    IndexAt(b, p, c, v1, i);
    assert BlockZone(b, p, v1).transitions[i] == TransitionAt(b, p, c, v1, i);
  }

  lemma IndexAt(b: seq<byte>, p: nat, c: Counts, v1: bool, i: nat)
    requires PartsAccepted(b, p, c, v1) && i < c.timecnt
    ensures Indices(b, c, p, v1)[i] == b[IndexBase(c, p, v1) + i] < c.typecnt
  {
  }
}
