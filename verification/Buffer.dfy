/** The network buffer of Buffer.h and Buffer.cc: one array, a reader and a writer index. */
module Buffers {
  import opened CInt
  import opened Endian
  import opened Wrappers

  const CHEAP_PREPEND: nat := 8
  const INITIAL_SIZE: nat := 1024
  const EXTRA: nat := 65536

  /** What callers can observe: the readable bytes and the room on either side. */
  datatype Snapshot = Snapshot(contents: seq<byte>, prependable: nat, writable: nat) {
    function Size(): nat {
      prependable + |contents| + writable
    }

    /** Whether an append of n bytes has to grow the array. */
    predicate Grows(n: nat) {
      n > writable && writable + prependable < n + CHEAP_PREPEND
    }

    /** ensureWritableBytes: nothing, growth by as much as is missing, or compaction. */
    function Ensured(n: nat): (v: Snapshot)
      ensures v.contents == contents && v.writable >= n
      ensures v.Size() == if Grows(n) then prependable + |contents| + n else Size()
    {
      if n <= writable then this
      else if Grows(n) then Snapshot(contents, prependable, n)
      else Snapshot(contents, CHEAP_PREPEND, writable + prependable - CHEAP_PREPEND)
    }

    function Appended(data: seq<byte>): Snapshot {
      var v := Ensured(|data|);
      Snapshot(contents + data, v.prependable, v.writable - |data|)
    }

    function Prepended(data: seq<byte>): Snapshot
      requires |data| <= prependable
    {
      Snapshot(data + contents, prependable - |data|, writable)
    }

    /** Retrieving everything also moves both indices back to the front. */
    function Retrieved(n: nat): Snapshot
      requires n <= |contents| && Size() >= CHEAP_PREPEND
    {
      if n < |contents| then Snapshot(contents[n..], prependable + n, writable)
      else Snapshot([], CHEAP_PREPEND, Size() - CHEAP_PREPEND)
    }

    function Unwritten(n: nat): Snapshot
      requires n <= |contents|
    {
      Snapshot(contents[..|contents| - n], prependable, writable + n)
    }

    /** The int that toStringPiece makes of the number of readable bytes. */
    function PieceLength(): (n: int)
      ensures n <= |contents|
    {
      WrapInt32(|contents|)
    }

    function Shrunk(reserve: nat): Snapshot
      requires PieceLength() >= 0
    {
      Fresh(INITIAL_SIZE).Ensured(|contents| + reserve).Appended(contents[..PieceLength()])
    }

    /** How much readv can deliver. */
    function ReadLimit(): nat {
      if writable < EXTRA then writable + EXTRA else writable
    }
  }

  function Fresh(initialSize: nat): Snapshot {
    Snapshot([], CHEAP_PREPEND, initialSize)
  }

  /** What readFd does: fill the buffer's own room, then append what spilled into the extra one. */
  function Filled(v: Snapshot, bs: seq<byte>): Snapshot {
    if |bs| <= v.writable then Snapshot(v.contents + bs, v.prependable, v.writable - |bs|)
    else Snapshot(v.contents + bs[..v.writable], v.prependable, 0).Appended(bs[v.writable..])
  }

  /** Reading in two segments is the same as appending the bytes read, whether that grows or compacts. */
  lemma FilledIsAppended(v: Snapshot, bs: seq<byte>)
    ensures Filled(v, bs) == v.Appended(bs)
  {
    if |bs| > v.writable {
      assert bs == bs[..v.writable] + bs[v.writable..];
      assert v.contents + bs == v.contents + bs[..v.writable] + bs[v.writable..];
    }
  }

  /* ---- Histories ---- */

  datatype Op =
    | Append(data: seq<byte>)
    | Prepend(data: seq<byte>)
    | Retrieve(n: nat)
    | Unwrite(n: nat)
    | Shrink(reserve: nat)
    | ReadFd(data: seq<byte>)   // the bytes the kernel delivers

  /** What the asserts of the source, and the kernel, require of a step. */
  predicate Legal(v: Snapshot, op: Op) {
    match op
    case Append(_) => true
    case Prepend(data) => |data| <= v.prependable
    case Retrieve(n) => n <= |v.contents| && v.Size() >= CHEAP_PREPEND
    case Unwrite(n) => n <= |v.contents|
    case Shrink(_) => v.PieceLength() >= 0
    case ReadFd(data) => |data| <= v.ReadLimit()
  }

  function Apply(v: Snapshot, op: Op): Snapshot
    requires Legal(v, op)
  {
    match op
    case Append(data) => v.Appended(data)
    case Prepend(data) => v.Prepended(data)
    case Retrieve(n) => v.Retrieved(n)
    case Unwrite(n) => v.Unwritten(n)
    case Shrink(reserve) => v.Shrunk(reserve)
    case ReadFd(data) => Filled(v, data)
  }

  predicate LegalHistory(v: Snapshot, ops: seq<Op>)
    decreases |ops|
  {
    ops != [] ==> Legal(v, ops[0]) && LegalHistory(Apply(v, ops[0]), ops[1..])
  }

  function After(v: Snapshot, ops: seq<Op>): Snapshot
    requires LegalHistory(v, ops)
    decreases |ops|
  {
    if ops == [] then v else After(Apply(v, ops[0]), ops[1..])
  }

  /** The plain byte queue the buffer stands for: no indices, no room. */
  function QueueStep(q: seq<byte>, op: Op): seq<byte> {
    match op
    case Append(data) => q + data
    case Prepend(data) => data + q
    case Retrieve(n) => if n <= |q| then q[n..] else []
    case Unwrite(n) => if n <= |q| then q[..|q| - n] else []
    case Shrink(_) => q
    case ReadFd(data) => q + data
  }

  function Queue(q: seq<byte>, ops: seq<Op>): seq<byte>
    decreases |ops|
  {
    if ops == [] then q else Queue(QueueStep(q, ops[0]), ops[1..])
  }

  /** Shrinking 2^31 bytes or more loses some: the length is narrowed to int on the way. */
  predicate Truncates(v: Snapshot, op: Op) {
    op.Shrink? && |v.contents| >= 0x8000_0000
  }

  predicate NothingTruncated(v: Snapshot, ops: seq<Op>)
    requires LegalHistory(v, ops)
    decreases |ops|
  {
    ops != [] ==> !Truncates(v, ops[0]) && NothingTruncated(Apply(v, ops[0]), ops[1..])
  }

  /** A step does to the readable bytes what it does to the queue exactly when it truncates nothing. */
  lemma StepRefines(v: Snapshot, op: Op)
    requires Legal(v, op)
    ensures Apply(v, op).contents == QueueStep(v.contents, op) <==> !Truncates(v, op)
    ensures v.Size() >= CHEAP_PREPEND ==> Apply(v, op).Size() >= CHEAP_PREPEND
    ensures !op.Prepend? && v.prependable >= CHEAP_PREPEND ==> Apply(v, op).prependable >= CHEAP_PREPEND
  {
    if op.ReadFd? {
      FilledIsAppended(v, op.data);
    } else if op.Shrink? {
      PieceKeepsAllIff(v);
    }
  }

  /** The narrowed length of 2^32 readable bytes is zero: shrinking them is legal and loses them all. */
  lemma ShrinkCanLoseAll() returns (v: Snapshot)
    ensures |v.contents| == 0x1_0000_0000 && Legal(v, Op.Shrink(0)) && Truncates(v, Op.Shrink(0))
    ensures Apply(v, Op.Shrink(0)).contents == []
  {
    v := Snapshot(seq(0x1_0000_0000, _ => 0), CHEAP_PREPEND, 0);
    assert v.PieceLength() == 0;
  }

  lemma PieceKeepsAllIff(v: Snapshot)
    ensures v.PieceLength() == |v.contents| <==> |v.contents| < 0x8000_0000
  {
  }

  /** Over any legal history in which nothing is truncated the readable bytes are exactly those of
      the queue; without prepends at least eight bytes stay prependable in any legal history. */
  lemma {:induction false} BufferRefinesQueue(v: Snapshot, ops: seq<Op>)
    requires LegalHistory(v, ops)
    ensures NothingTruncated(v, ops) ==> After(v, ops).contents == Queue(v.contents, ops)
    ensures v.prependable >= 8 && (forall op :: op in ops ==> !op.Prepend?) ==>
              After(v, ops).prependable >= 8
    decreases |ops|
  {
    if ops != [] {
      StepRefines(v, ops[0]);
      BufferRefinesQueue(Apply(v, ops[0]), ops[1..]);
    }
  }

  /** Which steps are legal: appends and shrinks of up to 2^31 - 1 bytes always, the others for as many
      bytes as there are, and a read for as many as the two segments hold. */
  lemma LegalIff(v: Snapshot, data: seq<byte>, n: nat)
    requires v.Size() >= 8
    ensures Legal(v, Op.Append(data))
    ensures |v.contents| < 0x8000_0000 ==> Legal(v, Op.Shrink(n))
    ensures Legal(v, Op.Prepend(data)) <==> |data| <= v.prependable
    ensures Legal(v, Op.Retrieve(n)) <==> n <= |v.contents|
    ensures Legal(v, Op.Unwrite(n)) <==> n <= |v.contents|
    ensures Legal(v, Op.ReadFd(data)) <==>
              |data| <= v.writable + (if v.writable < 65_536 then 65_536 else 0)
  {
  }

  /** The room before and behind the readable bytes after each step. */
  lemma RoomAfter(v: Snapshot, op: Op)
    requires Legal(v, op)
    ensures var a, size := Apply(v, op), v.prependable + |v.contents| + v.writable;
            match op
            case Prepend(data) => a.prependable == v.prependable - |data| && a.writable == v.writable
            case Retrieve(n) =>
              if n < |v.contents| then a.prependable == v.prependable + n && a.writable == v.writable
              else a.prependable == 8 && a.writable == size - 8
            case Unwrite(n) => a.prependable == v.prependable && a.writable == v.writable + n
            case Shrink(reserve) =>
              && a.prependable == 8
              && a.writable + |a.contents|
                 == (if |v.contents| + reserve <= 1024 then 1024 else |v.contents| + reserve)
            case _ => AppendRoom(v, a, Incoming(op))
  {
    if op.ReadFd? {
      FilledIsAppended(v, op.data);
    }
  }

  /** The room after n more bytes: what was there if they fit, compacted room if they fit then, none
      behind and as much before as ever in an array that had to grow. */
  predicate AppendRoom(v: Snapshot, a: Snapshot, n: nat) {
    if n <= v.writable then a.prependable == v.prependable && a.writable == v.writable - n
    else if v.writable + v.prependable >= n + 8 then
      a.prependable == 8 && a.writable == v.writable + v.prependable - 8 - n
    else a.prependable == v.prependable && a.writable == 0
  }

  /** The bytes a step appends. */
  function Incoming(op: Op): nat {
    match op
    case Append(data) => |data|
    case ReadFd(data) => |data|
    case _ => 0
  }

  /** The array's size changes only by shrink and by appends that neither fit nor can be compacted. */
  lemma SizeChangesOnlyWhenNeeded(v: Snapshot, op: Op)
    requires Legal(v, op) && !op.Shrink?
    ensures var n := Incoming(op);
            Apply(v, op).Size()
            == if n > v.writable && v.writable + v.prependable < n + 8 then v.prependable + |v.contents| + n
               else v.prependable + |v.contents| + v.writable
  {
    if op.ReadFd? {
      FilledIsAppended(v, op.data);
    }
  }

  /* ---- Integers ---- */

  datatype Typed = Typed(value: int, width: nat)

  predicate IsWidth(w: nat) {
    w == 1 || w == 2 || w == 4 || w == 8
  }

  /** int8_t, int16_t, int32_t or int64_t. */
  type NetInt = x: Typed | IsWidth(x.width) && FitsSigned(x.value, x.width)
    witness Typed(0, 1)

  function PutAll(xs: seq<NetInt>): seq<byte> {
    if xs == [] then [] else PutSigned(xs[0].value, xs[0].width) + PutAll(xs[1..])
  }

  function Total(widths: seq<nat>): nat {
    if widths == [] then 0 else widths[0] + Total(widths[1..])
  }

  function GetAll(bs: seq<byte>, widths: seq<nat>): seq<int>
    requires Total(widths) <= |bs|
  {
    if widths == [] then []
    else [GetSigned(bs[..widths[0]])] + GetAll(bs[widths[0]..], widths[1..])
  }

  function Widths(xs: seq<NetInt>): (ws: seq<nat>)
    ensures |ws| == |xs| && forall i :: 0 <= i < |xs| ==> ws[i] == xs[i].width
  {
    if xs == [] then [] else [xs[0].width] + Widths(xs[1..])
  }

  function Values(xs: seq<NetInt>): seq<int> {
    if xs == [] then [] else [xs[0].value] + Values(xs[1..])
  }

  /** Integers written with any widths and read with the same widths come back in order,
      and what follows them is untouched. */
  lemma {:induction false} TypedFifo(xs: seq<NetInt>, rest: seq<byte>)
    ensures Total(Widths(xs)) == |PutAll(xs)|
    ensures GetAll(PutAll(xs) + rest, Widths(xs)) == Values(xs)
  {
    if xs != [] {
      var first, others := PutSigned(xs[0].value, xs[0].width), PutAll(xs[1..]);
      TypedFifo(xs[1..], rest);
      assert Widths(xs)[1..] == Widths(xs[1..]);
      SplitFirst(first, others, rest);
      SignedRoundTrip(xs[0].value, xs[0].width);
    }
  }

  lemma SplitFirst(first: seq<byte>, others: seq<byte>, rest: seq<byte>)
    ensures (first + others + rest)[..|first|] == first
    ensures (first + others + rest)[|first|..] == others + rest
  {
  }

  lemma {:induction false} PutAllAppend(xs: seq<NetInt>, x: NetInt)
    ensures PutAll(xs + [x]) == PutAll(xs) + PutSigned(x.value, x.width)
  {
    if xs == [] {
      assert xs + [x] == [x];
    } else {
      PutAllAppend(xs[1..], x);
      Assoc(PutSigned(xs[0].value, xs[0].width), PutAll(xs[1..]), PutSigned(x.value, x.width));
      assert (xs + [x])[1..] == xs[1..] + [x];
    }
  }

  lemma Assoc(a: seq<byte>, b: seq<byte>, c: seq<byte>)
    ensures (a + b) + c == a + (b + c)
  {
  }

  lemma SameSlices(s: seq<byte>, i: nat, t: seq<byte>, j: nat, n: nat)
    requires i + n <= |s| && j + n <= |t|
    requires forall k {:trigger s[k]} :: i <= k < i + n ==> s[k] == t[k + j - i]
    ensures s[i..i + n] == t[j..j + n]
  {
    var x, y := s[i..i + n], t[j..j + n];
    forall k | 0 <= k < n
      ensures x[k] == y[k]
    {
      assert s[i + k] == t[j + k];
    }
  }

  lemma SliceOfSlice(s: seq<byte>, lo: nat, hi: nat, i: nat, j: nat)
    requires lo <= hi <= |s| && i <= j <= hi - lo
    ensures s[lo..hi][i..j] == s[lo + i..lo + j]
  {
    forall k | 0 <= k < j - i
      ensures s[lo..hi][i..j][k] == s[lo + i..lo + j][k]
    {
      assert s[lo..hi][i + k] == s[lo + (i + k)];
    }
  }

  /* ---- The buffer object ---- */

  class Buffer {
    var buffer: array<byte>
    var readerIndex: nat
    var writerIndex: nat

    predicate Valid()
      reads this
    {
      readerIndex <= writerIndex <= buffer.Length && buffer.Length >= CHEAP_PREPEND
    }

    function View(): Snapshot
      requires Valid()
      reads this, buffer
    {
      Snapshot(buffer[readerIndex..writerIndex], readerIndex, buffer.Length - writerIndex)
    }

    constructor (initialSize: nat)
      ensures Valid() && fresh(buffer) && View() == Fresh(initialSize)
    {
      buffer := new byte[CHEAP_PREPEND + initialSize](_ => 0);
      readerIndex := CHEAP_PREPEND;
      writerIndex := CHEAP_PREPEND;
    }

    function ReadableBytes(): (n: nat)
      requires Valid()
      reads this, buffer
      ensures n == |View().contents|
    {
      writerIndex - readerIndex
    }

    function WritableBytes(): (n: nat)
      requires Valid()
      reads this, buffer
      ensures n == View().writable
    {
      buffer.Length - writerIndex
    }

    /** vector::resize to a larger size. */
    method Resize(size: nat)
      requires Valid() && size >= buffer.Length
      modifies this`buffer
      ensures Valid() && fresh(buffer) && buffer.Length == size
      ensures forall k :: 0 <= k < old(buffer.Length) ==> buffer[k] == old(buffer[..])[k]
    {
      var smaller := buffer;
      var larger := new byte[size](_ => 0);
      for i := 0 to smaller.Length
        invariant buffer == smaller && larger[..i] == smaller[..i]
      {
        larger[i] := smaller[i];
      }
      buffer := larger;
    }

    /** std::copy of the readable bytes down to the prepend mark; the ranges may overlap. */
    method CopyDown()
      requires Valid() && CHEAP_PREPEND <= readerIndex
      modifies buffer
      ensures buffer[CHEAP_PREPEND..CHEAP_PREPEND + writerIndex - readerIndex]
              == old(buffer[readerIndex..writerIndex])
    {
      var n := writerIndex - readerIndex;
      ghost var was := buffer[..];
      for i := 0 to n
        invariant forall k {:trigger buffer[k]} :: CHEAP_PREPEND <= k < CHEAP_PREPEND + i ==>
                    buffer[k] == was[k + readerIndex - CHEAP_PREPEND]
        invariant forall k {:trigger buffer[k]} :: CHEAP_PREPEND + i <= k < buffer.Length ==> buffer[k] == was[k]
      {
        buffer[CHEAP_PREPEND + i] := buffer[readerIndex + i];
      }
      SameSlices(buffer[..], CHEAP_PREPEND, was, readerIndex, n);
    }

    /** Called only when the writable room is too small: grows, or compacts with reader > 8. */
    method MakeSpace(len: nat)
      requires Valid() && WritableBytes() < len
      modifies this, buffer
      ensures Valid() && View() == old(View()).Ensured(len)
      ensures buffer == old(buffer) || fresh(buffer)
    {
      if WritableBytes() + readerIndex < len + CHEAP_PREPEND {
        Resize(writerIndex + len);
        SameSlices(buffer[..], readerIndex, old(buffer[..]), readerIndex, writerIndex - readerIndex);
      } else {
        assert CHEAP_PREPEND < readerIndex;
        var readable := ReadableBytes();
        CopyDown();
        readerIndex := CHEAP_PREPEND;
        writerIndex := readerIndex + readable;
      }
    }

    method EnsureWritableBytes(len: nat)
      requires Valid()
      modifies this, buffer
      ensures Valid() && View() == old(View()).Ensured(len)
      ensures buffer == old(buffer) || fresh(buffer)
    {
      if WritableBytes() < len {
        MakeSpace(len);
      }
    }

    /** Copies bytes into the array from a position on. */
    method Store(at: nat, data: seq<byte>)
      requires at + |data| <= buffer.Length
      modifies buffer
      ensures buffer[at..at + |data|] == data
      ensures buffer[..at] == old(buffer[..at]) && buffer[at + |data|..] == old(buffer[at + |data|..])
    {
      for i := 0 to |data|
        invariant buffer[at..at + i] == data[..i]
        invariant buffer[..at] == old(buffer[..at])
        invariant buffer[at + i..] == old(buffer[at + i..])
      {
        buffer[at + i] := data[i];
      }
    }

    /** Copies into the writable room and moves the writer index (hasWritten). */
    method Write(data: seq<byte>)
      requires Valid() && |data| <= WritableBytes()
      modifies this`writerIndex, buffer
      ensures Valid() && readerIndex == old(readerIndex) && writerIndex == old(writerIndex) + |data|
      ensures View().contents == old(View()).contents + data
    {
      Store(writerIndex, data);
      writerIndex := writerIndex + |data|;
      assert buffer[readerIndex..old(writerIndex)] == old(buffer[readerIndex..writerIndex]) by {
        assert buffer[readerIndex..old(writerIndex)] == buffer[..old(writerIndex)][readerIndex..];
      }
    }

    method Append(data: seq<byte>)
      requires Valid()
      modifies this, buffer
      ensures Valid() && View() == old(View()).Appended(data)
      ensures buffer == old(buffer) || fresh(buffer)
    {
      EnsureWritableBytes(|data|);
      Write(data);
    }

    method Prepend(data: seq<byte>)
      requires Valid() && |data| <= readerIndex
      modifies this`readerIndex, buffer
      ensures Valid() && View() == old(View()).Prepended(data)
    {
      Store(readerIndex - |data|, data);
      readerIndex := readerIndex - |data|;
      ghost var was := old(readerIndex);
      assert buffer[was..writerIndex] == old(buffer[readerIndex..writerIndex]) by {
        assert buffer[was..writerIndex] == buffer[was..][..writerIndex - was];
        assert old(buffer[readerIndex..writerIndex]) == old(buffer[readerIndex..])[..writerIndex - was];
      }
      assert buffer[readerIndex..writerIndex] == buffer[readerIndex..was] + buffer[was..writerIndex];
    }

    method RetrieveAll()
      requires Valid()
      modifies this`readerIndex, this`writerIndex
      ensures Valid() && View() == old(View()).Retrieved(old(ReadableBytes()))
    {
      readerIndex := CHEAP_PREPEND;
      writerIndex := CHEAP_PREPEND;
    }

    method Retrieve(len: nat)
      requires Valid() && len <= ReadableBytes()
      modifies this`readerIndex, this`writerIndex
      ensures Valid() && View() == old(View()).Retrieved(len)
    {
      if len < ReadableBytes() {
        SliceOfSlice(buffer[..], readerIndex, writerIndex, len, ReadableBytes());
        readerIndex := readerIndex + len;
      } else {
        RetrieveAll();
      }
    }

    method RetrieveAsString(len: nat) returns (result: seq<byte>)
      requires Valid() && len <= ReadableBytes()
      modifies this`readerIndex, this`writerIndex
      ensures Valid() && View() == old(View()).Retrieved(len)
      ensures result == old(View()).contents[..len]
    {
      result := buffer[readerIndex..readerIndex + len];
      SliceOfSlice(buffer[..], readerIndex, writerIndex, 0, len);
      Retrieve(len);
    }

    method Unwrite(len: nat)
      requires Valid() && len <= ReadableBytes()
      modifies this`writerIndex
      ensures Valid() && View() == old(View()).Unwritten(len)
    {
      SliceOfSlice(buffer[..], readerIndex, writerIndex, 0, ReadableBytes() - len);
      writerIndex := writerIndex - len;
    }

    method ToStringPiece() returns (piece: seq<byte>)
      requires Valid() && View().PieceLength() >= 0
      ensures piece == View().contents[..View().PieceLength()]
    {
      var length := WrapInt32(ReadableBytes());
      piece := buffer[readerIndex..readerIndex + length];
      SliceOfSlice(buffer[..], readerIndex, writerIndex, 0, length);
    }

    /** For 2^31 bytes or more the narrowed length may be negative; the append then fails. */
    method Shrink(reserve: nat)
      requires Valid() && View().PieceLength() >= 0
      modifies this
      ensures Valid() && View() == old(View()).Shrunk(reserve) && fresh(buffer)
    {
      var piece := ToStringPiece();
      var other := new Buffer(INITIAL_SIZE);
      other.EnsureWritableBytes(ReadableBytes() + reserve);
      other.Append(piece);
      buffer, readerIndex, writerIndex := other.buffer, other.readerIndex, other.writerIndex;
    }

    /** readFd: readv fills the array's room, then the extra buffer; None is a failed call.
        With both segments offered, one read delivers at most 128k - 1 bytes. */
    method ReadFd(incoming: Option<seq<byte>>) returns (n: int)
      requires Valid() && (incoming.Some? ==> |incoming.value| <= View().ReadLimit())
      modifies this, buffer
      ensures Valid() && (buffer == old(buffer) || fresh(buffer))
      ensures incoming.None? ==> n == -1 && View() == old(View())
      ensures incoming.Some? ==> n == |incoming.value| && View() == Filled(old(View()), incoming.value)
      ensures old(WritableBytes()) < EXTRA ==> n <= 131_071
    {
      if incoming.None? {
        return -1;
      }
      var bs := incoming.value;
      var writable := WritableBytes();
      n := |bs|;
      if n <= writable {
        Write(bs);
      } else {
        Write(bs[..writable]);
        var extrabuf := bs[writable..];
        assert writerIndex == buffer.Length;
        Append(extrabuf);
      }
    }

    /** The first index at or after start where CR LF lies inside the readable bytes. */
    method FindCRLF(start: nat) returns (at: Option<nat>)
      requires Valid() && start <= ReadableBytes()
      ensures var c := View().contents;
              if at.Some? then
                start <= at.value && at.value + 2 <= |c| && c[at.value] == 13 && c[at.value + 1] == 10
                && forall k :: start <= k < at.value ==> !(c[k] == 13 && c[k + 1] == 10)
              else forall k :: start <= k < |c| - 1 ==> !(c[k] == 13 && c[k + 1] == 10)
    {
      var i := start;
      ghost var c := View().contents;
      while i + 2 <= ReadableBytes()
        invariant start <= i
        invariant forall k :: start <= k < i && k + 1 < |c| ==> !(c[k] == 13 && c[k + 1] == 10)
      {
        assert c[i] == buffer[readerIndex + i] && c[i + 1] == buffer[readerIndex + i + 1];
        if buffer[readerIndex + i] == 13 && buffer[readerIndex + i + 1] == 10 {
          return Some(i);
        }
        i := i + 1;
      }
      return None;
    }

    method AppendInt(order: HostOrder, x: int, w: nat)
      requires Valid() && IsWidth(w) && FitsSigned(x, w)
      modifies this, buffer
      ensures Valid() && View() == old(View()).Appended(PutSigned(x, w))
      ensures buffer == old(buffer) || fresh(buffer)
    {
      var be := HostToNetwork(order, Unsigned(x, w), w);
      NetworkOrder(order, Unsigned(x, w), w);
      Append(InMemory(order, be, w));
    }

    method PrependInt(order: HostOrder, x: int, w: nat)
      requires Valid() && IsWidth(w) && FitsSigned(x, w) && w <= readerIndex
      modifies this`readerIndex, buffer
      ensures Valid() && View() == old(View()).Prepended(PutSigned(x, w))
    {
      var be := HostToNetwork(order, Unsigned(x, w), w);
      NetworkOrder(order, Unsigned(x, w), w);
      Prepend(InMemory(order, be, w));
    }

    method PeekInt(order: HostOrder, w: nat) returns (x: int)
      requires Valid() && IsWidth(w) && w <= ReadableBytes()
      ensures x == GetSigned(View().contents[..w])
    {
      var bytes := buffer[readerIndex..readerIndex + w];
      assert bytes == View().contents[..w];
      BytesRoundTrip(bytes);
      SpellBound(bytes);
      BigEndianSpell(bytes);
      NetworkOrder(order, Spell(bytes), w);
      x := Signed(NetworkToHost(order, FromMemory(order, bytes), w), w);
    }

    method ReadInt(order: HostOrder, w: nat) returns (x: int)
      requires Valid() && IsWidth(w) && w <= ReadableBytes()
      modifies this`readerIndex, this`writerIndex
      ensures Valid() && x == GetSigned(old(View()).contents[..w]) && View() == old(View()).Retrieved(w)
    {
      x := PeekInt(order, w);
      Retrieve(w);
    }

    /** Any sequence of integers appended lies behind what was there, in network order. */
    method AppendAll(order: HostOrder, xs: seq<NetInt>)
      requires Valid()
      modifies this, buffer
      ensures Valid() && View().contents == old(View()).contents + PutAll(xs)
      ensures buffer == old(buffer) || fresh(buffer)
    {
      ghost var c0 := View().contents;
      for i := 0 to |xs|
        invariant Valid() && (buffer == old(buffer) || fresh(buffer))
        invariant View().contents == c0 + PutAll(xs[..i])
      {
        PutAllAppend(xs[..i], xs[i]);
        Assoc(c0, PutAll(xs[..i]), PutSigned(xs[i].value, xs[i].width));
        assert xs[..i + 1] == xs[..i] + [xs[i]];
        AppendInt(order, xs[i].value, xs[i].width);
      }
      assert xs[..|xs|] == xs;
    }

    /** Reading with given widths decodes the front of the readable bytes, one integer after another. */
    method ReadAll(order: HostOrder, widths: seq<nat>) returns (values: seq<int>)
      requires Valid() && (forall i :: 0 <= i < |widths| ==> IsWidth(widths[i])) && Total(widths) <= ReadableBytes()
      modifies this`readerIndex, this`writerIndex
      ensures Valid() && values == GetAll(old(View()).contents, widths)
      ensures View().contents == old(View()).contents[Total(widths)..]
      decreases |widths|
    {
      if widths == [] {
        return [];
      }
      ghost var c := View().contents;
      var first := ReadInt(order, widths[0]);
      assert View().contents == c[widths[0]..];
      var others := ReadAll(order, widths[1..]);
      values := [first] + others;
    }

    /** A whole legal history takes the buffer where the model says. */
    method Execute(ops: seq<Op>)
      requires Valid() && LegalHistory(View(), ops)
      modifies this, buffer
      ensures Valid() && View() == After(old(View()), ops)
      ensures NothingTruncated(old(View()), ops) ==> View().contents == Queue(old(View()).contents, ops)
      decreases |ops|
    {
      BufferRefinesQueue(View(), ops);
      if ops == [] {
        return;
      }
      match ops[0] {
        case Append(data) => Append(data);
        case Prepend(data) => Prepend(data);
        case Retrieve(n) => Retrieve(n);
        case Unwrite(n) => Unwrite(n);
        case Shrink(reserve) => Shrink(reserve);
        case ReadFd(data) => var n := ReadFd(Some(data));
      }
      Execute(ops[1..]);
    }
  }
}
