/** Byte order: big-endian (network) integers of any width, and the host/network swaps of Endian.h. */
module Endian {
  type byte = x: int | 0 <= x < 256

  /** 256^w, the number of values of a w-byte integer. */
  function Radix(w: nat): nat
    ensures Radix(w) >= 1
  {
    if w == 0 then 1 else 256 * Radix(w - 1)
  }

  /** The w low-order bytes of u, most significant first. */
  function BigEndian(u: nat, w: nat): (bs: seq<byte>)
    ensures |bs| == w
  {
    if w == 0 then [] else BigEndian(u / 256, w - 1) + [u % 256]
  }

  /** The unsigned number a byte string spells, most significant byte first. */
  function Spell(bs: seq<byte>): nat {
    if bs == [] then 0 else 256 * Spell(bs[..|bs| - 1]) + bs[|bs| - 1]
  }

  /** Two's complement: a signed number as an unsigned one of w bytes, and back. */
  function Unsigned(x: int, w: nat): int {
    if x < 0 then x + Radix(w) else x
  }

  function Signed(u: nat, w: nat): int {
    if 2 * u < Radix(w) then u else u - Radix(w)
  }

  predicate FitsSigned(x: int, w: nat) {
    var r: int := Radix(w);
    -r <= 2 * x < r
  }

  function PutSigned(x: int, w: nat): (bs: seq<byte>)
    requires FitsSigned(x, w)
    ensures |bs| == w
  {
    BigEndian(Unsigned(x, w), w)
  }

  function GetSigned(bs: seq<byte>): int {
    Signed(Spell(bs), |bs|)
  }

  /** Dividing twice is dividing once by the product. */
  lemma DivideTwice(u: nat, r: nat)
    requires r > 0
    ensures 256 * r > 0 && u / 256 / r == u / (256 * r)
  {
    var q, m := u / 256 / r, u / 256 % r;
    var low := u % 256;
    assert u / 256 == q * r + m;
    assert u == q * (256 * r) + (256 * m + low);
    assert 256 * m + low < 256 * r;
    QuotientUnique(u, 256 * r, q, 256 * m + low);
  }

  lemma QuotientUnique(u: nat, d: nat, q: nat, m: nat)
    requires u == q * d + m && m < d
    ensures u / d == q
  {
    Multiples(q - u / d, d);
    assert (q - u / d) * d == u % d - m;
  }

  lemma Multiples(k: int, d: nat)
    ensures k >= 1 ==> k * d >= d
    ensures k <= -1 ==> k * d <= 0 - d
  {
  }

  /** Byte i holds the digit of weight 256^(w - 1 - i): the most significant comes first. */
  lemma {:induction false} BigEndianAt(u: nat, w: nat, i: nat)
    requires i < w
    ensures BigEndian(u, w)[i] == u / Radix(w - 1 - i) % 256
  {
    if i < w - 1 {
      BigEndianAt(u / 256, w - 1, i);
      DivideTwice(u, Radix(w - 2 - i));
    }
  }

  /** What the bytes of a signed number are, in two's complement. */
  lemma SignedBytes(x: int, w: nat, i: nat)
    requires FitsSigned(x, w) && i < w
    ensures PutSigned(x, w)[i] == (if x < 0 then x + Radix(w) else x) / Radix(w - 1 - i) % 256
  {
    BigEndianAt(Unsigned(x, w), w, i);
  }

  /** Which numbers the four widths hold. */
  lemma SignedRanges(x: int)
    ensures Radix(0) == 1 && Radix(1) == 0x100 && Radix(2) == 0x1_0000 && Radix(4) == 0x1_0000_0000
    ensures forall w: nat :: Radix(w + 1) == 256 * Radix(w)
    ensures FitsSigned(x, 1) <==> -0x80 <= x < 0x80
    ensures FitsSigned(x, 2) <==> -0x8000 <= x < 0x8000
    ensures FitsSigned(x, 4) <==> -0x8000_0000 <= x < 0x8000_0000
    ensures FitsSigned(x, 8) <==> -0x8000_0000_0000_0000 <= x < 0x8000_0000_0000_0000
  {
    assert Radix(4) == 256 * Radix(3) == 65536 * Radix(2);
    assert Radix(6) == 256 * Radix(5) == 65536 * Radix(4);
    assert Radix(8) == 256 * Radix(7) == 65536 * Radix(6);
  }

  lemma {:induction false} SpellBigEndian(u: nat, w: nat)
    requires u < Radix(w)
    ensures Spell(BigEndian(u, w)) == u
  {
    if w > 0 {
      SpellBigEndian(u / 256, w - 1);
      assert BigEndian(u, w)[..w - 1] == BigEndian(u / 256, w - 1);
    }
  }

  lemma {:induction false} SpellBound(bs: seq<byte>)
    ensures Spell(bs) < Radix(|bs|)
  {
    if bs != [] {
      SpellBound(bs[..|bs| - 1]);
    }
  }

  lemma {:induction false} BigEndianSpell(bs: seq<byte>)
    ensures BigEndian(Spell(bs), |bs|) == bs
  {
    if bs != [] {
      BigEndianSpell(bs[..|bs| - 1]);
      assert Spell(bs) / 256 == Spell(bs[..|bs| - 1]) && Spell(bs) % 256 == bs[|bs| - 1];
      assert bs == bs[..|bs| - 1] + [bs[|bs| - 1]];
    }
  }

  /** Every signed number of w bytes survives being written and read in network order. */
  lemma SignedRoundTrip(x: int, w: nat)
    requires FitsSigned(x, w)
    ensures GetSigned(PutSigned(x, w)) == x
  {
    SpellBigEndian(Unsigned(x, w), w);
  }

  /** Every byte string is the encoding of exactly the number it spells. */
  lemma BytesRoundTrip(bs: seq<byte>)
    ensures FitsSigned(GetSigned(bs), |bs|)
    ensures PutSigned(GetSigned(bs), |bs|) == bs
  {
    SpellBound(bs);
    BigEndianSpell(bs);
  }

  /* ---- The host's memory order ---- */

  datatype HostOrder = LittleHost | BigHost

  function Reverse(bs: seq<byte>): (r: seq<byte>)
    ensures |r| == |bs|
    ensures forall i :: 0 <= i < |bs| ==> r[i] == bs[|bs| - 1 - i]
  {
    if bs == [] then [] else Reverse(bs[1..]) + [bs[0]]
  }

  /** How a w-byte unsigned number lies in the host's memory. */
  function InMemory(order: HostOrder, u: nat, w: nat): (bs: seq<byte>)
    ensures |bs| == w
  {
    if order.BigHost? then BigEndian(u, w) else Reverse(BigEndian(u, w))
  }

  /** The number the host sees in w bytes of memory. */
  function FromMemory(order: HostOrder, bs: seq<byte>): nat {
    if order.BigHost? then Spell(bs) else Spell(Reverse(bs))
  }

  /** htobe16/32/64: swap the bytes on a little-endian host, nothing on a big-endian one. */
  function HostToNetwork(order: HostOrder, u: nat, w: nat): nat {
    if order.BigHost? then u else Spell(Reverse(BigEndian(u, w)))
  }

  /** be16/32/64toh: the same swap. */
  function NetworkToHost(order: HostOrder, u: nat, w: nat): nat {
    if order.BigHost? then u else Spell(Reverse(BigEndian(u, w)))
  }

  /** Byte i of a number in memory: the least significant first on a little-endian host. */
  lemma MemoryBytes(order: HostOrder, u: nat, w: nat, i: nat)
    requires i < w
    ensures InMemory(order, u, w)[i] == u / Radix(if order.LittleHost? then i else w - 1 - i) % 256
  {
    BigEndianAt(u, w, if order.LittleHost? then w - 1 - i else i);
  }

  lemma ReverseTwice(bs: seq<byte>)
    ensures Reverse(Reverse(bs)) == bs
  {
  }

  /** On either host the converted number lies in memory in network order,
      and converting what was read from network order restores the number. */
  lemma NetworkOrder(order: HostOrder, u: nat, w: nat)
    requires u < Radix(w)
    ensures InMemory(order, HostToNetwork(order, u, w), w) == BigEndian(u, w)
    ensures NetworkToHost(order, FromMemory(order, BigEndian(u, w)), w) == u
    ensures NetworkToHost(order, HostToNetwork(order, u, w), w) == u
  {
    var be := BigEndian(u, w);
    SpellBigEndian(u, w);
    SpellBound(Reverse(be));
    BigEndianSpell(Reverse(be));
    ReverseTwice(be);
  }
}
