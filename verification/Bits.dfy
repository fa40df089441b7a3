/**
 Bits of bytes, least significant bit first, and the packing of booleans into bytes
 (`encodeBools` and `decodeBools` of internal/modbus/encoding.go).
 */
module Bits {
  import opened Bytes

  function Exp2(n: nat): (r: nat)
    ensures r >= 1
  {
    if n == 0 then 1 else 2 * Exp2(n - 1)
  }

  /** The n lowest bits of x, least significant first. */
  function BitsOf(x: nat, n: nat): (bits: seq<bool>)
    ensures |bits| == n
  {
    if n == 0 then [] else [x % 2 == 1] + BitsOf(x / 2, n - 1)
  }

  /** The number that a list of bits, least significant first, writes. */
  function NatOf(bits: seq<bool>): (x: nat)
    ensures x < Exp2(|bits|)
  {
    if bits == [] then 0 else (if bits[0] then 1 else 0) + 2 * NatOf(bits[1..])
  }

  lemma {:induction false} BitsOfNatOf(bits: seq<bool>)
    ensures BitsOf(NatOf(bits), |bits|) == bits
  {
    if bits != [] {
      var x := NatOf(bits);
      var y := NatOf(bits[1..]);
      assert x / 2 == y && (x % 2 == 1) == bits[0];
      BitsOfNatOf(bits[1..]);
    }
  }

  lemma {:induction false} NatOfBitsOf(x: nat, n: nat)
    requires x < Exp2(n)
    ensures NatOf(BitsOf(x, n)) == x
  {
    if n > 0 {
      NatOfBitsOf(x / 2, n - 1);
      assert BitsOf(x, n)[1..] == BitsOf(x / 2, n - 1);
    }
  }

  lemma Exp2Of8()
    ensures Exp2(8) == 256
  {
    assert Exp2(4) == 16;
  }

  /** The eight bits of a byte. */
  function ByteBits(b: byte): (bits: seq<bool>)
    ensures |bits| == 8
  {
    BitsOf(b, 8)
  }

  function ByteOf(bits: seq<bool>): (b: byte)
    requires |bits| == 8
  {
    Exp2Of8();
    NatOf(bits)
  }

  /** Bytes and lists of eight bits are in bijection. */
  lemma ByteBijection(b: byte, bits: seq<bool>)
    requires |bits| == 8
    ensures ByteOf(ByteBits(b)) == b
    ensures ByteBits(ByteOf(bits)) == bits
  {
    Exp2Of8();
    NatOfBitsOf(b, 8);
    BitsOfNatOf(bits);
  }

  /** `x >> k` */
  function ShiftRight(x: nat, k: nat): nat {
    if k == 0 then x else ShiftRight(x / 2, k - 1)
  }

  /** `x | (0x01 << k)` */
  function OrBit(x: nat, k: nat): nat {
    if ShiftRight(x, k) % 2 == 1 then x else x + Exp2(k)
  }

  lemma {:induction false} ShiftRightIsBit(x: nat, k: nat, n: nat)
    requires k < n
    ensures BitsOf(x, n)[k] == (ShiftRight(x, k) % 2 == 1)
  {
    if k > 0 {
      ShiftRightIsBit(x / 2, k - 1, n - 1);
    }
  }

  lemma {:induction false} OrBitBits(x: nat, k: nat, n: nat)
    requires k < n
    ensures BitsOf(OrBit(x, k), n) == BitsOf(x, n)[k := true]
  {
    if k > 0 {
      assert OrBit(x, k) / 2 == OrBit(x / 2, k - 1) && OrBit(x, k) % 2 == x % 2;
      OrBitBits(x / 2, k - 1, n - 1);
    } else {
      assert OrBit(x, 0) % 2 == 1 && OrBit(x, 0) / 2 == x / 2;
    }
  }

  lemma OrBitByte(b: byte, k: nat)
    requires k < 8
    ensures 0 <= OrBit(b, k) < 256
    ensures ByteBits(OrBit(b, k)) == ByteBits(b)[k := true]
  {
    var x := OrBit(b, k);
    OrBitBits(b, k, 8);
    OrBitUpper(b, k, 8);
    Exp2Of8();
  }

  lemma {:induction false} OrBitUpper(x: nat, k: nat, n: nat)
    requires k < n && x < Exp2(n)
    ensures OrBit(x, k) < Exp2(n)
  {
    if k > 0 {
      var y := OrBit(x, k);
      assert y / 2 == OrBit(x / 2, k - 1);
      assert Exp2(n) == 2 * Exp2(n - 1);
      hide OrBit;
      hide Exp2;
      OrBitUpper(x / 2, k - 1, n - 1);
      assert y / 2 < Exp2(n - 1);
    }
  }

  /** How many bytes n packed booleans take. */
  function PackedLength(n: nat): nat {
    if n % 8 == 0 then n / 8 else n / 8 + 1
  }

  /** Bit i of a byte string, least significant bit of the first byte first. */
  predicate BitAt(bs: seq<byte>, i: nat)
    requires i < 8 * |bs|
  {
    ByteBits(bs[i / 8])[i % 8]
  }

  /** The eight booleans from 8k on; those past the end of the list are false. */
  function Octet(bools: seq<bool>, k: nat): (bits: seq<bool>)
    ensures |bits| == 8
  {
    seq(8, j requires 0 <= j < 8 => 8 * k + j < |bools| && bools[8 * k + j])
  }

  function Packed(bools: seq<bool>): (bs: seq<byte>)
    ensures |bs| == PackedLength(|bools|)
  {
    seq(PackedLength(|bools|), k requires 0 <= k => ByteOf(Octet(bools, k)))
  }

  function Unpacked(quantity: nat, bs: seq<byte>): (bools: seq<bool>)
    requires quantity <= 8 * |bs|
    ensures |bools| == quantity
  {
    seq(quantity, i requires 0 <= i < quantity => BitAt(bs, i))
  }

  /** What packing means: bit i is boolean i, and the bits left over are zero. */
  lemma PackedBits(bools: seq<bool>, i: nat)
    requires i < 8 * PackedLength(|bools|)
    ensures BitAt(Packed(bools), i) == (i < |bools| && bools[i])
  {
    var octet := Octet(bools, i / 8);
    ByteBijection(0, octet);
    assert octet[i % 8] == (i < |bools| && bools[i]);
  }

  /** A byte string is determined by its bits. */
  lemma SameBits(a: seq<byte>, b: seq<byte>)
    requires |a| == |b|
    requires forall i :: 0 <= i < 8 * |a| ==> BitAt(a, i) == BitAt(b, i)
    ensures a == b
  {
    forall k | 0 <= k < |a|
      ensures a[k] == b[k]
    {
      forall j | 0 <= j < 8
        ensures ByteBits(a[k])[j] == ByteBits(b[k])[j]
      {
        assert BitAt(a, 8 * k + j) == BitAt(b, 8 * k + j);
      }
      assert ByteBits(a[k]) == ByteBits(b[k]);
      ByteBijection(a[k], ByteBits(a[k]));
      ByteBijection(b[k], ByteBits(b[k]));
    }
  }

  /** `decodeBools` undoes `encodeBools`. */
  lemma UnpackPacked(bools: seq<bool>)
    ensures Unpacked(|bools|, Packed(bools)) == bools
  {
    forall i | 0 <= i < |bools|
      ensures BitAt(Packed(bools), i) == bools[i]
    {
      PackedBits(bools, i);
    }
  }

  /** `encodeBools` gives a decoded byte string back with the unused bits of its last byte cleared. */
  lemma PackUnpacked(quantity: nat, bs: seq<byte>)
    requires |bs| == PackedLength(quantity)
    ensures var again := Packed(Unpacked(quantity, bs));
            && |again| == |bs|
            && (forall i :: 0 <= i < 8 * |bs| ==> BitAt(again, i) == (i < quantity && BitAt(bs, i)))
            && (forall k :: 0 <= k < quantity / 8 ==> again[k] == bs[k])
            && (quantity % 8 == 0 ==> again == bs)
  {
    var again := Packed(Unpacked(quantity, bs));
    forall i | 0 <= i < 8 * |bs|
      ensures BitAt(again, i) == (i < quantity && BitAt(bs, i))
    {
      PackedBits(Unpacked(quantity, bs), i);
    }
    var whole := quantity / 8;
    forall i | 0 <= i < 8 * whole
      ensures BitAt(again[..whole], i) == BitAt(bs[..whole], i)
    {
      assert BitAt(again, i) == BitAt(bs, i);
    }
    SameBits(again[..whole], bs[..whole]);
    assert forall k :: 0 <= k < whole ==> again[k] == again[..whole][k] == bs[..whole][k] == bs[k];
  }

  method EncodeBools(bools: seq<bool>) returns (out: seq<byte>)
    ensures out == Packed(bools)
  {
    var byteCount := |bools| / 8;
    if |bools| % 8 != 0 {
      byteCount := byteCount + 1;
    }
    var buf := new byte[byteCount](_ => 0);
    BitsOfZero(8);
    for i := 0 to |bools|
      invariant forall j :: 0 <= j < 8 * buf.Length ==> BitAt(buf[..], j) == (j < i && bools[j])
    {
      if bools[i] {
        ghost var before := buf[..];
        OrBitByte(buf[i / 8], i % 8);
        buf[i / 8] := OrBit(buf[i / 8], i % 8);
        assert buf[..] == before[i / 8 := OrBit(before[i / 8], i % 8)];
        SetOneBit(before, i);
      }
    }
    out := buf[..];
    forall i | 0 <= i < 8 * |out|
      ensures BitAt(out, i) == BitAt(Packed(bools), i)
    {
      PackedBits(bools, i);
    }
    SameBits(out, Packed(bools));
  }

  lemma SetOneBit(bs: seq<byte>, i: nat)
    requires i < 8 * |bs|
    requires 0 <= OrBit(bs[i / 8], i % 8) < 256
    ensures var after := bs[i / 8 := OrBit(bs[i / 8], i % 8)];
            forall j :: 0 <= j < 8 * |bs| ==> BitAt(after, j) == (j == i || BitAt(bs, j))
  {
    var after := bs[i / 8 := OrBit(bs[i / 8], i % 8)];
    OrBitByte(bs[i / 8], i % 8);
    forall j | 0 <= j < 8 * |bs|
      ensures BitAt(after, j) == (j == i || BitAt(bs, j))
    {
      if j / 8 == i / 8 {
        assert ByteBits(after[j / 8]) == ByteBits(bs[i / 8])[i % 8 := true];
        assert j % 8 == i % 8 <==> j == i;
      }
    }
  }

  /** The source indexes past the end of its input when it is too short; no caller lets that happen. */
  method DecodeBools(quantity: uint16, bs: seq<byte>) returns (bools: seq<bool>)
    requires quantity <= 8 * |bs|
    ensures bools == Unpacked(quantity, bs)
  {
    bools := [];
    for i := 0 to quantity
      invariant |bools| == i
      invariant forall j :: 0 <= j < i ==> bools[j] == BitAt(bs, j)
    {
      ShiftRightIsBit(bs[i / 8], i % 8, 8);
      bools := bools + [ShiftRight(bs[i / 8], i % 8) % 2 == 1];
    }
  }

  // ---- Exclusive or ----

  function Xor(a: seq<bool>, b: seq<bool>): (d: seq<bool>)
    requires |a| == |b|
    ensures |d| == |a|
    ensures forall i :: 0 <= i < |a| ==> d[i] == (a[i] != b[i])
  {
    if a == [] then [] else [a[0] != b[0]] + Xor(a[1..], b[1..])
  }

  function Zeros(n: nat): (bits: seq<bool>)
    ensures |bits| == n
    ensures forall i :: 0 <= i < n ==> !bits[i]
  {
    if n == 0 then [] else [false] + Zeros(n - 1)
  }

  /** `x ^ y` on 8 bits. */
  function XorByte(x: byte, y: byte): byte {
    ByteOf(Xor(ByteBits(x), ByteBits(y)))
  }

  /** `x ^ (0x01 << k)` */
  function FlipBit(x: nat, k: nat): nat {
    if k == 0 then (if x % 2 == 1 then x - 1 else x + 1) else x % 2 + 2 * FlipBit(x / 2, k - 1)
  }

  lemma {:induction false} FlipBitBits(x: nat, k: nat, n: nat)
    requires k < n
    ensures BitsOf(FlipBit(x, k), n) == BitsOf(x, n)[k := !BitsOf(x, n)[k]]
  {
    if k > 0 {
      FlipBitBits(x / 2, k - 1, n - 1);
    } else {
      assert FlipBit(x, 0) / 2 == x / 2;
    }
  }

  /** A number cut in two at bit m. */
  lemma {:induction false} BitsOfParts(lo: nat, hi: nat, m: nat, n: nat)
    requires lo < Exp2(m)
    ensures BitsOf(lo + Exp2(m) * hi, m + n) == BitsOf(lo, m) + BitsOf(hi, n)
  {
    if m > 0 {
      var x, y := lo + Exp2(m) * hi, lo / 2 + Exp2(m - 1) * hi;
      assert Exp2(m) * hi == 2 * (Exp2(m - 1) * hi);
      assert x % 2 == lo % 2 && x / 2 == y;
      BitsOfParts(lo / 2, hi, m - 1, n);
      assert BitsOf(x, m + n) == [lo % 2 == 1] + BitsOf(y, m - 1 + n);
    }
  }

  lemma {:induction false} BitsOfZero(n: nat)
    ensures BitsOf(0, n) == Zeros(n)
  {
    if n > 0 {
      BitsOfZero(n - 1);
    }
  }
}
