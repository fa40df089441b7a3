/**
 The CRC generator of internal/modbus/crc.go: its table-driven register is the bit-serial one of
 section 6.2.2 of MODBUS over Serial Line V1.02, and what that buys in detected errors.

 Some lemmas take a number as a parameter that their precondition then fixes (`zero`, `one`, `initial`,
 `polynomial`). A recursive function of a literal is unfolded all the way by the verifier, of a
 parameter only a step at a time, which keeps these proofs small.
 */
module Crcs {
  import opened Bits
  import opened Bytes
  import opened CrcTables
  import opened Encoding

  // ---- The bit-serial register: sixteen bits, least significant first ----

  /** The bits of the polynomial 0xA001: see TapsArePolynomial. */
  function Taps(): (taps: seq<bool>)
    ensures |taps| == 16
    ensures forall i :: 0 <= i < 16 ==> taps[i] == (i == 0 || i == 13 || i == 15)
  {
    seq(16, i => i == 0 || i == 13 || i == 15)
  }

  /** One round: shift right, and add the polynomial when a one falls out. */
  function Shift(r: seq<bool>): (q: seq<bool>)
    requires |r| == 16
    ensures |q| == 16
  {
    if r[0] then Xor(r[1..] + [false], Taps()) else r[1..] + [false]
  }

  /** Adds one bit to the register and does one round. */
  function Feed(r: seq<bool>, bit: bool): (q: seq<bool>)
    requires |r| == 16
    ensures |q| == 16
  {
    Shift(r[0 := r[0] != bit])
  }

  function Run(r: seq<bool>, bits: seq<bool>): (q: seq<bool>)
    requires |r| == 16
    ensures |q| == 16
    decreases |bits|
  {
    if bits == [] then r else Run(Feed(r, bits[0]), bits[1..])
  }

  /** All bits of a byte string in transmission order. */
  function StreamBits(bs: seq<byte>): (bits: seq<bool>)
    ensures |bits| == 8 * |bs|
  {
    if bs == [] then [] else ByteBits(bs[0]) + StreamBits(bs[1..])
  }

  /** The initial value: see OnesAreInitial. */
  function Ones(): (bits: seq<bool>)
    ensures |bits| == 16
    ensures forall i :: 0 <= i < 16 ==> bits[i]
  {
    seq(16, i => true)
  }

  /** The CRC of a byte string, fed bit by bit. */
  function SerialCrc(bs: seq<byte>): (q: seq<bool>)
    ensures |q| == 16
  {
    Run(Ones(), StreamBits(bs))
  }

  lemma {:induction false} RunConcat(r: seq<bool>, a: seq<bool>, b: seq<bool>)
    requires |r| == 16
    ensures Run(r, a + b) == Run(Run(r, a), b)
    decreases |a|
  {
    if a == [] {
      assert a + b == b;
    } else {
      assert (a + b)[1..] == a[1..] + b;
      RunConcat(Feed(r, a[0]), a[1..], b);
    }
  }

  lemma {:induction false} StreamBitsConcat(a: seq<byte>, b: seq<byte>)
    ensures StreamBits(a + b) == StreamBits(a) + StreamBits(b)
  {
    if a == [] {
      assert a + b == b;
    } else {
      assert (a + b)[1..] == a[1..] + b;
      StreamBitsConcat(a[1..], b);
    }
  }

  // ---- It is linear and invertible ----

  /** One step, bit by bit. */
  lemma FeedAt(r: seq<bool>, bit: bool)
    requires |r| == 16
    ensures var q, out := Feed(r, bit), r[0] != bit;
            forall i :: 0 <= i < 16 ==>
              q[i] == ((i < 15 && r[i + 1]) != (out && (i == 0 || i == 13 || i == 15)))
  {
    var r' := r[0 := r[0] != bit];
    var base := r'[1..] + [false];
    assert forall i :: 0 <= i < 16 ==> base[i] == (i < 15 && r[i + 1]);
  }

  lemma FeedLinear(r: seq<bool>, s: seq<bool>, a: bool, b: bool)
    requires |r| == |s| == 16
    ensures Xor(Feed(r, a), Feed(s, b)) == Feed(Xor(r, s), a != b)
  {
    FeedAt(r, a);
    FeedAt(s, b);
    FeedAt(Xor(r, s), a != b);
  }

  lemma FeedInjective(r: seq<bool>, s: seq<bool>, bit: bool)
    requires |r| == |s| == 16
    requires Feed(r, bit) == Feed(s, bit)
    ensures r == s
  {
    FeedAt(r, bit);
    FeedAt(s, bit);
    var q := Feed(r, bit);
    assert q[15] == (r[0] != bit) == (s[0] != bit);
    forall i | 0 < i < 16
      ensures r[i] == s[i]
    {
      assert q[i - 1] == (r[i] != (r[0] != bit && (i - 1 == 0 || i - 1 == 13)));
      assert q[i - 1] == (s[i] != (s[0] != bit && (i - 1 == 0 || i - 1 == 13)));
    }
  }

  /** The registers of two inputs differ by the register of their difference. */
  lemma {:induction false} RunLinear(r: seq<bool>, s: seq<bool>, a: seq<bool>, b: seq<bool>)
    requires |r| == |s| == 16 && |a| == |b|
    ensures Xor(Run(r, a), Run(s, b)) == Run(Xor(r, s), Xor(a, b))
    decreases |a|
  {
    if a != [] {
      RunLinear(Feed(r, a[0]), Feed(s, b[0]), a[1..], b[1..]);
      FeedLinear(r, s, a[0], b[0]);
      assert Xor(a, b)[1..] == Xor(a[1..], b[1..]);
    }
  }

  /** No two registers meet while they are fed the same bits. */
  lemma {:induction false} RunInjective(r: seq<bool>, s: seq<bool>, bits: seq<bool>)
    requires |r| == |s| == 16
    requires Run(r, bits) == Run(s, bits)
    ensures r == s
    decreases |bits|
  {
    if bits != [] {
      RunInjective(Feed(r, bits[0]), Feed(s, bits[0]), bits[1..]);
      FeedInjective(r, s, bits[0]);
    }
  }

  /** Feeding a register the bits it starts with empties them out, without feedback. */
  lemma {:induction false} RunOwnBits(own: seq<bool>, rest: seq<bool>)
    requires |own| + |rest| == 16
    ensures Run(own + rest, own) == rest + Zeros(|own|)
    decreases |own|
  {
    if own == [] {
      assert own + rest == rest == rest + Zeros(0);
    } else {
      var next := rest + [false];
      FeedAt(own + rest, own[0]);
      assert Feed(own + rest, own[0]) == own[1..] + next;
      RunOwnBits(own[1..], next);
      assert next + Zeros(|own| - 1) == rest + Zeros(|own|);
    }
  }

  lemma XorSelf(r: seq<bool>, s: seq<bool>)
    requires |r| == |s|
    ensures Xor(r, Zeros(|r|)) == r
    ensures Xor(r, Xor(r, s)) == s
    ensures Xor(r, r) == Zeros(|r|)
    ensures Xor(r, s) == Zeros(|r|) ==> r == s
  {
    if Xor(r, s) == Zeros(|r|) {
      forall i | 0 <= i < |r| ensures r[i] == s[i] { assert !Xor(r, s)[i]; }
    }
  }

  /** An empty register stays empty on zeros. */
  lemma RunNothing(n: nat)
    ensures Run(Zeros(16), Zeros(n)) == Zeros(16)
  {
    RunLinear(Zeros(16), Zeros(16), Zeros(n), Zeros(n));
    XorSelf(Zeros(16), Zeros(16));
    XorSelf(Zeros(n), Zeros(n));
    var q := Run(Zeros(16), Zeros(n));
    XorSelf(q, q);
  }

  // ---- The table ----

  /** Eight rounds on a register, one zero bit each. */
  function EightRounds(r: seq<bool>): (q: seq<bool>)
    requires |r| == 16
    ensures |q| == 16
  {
    Run(r, Zeros(8))
  }

  lemma FlipIsFlipBit(x: nat, k: nat)
    ensures FlipBit(x, k) == Flip(x, Exp2(k))
  {
    if k > 0 {
      FlipIsFlipBit(x / 2, k - 1);
      HalvedQuotient(x, Exp2(k - 1));
    }
  }

  lemma HalvedQuotient(x: nat, w: nat)
    requires w > 0
    ensures x / (2 * w) == (x / 2) / w
  {
    var q, r := (x / 2) / w, (x / 2) % w;
    assert x / 2 == q * w + r;
    assert x == (2 * w) * q + (2 * r + x % 2);
    QuotientUnique(x, 2 * w, q, 2 * r + x % 2);
  }

  lemma QuotientUnique(x: nat, w: nat, q: nat, r: nat)
    requires w > 0 && x == w * q + r && r < w
    ensures x / w == q
  {
    var p := x / w;
    assert p < q ==> w * (p + 1) <= w * q;
    assert q < p ==> w * (q + 1) <= w * p;
  }

  lemma {:induction false} FlipFits(x: nat, k: nat, n: nat)
    requires k < n && x < Exp2(n)
    ensures FlipBit(x, k) < Exp2(n)
  {
    var half := Exp2(n - 1);
    assert x / 2 < half;
    if k > 0 {
      FlipFits(x / 2, k - 1, n - 1);
      assert FlipBit(x / 2, k - 1) <= half - 1;
    } else {
      assert FlipBit(x, 0) <= 2 * (x / 2) + 1;
    }
  }

  /** Adding the polynomial to a number is flipping bits 0, 13 and 15. */
  lemma AddPolynomial(x: nat, z: int)
    requires x < 0x1_0000 && z == Flip(Flip(Flip(x, 0x1), 0x2000), 0x8000)
    ensures 0 <= z < 0x1_0000 && BitsOf(z, 16) == Xor(BitsOf(x, 16), Taps())
  {
    FlipTaps(x);
    assert forall i :: 0 <= i < 16 ==> BitsOf(z, 16)[i] == Xor(BitsOf(x, 16), Taps())[i];
  }

  lemma FlipTaps(x: nat)
    requires x < 0x1_0000
    ensures var z := Flip(Flip(Flip(x, 0x1), 0x2000), 0x8000);
            0 <= z < 0x1_0000 &&
            forall i :: 0 <= i < 16 ==> BitsOf(z, 16)[i] == (BitsOf(x, 16)[i] != (i == 0 || i == 13 || i == 15))
  {
    Powers();
    FlipOne(x, 0, 0x1);
    FlipOne(Flip(x, 0x1), 13, 0x2000);
    FlipOne(Flip(Flip(x, 0x1), 0x2000), 15, 0x8000);
  }

  lemma FlipOne(x: nat, k: nat, w: nat)
    requires k < 16 && w == Exp2(k) && x < Exp2(16)
    ensures FlipBit(x, k) == Flip(x, w) < Exp2(16)
    ensures BitsOf(FlipBit(x, k), 16) == BitsOf(x, 16)[k := !BitsOf(x, 16)[k]]
  {
    FlipIsFlipBit(x, k);
    FlipFits(x, k, 16);
    FlipBitBits(x, k, 16);
  }

  lemma RoundIsShift(s: uint16)
    ensures 0 <= Round(s) < 0x1_0000
    ensures BitsOf(Round(s), 16) == Shift(BitsOf(s, 16))
  {
    Powers();
    HalfBits(s, 15);
    if s % 2 == 1 {
      AddPolynomial(s / 2, Round(s));
    }
  }

  lemma {:induction false} HalfBits(x: nat, n: nat)
    requires x < Exp2(n + 1)
    ensures BitsOf(x / 2, n + 1) == BitsOf(x, n + 1)[1..] + [false]
  {
    if n > 0 {
      HalfBits(x / 2, n - 1);
    }
  }

  lemma Powers()
    ensures Exp2(0) == 0x1 && Exp2(6) == 0x40 && Exp2(7) == 0x80
    ensures Exp2(13) == 0x2000 && Exp2(14) == 0x4000 && Exp2(15) == 0x8000 && Exp2(16) == 0x1_0000
  {
    assert Exp2(4) == 16 && Exp2(8) == 256 && Exp2(12) == 4096;
  }

  /** The polynomial, as the bits the register works with. */
  lemma TapsArePolynomial(zero: nat, polynomial: nat)
    requires zero == 0 && polynomial == POLYNOMIAL
    ensures BitsOf(polynomial, 16) == Taps()
  {
    assert polynomial == Flip(Flip(Flip(zero, 0x1), 0x2000), 0x8000);
    AddPolynomial(zero, polynomial);
    BitsOfZero(16);
  }

  lemma {:induction false} AllOnes(n: nat, i: nat)
    requires i < n
    ensures BitsOf(Exp2(n) - 1, n)[i]
  {
    assert (Exp2(n) - 1) / 2 == Exp2(n - 1) - 1 && (Exp2(n) - 1) % 2 == 1;
    if i > 0 {
      AllOnes(n - 1, i - 1);
    }
  }

  lemma OnesAreInitial(initial: uint16)
    requires initial == 0xffff
    ensures BitsOf(initial, 16) == Ones()
  {
    Powers();
    forall i | 0 <= i < 16
      ensures BitsOf(initial, 16)[i]
    {
      AllOnes(16, i);
    }
  }

  /** The bits of table entry 1, 0xC0C1. */
  function Entry1Bits(): (bits: seq<bool>)
    ensures |bits| == 16
    ensures forall i :: 0 <= i < 16 ==> bits[i] == (i == 0 || i == 6 || i == 7 || i == 14 || i == 15)
  {
    seq(16, i => i == 0 || i == 6 || i == 7 || i == 14 || i == 15)
  }

  lemma AddEntry1IsXor(x: nat)
    requires x < 0x1_0000
    ensures 0 <= AddEntry1(x) < 0x1_0000
    ensures BitsOf(AddEntry1(x), 16) == Xor(BitsOf(x, 16), Entry1Bits())
  {
    var low := Flip(Flip(Flip(x, 0x1), 0x40), 0x80);
    AddLow(x);
    AddHigh(low);
    assert BitsOf(AddEntry1(x), 16) == Xor(BitsOf(x, 16), Entry1Bits());
  }

  lemma AddLow(x: nat)
    requires x < 0x1_0000
    ensures var z := Flip(Flip(Flip(x, 0x1), 0x40), 0x80);
            0 <= z < 0x1_0000 &&
            forall i :: 0 <= i < 16 ==> BitsOf(z, 16)[i] == (BitsOf(x, 16)[i] != (i == 0 || i == 6 || i == 7))
  {
    Powers();
    FlipOne(x, 0, 0x1);
    FlipOne(Flip(x, 0x1), 6, 0x40);
    FlipOne(Flip(Flip(x, 0x1), 0x40), 7, 0x80);
  }

  lemma AddHigh(x: nat)
    requires x < 0x1_0000
    ensures var z := Flip(Flip(x, 0x4000), 0x8000);
            0 <= z < 0x1_0000 &&
            forall i :: 0 <= i < 16 ==> BitsOf(z, 16)[i] == (BitsOf(x, 16)[i] != (i == 14 || i == 15))
  {
    Powers();
    FlipOne(x, 14, 0x4000);
    FlipOne(Flip(x, 0x4000), 15, 0x8000);
  }

  // ---- What the table means ----

  /** The register that holds just the byte i. */
  function Loaded(i: byte): (r: seq<bool>)
    ensures |r| == 16
  {
    ByteBits(i) + Zeros(8)
  }

  /** One more round on what eight rounds make of 2j is what they make of j. */
  lemma DoubledIndex(j: nat)
    requires j < 128
    ensures Feed(EightRounds(Loaded(2 * j)), false) == EightRounds(Loaded(j))
  {
    hide Run;
    var r := Loaded(2 * j);
    DoubledLoad(j);
    hide Feed;
    hide Loaded;
    assert Zeros(8) + [false] == [false] + Zeros(8);
    RunConcat(r, Zeros(8), [false]);
    RunConcat(r, [false], Zeros(8));
    RunOne(r);
    RunOne(EightRounds(r));
  }

  lemma DoubledLoad(j: nat)
    requires j < 128
    ensures Feed(Loaded(2 * j), false) == Loaded(j)
  {
    var r := Loaded(2 * j);
    assert ByteBits(2 * j) == [false] + BitsOf(j, 7);
    TopBit(j, 7);
    assert r[0 := r[0] != false] == r;
  }

  lemma RunOne(r: seq<bool>)
    requires |r| == 16
    ensures Run(r, [false]) == Feed(r, false)
  {
  }

  lemma {:induction false} TopBit(x: nat, n: nat)
    requires x < Exp2(n)
    ensures BitsOf(x, n + 1) == BitsOf(x, n) + [false]
  {
    if n > 0 {
      TopBit(x / 2, n - 1);
    }
  }

  /** Entry i is what the register becomes when it is loaded with i and goes eight rounds. */
  ghost predicate EntryIsSerial(i: byte) {
    BitsOf(CrcTable(i), 16) == EightRounds(Loaded(i))
  }

  lemma HalvedEntry(j: nat)
    requires j < 128
    ensures EntryIsSerial(2 * j) <==> EntryIsSerial(j)
  {
    var t := CrcTable(2 * j);
    EvenEntry(j);
    RoundIsShift(t);
    DoubledIndex(j);
    assert BitsOf(t, 16)[0 := BitsOf(t, 16)[0] != false] == BitsOf(t, 16);
    if EntryIsSerial(j) {
      FeedInjective(BitsOf(t, 16), EightRounds(Loaded(2 * j)), false);
    }
  }

  lemma LastPower(i: byte, polynomial: nat)
    requires i == Exp2(7) && polynomial == POLYNOMIAL
    requires CrcTable(i) == polynomial
    ensures EntryIsSerial(i)
  {
    hide CrcTable;
    hide Run;
    var r := Loaded(i);
    BitsOfZero(7);
    BitsOfParts(0, 1, 7, 1);
    var rest := [true] + Zeros(8);
    assert r == Zeros(7) + rest;
    RunOwnBits(Zeros(7), rest);
    assert Zeros(8) == Zeros(7) + [false];
    RunConcat(r, Zeros(7), [false]);
    RunOne(rest + Zeros(7));
    FeedAt(rest + Zeros(7), false);
    assert EightRounds(r) == Taps();
    TapsArePolynomial(0, polynomial);
  }

  lemma {:induction false} PowerEntry(k: nat)
    requires k <= 7
    ensures Exp2(k) < 256
    ensures EntryIsSerial(Exp2(k))
    decreases 7 - k
  {
    Exp2Of8();
    if k == 7 {
      LastPower(Exp2(k), POLYNOMIAL);
    } else {
      PowerEntry(k + 1);
      HalvedEntry(Exp2(k));
    }
  }

  lemma EntryOne(one: byte)
    requires one == 1
    ensures EightRounds(Loaded(one)) == Entry1Bits()
  {
    assert EntryIsSerial(one) by { PowerEntry(0); }
    FirstEntry(CrcTable(one));
  }

  lemma FirstEntry(entry: nat)
    requires entry == CrcTable(1)
    ensures BitsOf(entry, 16) == Entry1Bits()
  {
    OddEntry(0, 0);
    hide CrcTable;
    BitsOfZero(16);
    AddEntry1IsXor(0);
  }

  lemma OddIndex(row: nat, k: nat)
    requires row < 16 && k < 8
    ensures var i := 16 * row + 2 * k;
            EntryIsSerial(i) ==> EntryIsSerial(i + 1)
  {
    hide CrcTable;
    hide AddEntry1;
    hide Run;
    hide Loaded;
    hide Xor;
    hide BitsOf;
    hide Entry1Bits;
    var i := 16 * row + 2 * k;
    OddEntry(row, k);
    AddEntry1IsXor(CrcTable(i));
    var one: byte :| one == 1;
    EntryOne(one);
    LoadedOdd(i + 1, one);
    RunLinear(Loaded(i), Loaded(one), Zeros(8), Zeros(8));
    XorSelf(Zeros(8), Zeros(8));
  }

  lemma LoadedOdd(i: nat, one: byte)
    requires i < 256 && i % 2 == 1 && one == 1
    ensures Loaded(i) == Xor(Loaded(i - 1), Loaded(one))
  {
    BitsOfZero(7);
    assert ByteBits(one) == [true] + Zeros(7);
    assert ByteBits(i) == [true] + BitsOf(i / 2, 7);
    assert ByteBits(i - 1) == [false] + BitsOf(i / 2, 7);
  }

  lemma ZeroEntry()
    ensures EntryIsSerial(0)
  {
    assert CrcTable(0) == 0;
    ZeroRegister(0);
  }

  lemma ZeroRegister(zero: nat)
    requires zero == 0
    ensures BitsOf(zero, 16) == EightRounds(Loaded(zero))
  {
    RunNothing(8);
    BitsOfZero(8);
    BitsOfZero(16);
    assert Loaded(zero) == Zeros(16);
  }

  /** Every entry of the table. */
  lemma {:induction false} TableIsSerial(i: byte)
    ensures EntryIsSerial(i)
    decreases i
  {
    hide EntryIsSerial;
    if i == 0 {
      ZeroEntry();
    } else {
      TableIsSerial(i / 2);
      HalvedEntry(i / 2);
      if i % 2 == 1 {
        OddIndex(i / 16, i % 16 / 2);
        assert i == 16 * (i / 16) + 2 * (i % 16 / 2) + 1;
      }
    }
  }

  // ---- A byte at a time ----

  /** Eight bits at once: they are added to the low half of the register, then eight rounds. */
  lemma RunEightBits(r: seq<bool>, p: seq<bool>)
    requires |r| == 16 && |p| == 8
    ensures Run(r, p) == EightRounds(Xor(r, p + Zeros(8)))
  {
    hide Run;
    hide Zeros;
    var w := p + Zeros(8);
    var x := Xor(r, w);
    RunOwnBits(p, Zeros(8));
    RunLinear(w, x, p, Zeros(8));
    assert Xor(w, x) == r;
    assert Xor(p, Zeros(8)) == p;
    AddNothing(Zeros(8) + Zeros(8), EightRounds(x));
  }

  lemma AddNothing(z: seq<bool>, r: seq<bool>)
    requires |z| == |r| && forall i :: 0 <= i < |z| ==> !z[i]
    ensures Xor(z, r) == r
  {
  }

  /** Only the low half of a register goes through the feedback in eight rounds. */
  lemma EightRoundsSplit(low: seq<bool>, high: seq<bool>)
    requires |low| == |high| == 8
    ensures EightRounds(low + high) == Xor(high + Zeros(8), EightRounds(low + Zeros(8)))
  {
    hide Run;
    RunLinear(Zeros(8) + high, low + Zeros(8), Zeros(8), Zeros(8));
    XorSelf(Zeros(8), Zeros(8));
    assert Xor(Zeros(8) + high, low + Zeros(8)) == low + high;
    RunOwnBits(Zeros(8), high);
  }

  /** `x ^ y` on 16 bits. */
  function XorWord(x: uint16, y: uint16): (z: uint16)
    ensures BitsOf(z, 16) == Xor(BitsOf(x, 16), BitsOf(y, 16))
  {
    var bits := Xor(BitsOf(x, 16), BitsOf(y, 16));
    Powers();
    BitsOfNatOf(bits);
    NatOf(bits)
  }

  /** One turn of the loop in `add`. */
  function AddByte(crc: uint16, b: byte): uint16 {
    XorWord(crc / 256, CrcTable(XorByte(b, crc % 256)))
  }

  lemma EightRoundsOfEntry(low: seq<bool>, high: seq<bool>, i: byte)
    requires |low| == |high| == 8 && i == ByteOf(low)
    ensures EightRounds(low + high) == Xor(high + Zeros(8), BitsOf(CrcTable(i), 16))
  {
    EightRoundsSplit(low, high);
    ByteBijection(i, low);
    TableIsSerial(i);
  }

  lemma HalvesOfWord(x: uint16)
    ensures BitsOf(x, 16) == ByteBits(x % 256) + ByteBits(x / 256)
    ensures BitsOf(x / 256, 16) == ByteBits(x / 256) + Zeros(8)
  {
    Exp2Of8();
    BitsOfParts(x % 256, x / 256, 8, 8);
    BitsOfParts(x / 256, 0, 8, 8);
    BitsOfZero(8);
  }

  /** What one turn of the loop means. */
  lemma AddByteIsSerial(crc: uint16, b: byte)
    ensures BitsOf(AddByte(crc, b), 16) == Run(BitsOf(crc, 16), ByteBits(b))
  {
    hide CrcTable;
    hide Run;
    hide EightRounds;
    hide Zeros;
    hide BitsOf;
    hide ByteBits;
    var low, high, p := ByteBits(crc % 256), ByteBits(crc / 256), ByteBits(b);
    HalvesOfWord(crc);
    RunEightBits(low + high, p);
    assert Xor(low + high, p + Zeros(8)) == Xor(p, low) + high;
    EightRoundsOfEntry(Xor(p, low), high, XorByte(b, crc % 256));
  }

  /** The register after the loop of `add`. */
  function AddBytes(crc: uint16, bs: seq<byte>): uint16
    decreases |bs|
  {
    if bs == [] then crc else AddBytes(AddByte(crc, bs[0]), bs[1..])
  }

  function CrcOf(bs: seq<byte>): uint16 {
    AddBytes(0xffff, bs)
  }

  /** Adding in pieces is adding the concatenation. */
  lemma {:induction false} AddBytesConcat(crc: uint16, a: seq<byte>, b: seq<byte>)
    ensures AddBytes(crc, a + b) == AddBytes(AddBytes(crc, a), b)
    decreases |a|
  {
    hide AddByte;
    if a == [] {
      assert a + b == b;
    } else {
      assert (a + b)[1..] == a[1..] + b;
      AddBytesConcat(AddByte(crc, a[0]), a[1..], b);
    }
  }

  lemma {:induction false} AddBytesIsSerial(crc: uint16, bs: seq<byte>)
    ensures BitsOf(AddBytes(crc, bs), 16) == Run(BitsOf(crc, 16), StreamBits(bs))
    decreases |bs|
  {
    hide AddByte;
    hide ByteBits;
    if bs != [] {
      var next := AddByte(crc, bs[0]);
      AddByteIsSerial(crc, bs[0]);
      AddBytesIsSerial(next, bs[1..]);
      RunConcat(BitsOf(crc, 16), ByteBits(bs[0]), StreamBits(bs[1..]));
    }
  }

  /** The table-driven CRC is the bit-serial one, on every byte string. */
  lemma CrcIsSerial(bs: seq<byte>)
    ensures BitsOf(CrcOf(bs), 16) == SerialCrc(bs)
  {
    hide AddBytes;
    hide Run;
    var initial: uint16 :| initial == 0xffff;
    AddBytesIsSerial(initial, bs);
    OnesAreInitial(initial);
  }

  class Crc {
    var crc: uint16

    constructor ()
      ensures crc == 0xffff
    {
      crc := 0xffff;
    }

    method Init()
      modifies this
      ensures crc == 0xffff
    {
      crc := 0xffff;
    }

    method Add(bs: seq<byte>)
      modifies this
      ensures crc == AddBytes(old(crc), bs)
    {
      hide CrcTable;
      for i := 0 to |bs|
        invariant AddBytes(crc, bs[i..]) == AddBytes(old(crc), bs)
      {
        var index := XorByte(bs[i], crc % 256);
        crc := crc / 256;
        crc := XorWord(crc, CrcTable(index));
      }
    }

    method Value() returns (bs: seq<byte>)
      ensures bs == Uint16ToBytes(LittleEndian, crc)
    {
      bs := Uint16ToBytes(LittleEndian, crc);
    }

    method IsEqual(low: byte, high: byte) returns (yes: bool)
      ensures yes <==> [low, high] == Uint16ToBytes(LittleEndian, crc)
    {
      yes := BytesToUint16(LittleEndian, [low, high]) == crc;
    }
  }

  // ---- Error detection ----

  /** A byte string that ends in its own CRC, low byte first. */
  predicate EndsInCrc(frame: seq<byte>) {
    2 <= |frame| && frame[|frame| - 2..] == Uint16ToBytes(LittleEndian, CrcOf(frame[..|frame| - 2]))
  }

  lemma TrailerBits(crc: uint16)
    ensures StreamBits(Uint16ToBytes(LittleEndian, crc)) == BitsOf(crc, 16)
  {
    HalvesOfWord(crc);
    var bs := Uint16ToBytes(LittleEndian, crc);
    assert bs[1..] == [bs[1]] && bs[1..][1..] == [];
    assert StreamBits(bs) == ByteBits(bs[0]) + StreamBits(bs[1..]);
    assert StreamBits(bs[1..]) == ByteBits(bs[1]) + StreamBits([]);
  }

  lemma {:induction false} StreamBitsInjective(a: seq<byte>, b: seq<byte>)
    requires |a| == |b| && StreamBits(a) == StreamBits(b)
    ensures a == b
  {
    hide ByteBits;
    if a != [] {
      assert ByteBits(a[0]) == StreamBits(a)[..8] == StreamBits(b)[..8] == ByteBits(b[0]);
      assert StreamBits(a[1..]) == StreamBits(a)[8..] == StreamBits(b)[8..] == StreamBits(b[1..]);
      ByteBijection(a[0], ByteBits(a[0]));
      ByteBijection(b[0], ByteBits(b[0]));
      StreamBitsInjective(a[1..], b[1..]);
    }
  }

  lemma RunToZero(r: seq<bool>, bits: seq<bool>)
    requires |r| == |bits| == 16
    ensures Run(r, bits) == Zeros(16) <==> r == bits
  {
    hide Run;
    RunOwnBits(bits, []);
    assert bits + [] == bits && [] + Zeros(16) == Zeros(16);
    if Run(r, bits) == Zeros(16) {
      RunInjective(r, bits, bits);
    }
  }

  /** A byte string ends in its CRC exactly when the register is empty after all of it. */
  lemma Residue(frame: seq<byte>)
    requires 2 <= |frame|
    ensures EndsInCrc(frame) <==> SerialCrc(frame) == Zeros(16)
  {
    hide Run;
    hide CrcOf;
    hide Uint16ToBytes;
    var n := |frame| - 2;
    var body, trailer := frame[..n], frame[n..];
    var crc := CrcOf(body);
    CrcIsSerial(body);
    TrailerBits(crc);
    assert frame == body + trailer;
    StreamBitsConcat(body, trailer);
    RunConcat(Ones(), StreamBits(body), StreamBits(trailer));
    RunToZero(BitsOf(crc, 16), StreamBits(trailer));
    if BitsOf(crc, 16) == StreamBits(trailer) {
      StreamBitsInjective(trailer, Uint16ToBytes(LittleEndian, crc));
    }
  }

  /** The bits of a byte string, as module Bits numbers them. */
  lemma {:induction false} StreamBitsAt(bs: seq<byte>, i: nat)
    requires i < 8 * |bs|
    ensures StreamBits(bs)[i] == BitAt(bs, i)
  {
    if i >= 8 {
      StreamBitsAt(bs[1..], i - 8);
      assert bs[1..][(i - 8) / 8] == bs[i / 8] && (i - 8) % 8 == i % 8;
    }
  }

  /** An error confined to sixteen consecutive bits does not empty an empty register. */
  lemma BurstBits(before: nat, burst: seq<bool>, after: nat)
    requires |burst| == 16
    requires Run(Zeros(16), Zeros(before) + (burst + Zeros(after))) == Zeros(16)
    ensures burst == Zeros(16)
  {
    hide Run;
    RunConcat(Zeros(16), Zeros(before), burst + Zeros(after));
    RunNothing(before);
    RunConcat(Zeros(16), burst, Zeros(after));
    RunNothing(after);
    RunInjective(Run(Zeros(16), burst), Zeros(16), Zeros(after));
    RunToZero(Zeros(16), burst);
  }

  /** The bits in which two byte strings of the same length differ. */
  ghost function FlippedBits(f: seq<byte>, g: seq<byte>): (d: seq<bool>)
    requires |f| == |g|
    ensures |d| == 8 * |f|
    ensures forall i :: 0 <= i < |d| ==> d[i] == (StreamBits(f)[i] != StreamBits(g)[i])
  {
    Xor(StreamBits(f), StreamBits(g))
  }

  /** Two byte strings that both end in their CRC differ by an error that leaves an empty register empty. */
  lemma UndetectedError(f: seq<byte>, g: seq<byte>)
    requires |f| == |g| && EndsInCrc(f) && EndsInCrc(g)
    ensures Run(Zeros(16), FlippedBits(f, g)) == Zeros(16)
  {
    hide Run;
    Residue(f);
    Residue(g);
    RunLinear(Ones(), Ones(), StreamBits(f), StreamBits(g));
    XorSelf(Ones(), Ones());
    XorSelf(Zeros(16), Zeros(16));
  }

  /** Some bits differ, and all that do lie within sixteen consecutive ones. */
  ghost predicate Burst(f: seq<byte>, g: seq<byte>, start: nat)
    requires |f| == |g|
  {
    && f != g
    && start + 16 <= 8 * |f|
    && forall i :: 0 <= i < 8 * |f| && BitAt(f, i) != BitAt(g, i) ==> start <= i < start + 16
  }

  lemma AroundBurst(d: seq<bool>, start: nat)
    requires start + 16 <= |d|
    requires forall i :: 0 <= i < |d| && d[i] ==> start <= i < start + 16
    ensures d == Zeros(start) + (d[start..start + 16] + Zeros(|d| - start - 16))
  {
    hide Zeros;
  }

  lemma ErrorAt(f: seq<byte>, g: seq<byte>)
    requires |f| == |g|
    ensures forall i :: 0 <= i < 8 * |f| ==> FlippedBits(f, g)[i] == (BitAt(f, i) != BitAt(g, i))
  {
    forall i | 0 <= i < 8 * |f|
      ensures FlippedBits(f, g)[i] == (BitAt(f, i) != BitAt(g, i))
    {
      StreamBitsAt(f, i);
      StreamBitsAt(g, i);
    }
  }

  /**
   No burst of at most sixteen bits, CRC included, leads from one byte string that ends in its CRC to
   another.
   */
  lemma BurstDetected(f: seq<byte>, g: seq<byte>, start: nat)
    requires |f| == |g| && EndsInCrc(f) && Burst(f, g, start)
    ensures !EndsInCrc(g)
  {
    hide Run;
    hide EndsInCrc;
    hide BitAt;
    if EndsInCrc(g) {
      var d := FlippedBits(f, g);
      UndetectedError(f, g);
      ErrorAt(f, g);
      AroundBurst(d, start);
      BurstBits(start, d[start..start + 16], |d| - start - 16);
      NoError(f, g, start);
    }
  }

  lemma NoError(f: seq<byte>, g: seq<byte>, start: nat)
    requires |f| == |g| && start + 16 <= 8 * |f|
    requires FlippedBits(f, g)[start..start + 16] == Zeros(16)
    requires FlippedBits(f, g) == Zeros(start) + (Zeros(16) + Zeros(8 * |f| - start - 16))
    ensures f == g
  {
    hide Zeros;
    var d := FlippedBits(f, g);
    assert forall i :: 0 <= i < |d| ==> !d[i];
    StreamBitsInjective(f, g);
  }

  // ---- Parity ----

  function CountOnes(bits: seq<bool>): nat {
    if bits == [] then 0 else (if bits[0] then 1 else 0) + CountOnes(bits[1..])
  }

  /** An odd number of ones. */
  function Odd(bits: seq<bool>): bool {
    if bits == [] then false else bits[0] != Odd(bits[1..])
  }

  lemma {:induction false} OddCount(bits: seq<bool>)
    ensures Odd(bits) <==> CountOnes(bits) % 2 == 1
  {
    if bits != [] {
      OddCount(bits[1..]);
    }
  }

  lemma {:induction false} OddConcat(a: seq<bool>, b: seq<bool>)
    ensures Odd(a + b) == (Odd(a) != Odd(b))
  {
    if a == [] {
      assert a + b == b;
    } else {
      assert (a + b)[1..] == a[1..] + b;
      OddConcat(a[1..], b);
    }
  }

  lemma {:induction false} OddXor(a: seq<bool>, b: seq<bool>)
    requires |a| == |b|
    ensures Odd(Xor(a, b)) == (Odd(a) != Odd(b))
  {
    if a != [] {
      assert Xor(a, b)[1..] == Xor(a[1..], b[1..]);
      OddXor(a[1..], b[1..]);
    }
  }

  lemma {:induction false} OddZeros(n: nat)
    ensures !Odd(Zeros(n))
  {
    if n > 0 {
      OddZeros(n - 1);
      assert Zeros(n)[1..] == Zeros(n - 1);
    }
  }

  lemma OddTaps()
    ensures Odd(Taps())
  {
    var tail := [true, false, true];
    assert tail[1..] == [false, true] && tail[1..][1..] == [true] && tail[1..][1..][1..] == [];
    assert Taps() == [true] + (Zeros(12) + tail);
    OddConcat([true], Zeros(12) + tail);
    OddConcat(Zeros(12), tail);
    OddZeros(12);
  }

  lemma OddDrop(first: bool, rest: seq<bool>)
    ensures Odd(rest + [false]) == Odd(rest)
    ensures Odd([first] + rest) == (first != Odd(rest))
  {
    OddConcat(rest, [false]);
    OddConcat([first], rest);
  }

  /** A round keeps the parity of the register: the one that falls out returns as three. */
  lemma OddShift(r: seq<bool>)
    requires |r| == 16
    ensures Odd(Shift(r)) == Odd(r)
  {
    hide Odd;
    hide Xor;
    hide Taps;
    OddDrop(r[0], r[1..]);
    assert [r[0]] + r[1..] == r;
    OddTaps();
    OddXor(r[1..] + [false], Taps());
  }

  lemma {:induction false} OddRun(r: seq<bool>, bits: seq<bool>)
    requires |r| == 16
    ensures Odd(Run(r, bits)) == (Odd(r) != Odd(bits))
    decreases |bits|
  {
    if bits != [] {
      var fed := r[0 := r[0] != bits[0]];
      assert fed[1..] == r[1..];
      OddShift(fed);
      OddRun(Feed(r, bits[0]), bits[1..]);
    }
  }

  lemma OddOnes()
    ensures !Odd(Ones())
  {
    var two := [true, true];
    var four := two + two;
    assert two[1..] == [true] && two[1..][1..] == [];
    OddConcat(two, two);
    OddConcat(four, four);
    OddConcat(four + four, four + four);
    assert Ones() == (four + four) + (four + four);
  }

  /** A byte string that ends in its CRC has an even number of one bits, CRC included. */
  lemma EvenOnes(frame: seq<byte>)
    requires EndsInCrc(frame)
    ensures CountOnes(StreamBits(frame)) % 2 == 0
  {
    Residue(frame);
    hide Run;
    hide EndsInCrc;
    OddRun(Ones(), StreamBits(frame));
    OddOnes();
    OddZeros(16);
    OddCount(StreamBits(frame));
  }

  /** So every error that flips an odd number of bits is detected. */
  lemma OddErrorDetected(f: seq<byte>, g: seq<byte>)
    requires |f| == |g| && EndsInCrc(f)
    requires CountOnes(FlippedBits(f, g)) % 2 == 1
    ensures !EndsInCrc(g)
  {
    if EndsInCrc(g) {
      EvenOnes(f);
      EvenOnes(g);
      OddXor(StreamBits(f), StreamBits(g));
      OddCount(StreamBits(f));
      OddCount(StreamBits(g));
      OddCount(FlippedBits(f, g));
      assert false;
    }
  }
}
