/**
 Errors of few bits. The register of a single one does not come back within the length of a frame, so
 two flipped bits never cancel out; with the odd errors, every error of up to three bits is detected.
 The generator itself shows that neither four bits nor seventeen consecutive ones could be promised.
 */
module TwoBits {
  import opened Bits
  import opened Bytes
  import opened Crcs
  import opened Encoding

  // ---- Turning the register ----

  /** The register after n rounds without input. */
  function Turn(r: seq<bool>, n: nat): (q: seq<bool>)
    requires |r| == 16
    ensures |q| == 16
  {
    Run(r, Zeros(n))
  }

  lemma TurnTwice(r: seq<bool>, a: nat, b: nat)
    requires |r| == 16
    ensures Turn(Turn(r, a), b) == Turn(r, a + b)
  {
    RunConcat(r, Zeros(a), Zeros(b));
    assert Zeros(a) + Zeros(b) == Zeros(a + b);
  }

  lemma TurnXor(r: seq<bool>, s: seq<bool>, n: nat)
    requires |r| == |s| == 16
    ensures Turn(Xor(r, s), n) == Xor(Turn(r, n), Turn(s, n))
  {
    RunLinear(r, s, Zeros(n), Zeros(n));
    XorSelf(Zeros(n), Zeros(n));
  }

  lemma TurnInjective(r: seq<bool>, s: seq<bool>, n: nat)
    requires |r| == |s| == 16 && Turn(r, n) == Turn(s, n)
    ensures r == s
  {
    RunInjective(r, s, Zeros(n));
  }

  // ---- A register that sixteen rounds take to the sum of the first two ----

  function V(): (v: seq<bool>)
    ensures |v| == 16
  {
    Zeros(14) + [true, true]
  }

  /** The first fifteen rounds move the two ones down, without feedback. */
  lemma FirstRounds(n: nat)
    requires n <= 14
    ensures Turn(V(), n) == Zeros(14 - n) + ([true, true] + Zeros(n))
  {
    var rest := Zeros(14 - n) + [true, true];
    assert V() == Zeros(n) + rest;
    RunOwnBits(Zeros(n), rest);
    assert rest + Zeros(n) == Zeros(14 - n) + ([true, true] + Zeros(n));
  }

  ghost predicate Rule(m: nat) {
    Turn(V(), 16 * m) == Xor(Turn(V(), 2 * m), Turn(V(), m))
  }

  lemma FirstRoundsAt(n: nat)
    requires n <= 14
    ensures forall i :: 0 <= i < 16 ==> Turn(V(), n)[i] == (i == 14 - n || i == 15 - n)
  {
    FirstRounds(n);
    hide Turn;
    hide V;
    hide Zeros;
  }

  lemma FirstRule()
    ensures Rule(1)
  {
    hide Turn;
    hide Xor;
    hide V;
    FifteenRounds();
    Later(V(), 15, 1, 0, 1);
  }

  lemma FifteenRounds()
    ensures Turn(V(), 15) == Xor(Turn(V(), 1), Turn(V(), 0))
  {
    hide Turn;
    hide Feed;
    hide V;
    hide Xor;
    var v := V();
    FirstRoundsAt(0);
    FirstRoundsAt(1);
    FirstRoundsAt(14);
    var w := Turn(v, 14);
    TurnTwice(v, 14, 1);
    OneTurn(w);
    FeedAt(w, false);
    forall i | 0 <= i < 16
      ensures Turn(v, 15)[i] == Xor(Turn(v, 1), Turn(v, 0))[i]
    {
    }
  }

  lemma OneTurn(r: seq<bool>)
    requires |r| == 16
    ensures Turn(r, 1) == Feed(r, false)
  {
    assert Zeros(1) == [false] && Zeros(1)[1..] == [];
  }

  /** A sum stays one in later rounds. */
  lemma Later(r: seq<bool>, t: nat, x: nat, y: nat, s: nat)
    requires |r| == 16 && Turn(r, t) == Xor(Turn(r, x), Turn(r, y))
    ensures Turn(r, t + s) == Xor(Turn(r, x + s), Turn(r, y + s))
  {
    hide Turn;
    hide Xor;
    TurnTwice(r, t, s);
    TurnTwice(r, x, s);
    TurnTwice(r, y, s);
    TurnXor(Turn(r, x), Turn(r, y), s);
  }

  lemma Cancel(c: seq<bool>, d: seq<bool>, e: seq<bool>)
    requires |c| == |d| == |e|
    ensures Xor(Xor(c, d), Xor(d, e)) == Xor(c, e)
  {
  }

  /** Squaring the rule: the mixed terms cancel. */
  lemma DoubledRule(m: nat)
    requires Rule(m)
    ensures Rule(2 * m)
  {
    hide Turn;
    hide Xor;
    var v, t := V(), 16 * m;
    hide V;
    Later(v, t, 2 * m, m, t);
    Later(v, t, 2 * m, m, 2 * m);
    Later(v, t, 2 * m, m, m);
    Cancel(Turn(v, 4 * m), Turn(v, 3 * m), Turn(v, 2 * m));
  }

  lemma {:induction false} RuleAt(k: nat)
    ensures Rule(Exp2(k))
  {
    if k == 0 {
      FirstRule();
    } else {
      RuleAt(k - 1);
      DoubledRule(Exp2(k - 1));
    }
  }

  /** The rule, some rounds later. */
  lemma Reduce(k: nat, m: nat, s: nat)
    requires m == Exp2(k)
    ensures Turn(V(), 16 * m + s) == Xor(Turn(V(), 2 * m + s), Turn(V(), m + s))
  {
    hide Turn;
    hide Xor;
    hide V;
    RuleAt(k);
    Later(V(), 16 * m, 2 * m, m, s);
  }

  /** One bit of the register after n rounds. */
  function At(n: nat, i: nat): bool
    requires i < 16
  {
    Turn(V(), n)[i]
  }

  lemma ReduceAt(k: nat, m: nat, s: nat, i: nat)
    requires m == Exp2(k) && i < 16
    ensures At(16 * m + s, i) == (At(2 * m + s, i) != At(m + s, i))
  {
    Reduce(k, m, s);
    hide Turn;
    hide V;
  }

  // ---- Its period ----

  ghost predicate Fixed(n: nat) {
    Turn(V(), n) == V()
  }

  lemma SmallPowers()
    ensures Exp2(0) == 1 && Exp2(1) == 2 && Exp2(2) == 4 && Exp2(3) == 8 && Exp2(5) == 32 && Exp2(6) == 64
    ensures Exp2(7) == 128 && Exp2(8) == 256 && Exp2(11) == 2048
  {
    assert Exp2(4) == 16 && Exp2(9) == 512;
  }

  lemma Period()
    ensures Fixed(32767)
  {
    var v := V();
    hide Run;
    hide Zeros;
    forall i | 0 <= i < 16
      ensures Turn(v, 32768)[i] == Turn(v, 1)[i]
    {
      PeriodAt(i);
    }
    hide Turn;
    hide V;
    assert Turn(v, 32768) == Turn(v, 1);
    TurnTwice(v, 32767, 1);
    TurnInjective(Turn(v, 32767), v, 1);
  }

  lemma PeriodAt(i: nat)
    requires i < 16
    ensures At(32768, i) == At(1, i)
  {
    SmallPowers();
    hide Exp2;
    hide At;
    ReduceAt(11, 2048, 0, i);
    ReduceAt(8, 256, 0, i);
    ReduceAt(7, 128, 0, i);
    ReduceAt(5, 32, 0, i);
    ReduceAt(3, 8, 0, i);
    ReduceAt(2, 4, 0, i);
    ReduceAt(1, 2, 0, i);
    ReduceAt(0, 1, 0, i);
  }

  /** One bit of the register tells its 217th and its 1057th round from the start. */
  lemma NotFixed()
    ensures !Fixed(217) && !Fixed(1057)
  {
    SixthBit();
    EarlyBit(0);
    hide At;
    hide Fixed;
    if Fixed(217) {
      SameBit(217);
    }
    if Fixed(1057) {
      SameBit(1057);
    }
  }

  lemma SameBit(n: nat)
    requires Fixed(n)
    ensures At(n, 6) == At(0, 6)
  {
    TurnNothing(V());
  }

  lemma SixthBit()
    ensures At(217, 6) && At(1057, 6)
  {
    SmallPowers();
    hide Exp2;
    EarlyBits();
    hide At;
    ReduceAt(6, 64, 33, 6);
    ReduceAt(3, 8, 89, 6);
    ReduceAt(3, 8, 33, 6);
    ReduceAt(2, 4, 41, 6);
    ReduceAt(2, 4, 33, 6);
    ReduceAt(1, 2, 17, 6);
    ReduceAt(1, 2, 13, 6);
    ReduceAt(1, 2, 9, 6);
    ReduceAt(1, 2, 5, 6);
    ReduceAt(0, 1, 5, 6);
    ReduceAt(0, 1, 3, 6);
    ReduceAt(0, 1, 1, 6);
  }

  lemma EarlyBits()
    ensures forall n :: 0 <= n <= 15 ==> At(n, 6) == (n == 8 || n == 9)
  {
    hide At;
    forall n | 0 <= n <= 15
      ensures At(n, 6) == (n == 8 || n == 9)
    {
      EarlyBit(n);
    }
  }

  lemma EarlyBit(n: nat)
    requires n <= 15
    ensures At(n, 6) == (n == 8 || n == 9)
  {
    if n <= 14 {
      FirstRounds(n);
    } else {
      FirstRounds(14);
      var w := Turn(V(), 14);
      assert w == [true, true] + Zeros(14);
      TurnTwice(V(), 14, 1);
      OneTurn(w);
      FeedAt(w, false);
    }
  }

  lemma FixedDifference(a: nat, b: nat)
    requires Fixed(a) && Fixed(b) && b <= a
    ensures Fixed(a - b)
  {
    hide Turn;
    hide V;
    TurnTwice(V(), a - b, b);
    TurnInjective(Turn(V(), a - b), V(), b);
  }

  lemma {:induction false} FixedMultiple(a: nat, c: nat)
    requires Fixed(a)
    ensures Fixed(c * a)
  {
    hide Turn;
    hide V;
    if c == 0 {
      assert Turn(V(), 0) == V() by { TurnNothing(V()); }
      assert c * a == 0;
    } else {
      FixedMultiple(a, c - 1);
      TurnTwice(V(), (c - 1) * a, a);
      assert c * a == (c - 1) * a + a;
    }
  }

  lemma TurnNothing(r: seq<bool>)
    requires |r| == 16
    ensures Turn(r, 0) == r
  {
    assert Zeros(0) == [];
  }

  /** Euclid's algorithm on two multiples of c that are periods: so is that multiple of a common measure. */
  lemma {:induction false} CommonPeriod(c: nat, a: nat, b: nat) returns (e: nat, p: nat, q: nat)
    requires 0 < a && 0 < b && Fixed(c * a) && Fixed(c * b)
    ensures 0 < e && Fixed(c * e) && a == p * e && b == q * e
    decreases a + b
  {
    hide Fixed;
    if a == b {
      e, p, q := a, 1, 1;
    } else if a > b {
      Spread(c, a - b, b);
      FixedDifference(c * a, c * b);
      e, p, q := CommonPeriod(c, a - b, b);
      Spread(e, p, q);
      p := p + q;
    } else {
      Spread(c, b - a, a);
      FixedDifference(c * b, c * a);
      e, p, q := CommonPeriod(c, a, b - a);
      Spread(e, p, q);
      q := p + q;
    }
  }

  lemma Spread(c: nat, x: nat, y: nat)
    ensures c * (x + y) == c * x + c * y
  {
  }

  /** A prime r: if c times r is the period and c is none, r divides every period. */
  lemma DividedBy(c: nat, r: nat, k: nat) returns (p: nat)
    requires 0 < k && Fixed(k) && 0 < r && Fixed(c * r) && !Fixed(c)
    requires r == 31 || r == 151
    ensures k == p * r
  {
    hide Fixed;
    FixedMultiple(k, c);
    var e, q;
    e, p, q := CommonPeriod(c, k, r);
    Prime(r, e, q);
  }

  lemma Prime(r: nat, e: nat, q: nat)
    requires (r == 31 || r == 151) && r == q * e
    ensures e == 1 || e == r
  {
    if 2 <= e && 2 <= q {
      if e <= 12 {
        NoDivisor(r, e, q);
      } else if q <= 12 {
        NoDivisor(r, q, e);
      } else {
        Product(q, e);
      }
    } else {
      assert q == 1 ==> e == r;
      assert q == 0 ==> r == 0;
    }
  }

  lemma Product(q: nat, e: nat)
    requires 13 <= q && 13 <= e
    ensures q * e >= 169
  {
    assert q * e >= 13 * e;
  }

  lemma NoDivisor(r: nat, d: nat, q: nat)
    requires (r == 31 || r == 151) && 2 <= d <= 12 && 2 <= q
    ensures q * d != r
  {
    assert d == 2 || d == 3 || d == 4 || d == 5 || d == 6 || d == 7 || d == 8 || d == 9 || d == 10 || d == 11
        || d == 12;
  }

  /** No round up to the 2047th, nor indeed up to the 4680th, brings the register back. */
  lemma NoEarlyReturn(k: nat)
    requires 1 <= k < 4681
    ensures !Fixed(k)
  {
    hide Fixed;
    if Fixed(k) {
      Period();
      NotFixed();
      var p := DividedBy(217, 151, k);
      var q := DividedBy(1057, 31, k);
      assert 151 * p == 31 * q && 0 < p < 31;
      assert 31 * (q - 4 * p) == 27 * p;
      assert false by { Multiples(p, q - 4 * p); }
    }
  }

  lemma Multiples(p: nat, q: int)
    requires 31 * q == 27 * p && p < 31
    ensures p == 0
  {
  }

  // ---- Two flipped bits ----

  /** The register with a single one in its last place, which is the first to come out. */
  function E0(): (r: seq<bool>)
    ensures |r| == 16
  {
    [true] + Zeros(15)
  }

  /** A one that comes back after k rounds makes k a period. */
  lemma ReturnIsPeriod(k: nat)
    requires Turn(E0(), k) == E0()
    ensures Fixed(k)
  {
    var top := Zeros(15) + [true];
    TopRounds();
    TurnTwice(top, 15, k);
    TurnTwice(top, k, 15);
    TurnInjective(Turn(top, k), top, 15);
    TurnTwice(top, 1, k);
    TurnTwice(top, k, 1);
    TurnXor(Turn(top, 1), top, k);
    hide Turn;
    hide Xor;
  }

  lemma TopRounds()
    ensures var top := Zeros(15) + [true];
            Turn(top, 15) == E0() && V() == Xor(Turn(top, 1), top)
  {
    TopFifteen();
    TopOne();
    hide Turn;
    hide Zeros;
    assert V() == Xor((Zeros(14) + [true]) + Zeros(1), Zeros(15) + [true]);
  }

  lemma TopFifteen()
    ensures Turn(Zeros(15) + [true], 15) == E0()
  {
    RunOwnBits(Zeros(15), [true]);
  }

  lemma TopOne()
    ensures Turn(Zeros(15) + [true], 1) == (Zeros(14) + [true]) + Zeros(1)
  {
    var rest := Zeros(14) + [true];
    RunOwnBits(Zeros(1), rest);
    hide Run;
    hide Zeros;
    assert Zeros(15) + [true] == Zeros(1) + rest;
  }

  /** Two ones at a distance of less than 4681 do not leave an empty register empty. */
  lemma PairSeen(k: nat)
    requires 1 <= k < 4681
    ensures Run(Zeros(16), [true] + (Zeros(k - 1) + [true])) != Zeros(16)
  {
    var x := Turn(E0(), k);
    AfterPair(k);
    if Feed(x, true) == Zeros(16) {
      FeedAt(E0(), true);
      assert Feed(E0(), true) == Zeros(16);
      FeedInjective(x, E0(), true);
      ReturnIsPeriod(k);
      NoEarlyReturn(k);
    }
  }

  lemma AfterPair(k: nat)
    requires 1 <= k
    ensures Run(Zeros(16), [true] + (Zeros(k - 1) + [true])) == Feed(Turn(E0(), k), true)
  {
    var zeros := Zeros(16);
    FeedOne(zeros, true);
    RunConcat(zeros, [true], Zeros(k - 1) + [true]);
    RunConcat(Feed(zeros, true), Zeros(k - 1), [true]);
    FeedOne(Turn(Feed(zeros, true), k - 1), true);
    FeedAt(zeros, true);
    FeedAt(E0(), false);
    assert Feed(zeros, true) == Feed(E0(), false);
    OneTurn(E0());
    TurnTwice(E0(), 1, k - 1);
  }

  lemma FeedOne(r: seq<bool>, bit: bool)
    requires |r| == 16
    ensures Run(r, [bit]) == Feed(r, bit)
  {
    assert [bit][1..] == [];
  }

  lemma {:induction false} NoOnes(bits: seq<bool>)
    requires CountOnes(bits) == 0
    ensures bits == Zeros(|bits|)
  {
    if bits != [] {
      NoOnes(bits[1..]);
      assert bits == [false] + bits[1..];
    }
  }

  lemma {:induction false} FirstOne(bits: seq<bool>) returns (n: nat, rest: seq<bool>)
    requires CountOnes(bits) > 0
    ensures bits == Zeros(n) + ([true] + rest)
    ensures CountOnes(rest) == CountOnes(bits) - 1
  {
    if bits[0] {
      n, rest := 0, bits[1..];
    } else {
      n, rest := FirstOne(bits[1..]);
      n := n + 1;
      assert bits == [false] + bits[1..];
      assert Zeros(n) == [false] + Zeros(n - 1);
    }
  }

  lemma TwoOnesSeen(bits: seq<bool>)
    requires CountOnes(bits) == 2 && |bits| <= 4681
    ensures Run(Zeros(16), bits) != Zeros(16)
  {
    hide Run;
    hide CountOnes;
    var n, rest := FirstOne(bits);
    var k, tail := FirstOne(rest);
    NoOnes(tail);
    var after := |tail|;
    hide Zeros;
    Regrouped([true], Zeros(k), [true], Zeros(after));
    Surrounded(n, [true] + (Zeros(k) + [true]), after);
    PairSeen(k + 1);
  }

  lemma Regrouped(a: seq<bool>, b: seq<bool>, c: seq<bool>, d: seq<bool>)
    ensures a + (b + (c + d)) == (a + (b + c)) + d
  {
  }

  /** Zeros around an error do not matter. */
  lemma Surrounded(before: nat, error: seq<bool>, after: nat)
    ensures Run(Zeros(16), Zeros(before) + (error + Zeros(after))) == Zeros(16) <==> Run(Zeros(16), error) == Zeros(16)
  {
    hide Run;
    RunConcat(Zeros(16), Zeros(before), error + Zeros(after));
    RunNothing(before);
    RunConcat(Zeros(16), error, Zeros(after));
    RunNothing(after);
    if Run(Zeros(16), error + Zeros(after)) == Zeros(16) {
      RunInjective(Run(Zeros(16), error), Zeros(16), Zeros(after));
    }
  }

  /**
   An error of one, two or three bits in a byte string of up to 585 bytes that ends in its CRC is
   always detected.
   */
  lemma FewErrorsDetected(f: seq<byte>, g: seq<byte>)
    requires |f| == |g| <= 585 && EndsInCrc(f)
    requires 1 <= CountOnes(FlippedBits(f, g)) <= 3
    ensures !EndsInCrc(g)
  {
    hide Run;
    hide EndsInCrc;
    hide FlippedBits;
    hide CountOnes;
    if CountOnes(FlippedBits(f, g)) == 2 {
      TwoOnesSeen(FlippedBits(f, g));
      if EndsInCrc(g) {
        UndetectedError(f, g);
      }
    } else {
      OddErrorDetected(f, g);
    }
  }

  /** An error goes undetected exactly if it leaves an empty register empty. */
  lemma UndetectedExactly(f: seq<byte>, g: seq<byte>)
    requires |f| == |g| && EndsInCrc(f)
    ensures EndsInCrc(g) <==> |f| >= 2 && Run(Zeros(16), FlippedBits(f, g)) == Zeros(16)
  {
    hide Run;
    Residue(f);
    Residue(g);
    hide EndsInCrc;
    RunLinear(Ones(), Ones(), StreamBits(f), StreamBits(g));
    XorSelf(Ones(), Ones());
    XorSelf(Zeros(16), SerialCrc(g));
    XorSelf(SerialCrc(g), Zeros(16));
  }

  /**
   The bounds are the best: an error of four bits, spread over seventeen, in the pattern of the
   generator polynomial is never detected.
   */
  lemma GeneratorUndetected(f: seq<byte>, g: seq<byte>, start: nat)
    requires |f| == |g| && EndsInCrc(f) && start + 17 <= 8 * |f|
    requires forall i :: 0 <= i < 8 * |f| ==>
               (BitAt(f, i) != BitAt(g, i) <==> i == start || i == start + 1 || i == start + 14 || i == start + 16)
    ensures EndsInCrc(g) && f != g
  {
    hide BitAt;
    hide EndsInCrc;
    hide Run;
    hide FlippedBits;
    hide Zeros;
    hide Taps;
    var d := FlippedBits(f, g);
    ErrorAt(f, g);
    BitDiffers(f, g, start);
    GeneratorAt(d, start);
    GeneratorUnseen();
    Surrounded(start, [true] + Taps(), |d| - start - 17);
    TwoBytes(f);
    UndetectedExactly(f, g);
  }

  lemma BitDiffers(f: seq<byte>, g: seq<byte>, i: nat)
    requires |f| == |g| && i < 8 * |f| && BitAt(f, i) != BitAt(g, i)
    ensures f != g
  {
  }

  lemma TwoBytes(f: seq<byte>)
    requires EndsInCrc(f)
    ensures |f| >= 2
  {
  }

  lemma GeneratorAt(d: seq<bool>, start: nat)
    requires start + 17 <= |d|
    requires forall i :: 0 <= i < |d| ==> d[i] == (i == start || i == start + 1 || i == start + 14 || i == start + 16)
    ensures d == Zeros(start) + (([true] + Taps()) + Zeros(|d| - start - 17))
  {
    hide Zeros;
    hide Taps;
  }

  lemma GeneratorUnseen()
    ensures Run(Zeros(16), [true] + Taps()) == Zeros(16)
  {
    RunConcat(Zeros(16), [true], Taps());
    FeedOne(Zeros(16), true);
    FeedAt(Zeros(16), true);
    assert Feed(Zeros(16), true) == Taps();
    RunOwnBits(Taps(), []);
    assert Taps() + [] == Taps() && [] + Zeros(16) == Zeros(16);
  }
}
