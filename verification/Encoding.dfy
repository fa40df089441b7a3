/**
 internal/modbus/encoding.go: 16, 32 and 64-bit values to bytes and back, in every byte and word
 order. The source permutes bytes case by case; here each of those cases is shown to be one thing,
 the 16-bit words of the value in word order, each written in byte order.
 */
module Encoding {
  import opened Bytes

  datatype Endianness = BigEndian | LittleEndian
  datatype WordOrder = HighWordFirst | LowWordFirst

  function Uint16ToBytes(e: Endianness, v: uint16): (bs: seq<byte>)
    ensures |bs| == 2
  {
    if e.BigEndian? then [v / 256, v % 256] else [v % 256, v / 256]
  }

  function BytesToUint16(e: Endianness, bs: seq<byte>): uint16
    requires |bs| == 2
  {
    var first: int, second: int := bs[0], bs[1];
    if e.BigEndian? then 256 * first + second else 256 * second + first
  }

  /** A word as Modbus has it on the wire, outside of register values. */
  function Word16(v: uint16): (bs: seq<byte>)
    ensures |bs| == 2
  {
    Uint16ToBytes(BigEndian, v)
  }

  function EncodeWords(e: Endianness, ws: seq<uint16>): (bs: seq<byte>)
    ensures |bs| == 2 * |ws|
  {
    if ws == [] then [] else Uint16ToBytes(e, ws[0]) + EncodeWords(e, ws[1..])
  }

  function DecodeWords(e: Endianness, bs: seq<byte>): (ws: seq<uint16>)
    requires |bs| % 2 == 0
    ensures |ws| == |bs| / 2
  {
    if bs == [] then [] else [BytesToUint16(e, bs[..2])] + DecodeWords(e, bs[2..])
  }

  lemma {:induction false} DecodeEncoded(e: Endianness, ws: seq<uint16>)
    ensures DecodeWords(e, EncodeWords(e, ws)) == ws
  {
    if ws != [] {
      var bs := EncodeWords(e, ws);
      assert bs[..2] == Uint16ToBytes(e, ws[0]) && bs[2..] == EncodeWords(e, ws[1..]);
      DecodeEncoded(e, ws[1..]);
    }
  }

  lemma {:induction false} EncodeDecoded(e: Endianness, bs: seq<byte>)
    requires |bs| % 2 == 0
    ensures EncodeWords(e, DecodeWords(e, bs)) == bs
  {
    if bs != [] {
      var ws := DecodeWords(e, bs);
      assert ws[1..] == DecodeWords(e, bs[2..]);
      EncodeDecoded(e, bs[2..]);
      assert Uint16ToBytes(e, ws[0]) == bs[..2];
    }
  }

  lemma {:induction false} EncodeConcat(e: Endianness, a: seq<uint16>, b: seq<uint16>)
    ensures EncodeWords(e, a + b) == EncodeWords(e, a) + EncodeWords(e, b)
  {
    if a == [] {
      assert a + b == b;
    } else {
      assert (a + b)[1..] == a[1..] + b;
      EncodeConcat(e, a[1..], b);
    }
  }

  lemma {:induction false} DecodeConcat(e: Endianness, a: seq<byte>, b: seq<byte>)
    requires |a| % 2 == 0 && |b| % 2 == 0
    ensures DecodeWords(e, a + b) == DecodeWords(e, a) + DecodeWords(e, b)
  {
    if a == [] {
      assert a + b == b;
    } else {
      assert (a + b)[..2] == a[..2] && (a + b)[2..] == a[2..] + b;
      DecodeConcat(e, a[2..], b);
    }
  }

  method Uint16sToBytes(e: Endianness, ws: seq<uint16>) returns (out: seq<byte>)
    ensures out == EncodeWords(e, ws)
  {
    out := [];
    for i := 0 to |ws|
      invariant out == EncodeWords(e, ws[..i])
    {
      EncodeConcat(e, ws[..i], [ws[i]]);
      assert ws[..i + 1] == ws[..i] + [ws[i]];
      out := out + Uint16ToBytes(e, ws[i]);
    }
    assert ws[..|ws|] == ws;
  }

  /** The source slices past the end of its input on an odd length; no caller lets that happen. */
  method BytesToUint16s(e: Endianness, bs: seq<byte>) returns (out: seq<uint16>)
    requires |bs| % 2 == 0
    ensures out == DecodeWords(e, bs)
  {
    out := [];
    var i := 0;
    while i < |bs|
      invariant i <= |bs| && i % 2 == 0
      invariant out == DecodeWords(e, bs[..i])
    {
      DecodeConcat(e, bs[..i], bs[i..i + 2]);
      assert bs[..i + 2] == bs[..i] + bs[i..i + 2];
      out := out + [BytesToUint16(e, bs[i..i + 2])];
      i := i + 2;
    }
    assert bs[..i] == bs;
  }

  /** The n lowest 16-bit words of v, lowest first. */
  function LowFirst(v: nat, n: nat): (ws: seq<uint16>)
    ensures |ws| == n
  {
    if n == 0 then [] else [v % 0x1_0000] + LowFirst(v / 0x1_0000, n - 1)
  }

  function Pow(n: nat): nat {
    if n == 0 then 1 else 0x1_0000 * Pow(n - 1)
  }

  function FromLowFirst(ws: seq<uint16>): (v: nat)
    ensures v < Pow(|ws|)
  {
    if ws == [] then 0 else ws[0] + 0x1_0000 * FromLowFirst(ws[1..])
  }

  function Reverse<T>(s: seq<T>): (r: seq<T>)
    ensures |r| == |s|
    ensures forall i :: 0 <= i < |s| ==> r[i] == s[|s| - 1 - i]
  {
    if s == [] then [] else Reverse(s[1..]) + [s[0]]
  }

  /** The n words of v in word order. */
  function Words(n: nat, w: WordOrder, v: nat): (ws: seq<uint16>)
    ensures |ws| == n
  {
    if w.LowWordFirst? then LowFirst(v, n) else Reverse(LowFirst(v, n))
  }

  function Value(w: WordOrder, ws: seq<uint16>): (v: nat)
    ensures v < Pow(|ws|)
  {
    FromLowFirst(if w.LowWordFirst? then ws else Reverse(ws))
  }

  /** The words of a list of n-word values. */
  function WordsOf(n: nat, w: WordOrder, vs: seq<nat>): (ws: seq<uint16>) {
    if vs == [] then [] else Words(n, w, vs[0]) + WordsOf(n, w, vs[1..])
  }

  /** The list of n-word values that a list of words holds. */
  function ValuesOf(n: nat, w: WordOrder, ws: seq<uint16>): seq<nat>
    requires n > 0
  {
    if |ws| < n then [] else [Value(w, ws[..n])] + ValuesOf(n, w, ws[n..])
  }

  lemma {:induction false} FromLowFirstOfLowFirst(v: nat, n: nat)
    requires v < Pow(n)
    ensures FromLowFirst(LowFirst(v, n)) == v
  {
    if n > 0 {
      FromLowFirstOfLowFirst(v / 0x1_0000, n - 1);
      assert LowFirst(v, n)[1..] == LowFirst(v / 0x1_0000, n - 1);
    }
  }

  lemma ValueOfWords(n: nat, w: WordOrder, v: nat)
    requires v < Pow(n)
    ensures Value(w, Words(n, w, v)) == v
  {
    FromLowFirstOfLowFirst(v, n);
    assert Reverse(Reverse(LowFirst(v, n))) == LowFirst(v, n);
  }

  /** Every value takes at most n words. */
  ghost predicate Fit(n: nat, vs: seq<nat>) {
    forall i :: 0 <= i < |vs| ==> vs[i] < Pow(n)
  }

  /** A list of values that fit n words survives being cut into words and put together again. */
  lemma {:induction false} ValuesOfWordsOf(n: nat, w: WordOrder, vs: seq<nat>)
    requires n > 0
    requires Fit(n, vs)
    ensures ValuesOf(n, w, WordsOf(n, w, vs)) == vs
  {
    hide Words;
    hide Value;
    hide Pow;
    if vs != [] {
      var ws := WordsOf(n, w, vs);
      assert ws[..n] == Words(n, w, vs[0]) && ws[n..] == WordsOf(n, w, vs[1..]);
      ValueOfWords(n, w, vs[0]);
      ValuesOfWordsOf(n, w, vs[1..]);
    }
  }

  lemma {:induction false} WordsOfConcat(n: nat, w: WordOrder, a: seq<nat>, b: seq<nat>)
    ensures WordsOf(n, w, a + b) == WordsOf(n, w, a) + WordsOf(n, w, b)
  {
    if a == [] {
      assert a + b == b;
    } else {
      assert (a + b)[1..] == a[1..] + b;
      WordsOfConcat(n, w, a[1..], b);
    }
  }

  /** The list of words falls into whole values. */
  ghost predicate Whole(n: nat, ws: seq<uint16>)
    requires n > 0
  {
    ws == [] || (n <= |ws| && Whole(n, ws[n..]))
  }

  lemma {:induction false} ValuesOfAppend(n: nat, w: WordOrder, a: seq<uint16>, b: seq<uint16>)
    requires n > 0 && Whole(n, a) && |b| == n
    ensures ValuesOf(n, w, a + b) == ValuesOf(n, w, a) + [Value(w, b)]
    ensures Whole(n, a + b)
  {
    hide Value;
    if a == [] {
      assert a + b == b && b[..n] == b && b[n..] == [];
    } else {
      assert (a + b)[..n] == a[..n] && (a + b)[n..] == a[n..] + b;
      ValuesOfAppend(n, w, a[n..], b);
    }
  }

  /** `binary.LittleEndian.PutUint32/64` and its big-endian counterpart. */
  function PutUint(e: Endianness, n: nat, v: nat): (bs: seq<byte>)
    ensures |bs| == n
  {
    if e.LittleEndian? then LowBytes(n, v) else Reverse(LowBytes(n, v))
  }

  function LowBytes(n: nat, v: nat): (bs: seq<byte>)
    ensures |bs| == n
  {
    if n == 0 then [] else [v % 256] + LowBytes(n - 1, v / 256)
  }

  /** `binary.LittleEndian.Uint32/64` and its big-endian counterpart. */
  function GetUint(e: Endianness, bs: seq<byte>): nat {
    FromBytes(if e.LittleEndian? then bs else Reverse(bs))
  }

  function FromBytes(bs: seq<byte>): nat {
    if bs == [] then 0 else bs[0] + 256 * FromBytes(bs[1..])
  }

  /** The 16-bit words of a byte string in reverse order, each with its bytes left as they are. */
  function WordSwapped(bs: seq<byte>): (r: seq<byte>)
    requires |bs| % 2 == 0
    ensures |r| == |bs|
  {
    if bs == [] then [] else WordSwapped(bs[2..]) + bs[..2]
  }

  lemma {:induction false} WordsAsBytes(v: nat, n: nat)
    ensures EncodeWords(LittleEndian, LowFirst(v, n)) == LowBytes(2 * n, v)
  {
    if n > 0 {
      WordsAsBytes(v / 0x1_0000, n - 1);
      assert LowBytes(2 * n - 1, v / 256) == [v / 256 % 256] + LowBytes(2 * n - 2, v / 256 / 256);
      assert v / 256 / 256 == v / 0x1_0000;
    }
  }

  lemma {:induction false} EncodeReversed(e: Endianness, ws: seq<uint16>)
    ensures EncodeWords(e, Reverse(ws)) == WordSwapped(EncodeWords(e, ws))
    ensures EncodeWords(BigEndian, Reverse(ws)) == Reverse(EncodeWords(LittleEndian, ws))
  {
    if ws != [] {
      EncodeReversed(e, ws[1..]);
      EncodeConcat(e, Reverse(ws[1..]), [ws[0]]);
      EncodeConcat(BigEndian, Reverse(ws[1..]), [ws[0]]);
      var bs := EncodeWords(e, ws);
      assert bs[2..] == EncodeWords(e, ws[1..]) && bs[..2] == Uint16ToBytes(e, ws[0]);
    }
  }

  /** What the byte shuffles of the source amount to: the words in word order, each in byte order. */
  lemma WordsLayout(e: Endianness, w: WordOrder, v: nat, n: nat)
    ensures EncodeWords(e, Words(n, w, v)) ==
            if (e == BigEndian) == (w == HighWordFirst) then PutUint(e, 2 * n, v) else WordSwapped(PutUint(e, 2 * n, v))
  {
    hide EncodeWords;
    hide LowFirst;
    hide LowBytes;
    hide WordSwapped;
    hide Reverse;
    var ws := LowFirst(v, n);
    WordsAsBytes(v, n);
    EncodeReversed(e, ws);
    EncodeReversed(e, Reverse(ws));
    assert Reverse(Reverse(ws)) == ws;
  }

  /** The parallel assignment that swaps the words of a 4-byte buffer. */
  method SwapWords4(buf: array<byte>)
    requires buf.Length == 4
    modifies buf
    ensures buf[..] == WordSwapped(old(buf[..]))
  {
    WordSwapped4(buf[..]);
    buf[0], buf[1], buf[2], buf[3] := buf[2], buf[3], buf[0], buf[1];
  }

  lemma WordSwapped4(bs: seq<byte>)
    requires |bs| == 4
    ensures WordSwapped(bs) == [bs[2], bs[3], bs[0], bs[1]]
  {
    assert bs[2..][2..] == [] && bs[2..][..2] == [bs[2], bs[3]];
  }

  method Uint32ToBytes(e: Endianness, w: WordOrder, v: uint32) returns (out: seq<byte>)
    ensures out == EncodeWords(e, Words(2, w, v))
  {
    var put := PutUint(e, 4, v);
    var buf := new byte[4](k requires 0 <= k < 4 => put[k]);
    assert buf[..] == put;
    match e {
      case BigEndian =>
        if w == LowWordFirst {
          SwapWords4(buf);
        }
      case LittleEndian =>
        if w == HighWordFirst {
          SwapWords4(buf);
        }
    }
    out := buf[..];
    WordsLayout(e, w, v, 2);
  }

  /** The parallel assignment that swaps the words of a 8-byte buffer. */
  method SwapWords8(buf: array<byte>)
    requires buf.Length == 8
    modifies buf
    ensures buf[..] == WordSwapped(old(buf[..]))
  {
    WordSwapped8(buf[..]);
    buf[0], buf[1], buf[2], buf[3], buf[4], buf[5], buf[6], buf[7] :=
      buf[6], buf[7], buf[4], buf[5], buf[2], buf[3], buf[0], buf[1];
  }

  lemma WordSwapped8(bs: seq<byte>)
    requires |bs| == 8
    ensures WordSwapped(bs) == [bs[6], bs[7], bs[4], bs[5], bs[2], bs[3], bs[0], bs[1]]
  {
    WordSwapped4(bs[4..]);
    assert bs[2..][2..] == bs[4..] && bs[2..][..2] == [bs[2], bs[3]];
  }

  method Uint64ToBytes(e: Endianness, w: WordOrder, v: uint64) returns (out: seq<byte>)
    ensures out == EncodeWords(e, Words(4, w, v))
  {
    var put := PutUint(e, 8, v);
    var buf := new byte[8](k requires 0 <= k < 8 => put[k]);
    assert buf[..] == put;
    match e {
      case BigEndian =>
        if w == LowWordFirst {
          SwapWords8(buf);
        }
      case LittleEndian =>
        if w == HighWordFirst {
          SwapWords8(buf);
        }
    }
    out := buf[..];
    WordsLayout(e, w, v, 4);
  }

  /** Bytes in little-endian order read like words in low-first order. */
  lemma {:induction false} FromBytesIsFromWords(bs: seq<byte>)
    requires |bs| % 2 == 0
    ensures FromBytes(bs) == FromLowFirst(DecodeWords(LittleEndian, bs))
  {
    if bs != [] {
      FromBytesIsFromWords(bs[2..]);
      assert bs[1..][1..] == bs[2..];
      assert FromBytes(bs) == bs[0] + 256 * (bs[1] + 256 * FromBytes(bs[2..]));
    }
  }

  lemma {:induction false} DecodeReversed(bs: seq<byte>)
    requires |bs| % 2 == 0
    ensures DecodeWords(LittleEndian, Reverse(bs)) == Reverse(DecodeWords(BigEndian, bs))
  {
    if bs != [] {
      DecodeReversed(bs[2..]);
      assert Reverse(bs) == Reverse(bs[2..]) + [bs[1], bs[0]];
      DecodeConcat(LittleEndian, Reverse(bs[2..]), [bs[1], bs[0]]);
    }
  }

  /** Reading a whole value in one byte order is reading its words in the word order that goes with it. */
  lemma GetUintIsValue(e: Endianness, bs: seq<byte>)
    requires |bs| % 2 == 0
    ensures GetUint(e, bs) == Value(if e.BigEndian? then HighWordFirst else LowWordFirst, DecodeWords(e, bs))
  {
    if e.LittleEndian? {
      FromBytesIsFromWords(bs);
    } else {
      FromBytesIsFromWords(Reverse(bs));
      DecodeReversed(bs);
    }
  }

  lemma DecodeSwapped(e: Endianness, bs: seq<byte>)
    requires |bs| % 2 == 0
    ensures DecodeWords(e, WordSwapped(bs)) == Reverse(DecodeWords(e, bs))
  {
    var ws := DecodeWords(e, bs);
    EncodeReversed(e, ws);
    EncodeDecoded(e, bs);
    DecodeEncoded(e, Reverse(ws));
  }

  /**
   The value of a chunk of bytes, in the way the source reads it: directly, or with its words swapped
   first.
   */
  lemma ValueOfChunk(e: Endianness, w: WordOrder, bs: seq<byte>)
    requires |bs| % 2 == 0
    ensures Value(w, DecodeWords(e, bs)) ==
            if (e == BigEndian) == (w == HighWordFirst) then GetUint(e, bs) else GetUint(e, WordSwapped(bs))
  {
    GetUintIsValue(e, bs);
    GetUintIsValue(e, WordSwapped(bs));
    DecodeSwapped(e, bs);
    var ws := DecodeWords(e, bs);
    assert Reverse(Reverse(ws)) == ws;
  }

  /** The values found before position i are those of the whole chunks up to there. */
  ghost predicate Chunked(n: nat, e: Endianness, w: WordOrder, bs: seq<byte>, i: nat, out: seq<nat>)
    requires n > 0
  {
    && i <= |bs| && i % 2 == 0
    && Whole(n, DecodeWords(e, bs[..i]))
    && out == ValuesOf(n, w, DecodeWords(e, bs[..i]))
  }

  lemma NoChunk(e: Endianness, w: WordOrder, n: nat, bs: seq<byte>)
    requires n > 0
    ensures Chunked(n, e, w, bs, 0, [])
  {
  }

  lemma NextChunk(e: Endianness, w: WordOrder, n: nat, bs: seq<byte>, i: nat, out: seq<nat>)
    requires n > 0 && i + 2 * n <= |bs|
    requires Chunked(n, e, w, bs, i, out)
    ensures Chunked(n, e, w, bs, i + 2 * n, out + [Value(w, DecodeWords(e, bs[i..i + 2 * n]))])
  {
    hide ValuesOf;
    hide Value;
    assert bs[..i + 2 * n] == bs[..i] + bs[i..i + 2 * n];
    DecodeConcat(e, bs[..i], bs[i..i + 2 * n]);
    ValuesOfAppend(n, w, DecodeWords(e, bs[..i]), DecodeWords(e, bs[i..i + 2 * n]));
  }

  lemma AllChunks(e: Endianness, w: WordOrder, n: nat, bs: seq<byte>, out: seq<nat>)
    requires n > 0 && Chunked(n, e, w, bs, |bs|, out)
    ensures out == ValuesOf(n, w, DecodeWords(e, bs))
  {
    assert bs[..|bs|] == bs;
  }

  method BytesToUint32(e: Endianness, w: WordOrder, bs: seq<byte>) returns (u: uint32)
    requires |bs| == 4
    ensures u == Value(w, DecodeWords(e, bs))
  {
    ValueOfChunk(e, w, bs);
    WordSwapped4(bs);
    assert Pow(2) == 0x100000000;
    match e {
      case BigEndian =>
        u := if w == HighWordFirst then GetUint(BigEndian, bs) else GetUint(BigEndian, [bs[2], bs[3], bs[0], bs[1]]);
      case LittleEndian =>
        u := if w == LowWordFirst then GetUint(LittleEndian, bs) else GetUint(LittleEndian, [bs[2], bs[3], bs[0], bs[1]]);
    }
  }

  /**
   The source indexes past the end of its input on a length that is no multiple of 4; no caller lets
   that happen.
   */
  method BytesToUint32s(e: Endianness, w: WordOrder, bs: seq<byte>) returns (out: seq<uint32>)
    requires |bs| % 2 == 0 && |bs| % 4 == 0
    ensures out == ValuesOf(2, w, DecodeWords(e, bs))
  {
    hide *;
    NoChunk(e, w, 2, bs);
    out := [];
    var i := 0;
    ghost var k, count := 0, |bs| / 4;
    while i < |bs|
      invariant i == 4 * k && k <= count
      invariant Chunked(2, e, w, bs, i, out)
    {
      NextChunk(e, w, 2, bs, i, out);
      var u := BytesToUint32(e, w, bs[i..i + 4]);
      out := out + [u];
      i, k := i + 4, k + 1;
    }
    AllChunks(e, w, 2, bs, out);
  }

  method BytesToUint64(e: Endianness, w: WordOrder, bs: seq<byte>) returns (u: uint64)
    requires |bs| == 8
    ensures u == Value(w, DecodeWords(e, bs))
  {
    ValueOfChunk(e, w, bs);
    WordSwapped8(bs);
    assert Pow(4) == 0x10000000000000000;
    match e {
      case BigEndian =>
        u := if w == HighWordFirst then GetUint(BigEndian, bs)
        else GetUint(BigEndian, [bs[6], bs[7], bs[4], bs[5], bs[2], bs[3], bs[0], bs[1]]);
      case LittleEndian =>
        u := if w == LowWordFirst then GetUint(LittleEndian, bs)
        else GetUint(LittleEndian, [bs[6], bs[7], bs[4], bs[5], bs[2], bs[3], bs[0], bs[1]]);
    }
  }

  /**
   The source indexes past the end of its input on a length that is no multiple of 8; no caller lets
   that happen.
   */
  method BytesToUint64s(e: Endianness, w: WordOrder, bs: seq<byte>) returns (out: seq<uint64>)
    requires |bs| % 2 == 0 && |bs| % 8 == 0
    ensures out == ValuesOf(4, w, DecodeWords(e, bs))
  {
    hide *;
    NoChunk(e, w, 4, bs);
    out := [];
    var i := 0;
    ghost var k, count := 0, |bs| / 8;
    while i < |bs|
      invariant i == 8 * k && k <= count
      invariant Chunked(4, e, w, bs, i, out)
    {
      NextChunk(e, w, 4, bs, i, out);
      var u := BytesToUint64(e, w, bs[i..i + 8]);
      out := out + [u];
      i, k := i + 8, k + 1;
    }
    AllChunks(e, w, 4, bs, out);
  }
}
