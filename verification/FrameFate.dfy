/**
 What becomes of a stream in either framing, read off its bytes alone: section 3.1.3 of the MODBUS Messaging on
 TCP/IP Implementation Guide V1.0b and section 2.5.1 of MODBUS over Serial Line V1.02 with the numbers written
 out, and the readers, the printers and the exchange over a serial line against them.
 */
module FrameFate {
  import opened Bytes
  import opened Crcs
  import opened Encoding
  import opened Links
  import opened Modbus
  import opened TwoBits
  import Mbap
  import Rtu

  /** Two bytes of a stream as a number, high byte first. */
  function Num(bs: seq<byte>, i: nat): uint16
    requires i + 1 < |bs|
  {
    var high: int, low: int := bs[i], bs[i + 1];
    256 * high + low
  }

  /** How an error of the link shows; the serial port's own time-out is the client's. */
  function Shown(e: LinkError): Error {
    match e
    case PortTimeout => RequestTimedOut
    case _ => Link(e)
  }

  /** The error of a read that stops after some bytes. */
  function Cut(e: LinkError): LinkError {
    if e == Eof then UnexpectedEof else e
  }

  // ---- MBAP ----

  function MbapRead(stream: seq<byte>, fate: LinkError): Mbap.FrameRead {
    if |stream| == 0 then Mbap.FrameRead(Err(Shown(fate)), [])
    else if |stream| < 7 then Mbap.FrameRead(Err(Shown(Cut(fate))), [])
    else
      var length := Num(stream, 4);
      if length < 2 || length > 254 then Mbap.FrameRead(Err(ProtocolError), stream[7..])
      else if |stream| == 7 then Mbap.FrameRead(Err(Shown(fate)), [])
      else if |stream| < 6 + length then Mbap.FrameRead(Err(Shown(Cut(fate))), [])
      else if Num(stream, 2) != 0 then Mbap.FrameRead(Err(UnknownProtocolId), stream[6 + length..])
      else
        Mbap.FrameRead(Ok((Pdu(stream[6], stream[7], stream[8..6 + length]), Num(stream, 0))), stream[6 + length..])
  }

  lemma MbapFate(stream: seq<byte>, fate: LinkError)
    ensures Mbap.ReadingFrame(stream, fate) == MbapRead(stream, fate)
  {
    if |stream| >= 7 {
      var head := stream[..7];
      HeadNum(stream, 0);
      HeadNum(stream, 2);
      HeadNum(stream, 4);
      hide Mbap.Word;
      hide Num;
      var length := Num(stream, 4);
      if 2 <= length <= 254 && |stream| >= 6 + length {
        var body := stream[7..][..length - 1];
        assert stream[7..][length - 1..] == stream[6 + length..];
        assert body == stream[7..6 + length] && body[1..] == stream[8..6 + length];
      }
    }
  }

  lemma HeadNum(stream: seq<byte>, i: nat)
    requires |stream| >= 7 && i + 2 <= 7
    ensures Mbap.Word(stream[..7], i) == Num(stream, i)
  {
    assert stream[..7][i..i + 2] == [stream[i], stream[i + 1]];
  }

  /** Transaction, protocol 0, how many bytes follow, unit, function code, payload. */
  lemma MbapBytes(txnId: uint16, p: Pdu)
    requires |p.payload| <= 252
    ensures var length := |p.payload| + 2;
            Mbap.Print(Mbap.FrameOf(txnId, p)) ==
            [txnId / 256, txnId % 256, 0, 0, length / 256, length % 256, p.unitId, p.functionCode] + p.payload
  {
    var length := |p.payload| + 2;
    HeaderBytes(txnId, length, p.unitId);
    hide Mbap.Header;
    Gathered([txnId / 256, txnId % 256, 0, 0, length / 256, length % 256, p.unitId], p.functionCode, p.payload);
  }

  lemma HeaderBytes(txnId: uint16, length: uint16, unitId: byte)
    ensures Mbap.Header(txnId, 0, length, unitId) ==
            [txnId / 256, txnId % 256, 0, 0, length / 256, length % 256, unitId]
  {
  }

  lemma Gathered(head: seq<byte>, b: byte, tail: seq<byte>)
    ensures head + ([b] + tail) == (head + [b]) + tail
  {
  }

  // ---- RTU ----

  /** How many bytes come between the third byte of a response and its CRC. */
  function Announced(fc: byte, count: byte): Option<nat> {
    match fc
    case 1 => Some(count)
    case 2 => Some(count)
    case 3 => Some(count)
    case 4 => Some(count)
    case 5 => Some(3)
    case 6 => Some(3)
    case 15 => Some(3)
    case 16 => Some(3)
    case 22 => Some(5)
    case 129 => Some(0)
    case 130 => Some(0)
    case 131 => Some(0)
    case 132 => Some(0)
    case 133 => Some(0)
    case 134 => Some(0)
    case 143 => Some(0)
    case 144 => Some(0)
    case 150 => Some(0)
    case _ => None
  }

  lemma AnnouncedLength(fc: byte, count: byte)
    ensures Rtu.ExpectedResponseLength(fc, count) == Announced(fc, count)
  {
  }

  function RtuRead(stream: seq<byte>, fate: LinkError): Rtu.FrameRead {
    if |stream| == 0 then Rtu.FrameRead(Err(if fate == UnexpectedEof then ProtocolError else Shown(fate)), [])
    else if |stream| < 3 then Rtu.FrameRead(Err(ShortFrame), [])
    else
      match Announced(stream[1], stream[2])
      case None => Rtu.FrameRead(Err(ProtocolError), stream[3..])
      case Some(length) =>
        var n := length + 5;
        if n > 256 then Rtu.FrameRead(Err(ProtocolError), stream[3..])
        else if |stream| < n then
          var e := if |stream| == 3 then fate else Cut(fate);
          Rtu.FrameRead(Err(if e == UnexpectedEof then ShortFrame else Shown(e)), [])
        else if EndsInCrc(stream[..n]) then Rtu.FrameRead(Ok(Pdu(stream[0], stream[1], stream[2..n - 2])), stream[n..])
        else Rtu.FrameRead(Err(BadCRC), stream[n..])
  }

  lemma RtuFate(stream: seq<byte>, fate: LinkError)
    ensures Rtu.ReadingFrame(stream, fate) == RtuRead(stream, fate)
  {
    hide EndsInCrc;
    if |stream| >= 3 {
      AnnouncedLength(stream[1], stream[2]);
      hide Announced;
      hide Rtu.ExpectedResponseLength;
      assert stream[..3] == [stream[0], stream[1], stream[2]];
      match Announced(stream[1], stream[2])
      case None =>
      case Some(length) =>
        var n := length + 5;
        if n <= 256 && |stream| >= n {
          assert stream[3..][..n - 3] == stream[3..n] && stream[3..][n - 3..] == stream[n..];
          assert stream[..3] + stream[3..n] == stream[..n];
          assert stream[..n][2..n - 2] == stream[2..n - 2];
        }
    }
  }

  /** Unit, function code, payload and two bytes that make it end in its CRC. */
  lemma RtuBytes(p: Pdu)
    ensures var bs, n := Rtu.Print(p), 2 + |p.payload|;
            |bs| == n + 2 && bs[..n] == [p.unitId, p.functionCode] + p.payload && EndsInCrc(bs)
  {
    Rtu.PrintEndsInCrc(p);
    hide EndsInCrc;
    hide CrcOf;
  }

  // ---- One exchange over a serial line ----

  /** All but the first 1024 bytes. */
  function Beyond1024(bs: seq<byte>): seq<byte> {
    if |bs| <= 1024 then [] else bs[1024..]
  }

  /** The three errors after which the line is flushed. */
  predicate OutOfStep(r: Result<Pdu>) {
    r == Err(BadCRC) || r == Err(ShortFrame) || r == Err(ProtocolError)
  }

  /**
   An exchange: what it returns, what it leaves on the line, and what it sends. Calls on the link that fail
   leave the line alone; after an error of framing, up to 1024 bytes behind the frame are gone.
   */
  lemma ExchangeFate(pending: seq<byte>, env: Env, req: Pdu)
    ensures var x := Rtu.Executing(pending, env, req);
            if env.deadlineError.Some? then
              x.result == Err(Shown(env.deadlineError.value)) && x.rest == pending && x.written == []
            else if env.writeError.Some? then
              x.result == Err(Shown(env.writeError.value)) && x.rest == pending && x.written == []
            else
              var r := RtuRead(pending, env.fate);
              && x.result == r.result
              && x.rest == (if OutOfStep(r.result) then Beyond1024(r.rest) else r.rest)
              && x.written == [Rtu.Print(req)]
  {
    RtuFate(pending, env.fate);
    hide Rtu.ReadingFrame;
    hide RtuRead;
    hide Rtu.Print;
  }

  /** The ways in which a frame is known to be damaged: a burst, an odd number of bits, or up to three of them. */
  ghost predicate Damaged(p: Pdu, corrupted: seq<byte>)
    requires |corrupted| == |Rtu.Print(p)|
  {
    var ones := CountOnes(FlippedBits(Rtu.Print(p), corrupted));
    || (exists start :: Burst(Rtu.Print(p), corrupted, start))
    || ones % 2 == 1
    || 1 <= ones <= 3
  }

  lemma DamagedRejected(p: Pdu, corrupted: seq<byte>, rest: seq<byte>, fate: LinkError)
    requires Rtu.Shaped(p) && Rtu.SameExtent(p, corrupted) && Damaged(p, corrupted)
    ensures Rtu.ReadingFrame(corrupted + rest, fate) == Rtu.FrameRead(Err(BadCRC), rest)
  {
    hide Burst;
    hide CountOnes;
    hide FlippedBits;
    hide Rtu.ReadingFrame;
    hide Rtu.Print;
    hide Rtu.Shaped;
    var ones := CountOnes(FlippedBits(Rtu.Print(p), corrupted));
    if ones % 2 == 1 {
      Rtu.OddErrorRejected(p, corrupted, rest, fate);
    } else if 1 <= ones <= 3 {
      Rtu.FewErrorsRejected(p, corrupted, rest, fate);
    } else {
      var start :| Burst(Rtu.Print(p), corrupted, start);
      Rtu.BurstRejected(p, corrupted, start, rest, fate);
    }
  }

  /** After a damaged frame nothing of what was behind it is left, up to 1024 bytes of it. */
  lemma FlushedAfterDamage(p: Pdu, corrupted: seq<byte>, rest: seq<byte>, env: Env, req: Pdu)
    requires env.deadlineError.None? && env.writeError.None?
    requires Rtu.Shaped(p) && Rtu.SameExtent(p, corrupted) && Damaged(p, corrupted)
    ensures var x := Rtu.Executing(corrupted + rest, env, req);
            && x.result == Err(BadCRC)
            && x.rest == (if |rest| <= 1024 then [] else rest[1024..])
  {
    DamagedRejected(p, corrupted, rest, env.fate);
    RtuFate(corrupted + rest, env.fate);
    ExchangeFate(corrupted + rest, env, req);
    hide Rtu.ReadingFrame;
    hide Rtu.Executing;
    hide RtuRead;
  }

  /** So it is after a header with an unknown function code, or one that announces too much. */
  lemma FlushedAfterHeader(header: seq<byte>, rest: seq<byte>, env: Env, req: Pdu)
    requires env.deadlineError.None? && env.writeError.None?
    requires |header| == 3
    requires Announced(header[1], header[2]).None? || Announced(header[1], header[2]).value > 251
    ensures var x := Rtu.Executing(header + rest, env, req);
            && x.result == Err(ProtocolError)
            && x.rest == (if |rest| <= 1024 then [] else rest[1024..])
  {
    ExchangeFate(header + rest, env, req);
    var stream := header + rest;
    assert stream[3..] == rest && stream[1] == header[1] && stream[2] == header[2];
    hide Rtu.Executing;
    hide Announced;
  }

  /**
   Then the line is in step again: with nothing left, the next exchange returns the PDU whose frame arrives after
   it.
   */
  lemma BackInStep(p: Pdu, corrupted: seq<byte>, rest: seq<byte>, first: Pdu, second: Pdu, next: Pdu,
                   after: seq<byte>, env: Env)
    requires env.deadlineError.None? && env.writeError.None?
    requires Rtu.Shaped(p) && Rtu.SameExtent(p, corrupted) && Damaged(p, corrupted) && |rest| <= 1024
    requires Rtu.Shaped(next)
    ensures var left := Rtu.Executing(corrupted + rest, env, first).rest;
            var x := Rtu.Executing(left + (Rtu.Print(next) + after), env, second);
            x.result == Ok(next) && x.rest == after
  {
    FlushedAfterDamage(p, corrupted, rest, env, first);
    var arrived := Rtu.Print(next) + after;
    assert [] + arrived == arrived;
    Rtu.RoundTrip(next, after, env.fate);
    RtuFate(arrived, env.fate);
    ExchangeFate(arrived, env, second);
    hide Rtu.ReadingFrame;
    hide Rtu.Executing;
    hide RtuRead;
    hide Rtu.Print;
  }
}
