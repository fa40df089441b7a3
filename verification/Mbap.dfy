/**
 internal/modbus/tcp_transport.go: framing with the MBAP header of section 3.1.3 of the MODBUS
 Messaging on TCP/IP Implementation Guide V1.0b, and the client's search for its response.
 */
module Mbap {
  import opened Bytes
  import opened Encoding
  import opened Links
  import opened Modbus

  const MBAP_HEADER_LENGTH: nat := 7
  const MAX_PAYLOAD: nat := 252

  // ---- Frames ----

  /** Any frame a peer may put on the wire: of another protocol, or for another transaction. */
  datatype Frame = Frame(txnId: uint16, protocolId: uint16, unitId: byte, body: seq<byte>)

  /** The length field has room for it and the reader accepts it. */
  predicate WellFormed(f: Frame) {
    1 <= |f.body| <= 1 + MAX_PAYLOAD
  }

  function Header(txnId: uint16, protocolId: uint16, length: uint16, unitId: byte): (h: seq<byte>)
    ensures |h| == MBAP_HEADER_LENGTH
  {
    [txnId / 256, txnId % 256, protocolId / 256, protocolId % 256, length / 256, length % 256, unitId]
  }

  function Print(f: Frame): seq<byte> {
    Header(f.txnId, f.protocolId, Low16(1 + |f.body|), f.unitId) + f.body
  }

  function FrameOf(txnId: uint16, p: Pdu): Frame {
    Frame(txnId, 0, p.unitId, [p.functionCode] + p.payload)
  }

  function PduOf(f: Frame): Pdu
    requires f.body != []
  {
    Pdu(f.unitId, f.body[0], f.body[1..])
  }

  function Word(bs: seq<byte>, i: nat): uint16
    requires i + 2 <= |bs|
  {
    BytesToUint16(BigEndian, bs[i..i + 2])
  }

  // ---- Reading one frame ----

  datatype FrameRead = FrameRead(result: Result<(Pdu, uint16)>, rest: seq<byte>)

  /**
   What reading a frame makes of a stream: the PDU and its transaction, or an error, and the stream
   after it.
   */
  function ReadingFrame(stream: seq<byte>, fate: LinkError): (r: FrameRead)
    ensures r.result.Ok? || r.result == Err(UnknownProtocolId) ==> |r.rest| + 8 <= |stream|
  {
    var head := ReadingFull(stream, fate, MBAP_HEADER_LENGTH);
    if head.err.Some? then FrameRead(Err(FromLink(head.err.value)), head.rest) else
    var needed := Word(head.data, 4) - 1;
    if needed + MBAP_HEADER_LENGTH > MAX_TCP_FRAME_LENGTH || needed <= 0 then
      FrameRead(Err(ProtocolError), head.rest)
    else
      var body := ReadingFull(head.rest, fate, needed);
      if body.err.Some? then FrameRead(Err(FromLink(body.err.value)), body.rest)
      else if Word(head.data, 2) != 0 then FrameRead(Err(UnknownProtocolId), body.rest)
      else FrameRead(Ok((Pdu(head.data[6], body.data[0], body.data[1..]), Word(head.data, 0))), body.rest)
  }

  /** A well-formed frame is recovered from its bytes, and exactly its bytes are consumed. */
  lemma ParsePrinted(f: Frame, rest: seq<byte>, fate: LinkError)
    requires WellFormed(f)
    ensures ReadingFrame(Print(f) + rest, fate) ==
            FrameRead(if f.protocolId == 0 then Ok((PduOf(f), f.txnId)) else Err(UnknownProtocolId), rest)
  {
    var length := Low16(1 + |f.body|);
    var head := Header(f.txnId, f.protocolId, length, f.unitId);
    HeaderFields(f.txnId, f.protocolId, length, f.unitId);
    var stream, tail, n := Print(f) + rest, f.body + rest, |f.body|;
    assert length == 1 + n && stream[..7] == head && stream[7..] == tail;
    assert tail[..n] == f.body && tail[n..] == rest;
    hide Print;
    hide Header;
    hide Word;
    assert ReadingFull(stream, fate, MBAP_HEADER_LENGTH) == FullRead(head, None, tail);
    assert ReadingFull(tail, fate, n) == FullRead(f.body, None, rest);
    hide ReadingFull;
  }

  lemma HeaderFields(txnId: uint16, protocolId: uint16, length: uint16, unitId: byte)
    ensures var h := Header(txnId, protocolId, length, unitId);
            Word(h, 0) == txnId && Word(h, 2) == protocolId && Word(h, 4) == length && h[6] == unitId
  {
    var h := Header(txnId, protocolId, length, unitId);
    assert h[0..2] == [h[0], h[1]] && h[2..4] == [h[2], h[3]] && h[4..6] == [h[4], h[5]];
  }

  /** Conversely, whatever a successful read consumed is the frame of what it returned. */
  lemma PrintParsed(stream: seq<byte>, fate: LinkError)
    requires ReadingFrame(stream, fate).result.Ok?
    ensures var r := ReadingFrame(stream, fate);
            var f := FrameOf(r.result.value.1, r.result.value.0);
            WellFormed(f) && stream == Print(f) + r.rest
  {
    hide Word;
    hide Header;
    var r := ReadingFrame(stream, fate);
    var head := stream[..7];
    var needed := Word(head, 4) - 1;
    var body := stream[7..][..needed];
    var f := FrameOf(r.result.value.1, r.result.value.0);
    assert f.body == body;
    HeaderOfFields(head);
    assert head == Header(f.txnId, 0, 1 + |body|, f.unitId);
    assert stream == head + (body + r.rest);
  }

  lemma HeaderOfFields(h: seq<byte>)
    requires |h| == 7
    ensures h == Header(Word(h, 0), Word(h, 2), Word(h, 4), h[6])
  {
    assert h[0..2] == [h[0], h[1]] && h[2..4] == [h[2], h[3]] && h[4..6] == [h[4], h[5]];
  }

  /** A PDU survives the wire exactly when its payload has at most 252 bytes. */
  lemma RoundTrip(txnId: uint16, p: Pdu, rest: seq<byte>, fate: LinkError)
    ensures ReadingFrame(Print(FrameOf(txnId, p)) + rest, fate) == FrameRead(Ok((p, txnId)), rest) <==>
            |p.payload| <= MAX_PAYLOAD
  {
    var f := FrameOf(txnId, p);
    assert PduOf(f) == p;
    var r := ReadingFrame(Print(f) + rest, fate);
    if |p.payload| <= MAX_PAYLOAD {
      ParsePrinted(f, rest, fate);
    } else if r.result.Ok? {
      PrintParsed(Print(f) + rest, fate);
      assert r.result.value.0 != p;
    }
  }

  // ---- Looking for a response ----

  datatype ResponseRead = ResponseRead(result: Result<Pdu>, rest: seq<byte>)

  /** What the retry loop makes of a stream. */
  function Responding(stream: seq<byte>, fate: LinkError, txnId: uint16): ResponseRead
    decreases |stream|
  {
    var r := ReadingFrame(stream, fate);
    match r.result
    case Err(e) =>
      if e == UnknownProtocolId then Responding(r.rest, fate, txnId) else ResponseRead(Err(e), r.rest)
    case Ok((p, t)) =>
      if t == txnId then ResponseRead(Ok(p), r.rest) else Responding(r.rest, fate, txnId)
  }

  function PrintAll(frames: seq<Frame>): seq<byte> {
    if frames == [] then [] else Print(frames[0]) + PrintAll(frames[1..])
  }

  predicate AllWellFormed(frames: seq<Frame>) {
    forall i :: 0 <= i < |frames| ==> WellFormed(frames[i])
  }

  predicate Answers(f: Frame, txnId: uint16) {
    f.protocolId == 0 && f.txnId == txnId
  }

  /** The position of the first frame of this protocol and transaction, or the number of frames. */
  function FirstAnswer(frames: seq<Frame>, txnId: uint16): (i: nat)
    ensures i <= |frames|
    ensures i < |frames| ==> Answers(frames[i], txnId)
    ensures forall j :: 0 <= j < i ==> !Answers(frames[j], txnId)
  {
    if frames == [] || Answers(frames[0], txnId) then 0 else 1 + FirstAnswer(frames[1..], txnId)
  }

  /**
   On any sequence of well-formed frames the loop returns the first that answers the transaction and
   leaves exactly the bytes after it; when there is none it goes on with what follows.
   */
  lemma {:induction false} RespondingFindsFirst(frames: seq<Frame>, tail: seq<byte>, fate: LinkError, txnId: uint16)
    requires AllWellFormed(frames)
    ensures var i := FirstAnswer(frames, txnId);
            Responding(PrintAll(frames) + tail, fate, txnId) ==
            if i < |frames| then ResponseRead(Ok(PduOf(frames[i])), PrintAll(frames[i + 1..]) + tail)
            else Responding(tail, fate, txnId)
  {
    hide ReadingFrame;
    hide Responding;
    hide Print;
    hide PduOf;
    hide Answers;
    hide WellFormed;
    PrintAllTail(frames, tail);
    hide PrintAll;
    if frames != [] {
      var rest := PrintAll(frames[1..]) + tail;
      RespondingStep(frames[0], rest, fate, txnId);
      if !Answers(frames[0], txnId) {
        RespondingFindsFirst(frames[1..], tail, fate, txnId);
        var i := FirstAnswer(frames[1..], txnId);
        assert i < |frames| - 1 ==> frames[1..][i + 1..] == frames[i + 2..];
      }
    }
  }

  lemma PrintAllTail(frames: seq<Frame>, tail: seq<byte>)
    ensures PrintAll(frames) + tail ==
            if frames == [] then tail else Print(frames[0]) + (PrintAll(frames[1..]) + tail)
  {
    hide Print;
  }

  lemma RespondingStep(f: Frame, rest: seq<byte>, fate: LinkError, txnId: uint16)
    requires WellFormed(f)
    ensures Responding(Print(f) + rest, fate, txnId) ==
            if Answers(f, txnId) then ResponseRead(Ok(PduOf(f)), rest) else Responding(rest, fate, txnId)
  {
    hide ReadingFrame;
    hide Print;
    hide PduOf;
    ParsePrinted(f, rest, fate);
  }

  // ---- The transport ----

  /**
   What one request-response exchange does: its result, the stream left, the transaction counter and
   what was written.
   */
  datatype Exchange = Exchange(result: Result<Pdu>, rest: seq<byte>, txnId: uint16, written: seq<seq<byte>>)

  function Executing(pending: seq<byte>, env: Env, txnId: uint16, req: Pdu): Exchange {
    if env.deadlineError.Some? then Exchange(Err(FromLink(env.deadlineError.value)), pending, txnId, []) else
    var next := Low16(txnId + 1);
    if env.writeError.Some? then Exchange(Err(FromLink(env.writeError.value)), pending, next, []) else
    var r := Responding(pending, env.fate, next);
    Exchange(r.result, r.rest, next, [Print(FrameOf(next, req))])
  }

  class TcpTransport {
    const conn: Conn
    var lastTxnId: uint16

    ghost predicate Valid()
      reads conn.Repr()
    {
      this !in conn.Repr() && conn.Valid()
    }

    constructor (conn: Conn)
      requires conn.Valid()
      ensures this.conn == conn && lastTxnId == 0
      ensures Valid()
    {
      this.conn := conn;
      lastTxnId := 0;
    }

    /** Header first, then as many bytes as it announces. */
    method ReadMbapFrame() returns (r: Result<(Pdu, uint16)>)
      requires Valid()
      modifies conn.Repr()
      ensures Valid() && conn.Env() == old(conn.Env()) && conn.Writes() == old(conn.Writes())
      ensures conn.Closed() == old(conn.Closed())
      ensures FrameRead(r, conn.Pending()) == ReadingFrame(old(conn.Pending()), conn.Env().fate)
    {
      hide Conn.Pending;
      var rxbuf, err := ReadFull(conn, MBAP_HEADER_LENGTH);
      if err.Some? {
        return Err(FromLink(err.value));
      }
      var txnId := BytesToUint16(BigEndian, rxbuf[0..2]);
      var protocolId := BytesToUint16(BigEndian, rxbuf[2..4]);
      var unitId := rxbuf[6];
      var bytesNeeded: int := BytesToUint16(BigEndian, rxbuf[4..6]);
      bytesNeeded := bytesNeeded - 1;
      if bytesNeeded + MBAP_HEADER_LENGTH > MAX_TCP_FRAME_LENGTH {
        return Err(ProtocolError);
      }
      if bytesNeeded <= 0 {
        return Err(ProtocolError);
      }
      rxbuf, err := ReadFull(conn, bytesNeeded);
      if err.Some? {
        return Err(FromLink(err.value));
      }
      if protocolId != 0 {
        return Err(UnknownProtocolId);
      }
      return Ok((Pdu(unitId, rxbuf[0], rxbuf[1..]), txnId));
    }

    /**
     Frame after frame, until one is the answer or reading fails. Each frame passed over makes the stream
     shorter.
     */
    method ReadResponse() returns (r: Result<Pdu>)
      requires Valid()
      modifies conn.Repr()
      ensures Valid() && conn.Env() == old(conn.Env()) && conn.Writes() == old(conn.Writes())
      ensures conn.Closed() == old(conn.Closed())
      ensures lastTxnId == old(lastTxnId)
      ensures ResponseRead(r, conn.Pending()) == Responding(old(conn.Pending()), conn.Env().fate, lastTxnId)
    {
      hide Conn.Pending;
      hide ReadingFrame;
      while true
        invariant Valid() && conn.Env() == old(conn.Env()) && conn.Writes() == old(conn.Writes())
        invariant conn.Closed() == old(conn.Closed())
        invariant Responding(conn.Pending(), conn.Env().fate, lastTxnId) ==
                  Responding(old(conn.Pending()), conn.Env().fate, lastTxnId)
        decreases |conn.Pending()|
      {
        var frame := ReadMbapFrame();
        match frame {
          case Err(e) =>
            // a frame of another protocol is passed over
            if e != UnknownProtocolId {
              return Err(e);
            }
          case Ok((p, txnId)) =>
            if lastTxnId == txnId {
              return Ok(p);
            }
        }
      }
    }

    /** The printed form of a frame, field by field. */
    method AssembleMbapFrame(txnId: uint16, p: Pdu) returns (bs: seq<byte>)
      ensures bs == Print(FrameOf(txnId, p))
    {
      bs := Uint16ToBytes(BigEndian, txnId);
      bs := bs + [0x00, 0x00];
      bs := bs + Uint16ToBytes(BigEndian, Low16(2 + |p.payload|));
      bs := bs + [p.unitId];
      bs := bs + [p.functionCode];
      bs := bs + p.payload;
    }

    /** One exchange: a frame out under the next transaction, then the search for its answer. */
    method ExecuteRequest(req: Pdu) returns (r: Result<Pdu>)
      requires Valid()
      modifies this, conn.Repr()
      ensures Valid() && conn.Env() == old(conn.Env())
      ensures conn.Closed() == old(conn.Closed())
      ensures var x := Executing(old(conn.Pending()), conn.Env(), old(lastTxnId), req);
              && r == x.result
              && conn.Pending() == x.rest
              && lastTxnId == x.txnId
              && conn.Writes() == old(conn.Writes()) + x.written
    {
      hide Conn.Pending;
      hide Responding;
      hide Print;
      var err := conn.SetDeadline();
      if err.Some? {
        return Err(FromLink(err.value));
      }
      lastTxnId := Low16(lastTxnId + 1);
      var frame := AssembleMbapFrame(lastTxnId, req);
      var n;
      n, err := conn.Write(frame);
      if err.Some? {
        return Err(FromLink(err.value));
      }
      r := ReadResponse();
    }

    /** One frame, whose transaction becomes that of the response. */
    method ReadRequest() returns (r: Result<Pdu>)
      requires Valid()
      modifies this, conn.Repr()
      ensures Valid() && conn.Env() == old(conn.Env()) && conn.Writes() == old(conn.Writes())
      ensures conn.Closed() == old(conn.Closed())
      ensures var env := conn.Env();
              var x := ReadingFrame(old(conn.Pending()), env.fate);
              if env.deadlineError.Some? then
                && r == Err(FromLink(env.deadlineError.value))
                && lastTxnId == old(lastTxnId)
                && conn.Pending() == old(conn.Pending())
              else
                && conn.Pending() == x.rest
                && r == (if x.result.Ok? then Ok(x.result.value.0) else Err(x.result.error))
                && lastTxnId == if x.result.Ok? then x.result.value.1 else old(lastTxnId)
    {
      hide Conn.Pending;
      hide ReadingFrame;
      var err := conn.SetDeadline();
      if err.Some? {
        return Err(FromLink(err.value));
      }
      var frame := ReadMbapFrame();
      match frame {
        case Err(e) =>
          return Err(e);
        case Ok((req, txnId)) =>
          lastTxnId := txnId;
          return Ok(req);
      }
    }

    /** Answers under the transaction of the request read last. */
    method WriteResponse(res: Pdu) returns (err: Option<LinkError>)
      requires Valid()
      modifies conn.Repr()
      ensures Valid() && conn.Env() == old(conn.Env()) && conn.Pending() == old(conn.Pending())
      ensures conn.Closed() == old(conn.Closed())
      ensures lastTxnId == old(lastTxnId)
      ensures err == conn.Env().writeError
      ensures conn.Writes() == old(conn.Writes()) + if err.None? then [Print(FrameOf(lastTxnId, res))] else []
    {
      hide Conn.Pending;
      hide Print;
      var frame := AssembleMbapFrame(lastTxnId, res);
      var n;
      n, err := conn.Write(frame);
    }
  }
}
