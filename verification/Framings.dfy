/**
 The server's responses in either framing. The repository only serves over MBAP, but a gateway may
 pass responses on.
 */
module Framings {
  import opened Bits
  import opened Bytes
  import opened Encoding
  import opened Links
  import opened Modbus
  import opened Server
  import Mbap
  import Rtu

  /** The length that an RTU reader works out for a response is the length that the server gives it. */
  lemma ResponseShaped(h: Handler, log: seq<Call>, req: Pdu)
    requires Answering(h, log, req).Reply? && Judge(req) != Unsupported
    ensures Rtu.Shaped(Answering(h, log, req).res)
  {
    var v := Judge(req);
    var res := Answering(h, log, req).res;
    if v.Invoke? {
      InvokedExactly(req, v.call);
    }
    CodesKnown(req);
    hide Judge;
    hide Asks;
    hide Packed;
    hide EncodeWords;
    hide Rtu.ExpectedResponseLength;
    if Processing(h, log, req).Ok? {
      ReplyShaped(h, log, req);
    } else {
      assert res.payload[0] == MapErrorToExceptionCode(Processing(h, log, req).error);
    }
  }

  lemma CodesKnown(req: Pdu)
    requires Judge(req) != Unsupported
    ensures req.functionCode in {1, 2, 3, 4, 5, 6, 15, 16}
    ensures forall b: byte :: Rtu.ExpectedResponseLength(ErrorCode(req.functionCode), b) == Some(0)
    ensures forall b: byte :: Rtu.ExpectedResponseLength(req.functionCode, b) == Some(if req.functionCode <= 4 then b else 3)
  {
  }

  lemma CallKnown(req: Pdu)
    requires Judge(req).Invoke?
    ensures var call := Judge(req).call;
            && (call.Writes() <==> req.functionCode > 4)
            && 1 <= call.quantity <= call.Limit()
  {
    InvokedExactly(req, Judge(req).call);
    hide Judge;
    hide AsksCoils;
    hide AsksRegisters;
    hide Word16;
  }

  lemma ReplyShaped(h: Handler, log: seq<Call>, req: Pdu)
    requires Processing(h, log, req).Ok? && Judge(req) != Unsupported
    ensures Rtu.Shaped(Processing(h, log, req).value)
  {
    CodesKnown(req);
    CallKnown(req);
    hide Judge;
    hide Packed;
    hide EncodeWords;
    hide Rtu.ExpectedResponseLength;
    var call, res := Judge(req).call, Processing(h, log, req).value;
    if call.Writes() {
      assert res.payload == req.payload[..4];
    } else {
      var length := if call.OfBits() then PackedLength(call.quantity) else 2 * call.quantity;
      assert length <= 250 && |res.payload| == 1 + length && res.payload[0] == length;
    }
  }

  /**
   A response survives either framing: what the reader gets is the response, and exactly its bytes are
   consumed.
   */
  lemma ResponseReadable(h: Handler, log: seq<Call>, req: Pdu, txnId: uint16, rest: seq<byte>, fate: LinkError)
    requires Answering(h, log, req).Reply? && Judge(req) != Unsupported
    ensures var res := Answering(h, log, req).res;
            && Rtu.ReadingFrame(Rtu.Print(res) + rest, fate) == Rtu.FrameRead(Ok(res), rest)
            && Mbap.ReadingFrame(Mbap.Print(Mbap.FrameOf(txnId, res)) + rest, fate) == Mbap.FrameRead(Ok((res, txnId)), rest)
  {
    ResponseShaped(h, log, req);
    hide Rtu.ReadingFrame;
    hide Mbap.ReadingFrame;
    hide Answering;
    var res := Answering(h, log, req).res;
    Rtu.RoundTrip(res, rest, fate);
    Mbap.RoundTrip(txnId, res, rest, fate);
  }
}
