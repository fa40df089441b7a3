/**
 internal/modbus/server.go: decoding and validating requests (sections 6.1 to 6.6, 6.11 and 6.12 of
 the MODBUS Application Protocol Specification V1.1b3), calling the handler, and replying.
 */
module Server {
  import opened Bits
  import opened Bytes
  import opened Encoding
  import opened Links
  import opened Modbus
  import Mbap

  const MAX_READ_BITS: nat := 2000
  const MAX_WRITE_BITS: nat := 0x7b0
  const MAX_READ_WORDS: nat := 0x7d
  const MAX_WRITE_WORDS: nat := 0x7b

  // ---- Calls of the request handler ----

  datatype Call =
    | Coils(unitId: byte, addr: uint16, quantity: uint16, isWrite: bool, bits: seq<bool>)
    | DiscreteInputs(unitId: byte, addr: uint16, quantity: uint16)
    | HoldingRegisters(unitId: byte, addr: uint16, quantity: uint16, isWrite: bool, words: seq<uint16>)
    | InputRegisters(unitId: byte, addr: uint16, quantity: uint16)
  {
    predicate Writes() {
      (Coils? || HoldingRegisters?) && isWrite
    }

    predicate OfBits() {
      Coils? || DiscreteInputs?
    }

    /** The largest quantity that the function codes for this call take. */
    function Limit(): nat {
      if OfBits() then (if Writes() then MAX_WRITE_BITS else MAX_READ_BITS)
      else if Writes() then MAX_WRITE_WORDS else MAX_READ_WORDS
    }

    /**
     What a handler may rely on: a range within the address space, with one argument for each address
     written.
     */
    predicate InRange() {
      && 1 <= quantity <= Limit()
      && addr + quantity <= 0x1_0000
      && (Coils? ==> |bits| == if isWrite then quantity else 0)
      && (HoldingRegisters? ==> |words| == if isWrite then quantity else 0)
    }
  }

  /**
   A user's handler: what it returns may depend on every call it has had before. Coils and discrete
   inputs yield booleans, registers yield words.
   */
  datatype Handler = Handler(bits: (seq<Call>, Call) -> Result<seq<bool>>,
                             words: (seq<Call>, Call) -> Result<seq<uint16>>)

  class RequestHandler {
    const behaviour: Handler
    var log: seq<Call>

    constructor (behaviour: Handler)
      ensures this.behaviour == behaviour && log == []
    {
      this.behaviour, this.log := behaviour, [];
    }

    method HandleBits(call: Call) returns (r: Result<seq<bool>>)
      modifies this
      ensures r == behaviour.bits(old(log), call) && log == old(log) + [call]
    {
      r, log := behaviour.bits(log, call), log + [call];
    }

    method HandleWords(call: Call) returns (r: Result<seq<uint16>>)
      modifies this
      ensures r == behaviour.words(old(log), call) && log == old(log) + [call]
    {
      r, log := behaviour.words(log, call), log + [call];
    }
  }

  // ---- Which requests reach the handler, and as what ----

  /** The requests that ask for a call, byte by byte. */
  predicate Asks(req: Pdu, call: Call) {
    var p, fc := req.payload, req.functionCode;
    && req.unitId == call.unitId
    && match call
       case DiscreteInputs(_, addr, quantity) => fc == FC_READ_DISCRETE_INPUTS && p == Word16(addr) + Word16(quantity)
       case InputRegisters(_, addr, quantity) => fc == FC_READ_INPUT_REGISTERS && p == Word16(addr) + Word16(quantity)
       case Coils(_, addr, quantity, isWrite, bits) =>
         if !isWrite then fc == FC_READ_COILS && p == Word16(addr) + Word16(quantity) else
         || (fc == FC_WRITE_SINGLE_COIL && |bits| == 1 && p == Word16(addr) + [if bits[0] then 0xff else 0x00, 0x00])
         || (fc == FC_WRITE_MULTIPLE_COILS && AsksCoils(p, addr, quantity, bits))
       case HoldingRegisters(_, addr, quantity, isWrite, words) =>
         if !isWrite then fc == FC_READ_HOLDING_REGISTERS && p == Word16(addr) + Word16(quantity) else
         || (fc == FC_WRITE_SINGLE_REGISTER && |words| == 1 && p == Word16(addr) + Word16(words[0]))
         || (fc == FC_WRITE_MULTIPLE_REGISTERS && AsksRegisters(p, addr, quantity, words))
  }

  /** Address, quantity, byte count, and then coil k in bit k; bits past the last coil do not matter. */
  predicate AsksCoils(p: seq<byte>, addr: uint16, quantity: uint16, bits: seq<bool>) {
    && |bits| == quantity
    && |p| == 5 + PackedLength(quantity)
    && p[..4] == Word16(addr) + Word16(quantity)
    && p[4] == PackedLength(quantity)
    && forall k :: 0 <= k < quantity ==> bits[k] == BitAt(p[5..], k)
  }

  /** Address, quantity, byte count, and then the registers, high bytes first. */
  predicate AsksRegisters(p: seq<byte>, addr: uint16, quantity: uint16, words: seq<uint16>) {
    && |words| == quantity
    && |p| == 5 + 2 * quantity
    && p[..4] == Word16(addr) + Word16(quantity)
    && p[4] == 2 * quantity
    && p[5..] == EncodeWords(BigEndian, words)
  }

  datatype Verdict = Reject(error: Error) | Unsupported | Invoke(call: Call)

  /** The checks shared by all requests with a range: quantity first, then the address space. */
  function JudgeRange(addr: uint16, quantity: uint16, limit: nat): Option<Error> {
    if quantity > limit || quantity == 0 then Some(ProtocolError)
    else if addr + quantity - 1 > 0xffff then Some(IllegalDataAddress)
    else None
  }

  function Judge(req: Pdu): (v: Verdict)
    ensures v.Invoke? ==> 4 <= |req.payload|
  {
    var fc := req.functionCode;
    if fc == FC_READ_COILS || fc == FC_READ_DISCRETE_INPUTS then JudgeRead(req, MAX_READ_BITS)
    else if fc == FC_READ_HOLDING_REGISTERS || fc == FC_READ_INPUT_REGISTERS then JudgeRead(req, MAX_READ_WORDS)
    else if fc == FC_WRITE_SINGLE_COIL then JudgeWriteCoil(req)
    else if fc == FC_WRITE_MULTIPLE_COILS then JudgeWriteCoils(req)
    else if fc == FC_WRITE_SINGLE_REGISTER then JudgeWriteRegister(req)
    else if fc == FC_WRITE_MULTIPLE_REGISTERS then JudgeWriteRegisters(req)
    else Unsupported
  }

  function ReadCall(req: Pdu, addr: uint16, quantity: uint16): Call {
    var fc, u := req.functionCode, req.unitId;
    if fc == FC_READ_COILS then Coils(u, addr, quantity, false, [])
    else if fc == FC_READ_DISCRETE_INPUTS then DiscreteInputs(u, addr, quantity)
    else if fc == FC_READ_HOLDING_REGISTERS then HoldingRegisters(u, addr, quantity, false, [])
    else InputRegisters(u, addr, quantity)
  }

  function JudgeRead(req: Pdu, limit: nat): (v: Verdict)
    ensures v.Invoke? ==> 4 <= |req.payload|
  {
    if |req.payload| != 4 then Reject(ProtocolError) else
    var addr, quantity := Mbap.Word(req.payload, 0), Mbap.Word(req.payload, 2);
    match JudgeRange(addr, quantity, limit)
    case Some(e) => Reject(e)
    case None => Invoke(ReadCall(req, addr, quantity))
  }

  function JudgeWriteCoil(req: Pdu): (v: Verdict)
    ensures v.Invoke? ==> 4 <= |req.payload|
  {
    var p := req.payload;
    if |p| != 4 || (p[2] != 0xff && p[2] != 0x00) || p[3] != 0x00 then Reject(ProtocolError)
    else Invoke(Coils(req.unitId, Mbap.Word(p, 0), 1, true, [p[2] == 0xff]))
  }

  function JudgeWriteCoils(req: Pdu): (v: Verdict)
    ensures v.Invoke? ==> 4 <= |req.payload|
  {
    var p := req.payload;
    if |p| < 6 then Reject(ProtocolError) else
    var addr, quantity := Mbap.Word(p, 0), Mbap.Word(p, 2);
    match JudgeRange(addr, quantity, MAX_WRITE_BITS)
    case Some(e) => Reject(e)
    case None =>
      if p[4] != PackedLength(quantity) || |p| - 5 != PackedLength(quantity) then Reject(ProtocolError)
      else Invoke(Coils(req.unitId, addr, quantity, true, Unpacked(quantity, p[5..])))
  }

  function JudgeWriteRegister(req: Pdu): (v: Verdict)
    ensures v.Invoke? ==> 4 <= |req.payload|
  {
    var p := req.payload;
    if |p| != 4 then Reject(ProtocolError)
    else Invoke(HoldingRegisters(req.unitId, Mbap.Word(p, 0), 1, true, [Mbap.Word(p, 2)]))
  }

  function JudgeWriteRegisters(req: Pdu): (v: Verdict)
    ensures v.Invoke? ==> 4 <= |req.payload|
  {
    var p := req.payload;
    if |p| < 6 then Reject(ProtocolError) else
    var addr, quantity := Mbap.Word(p, 0), Mbap.Word(p, 2);
    match JudgeRange(addr, quantity, MAX_WRITE_WORDS)
    case Some(e) => Reject(e)
    case None =>
      if p[4] != 2 * quantity || |p| - 5 != 2 * quantity then Reject(ProtocolError)
      else Invoke(HoldingRegisters(req.unitId, addr, quantity, true, DecodeWords(BigEndian, p[5..])))
  }

  /** Two bytes are a word, and a word is two bytes. */
  lemma WordBytes(p: seq<byte>, i: nat, v: uint16)
    requires i + 2 <= |p|
    ensures p[i..i + 2] == Word16(v) <==> Mbap.Word(p, i) == v
  {
    var first: int, second: int := p[i], p[i + 1];
    assert p[i..i + 2] == [p[i], p[i + 1]];
  }

  lemma TwoWords(p: seq<byte>, a: uint16, b: uint16)
    requires |p| >= 4
    ensures p[..4] == Word16(a) + Word16(b) <==> Mbap.Word(p, 0) == a && Mbap.Word(p, 2) == b
  {
    WordBytes(p, 0, a);
    WordBytes(p, 2, b);
    assert p[..4] == p[0..2] + p[2..4];
    hide Mbap.Word;
    hide Uint16ToBytes;
  }

  /**
   The handler gets a call exactly when the request asks for that call and the call is in range:
   whatever the payload, no other call, and no call for any other payload.
   */
  lemma InvokedExactly(req: Pdu, call: Call)
    ensures Judge(req) == Invoke(call) <==> call.InRange() && Asks(req, call)
  {
    var fc := req.functionCode;
    hide Judge;
    if fc == FC_WRITE_SINGLE_COIL {
      WriteCoilExactly(req, call);
    } else if fc == FC_WRITE_SINGLE_REGISTER {
      WriteRegisterExactly(req, call);
    } else if fc == FC_WRITE_MULTIPLE_COILS {
      WriteCoilsExactly(req, call);
    } else if fc == FC_WRITE_MULTIPLE_REGISTERS {
      WriteRegistersExactly(req, call);
    } else {
      ReadExactly(req, call);
    }
  }

  lemma ReadExactly(req: Pdu, call: Call)
    requires var fc := req.functionCode;
             && fc != FC_WRITE_SINGLE_COIL && fc != FC_WRITE_MULTIPLE_COILS
             && fc != FC_WRITE_SINGLE_REGISTER && fc != FC_WRITE_MULTIPLE_REGISTERS
    ensures Judge(req) == Invoke(call) <==> call.InRange() && Asks(req, call)
  {
    var p := req.payload;
    if |p| == 4 {
      TwoWords(p, call.addr, call.quantity);
      assert p[..4] == p;
    }
    hide Mbap.Word;
    hide Word16;
  }

  lemma WriteCoilExactly(req: Pdu, call: Call)
    requires req.functionCode == FC_WRITE_SINGLE_COIL
    ensures Judge(req) == Invoke(call) <==> call.InRange() && Asks(req, call)
  {
    var p := req.payload;
    if |p| == 4 {
      WordBytes(p, 0, call.addr);
      assert p == p[0..2] + [p[2], p[3]];
    }
    hide Mbap.Word;
    hide Word16;
  }

  lemma WriteRegisterExactly(req: Pdu, call: Call)
    requires req.functionCode == FC_WRITE_SINGLE_REGISTER
    ensures Judge(req) == Invoke(call) <==> call.InRange() && Asks(req, call)
  {
    var p := req.payload;
    if |p| == 4 {
      assert p[..4] == p;
      if call.HoldingRegisters? && |call.words| == 1 {
        TwoWords(p, call.addr, call.words[0]);
      }
    }
    hide Mbap.Word;
    hide Word16;
  }

  lemma WriteCoilsExactly(req: Pdu, call: Call)
    requires req.functionCode == FC_WRITE_MULTIPLE_COILS
    ensures Judge(req) == Invoke(call) <==> call.InRange() && Asks(req, call)
  {
    var p := req.payload;
    if |p| >= 4 {
      TwoWords(p, call.addr, call.quantity);
    }
    hide Mbap.Word;
    hide Word16;
    hide BitAt;
    if call.InRange() && Asks(req, call) {
      assert call.bits == Unpacked(call.quantity, p[5..]);
    }
  }

  lemma WriteRegistersExactly(req: Pdu, call: Call)
    requires req.functionCode == FC_WRITE_MULTIPLE_REGISTERS
    ensures Judge(req) == Invoke(call) <==> call.InRange() && Asks(req, call)
  {
    var p := req.payload;
    if |p| >= 4 {
      TwoWords(p, call.addr, call.quantity);
    }
    hide Mbap.Word;
    hide Word16;
    if call.HoldingRegisters? && |p| >= 5 && |p| % 2 == 1 {
      assert |p[5..]| % 2 == 0;
      EncodeDecoded(BigEndian, p[5..]);
      DecodeEncoded(BigEndian, call.words);
    }
    hide EncodeWords;
    hide DecodeWords;
  }

  // ---- Replies ----

  /** The reply to a write: the request's address, and its value or quantity. */
  function Echo(req: Pdu): Pdu
    requires 4 <= |req.payload|
  {
    Pdu(req.unitId, req.functionCode, req.payload[..4])
  }

  function ReplyWithBits(req: Pdu, call: Call, r: Result<seq<bool>>): Result<Pdu>
    requires 4 <= |req.payload|
  {
    match r
    case Err(e) => Err(e)
    case Ok(bits) =>
      if call.Writes() then Ok(Echo(req))
      else if |bits| != call.quantity then Err(ServerDeviceFailure)
      else Ok(Pdu(req.unitId, req.functionCode, [Low8(PackedLength(|bits|))] + Packed(bits)))
  }

  function ReplyWithWords(req: Pdu, call: Call, r: Result<seq<uint16>>): Result<Pdu>
    requires 4 <= |req.payload|
  {
    match r
    case Err(e) => Err(e)
    case Ok(words) =>
      if call.Writes() then Ok(Echo(req))
      else if |words| != call.quantity then Err(ServerDeviceFailure)
      else Ok(Pdu(req.unitId, req.functionCode, [Low8(2 * |words|)] + EncodeWords(BigEndian, words)))
  }

  function Exception(req: Pdu, code: byte): Pdu {
    Pdu(req.unitId, ErrorCode(req.functionCode), [code])
  }

  /** A response, or the error that the request has run into. */
  function Processing(h: Handler, log: seq<Call>, req: Pdu): Result<Pdu> {
    match Judge(req)
    case Reject(e) => Err(e)
    case Unsupported => Ok(Exception(req, EX_ILLEGAL_FUNCTION))
    case Invoke(call) =>
      if call.OfBits() then ReplyWithBits(req, call, h.bits(log, call))
      else ReplyWithWords(req, call, h.words(log, call))
  }

  datatype Answer = Drop | Reply(res: Pdu)

  /** A protocol error drops the link; every other error becomes an exception response. */
  function Answering(h: Handler, log: seq<Call>, req: Pdu): Answer {
    match Processing(h, log, req)
    case Ok(res) => Reply(res)
    case Err(e) => if e == ProtocolError then Drop else Reply(Exception(req, MapErrorToExceptionCode(e)))
  }

  /** The calls the handler has had once a request is dealt with. */
  function Logged(log: seq<Call>, req: Pdu): seq<Call> {
    match Judge(req)
    case Invoke(call) => log + [call]
    case _ => log
  }

  // ---- Whole sessions ----

  /**
   What a session sends, the calls its handler has had, the stream left, and whether the server dropped
   the link.
   */
  datatype Session = Session(frames: seq<Mbap.Frame>, log: seq<Call>, rest: seq<byte>, dropped: bool)

  function Serving(h: Handler, log: seq<Call>, stream: seq<byte>, env: Env): Session
    decreases |stream|
  {
    if env.deadlineError.Some? then Session([], log, stream, false) else
    var r := Mbap.ReadingFrame(stream, env.fate);
    match r.result
    case Err(_) => Session([], log, r.rest, false)
    case Ok((req, txnId)) =>
      match Answering(h, log, req)
      case Drop => Session([], Logged(log, req), r.rest, true)
      case Reply(res) =>
        var sent := if env.writeError.None? then [Mbap.FrameOf(txnId, res)] else [];
        var s := Serving(h, Logged(log, req), r.rest, env);
        s.(frames := sent + s.frames)
  }

  /** The requests in a stream, with their transactions, up to the first read error. */
  function Inbound(stream: seq<byte>, fate: LinkError): seq<(Pdu, uint16)>
    decreases |stream|
  {
    var r := Mbap.ReadingFrame(stream, fate);
    match r.result
    case Err(_) => []
    case Ok(req) => [req] + Inbound(r.rest, fate)
  }

  function LogAfter(log: seq<Call>, reqs: seq<(Pdu, uint16)>): seq<Call>
    decreases reqs
  {
    if reqs == [] then log else LogAfter(Logged(log, reqs[0].0), reqs[1..])
  }

  /** The handler turns a call down with the error that stands for a malformed message. */
  predicate CriesFoul(h: Handler, log: seq<Call>, call: Call) {
    if call.OfBits() then h.bits(log, call) == Err(ProtocolError) else h.words(log, call) == Err(ProtocolError)
  }

  /** The request is malformed, or the handler says so. */
  predicate Stops(h: Handler, log: seq<Call>, req: Pdu) {
    Judge(req) == Reject(ProtocolError) || (Judge(req).Invoke? && CriesFoul(h, log, Judge(req).call))
  }

  /**
   A response goes out under its request's transaction and unit, with its function code or that code
   marked as an error.
   */
  predicate Responds(f: Mbap.Frame, req: Pdu, txnId: uint16) {
    && f.txnId == txnId && f.protocolId == 0 && f.unitId == req.unitId
    && 2 <= |f.body| <= 252
    && (f.body[0] == req.functionCode
        || (|f.body| == 2 && f.body[0] == if req.functionCode < 128 then req.functionCode + 128 else req.functionCode))
  }

  lemma AnswerShape(h: Handler, log: seq<Call>, req: Pdu, txnId: uint16)
    ensures Answering(h, log, req).Drop? <==> Stops(h, log, req)
    ensures var a := Answering(h, log, req); a.Reply? ==> Responds(Mbap.FrameOf(txnId, a.res), req, txnId)
  {
    var v := Judge(req);
    if v.Invoke? {
      InvokedExactly(req, v.call);
    }
    hide Judge;
    hide EncodeWords;
    hide Packed;
    hide Asks;
  }

  /**
   The trace of a run: each request gets exactly one response, under its own transaction and unit,
   with a payload of at most 251 bytes, until the first request that is malformed or that the handler
   calls so; that one gets none and ends the session. Otherwise the session ends with the stream.
   */
  lemma {:induction false} RunTrace(h: Handler, log: seq<Call>, stream: seq<byte>, env: Env)
    requires env.deadlineError.None? && env.writeError.None?
    ensures var s, reqs := Serving(h, log, stream, env), Inbound(stream, env.fate);
            var n := |s.frames|;
            && n <= |reqs|
            && (s.dropped <==> n < |reqs|)
            && (s.dropped ==> Stops(h, LogAfter(log, reqs[..n]), reqs[n].0))
            && s.log == LogAfter(log, if s.dropped then reqs[..n + 1] else reqs)
            && forall i :: 0 <= i < n ==> Answered(h, log, reqs, s.frames, i)
    decreases |stream|
  {
    hide Answering;
    hide Logged;
    hide Stops;
    hide Mbap.ReadingFrame;
    var r := Mbap.ReadingFrame(stream, env.fate);
    var s, reqs := Serving(h, log, stream, env), Inbound(stream, env.fate);
    if r.result.Ok? {
      var (req, txnId) := r.result.value;
      AnswerShape(h, log, req, txnId);
      assert reqs[..0] == [] && reqs[..1] == [reqs[0]];
      if Answering(h, log, req).Reply? {
        var later := Logged(log, req);
        RunTrace(h, later, r.rest, env);
        var t := Serving(h, later, r.rest, env);
        TraceStep(h, log, reqs, s.frames, t.frames);
        assert reqs[..|s.frames|][1..] == reqs[1..][..|t.frames|];
        if s.dropped {
          assert reqs[..|s.frames| + 1][1..] == reqs[1..][..|t.frames| + 1];
        }
      }
    }
  }

  /** The i-th response is the answer to the i-th request, given the calls before it. */
  ghost predicate Answered(h: Handler, log: seq<Call>, reqs: seq<(Pdu, uint16)>, frames: seq<Mbap.Frame>, i: nat)
    requires i < |frames| <= |reqs|
  {
    var before, (req, txnId) := LogAfter(log, reqs[..i]), reqs[i];
    && !Stops(h, before, req)
    && Responds(frames[i], req, txnId)
    && Answering(h, before, req) == Reply(Mbap.PduOf(frames[i]))
  }

  lemma TraceStep(h: Handler, log: seq<Call>, reqs: seq<(Pdu, uint16)>, frames: seq<Mbap.Frame>, later: seq<Mbap.Frame>)
    requires |later| < |reqs| && reqs != []
    requires Answering(h, log, reqs[0].0).Reply?
    requires frames == [Mbap.FrameOf(reqs[0].1, Answering(h, log, reqs[0].0).res)] + later
    requires forall i :: 0 <= i < |later| ==> Answered(h, Logged(log, reqs[0].0), reqs[1..], later, i)
    ensures forall i :: 0 <= i < |frames| ==> Answered(h, log, reqs, frames, i)
  {
    AnswerShape(h, log, reqs[0].0, reqs[0].1);
    hide Answering;
    hide Logged;
    hide Stops;
    forall i | 0 <= i < |frames|
      ensures Answered(h, log, reqs, frames, i)
    {
      if i > 0 {
        assert Answered(h, Logged(log, reqs[0].0), reqs[1..], later, i - 1);
        assert reqs[..i][1..] == reqs[1..][..i - 1];
      }
    }
  }
}
