/**
 internal/modbus/server.go: the request loop itself, step by step. Its methods do what the functions
 of module Server say, for every payload and every handler.
 */
module ServerLoop {
  import opened Bits
  import opened Bytes
  import opened Encoding
  import opened Links
  import opened Modbus
  import opened Server
  import Mbap

  /** Function codes 1 and 2. */
  method ReadBits(handler: RequestHandler, req: Pdu) returns (res: Result<Pdu>)
    requires req.functionCode == FC_READ_COILS || req.functionCode == FC_READ_DISCRETE_INPUTS
    modifies handler
    ensures res == Processing(handler.behaviour, old(handler.log), req)
    ensures handler.log == Logged(old(handler.log), req)
  {
    hide Packed;
    if |req.payload| != 4 {
      return Err(ProtocolError);
    }
    var addr := BytesToUint16(BigEndian, req.payload[0..2]);
    var quantity := BytesToUint16(BigEndian, req.payload[2..4]);
    hide BytesToUint16;
    if quantity > 2000 || quantity == 0 {
      return Err(ProtocolError);
    }
    if addr as int + quantity as int - 1 > 0xffff {
      return Err(IllegalDataAddress);
    }
    var r;
    if req.functionCode == FC_READ_COILS {
      r := handler.HandleBits(Coils(req.unitId, addr, quantity, false, []));
    } else {
      r := handler.HandleBits(DiscreteInputs(req.unitId, addr, quantity));
    }
    if r.Err? {
      return Err(r.error);
    }
    // a wrong number of values is the server's own failure
    var resCount := |r.value|;
    if resCount != quantity {
      return Err(ServerDeviceFailure);
    }
    var byteCount := Low8(resCount / 8);
    if resCount % 8 != 0 {
      byteCount := Low8(byteCount + 1);
    }
    var payload := [byteCount];
    var encoded := EncodeBools(r.value);
    payload := payload + encoded;
    return Ok(Pdu(req.unitId, req.functionCode, payload));
  }

  /** Function code 5. */
  method WriteSingleCoil(handler: RequestHandler, req: Pdu) returns (res: Result<Pdu>)
    requires req.functionCode == FC_WRITE_SINGLE_COIL
    modifies handler
    ensures res == Processing(handler.behaviour, old(handler.log), req)
    ensures handler.log == Logged(old(handler.log), req)
  {
    if |req.payload| != 4 {
      return Err(ProtocolError);
    }
    var addr := BytesToUint16(BigEndian, req.payload[0..2]);
    EchoedWord(req.payload, addr);
    hide BytesToUint16;
    hide Uint16ToBytes;
    // any other value is malformed
    if (req.payload[2] != 0xff && req.payload[2] != 0x00) || req.payload[3] != 0x00 {
      return Err(ProtocolError);
    }
    var r := handler.HandleBits(Coils(req.unitId, addr, 1, true, [req.payload[2] == 0xff]));
    if r.Err? {
      return Err(r.error);
    }
    var payload := Uint16ToBytes(BigEndian, addr);
    payload := payload + [req.payload[2], req.payload[3]];
    return Ok(Pdu(req.unitId, req.functionCode, payload));
  }

  /** Function code 15. */
  method WriteMultipleCoils(handler: RequestHandler, req: Pdu) returns (res: Result<Pdu>)
    requires req.functionCode == FC_WRITE_MULTIPLE_COILS
    modifies handler
    ensures res == Processing(handler.behaviour, old(handler.log), req)
    ensures handler.log == Logged(old(handler.log), req)
  {
    hide Unpacked;
    if |req.payload| < 6 {
      return Err(ProtocolError);
    }
    var addr := BytesToUint16(BigEndian, req.payload[0..2]);
    var quantity := BytesToUint16(BigEndian, req.payload[2..4]);
    EchoedWords(req.payload, addr, quantity);
    hide BytesToUint16;
    hide Uint16ToBytes;
    if quantity > 0x7b0 || quantity == 0 {
      return Err(ProtocolError);
    }
    if addr as int + quantity as int - 1 > 0xffff {
      return Err(IllegalDataAddress);
    }
    var expectedLen := quantity / 8;
    if quantity % 8 != 0 {
      expectedLen := expectedLen + 1;
    }
    if req.payload[4] != Low8(expectedLen) {
      return Err(ProtocolError);
    }
    if |req.payload| - 5 != expectedLen {
      return Err(ProtocolError);
    }
    var bits := DecodeBools(quantity, req.payload[5..]);
    var r := handler.HandleBits(Coils(req.unitId, addr, quantity, true, bits));
    if r.Err? {
      return Err(r.error);
    }
    return Ok(Pdu(req.unitId, req.functionCode, Uint16ToBytes(BigEndian, addr) + Uint16ToBytes(BigEndian, quantity)));
  }

  /** Function codes 3 and 4. */
  method ReadRegisters(handler: RequestHandler, req: Pdu) returns (res: Result<Pdu>)
    requires req.functionCode == FC_READ_HOLDING_REGISTERS || req.functionCode == FC_READ_INPUT_REGISTERS
    modifies handler
    ensures res == Processing(handler.behaviour, old(handler.log), req)
    ensures handler.log == Logged(old(handler.log), req)
  {
    hide EncodeWords;
    if |req.payload| != 4 {
      return Err(ProtocolError);
    }
    var addr := BytesToUint16(BigEndian, req.payload[0..2]);
    var quantity := BytesToUint16(BigEndian, req.payload[2..4]);
    hide BytesToUint16;
    if quantity > 0x007d || quantity == 0 {
      return Err(ProtocolError);
    }
    if addr as int + quantity as int - 1 > 0xffff {
      return Err(IllegalDataAddress);
    }
    var r;
    if req.functionCode == FC_READ_HOLDING_REGISTERS {
      r := handler.HandleWords(HoldingRegisters(req.unitId, addr, quantity, false, []));
    } else {
      r := handler.HandleWords(InputRegisters(req.unitId, addr, quantity));
    }
    if r.Err? {
      return Err(r.error);
    }
    // a wrong number of values is the server's own failure
    var resCount := |r.value|;
    if resCount != quantity {
      return Err(ServerDeviceFailure);
    }
    var payload := [Low8(resCount * 2)];
    var encoded := Uint16sToBytes(BigEndian, r.value);
    payload := payload + encoded;
    return Ok(Pdu(req.unitId, req.functionCode, payload));
  }

  /** Function code 6. */
  method WriteSingleRegister(handler: RequestHandler, req: Pdu) returns (res: Result<Pdu>)
    requires req.functionCode == FC_WRITE_SINGLE_REGISTER
    modifies handler
    ensures res == Processing(handler.behaviour, old(handler.log), req)
    ensures handler.log == Logged(old(handler.log), req)
  {
    if |req.payload| != 4 {
      return Err(ProtocolError);
    }
    var addr := BytesToUint16(BigEndian, req.payload[0..2]);
    var value := BytesToUint16(BigEndian, req.payload[2..4]);
    EchoedWords(req.payload, addr, value);
    hide BytesToUint16;
    hide Uint16ToBytes;
    var r := handler.HandleWords(HoldingRegisters(req.unitId, addr, 1, true, [value]));
    if r.Err? {
      return Err(r.error);
    }
    return Ok(Pdu(req.unitId, req.functionCode, Uint16ToBytes(BigEndian, addr) + Uint16ToBytes(BigEndian, value)));
  }

  /** Function code 16. */
  method WriteMultipleRegisters(handler: RequestHandler, req: Pdu) returns (res: Result<Pdu>)
    requires req.functionCode == FC_WRITE_MULTIPLE_REGISTERS
    modifies handler
    ensures res == Processing(handler.behaviour, old(handler.log), req)
    ensures handler.log == Logged(old(handler.log), req)
  {
    hide DecodeWords;
    if |req.payload| < 6 {
      return Err(ProtocolError);
    }
    var addr := BytesToUint16(BigEndian, req.payload[0..2]);
    var quantity := BytesToUint16(BigEndian, req.payload[2..4]);
    EchoedWords(req.payload, addr, quantity);
    hide BytesToUint16;
    hide Uint16ToBytes;
    if quantity > 0x007b || quantity == 0 {
      return Err(ProtocolError);
    }
    if addr as int + quantity as int - 1 > 0xffff {
      return Err(IllegalDataAddress);
    }
    var expectedLen := quantity * 2;
    if req.payload[4] != Low8(expectedLen) {
      return Err(ProtocolError);
    }
    if |req.payload| - 5 != expectedLen {
      return Err(ProtocolError);
    }
    var words := BytesToUint16s(BigEndian, req.payload[5..]);
    var r := handler.HandleWords(HoldingRegisters(req.unitId, addr, quantity, true, words));
    if r.Err? {
      return Err(r.error);
    }
    return Ok(Pdu(req.unitId, req.functionCode, Uint16ToBytes(BigEndian, addr) + Uint16ToBytes(BigEndian, quantity)));
  }

  /** Encoding what was decoded echoes the first bytes of the payload. */
  lemma EchoedWord(p: seq<byte>, addr: uint16)
    requires |p| == 4 && addr == BytesToUint16(BigEndian, p[0..2])
    ensures Uint16ToBytes(BigEndian, addr) + [p[2], p[3]] == p[..4]
  {
    WordBytes(p, 0, addr);
    assert p[..4] == p[0..2] + [p[2], p[3]];
  }

  lemma EchoedWords(p: seq<byte>, a: uint16, b: uint16)
    requires 4 <= |p| && a == BytesToUint16(BigEndian, p[0..2]) && b == BytesToUint16(BigEndian, p[2..4])
    ensures Uint16ToBytes(BigEndian, a) + Uint16ToBytes(BigEndian, b) == p[..4]
  {
    TwoWords(p, a, b);
  }

  /** The switch over function codes. */
  method Process(handler: RequestHandler, req: Pdu) returns (res: Result<Pdu>)
    modifies handler
    ensures res == Processing(handler.behaviour, old(handler.log), req)
    ensures handler.log == Logged(old(handler.log), req)
  {
    assert req.functionCode !in {1, 2, 3, 4, 5, 6, 15, 16} ==> Judge(req) == Unsupported;
    hide Judge;
    if req.functionCode == FC_READ_COILS || req.functionCode == FC_READ_DISCRETE_INPUTS {
      res := ReadBits(handler, req);
    } else if req.functionCode == FC_WRITE_SINGLE_COIL {
      res := WriteSingleCoil(handler, req);
    } else if req.functionCode == FC_WRITE_MULTIPLE_COILS {
      res := WriteMultipleCoils(handler, req);
    } else if req.functionCode == FC_READ_HOLDING_REGISTERS || req.functionCode == FC_READ_INPUT_REGISTERS {
      res := ReadRegisters(handler, req);
    } else if req.functionCode == FC_WRITE_SINGLE_REGISTER {
      res := WriteSingleRegister(handler, req);
    } else if req.functionCode == FC_WRITE_MULTIPLE_REGISTERS {
      res := WriteMultipleRegisters(handler, req);
    } else {
      res := Ok(Pdu(req.unitId, ErrorCode(req.functionCode), [EX_ILLEGAL_FUNCTION]));
    }
  }

  /** The byte strings that frames go out as. */
  function Printed(frames: seq<Mbap.Frame>): seq<seq<byte>> {
    if frames == [] then [] else [Mbap.Print(frames[0])] + Printed(frames[1..])
  }

  lemma {:induction false} PrintedConcat(a: seq<Mbap.Frame>, b: seq<Mbap.Frame>)
    ensures Printed(a + b) == Printed(a) + Printed(b)
  {
    hide Mbap.Print;
    if a == [] {
      assert a + b == b;
    } else {
      PrintedConcat(a[1..], b);
      assert (a + b)[1..] == a[1..] + b;
    }
  }

  lemma {:induction false} PrintedFlat(frames: seq<Mbap.Frame>)
    ensures Flat(Printed(frames)) == Mbap.PrintAll(frames)
  {
    if frames != [] {
      PrintedFlat(frames[1..]);
      assert Printed(frames)[1..] == Printed(frames[1..]);
    }
  }

  /**
   One turn of the loop: reads a request, and unless that fails or a protocol error drops the link,
   calls the handler and writes the response.
   */
  method Turn(handler: RequestHandler, t: Mbap.TcpTransport) returns (dropped: Option<bool>, ghost out: seq<Mbap.Frame>)
    requires t.Valid() && handler !in t.conn.Repr()
    modifies handler, t, t.conn.Repr()
    ensures t.Valid() && t.conn.Env() == old(t.conn.Env())
    ensures t.conn.Writes() == old(t.conn.Writes()) + Printed(out)
    ensures var s := Serving(handler.behaviour, old(handler.log), old(t.conn.Pending()), t.conn.Env());
            if dropped.Some? then
              out == [] && s == Session([], handler.log, t.conn.Pending(), dropped.value)
            else
              var later := Serving(handler.behaviour, handler.log, t.conn.Pending(), t.conn.Env());
              s == later.(frames := out + later.frames) && |t.conn.Pending()| < |old(t.conn.Pending())|
    ensures t.conn.Closed() == (dropped == Some(true) || old(t.conn.Closed()))
  {
    hide Conn.Pending;
    hide Conn.Valid;
    hide Conn.Env;
    hide Conn.Writes;
    hide Conn.Closed;
    hide Processing;
    hide Logged;
    hide Mbap.ReadingFrame;
    hide Mbap.Print;
    out := [];
    var request := t.ReadRequest();
    if request.Err? {
      return Some(false), [];
    }
    var req := request.value;
    var r := Process(handler, req);
    var res;
    match r {
      case Ok(response) =>
        res := response;
      case Err(e) =>
        // malformed requests end the session, other errors are answered
        if e == ProtocolError {
          t.conn.Close();
          return Some(true), [];
        }
        res := Pdu(req.unitId, ErrorCode(req.functionCode), [MapErrorToExceptionCode(e)]);
    }
    // a failure to write is logged and otherwise ignored
    var err := t.WriteResponse(res);
    out := if err.None? then [Mbap.FrameOf(t.lastTxnId, res)] else [];
    dropped := None;
  }

  /**
   The request loop. A run of it is the session of the stream it is given, and closes the link exactly if that
   drops it.
   */
  method HandleTransport(handler: RequestHandler, t: Mbap.TcpTransport) returns (dropped: bool)
    requires t.Valid() && handler !in t.conn.Repr()
    modifies handler, t, t.conn.Repr()
    ensures t.Valid() && t.conn.Env() == old(t.conn.Env())
    ensures var s := Serving(handler.behaviour, old(handler.log), old(t.conn.Pending()), t.conn.Env());
            && handler.log == s.log
            && t.conn.Pending() == s.rest
            && t.conn.Writes() == old(t.conn.Writes()) + Printed(s.frames)
            && dropped == s.dropped
            && t.conn.Closed() == (dropped || old(t.conn.Closed()))
  {
    hide Conn.Pending;
    hide Conn.Valid;
    hide Conn.Env;
    hide Conn.Writes;
    hide Conn.Closed;
    hide Serving;
    ghost var whole := Serving(handler.behaviour, handler.log, t.conn.Pending(), t.conn.Env());
    ghost var written := t.conn.Writes() + Printed(whole.frames);
    while true
      invariant t.Valid() && t.conn.Env() == old(t.conn.Env())
      invariant var s := Serving(handler.behaviour, handler.log, t.conn.Pending(), t.conn.Env());
                && s.log == whole.log && s.rest == whole.rest && s.dropped == whole.dropped
                && t.conn.Writes() + Printed(s.frames) == written
      invariant t.conn.Closed() == old(t.conn.Closed())
      decreases |t.conn.Pending()|
    {
      ghost var writes := t.conn.Writes();
      var ended;
      ghost var out;
      ended, out := Turn(handler, t);
      if ended.Some? {
        assert writes + [] == t.conn.Writes();
        return ended.value;
      }
      ghost var later := Serving(handler.behaviour, handler.log, t.conn.Pending(), t.conn.Env()).frames;
      PrintedConcat(out, later);
      assert (writes + Printed(out)) + Printed(later) == writes + (Printed(out) + Printed(later));
    }
  }
}
