/**
 What a call of the client comes to, read off its arguments and the bytes on the link: sections 6 and 7 of
 the MODBUS Application Protocol Specification V1.1b3 with the numbers written out, over either framing.
 */
module ClientFate {
  import opened Bits
  import opened Bytes
  import opened Encoding
  import opened Links
  import opened Modbus
  import opened Ops
  import FrameFate
  import Mbap
  import Rtu
  import ServerFate

  // ---- The manual ----

  /** A number as two bytes, high byte first. */
  function Two(n: uint16): (bs: seq<byte>)
    ensures |bs| == 2
  {
    [n / 256, n % 256]
  }

  /** The request to send, or the refusal to send one. */
  function Wanted(op: Op, unit: byte): Result<Pdu> {
    match op
    case ReadBools(addr, quantity, di) =>
      if quantity < 1 || quantity > 2000 || addr + quantity > 65536 then Err(UnexpectedParameters)
      else Ok(Pdu(unit, if di then 2 else 1, Two(addr) + Two(quantity)))
    case ReadRegisters(addr, quantity, regType) =>
      if addr + quantity < 1 || addr + quantity > 65536 then Err(UnexpectedParameters)
      else if regType == HoldingRegister then Ok(Pdu(unit, 3, Two(addr) + Two(quantity)))
      else if regType == InputRegister then Ok(Pdu(unit, 4, Two(addr) + Two(quantity)))
      else Err(UnexpectedParameters)
    case WriteCoil(addr, value) => Ok(Pdu(unit, 5, Two(addr) + if value then [255, 0] else [0, 0]))
    case WriteCoils(addr, values) =>
      var n := |values| % 65536;
      if n < 1 || n > 1968 || addr + n > 65536 then Err(UnexpectedParameters)
      else Ok(Pdu(unit, 15, Two(addr) + Two(n) + [(|values| + 7) / 8 % 256] + Packed(values)))
    case WriteRegister(addr, e, word) =>
      Ok(Pdu(unit, 6, Two(addr) + if e == BigEndian then [word / 256, word % 256] else [word % 256, word / 256]))
    case WriteRegisters(addr, bytes) =>
      var length := |bytes| % 65536;
      var n := length / 2;
      if n < 1 || n > 123 || addr + n > 65536 then Err(UnexpectedParameters)
      else Ok(Pdu(unit, 16, Two(addr) + Two(n) + [length % 256] + bytes))
  }

  /** The error that a number in an exception response stands for. */
  function Raised(code: byte): Error {
    match code
    case 1 => IllegalFunction
    case 2 => IllegalDataAddress
    case 3 => IllegalDataValue
    case 4 => ServerDeviceFailure
    case 5 => Acknowledge
    case 6 => ServerDeviceBusy
    case 8 => MemoryParityError
    case 10 => GWPathUnavailable
    case 11 => GWTargetFailedToRespond
    case _ => UnknownExceptionCode(code)
  }

  /** What a payload under the function code asked for is worth. */
  function Read(op: Op, p: seq<byte>): Result<Outcome> {
    match op
    case ReadBools(_, quantity, _) =>
      var n := (quantity + 7) / 8;
      if |p| == 1 + n && p[0] == n then Ok(Bools(ServerFate.CoilBits(p[1..], quantity))) else Err(ProtocolError)
    case ReadRegisters(_, quantity, _) =>
      if |p| == 1 + 2 * quantity && p[0] == 2 * quantity then Ok(Registers(p[1..])) else Err(ProtocolError)
    case WriteCoil(addr, value) =>
      if |p| == 4 && p[..2] == Two(addr) && (!value || p[2] == 255) && p[3] == 0 then Ok(Done) else Err(ProtocolError)
    case WriteCoils(addr, values) =>
      if |p| == 4 && p[..2] == Two(addr) && p[2..] == Two(|values| % 65536) then Ok(Done) else Err(ProtocolError)
    case WriteRegister(addr, e, word) =>
      if |p| == 4 && p[..2] == Two(addr) && p[2] == (if e == BigEndian then word / 256 else word % 256)
         && p[3] == (if e == BigEndian then word % 256 else word / 256) then Ok(Done)
      else Err(ProtocolError)
    case WriteRegisters(addr, bytes) =>
      if |p| == 4 && p[..2] == Two(addr) && p[2..] == Two(|bytes| % 65536 / 2) then Ok(Done) else Err(ProtocolError)
  }

  /** What a response is worth: another unit's is refused, unless it is an exception from unit 255. */
  function Heard(op: Op, req: Pdu, res: Pdu): Result<Outcome> {
    var exception := res.functionCode >= 128;
    if res.unitId != req.unitId && !(exception && res.unitId == 255) then Err(BadUnitId)
    else if res.functionCode == req.functionCode then Read(op, res.payload)
    else if res.functionCode == req.functionCode + 128 && |res.payload| == 1 then Err(Raised(res.payload[0]))
    else Err(ProtocolError)
  }

  /** How an error of the link shows to the caller: time-outs of either kind are one. */
  function Shown(e: LinkError): Error {
    match e
    case DeadlineExceeded => RequestTimedOut
    case PortTimeout => RequestTimedOut
    case _ => Link(e)
  }

  // ---- The client goes by it ----

  lemma RequestFate(op: Op, unit: byte)
    ensures Request(op, unit) == Wanted(op, unit)
    ensures Request(op, unit).Ok? ==> Request(op, unit).value.functionCode < 128
  {
    hide Packed;
    match op
    case WriteCoils(_, values) => assert Low8(PackedLength(|values|)) == (|values| + 7) / 8 % 256;
    case _ =>
  }

  lemma ResponseFate(op: Op, unit: byte, res: Pdu)
    requires Wanted(op, unit).Ok?
    ensures var req := Wanted(op, unit).value;
            Concluding(op, req, Ok(res)) == Heard(op, req, res)
  {
    RequestFate(op, unit);
    ReadingFate(op, res.payload);
    RaisedFate(res.payload);
    ServerFate.TopBitSet(Wanted(op, unit).value.functionCode);
    hide ErrorCode;
    hide Reading;
    hide Read;
    hide Request;
    hide Wanted;
    hide Raised;
    hide MapExceptionCodeToError;
  }

  lemma RaisedFate(p: seq<byte>)
    ensures |p| == 1 ==> MapExceptionCodeToError(p[0]) == Raised(p[0])
  {
  }

  lemma ReadingFate(op: Op, p: seq<byte>)
    ensures Reading(op, p) == Read(op, p)
  {
    match op
    case ReadBools(_, quantity, _) =>
      if |p| == 1 + PackedLength(quantity) {
        ServerFate.SameCoils(p[1..], quantity);
        hide Unpacked;
        hide ServerFate.CoilBits;
      }
    case ReadRegisters(_, _, _) =>
    case _ =>
      EchoFate(op, p);
      hide Reading;
      hide Read;
  }

  lemma EchoFate(op: Op, p: seq<byte>)
    requires !op.ReadBools? && !op.ReadRegisters?
    ensures Reading(op, p) == Read(op, p)
  {
    if |p| == 4 {
      TwoBytes(p, 0, op.addr);
      assert p[0..2] == p[..2] && p[2..4] == p[2..] == [p[2], p[3]];
      match op
      case WriteCoil(_, _) =>
      case WriteCoils(_, values) => TwoBytes(p, 2, |values| % 65536);
      case WriteRegister(_, e, word) =>
      case WriteRegisters(_, bytes) => TwoBytes(p, 2, |bytes| % 65536 / 2);
    }
  }

  lemma TwoBytes(p: seq<byte>, i: nat, n: uint16)
    requires i + 2 <= |p|
    ensures Mbap.Word(p, i) == n <==> p[i..i + 2] == Two(n)
  {
    var first: int, second: int := p[i], p[i + 1];
    assert p[i..i + 2] == [p[i], p[i + 1]];
  }

  lemma ErrorFate(op: Op, req: Pdu, e: Error)
    ensures Concluding(op, req, Err(e)) == Err(if e == Link(DeadlineExceeded) then RequestTimedOut else e)
  {
  }

  /**
   Over either framing, a call that is refused, or whose deadline or write fails, leaves the link's bytes alone
   and gives its error. Only a failed write uses a transaction up.
   */
  lemma FailedCall(op: Op, unit: byte, line: Line)
    requires Wanted(op, unit).Err? || line.env.deadlineError.Some? || line.env.writeError.Some?
    ensures var (r, after) := Performing(op, unit, line);
            && after.pending == line.pending && after.writes == line.writes
            && after.txnId == (if Wanted(op, unit).Ok? && !line.serial && line.env.deadlineError.None? then
                                 (line.txnId + 1) % 65536
                               else line.txnId)
            && r == if Wanted(op, unit).Err? then Err(UnexpectedParameters)
                    else if line.env.deadlineError.Some? then Err(Shown(line.env.deadlineError.value))
                    else Err(Shown(line.env.writeError.value))
  {
    RequestFate(op, unit);
    RefusedAlike(op, unit);
    hide Request;
    hide Wanted;
  }

  lemma RefusedAlike(op: Op, unit: byte)
    ensures Wanted(op, unit).Err? ==> Wanted(op, unit) == Err(UnexpectedParameters)
  {
  }

  // ---- Over MBAP ----

  /**
   The request goes out under the next transaction, and the first frame that answers it decides; what is behind it
   stays.
   */
  lemma AnsweredCall(op: Op, unit: byte, line: Line, frames: seq<Mbap.Frame>, tail: seq<byte>)
    requires Wanted(op, unit).Ok? && !line.serial
    requires line.env.deadlineError.None? && line.env.writeError.None?
    requires Mbap.AllWellFormed(frames) && line.pending == Mbap.PrintAll(frames) + tail
    requires Mbap.FirstAnswer(frames, (line.txnId + 1) % 65536) < |frames|
    ensures var req, txnId := Wanted(op, unit).value, (line.txnId + 1) % 65536;
            var i := Mbap.FirstAnswer(frames, txnId);
            var (r, after) := Performing(op, unit, line);
            && frames[i].body != []
            && r == Heard(op, req, Pdu(frames[i].unitId, frames[i].body[0], frames[i].body[1..]))
            && after == line.(pending := Mbap.PrintAll(frames[i + 1..]) + tail, txnId := txnId,
                              writes := line.writes + [Mbap.Print(Mbap.FrameOf(txnId, req))])
  {
    var txnId := (line.txnId + 1) % 65536;
    var i := Mbap.FirstAnswer(frames, txnId);
    Answering(op, unit, line, Mbap.Responding(line.pending, line.env.fate, txnId));
    FrameBody(frames, i);
    hide *;
    Mbap.RespondingFindsFirst(frames, tail, line.env.fate, txnId);
    ResponseFate(op, unit, Pdu(frames[i].unitId, frames[i].body[0], frames[i].body[1..]));
  }

  lemma FrameBody(frames: seq<Mbap.Frame>, i: nat)
    requires Mbap.AllWellFormed(frames) && i < |frames|
    ensures frames[i].body != []
    ensures Mbap.PduOf(frames[i]) == Pdu(frames[i].unitId, frames[i].body[0], frames[i].body[1..])
  {
    assert Mbap.WellFormed(frames[i]);
  }

  /** A call, given what the search for its response makes of the link. */
  lemma Answering(op: Op, unit: byte, line: Line, x: Mbap.ResponseRead)
    requires Wanted(op, unit).Ok? && !line.serial
    requires line.env.deadlineError.None? && line.env.writeError.None?
    requires x == Mbap.Responding(line.pending, line.env.fate, (line.txnId + 1) % 65536)
    ensures var req, txnId := Wanted(op, unit).value, (line.txnId + 1) % 65536;
            var (r, after) := Performing(op, unit, line);
            && r == Concluding(op, req, x.result)
            && after == line.(pending := x.rest, txnId := txnId,
                              writes := line.writes + [Mbap.Print(Mbap.FrameOf(txnId, req))])
  {
    RequestFate(op, unit);
    hide Request;
    hide Wanted;
    hide Concluding;
    hide Mbap.Responding;
    hide Mbap.Print;
  }

  /** Without an answer, the call gives the error that the link ends in. */
  lemma UnansweredCall(op: Op, unit: byte, line: Line, frames: seq<Mbap.Frame>)
    requires Wanted(op, unit).Ok? && !line.serial
    requires line.env.deadlineError.None? && line.env.writeError.None?
    requires Mbap.AllWellFormed(frames) && line.pending == Mbap.PrintAll(frames)
    requires Mbap.FirstAnswer(frames, (line.txnId + 1) % 65536) == |frames|
    ensures var (r, after) := Performing(op, unit, line);
            && r == Err(Shown(line.env.fate))
            && after.pending == []
            && after.txnId == (line.txnId + 1) % 65536
  {
    var req, txnId := Wanted(op, unit).value, (line.txnId + 1) % 65536;
    var fate := line.env.fate;
    Answering(op, unit, line, Mbap.Responding(line.pending, fate, txnId));
    ErrorFate(op, req, FrameFate.Shown(fate));
    ShownTwice(fate);
    hide *;
    Mbap.RespondingFindsFirst(frames, [], fate, txnId);
    assert Mbap.PrintAll(frames) + [] == line.pending;
    NoFrame(fate, txnId);
  }

  lemma ShownTwice(e: LinkError)
    ensures Shown(e) == if FrameFate.Shown(e) == Link(DeadlineExceeded) then RequestTimedOut else FrameFate.Shown(e)
  {
  }

  lemma NoFrame(fate: LinkError, txnId: uint16)
    ensures Mbap.Responding([], fate, txnId) == Mbap.ResponseRead(Err(FrameFate.Shown(fate)), [])
  {
    FrameFate.MbapFate([], fate);
    hide Mbap.ReadingFrame;
  }

  // ---- Over a serial line ----

  /** The frame on the line decides; after an error of framing, up to 1024 bytes behind it are gone. */
  lemma SerialCall(op: Op, unit: byte, line: Line)
    requires Wanted(op, unit).Ok? && line.serial
    requires line.env.deadlineError.None? && line.env.writeError.None?
    ensures var req, x := Wanted(op, unit).value, FrameFate.RtuRead(line.pending, line.env.fate);
            var (r, after) := Performing(op, unit, line);
            && r == (if x.result.Ok? then Heard(op, req, x.result.value)
                     else Err(if x.result.error == Link(DeadlineExceeded) then RequestTimedOut else x.result.error))
            && after.pending == (if FrameFate.OutOfStep(x.result) then FrameFate.Beyond1024(x.rest) else x.rest)
            && after.writes == line.writes + [Rtu.Print(req)]
  {
    RequestFate(op, unit);
    var req, x := Wanted(op, unit).value, FrameFate.RtuRead(line.pending, line.env.fate);
    FrameFate.ExchangeFate(line.pending, line.env, req);
    hide Request;
    hide Wanted;
    hide Heard;
    hide Concluding;
    hide Rtu.Executing;
    hide FrameFate.RtuRead;
    match x.result
    case Ok(res) => ResponseFate(op, unit, res);
    case Err(e) => ErrorFate(op, req, e);
  }

  /** A silent line gives the error it ends in, time-outs of either kind being one. */
  lemma SilentLine(op: Op, unit: byte, line: Line)
    requires Wanted(op, unit).Ok? && line.serial && line.pending == []
    requires line.env.deadlineError.None? && line.env.writeError.None?
    ensures Performing(op, unit, line).0 ==
            Err(if line.env.fate == UnexpectedEof then ProtocolError else Shown(line.env.fate))
  {
    SerialCall(op, unit, line);
    hide Performing;
    hide Wanted;
  }
}
