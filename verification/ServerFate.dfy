/**
 What becomes of a request, read off its bytes alone: sections 6.1 to 6.6, 6.11, 6.12 and 7 of the MODBUS
 Application Protocol Specification V1.1b3 with the numbers written out, and the server's answers against them.
 */
module ServerFate {
  import opened Bits
  import opened Bytes
  import opened Encoding
  import opened Links
  import opened Modbus
  import opened Server
  import Mbap

  // ---- The manual ----

  /** Two bytes of a payload as a number, high byte first. */
  function Num(p: seq<byte>, i: nat): uint16
    requires i + 1 < |p|
  {
    var high: int, low: int := p[i], p[i + 1];
    256 * high + low
  }

  datatype Fate =
    | Unknown          // no such function
    | Malformed
    | OutOfSpace       // the range ends past 0xffff
    | Calls(call: Call)

  function Ranged(addr: uint16, quantity: uint16, limit: nat, good: Fate): Fate {
    if quantity == 0 || quantity > limit then Malformed
    else if addr + quantity > 65536 then OutOfSpace
    else good
  }

  /** Coil k is bit k % 8 of byte k / 8. */
  function CoilBits(p: seq<byte>, quantity: nat): (bits: seq<bool>)
    requires quantity <= 8 * |p|
    ensures |bits| == quantity
    ensures forall k :: 0 <= k < quantity ==> bits[k] == BitsOf(p[k / 8], 8)[k % 8]
  {
    seq(quantity, k requires 0 <= k < quantity => BitsOf(p[k / 8], 8)[k % 8])
  }

  /** Register k is bytes 2k and 2k + 1. */
  function RegisterWords(p: seq<byte>, quantity: nat): (words: seq<uint16>)
    requires 2 * quantity <= |p|
    ensures |words| == quantity
    ensures forall k :: 0 <= k < quantity ==> words[k] == Num(p, 2 * k)
  {
    seq(quantity, k requires 0 <= k < quantity => Num(p, 2 * k))
  }

  function Fated(unit: byte, fc: byte, p: seq<byte>): Fate {
    if fc == 1 || fc == 2 || fc == 3 || fc == 4 then
      if |p| != 4 then Malformed else
      var addr, quantity := Num(p, 0), Num(p, 2);
      if fc == 1 then Ranged(addr, quantity, 2000, Calls(Coils(unit, addr, quantity, false, [])))
      else if fc == 2 then Ranged(addr, quantity, 2000, Calls(DiscreteInputs(unit, addr, quantity)))
      else if fc == 3 then Ranged(addr, quantity, 125, Calls(HoldingRegisters(unit, addr, quantity, false, [])))
      else Ranged(addr, quantity, 125, Calls(InputRegisters(unit, addr, quantity)))
    else if fc == 5 then
      if |p| == 4 && (p[2] == 0 || p[2] == 255) && p[3] == 0 then
        Calls(Coils(unit, Num(p, 0), 1, true, [p[2] == 255]))
      else Malformed
    else if fc == 6 then
      if |p| == 4 then Calls(HoldingRegisters(unit, Num(p, 0), 1, true, [Num(p, 2)])) else Malformed
    else if fc == 15 then
      if |p| < 6 then Malformed else
      var addr, quantity := Num(p, 0), Num(p, 2);
      // the range is looked at before the byte count
      Ranged(addr, quantity, 1968,
             if p[4] == (quantity + 7) / 8 && |p| == 5 + (quantity + 7) / 8 then
               Calls(Coils(unit, addr, quantity, true, CoilBits(p[5..], quantity)))
             else Malformed)
    else if fc == 16 then
      if |p| < 6 then Malformed else
      var addr, quantity := Num(p, 0), Num(p, 2);
      Ranged(addr, quantity, 123,
             if p[4] == 2 * quantity && |p| == 5 + 2 * quantity then
               Calls(HoldingRegisters(unit, addr, quantity, true, RegisterWords(p[5..], quantity)))
             else Malformed)
    else Unknown
  }

  /** The number of an error in an exception response. */
  function Number(e: Error): byte {
    match e
    case IllegalFunction => 1
    case IllegalDataAddress => 2
    case IllegalDataValue => 3
    case ServerDeviceFailure => 4
    case Acknowledge => 5
    case ServerDeviceBusy => 6
    case MemoryParityError => 8
    case GWPathUnavailable => 10
    case GWTargetFailedToRespond => 11
    case _ => 4
  }

  /** An exception response: the function code with its top bit set, and the number. */
  function Raised(req: Pdu, code: byte): Answer {
    Reply(Pdu(req.unitId, if req.functionCode < 128 then req.functionCode + 128 else req.functionCode, [code]))
  }

  /** What a handler's error comes to. */
  function Failed(req: Pdu, e: Error): Answer {
    if e == ProtocolError then Drop else Raised(req, Number(e))
  }

  /** What a handler's booleans or words come to. */
  function Answered(h: Handler, log: seq<Call>, req: Pdu, call: Call): Answer {
    var fc := req.functionCode;
    if fc == 1 || fc == 2 then
      match h.bits(log, call)
      case Err(e) => Failed(req, e)
      case Ok(bits) =>
        if |bits| != call.quantity then Raised(req, 4)
        else Reply(Pdu(req.unitId, fc, [Low8((call.quantity + 7) / 8)] + Packed(bits)))
    else if fc == 3 || fc == 4 then
      match h.words(log, call)
      case Err(e) => Failed(req, e)
      case Ok(words) =>
        if |words| != call.quantity then Raised(req, 4)
        else Reply(Pdu(req.unitId, fc, [Low8(2 * call.quantity)] + EncodeWords(BigEndian, words)))
    else
      // a write is answered with the first four bytes of its own payload
      var error := if fc == 5 || fc == 15 then Problem(h.bits(log, call)) else Problem(h.words(log, call));
      if error.Some? then Failed(req, error.value)
      else Reply(Pdu(req.unitId, fc, Start(req.payload)))
  }

  function Problem<T>(r: Result<T>): Option<Error> {
    if r.Err? then Some(r.error) else None
  }

  function Start(p: seq<byte>): seq<byte> {
    if |p| < 4 then p else p[..4]
  }

  // ---- The server goes by it ----

  lemma Numbers(e: Error, code: byte)
    ensures MapErrorToExceptionCode(e) == Number(e)
    ensures HasCode(MapExceptionCodeToError(code)) ==> Number(MapExceptionCodeToError(code)) == code
    ensures !HasCode(MapExceptionCodeToError(code)) ==> MapExceptionCodeToError(code) == UnknownExceptionCode(code)
    ensures HasCode(MapExceptionCodeToError(code)) <==> code in {1, 2, 3, 4, 5, 6, 8, 10, 11}
  {
  }

  /** `fc | 0x80`: the top bit is set, and the others stay. */
  lemma TopBitSet(fc: byte)
    ensures ErrorCode(fc) == if fc < 128 then fc + 128 else fc
    ensures BitsOf(ErrorCode(fc), 8) == BitsOf(fc, 8)[7 := true]
  {
    hide BitsOf;
    var low, high := fc % 128, fc / 128;
    SevenAndOne(low, high);
    SevenAndOne(low, 1);
    assert fc == low + 128 * high && ErrorCode(fc) == low + 128 * 1;
    hide ErrorCode;
    LastBit(BitsOf(low, 7), high == 1);
  }

  lemma LastBit(bits: seq<bool>, last: bool)
    requires |bits| == 7
    ensures (bits + [last])[7 := true] == bits + [true]
  {
  }

  lemma SevenAndOne(low: nat, high: nat)
    requires low < 128 && high < 2
    ensures BitsOf(low + 128 * high, 8) == BitsOf(low, 7) + [high == 1]
  {
    assert Exp2(4) == 16 && Exp2(7) == 128;
    BitsOfParts(low, high, 7, 1);
    OneBit(high);
    hide BitsOf;
  }

  lemma OneBit(b: nat)
    requires b < 2
    ensures BitsOf(b, 1) == [b == 1]
  {
    assert BitsOf(b / 2, 0) == [];
  }

  /** The code for each fate. */
  lemma JudgedAsFated(req: Pdu)
    ensures var fate := Fated(req.unitId, req.functionCode, req.payload);
            Judge(req) == match fate
                          case Unknown => Unsupported
                          case Malformed => Reject(ProtocolError)
                          case OutOfSpace => Reject(IllegalDataAddress)
                          case Calls(call) => Invoke(call)
  {
    var p := req.payload;
    if |p| >= 4 {
      WordIsNum(p, 0);
      WordIsNum(p, 2);
    }
    hide Mbap.Word;
    hide Num;
    hide CoilBits;
    hide RegisterWords;
    if req.functionCode == 15 && |p| >= 6 && Num(p, 2) <= 8 * |p[5..]| {
      SameCoils(p[5..], Num(p, 2));
    }
    if req.functionCode == 16 && |p| >= 6 && |p| % 2 == 1 && 2 * Num(p, 2) == |p[5..]| {
      SameRegisters(p[5..], Num(p, 2));
    }
    hide Unpacked;
    hide DecodeWords;
  }

  lemma WordIsNum(p: seq<byte>, i: nat)
    requires i + 2 <= |p|
    ensures Mbap.Word(p, i) == Num(p, i)
  {
  }

  lemma SameCoils(p: seq<byte>, quantity: nat)
    requires quantity <= 8 * |p|
    ensures Unpacked(quantity, p) == CoilBits(p, quantity)
  {
  }

  lemma SameRegisters(p: seq<byte>, quantity: nat)
    requires |p| == 2 * quantity && |p| % 2 == 0
    ensures DecodeWords(BigEndian, p) == RegisterWords(p, quantity)
  {
    RegistersAt(p);
  }

  lemma {:induction false} RegistersAt(p: seq<byte>)
    requires |p| % 2 == 0
    ensures forall k :: 0 <= k < |p| / 2 ==> DecodeWords(BigEndian, p)[k] == Num(p, 2 * k)
  {
    if p != [] {
      RegistersAt(p[2..]);
      forall k | 0 <= k < |p| / 2
        ensures DecodeWords(BigEndian, p)[k] == Num(p, 2 * k)
      {
        if k > 0 {
          assert DecodeWords(BigEndian, p)[k] == DecodeWords(BigEndian, p[2..])[k - 1] == Num(p[2..], 2 * (k - 1));
        }
      }
    }
  }

  /**
   The fate of every request, by its bytes: an unknown function is answered with exception 1, a range past
   the address space with exception 2, a malformed request is not answered and drops the link, and only
   of all others does the handler get a call, that one, whose outcome decides the answer.
   */
  lemma RequestFate(h: Handler, log: seq<Call>, req: Pdu)
    ensures match Fated(req.unitId, req.functionCode, req.payload)
            case Unknown => Answering(h, log, req) == Raised(req, 1) && Logged(log, req) == log
            case Malformed => Answering(h, log, req) == Drop && Logged(log, req) == log
            case OutOfSpace => Answering(h, log, req) == Raised(req, 2) && Logged(log, req) == log
            case Calls(call) => Answering(h, log, req) == Answered(h, log, req, call) && Logged(log, req) == log + [call]
  {
    JudgedAsFated(req);
    TopBitSet(req.functionCode);
    hide ErrorCode;
    match Fated(req.unitId, req.functionCode, req.payload)
    case Calls(call) => CallFate(h, log, req, call);
    case _ =>
      hide Judge;
      hide Fated;
  }

  lemma CallFate(h: Handler, log: seq<Call>, req: Pdu, call: Call)
    requires Fated(req.unitId, req.functionCode, req.payload) == Calls(call) && Judge(req) == Invoke(call)
    ensures Answering(h, log, req) == Answered(h, log, req, call)
  {
    TopBitSet(req.functionCode);
    CallShape(req, call);
    hide ErrorCode;
    hide Fated;
    hide Judge;
    hide Number;
    hide MapErrorToExceptionCode;
    hide Packed;
    hide EncodeWords;
    match Processing(h, log, req)
    case Err(e) => Numbers(e, 0);
    case Ok(_) =>
  }

  lemma CallShape(req: Pdu, call: Call)
    requires Fated(req.unitId, req.functionCode, req.payload) == Calls(call)
    ensures var fc := req.functionCode;
            && fc in {1, 2, 3, 4, 5, 6, 15, 16}
            && (call.OfBits() <==> fc == 1 || fc == 2 || fc == 5 || fc == 15)
            && (call.Writes() <==> fc == 5 || fc == 6 || fc == 15 || fc == 16)
            && |req.payload| >= 4
            && call.quantity <= 2000
            && PackedLength(call.quantity) == (call.quantity + 7) / 8
  {
    hide CoilBits;
    hide RegisterWords;
    hide Num;
  }

  /**
   The link is dropped exactly for a malformed request, or when the handler calls one malformed; so a session
   stops exactly there.
   */
  lemma DroppedExactly(h: Handler, log: seq<Call>, req: Pdu)
    ensures var fate := Fated(req.unitId, req.functionCode, req.payload);
            var dropped := fate.Malformed? ||
                           (fate.Calls? && if fate.call.OfBits() then h.bits(log, fate.call) == Err(ProtocolError)
                                           else h.words(log, fate.call) == Err(ProtocolError));
            && (Answering(h, log, req).Drop? <==> dropped)
            && (Stops(h, log, req) <==> dropped)
  {
    JudgedAsFated(req);
    AnswerShape(h, log, req, 0);
    hide Judge;
    hide Fated;
    hide Answering;
  }

  /** A failure to send responses does not end a session: the handler gets the same calls, and nothing is sent. */
  lemma {:induction false} WriteErrorsPassedOver(h: Handler, log: seq<Call>, stream: seq<byte>, env: Env)
    requires env.writeError.Some?
    ensures var s := Serving(h, log, stream, env.(writeError := None));
            Serving(h, log, stream, env) == s.(frames := [])
    decreases |stream|
  {
    hide Mbap.ReadingFrame;
    hide Answering;
    hide Logged;
    var r := Mbap.ReadingFrame(stream, env.fate);
    if env.deadlineError.None? && r.result.Ok? {
      var (req, _) := r.result.value;
      if Answering(h, log, req).Reply? {
        WriteErrorsPassedOver(h, Logged(log, req), r.rest, env);
      }
    }
  }
}
