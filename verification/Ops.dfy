/**
 internal/modbus/client.go: what the client's six requests are on the wire, when it turns a call down
 by itself, and what it makes of whatever comes back.
 */
module Ops {
  import opened Bits
  import opened Bytes
  import opened Encoding
  import opened Links
  import opened Modbus
  import Mbap
  import Rtu

  datatype RegType = HoldingRegister | InputRegister | UnknownRegister(id: int)

  /** The requests under the client's methods. Lists of registers are bytes here, as they go over the wire. */
  datatype Op =
    | ReadBools(addr: uint16, quantity: uint16, di: bool)
    | ReadRegisters(addr: uint16, quantity: uint16, regType: RegType)
    | WriteCoil(addr: uint16, value: bool)
    | WriteCoils(addr: uint16, values: seq<bool>)
    | WriteRegister(addr: uint16, e: Endianness, word: uint16)
    | WriteRegisters(addr: uint16, bytes: seq<byte>)

  datatype Outcome = Bools(bools: seq<bool>) | Registers(bytes: seq<byte>) | Done

  /** `uint32(addr) + uint32(quantity) - 1 > 0xffff`, which holds for nothing at address 0, too. */
  predicate PastEnd(addr: uint16, quantity: uint16) {
    addr + quantity == 0 || addr + quantity - 1 > 0xffff
  }

  /** The request to send, unless the parameters are turned down. */
  function Request(op: Op, unitId: byte): Result<Pdu> {
    match op
    case ReadBools(addr, quantity, di) =>
      if quantity == 0 || quantity > 2000 || PastEnd(addr, quantity) then Err(UnexpectedParameters)
      else Ok(Pdu(unitId, if di then FC_READ_DISCRETE_INPUTS else FC_READ_COILS, Word16(addr) + Word16(quantity)))
    case ReadRegisters(addr, quantity, regType) =>
      // a quantity of 0 or over 123 is logged, but sent all the same
      if regType.UnknownRegister? || PastEnd(addr, quantity) then Err(UnexpectedParameters)
      else
        var fc := if regType.HoldingRegister? then FC_READ_HOLDING_REGISTERS else FC_READ_INPUT_REGISTERS;
        Ok(Pdu(unitId, fc, Word16(addr) + Word16(quantity)))
    case WriteCoil(addr, value) =>
      Ok(Pdu(unitId, FC_WRITE_SINGLE_COIL, Word16(addr) + [if value then 0xff else 0x00, 0x00]))
    case WriteCoils(addr, values) =>
      var quantity := Low16(|values|);
      if quantity == 0 || quantity > 0x7b0 || PastEnd(addr, quantity) then Err(UnexpectedParameters)
      else
        Ok(Pdu(unitId, FC_WRITE_MULTIPLE_COILS,
               Word16(addr) + Word16(quantity) + [Low8(PackedLength(|values|))] + Packed(values)))
    case WriteRegister(addr, e, word) =>
      Ok(Pdu(unitId, FC_WRITE_SINGLE_REGISTER, Word16(addr) + Uint16ToBytes(e, word)))
    case WriteRegisters(addr, bytes) =>
      var payloadLength := Low16(|bytes|);
      var quantity := payloadLength / 2;
      if quantity == 0 || quantity > 123 || PastEnd(addr, quantity) then Err(UnexpectedParameters)
      else
        Ok(Pdu(unitId, FC_WRITE_MULTIPLE_REGISTERS,
               Word16(addr) + Word16(quantity) + [Low8(payloadLength)] + bytes))
  }

  /**
   `executeRequest`: timeouts get their own error, and the response must come from the unit asked, or a
   gateway in case of an exception.
   */
  function Accepted(req: Pdu, r: Result<Pdu>): Result<Pdu> {
    match r
    case Err(e) => Err(if e == Link(DeadlineExceeded) then RequestTimedOut else e)
    case Ok(res) =>
      if res.unitId != req.unitId && (res.functionCode < 0x80 || res.unitId != 0xff) then Err(BadUnitId) else Ok(res)
  }

  /** The payload of a response with the function code asked for; an exception response becomes its error. */
  function Payload(req: Pdu, r: Result<Pdu>): Result<seq<byte>> {
    match Accepted(req, r)
    case Err(e) => Err(e)
    case Ok(res) =>
      if res.functionCode == req.functionCode then Ok(res.payload)
      else if res.functionCode == ErrorCode(req.functionCode) && |res.payload| == 1 then
        Err(MapExceptionCodeToError(res.payload[0]))
      else Err(ProtocolError)
  }

  /** What the client makes of a payload. */
  function Reading(op: Op, p: seq<byte>): Result<Outcome> {
    match op
    case ReadBools(_, quantity, _) =>
      if |p| == 1 + PackedLength(quantity) && p[0] == PackedLength(quantity) then Ok(Bools(Unpacked(quantity, p[1..])))
      else Err(ProtocolError)
    case ReadRegisters(_, quantity, _) =>
      if |p| == 1 + 2 * quantity && p[0] == 2 * quantity then Ok(Registers(p[1..])) else Err(ProtocolError)
    case WriteCoil(addr, value) =>
      // byte 2 is only looked at when the coil is set
      if |p| == 4 && Mbap.Word(p, 0) == addr && (value ==> p[2] == 0xff) && p[3] == 0x00 then Ok(Done)
      else Err(ProtocolError)
    case WriteCoils(addr, values) =>
      if |p| == 4 && Mbap.Word(p, 0) == addr && Mbap.Word(p, 2) == Low16(|values|) then Ok(Done) else Err(ProtocolError)
    case WriteRegister(addr, e, word) =>
      if |p| == 4 && Mbap.Word(p, 0) == addr && BytesToUint16(e, p[2..4]) == word then Ok(Done) else Err(ProtocolError)
    case WriteRegisters(addr, bytes) =>
      if |p| == 4 && Mbap.Word(p, 0) == addr && Mbap.Word(p, 2) == Low16(|bytes|) / 2 then Ok(Done)
      else Err(ProtocolError)
  }

  /** The result of a request, given what the transport returns for it. */
  function Concluding(op: Op, req: Pdu, r: Result<Pdu>): Result<Outcome> {
    match Payload(req, r)
    case Err(e) => Err(e)
    case Ok(p) => Reading(op, p)
  }

  /** The state of the transport under a client. */
  datatype Line = Line(serial: bool, pending: seq<byte>, env: Env, txnId: uint16, writes: seq<seq<byte>>)

  function Transacting(line: Line, req: Pdu): (Result<Pdu>, Line) {
    if line.serial then
      var x := Rtu.Executing(line.pending, line.env, req);
      (x.result, line.(pending := x.rest, writes := line.writes + x.written))
    else
      var x := Mbap.Executing(line.pending, line.env, line.txnId, req);
      (x.result, line.(pending := x.rest, txnId := x.txnId, writes := line.writes + x.written))
  }

  /** A whole call: its result, and the transport after it. */
  function Performing(op: Op, unitId: byte, line: Line): (Result<Outcome>, Line) {
    match Request(op, unitId)
    case Err(e) => (Err(e), line)
    case Ok(req) =>
      var (r, after) := Transacting(line, req);
      (Concluding(op, req, r), after)
  }

  // ---- Typed reads ----

  /** The words of a successful register read. No other outcome of one arises. */
  function WordsRead(e: Endianness, r: Result<Outcome>): Result<seq<uint16>> {
    match r
    case Err(e) => Err(e)
    case Ok(o) => if o.Registers? && |o.bytes| % 2 == 0 then Ok(DecodeWords(e, o.bytes)) else Err(ProtocolError)
  }

  /** The values of n words each that a successful register read holds. */
  function ValuesRead(n: nat, e: Endianness, w: WordOrder, r: Result<Outcome>): Result<seq<nat>>
    requires n > 0
  {
    match WordsRead(e, r)
    case Err(e) => Err(e)
    case Ok(words) => Ok(ValuesOf(n, w, words))
  }

  /** How many registers hold a number of bytes. */
  function RegistersFor(quantity: uint16): uint16 {
    quantity / 2 + quantity % 2
  }

  /**
   The bytes of a successful register read, swapped in pairs if asked for, without the padding of an
   odd quantity.
   */
  function BytesRead(quantity: uint16, swap: bool, r: Result<Outcome>): Result<seq<byte>> {
    match r
    case Err(e) => Err(e)
    case Ok(o) =>
      if o.Registers? && |o.bytes| % 2 == 0 && |o.bytes| >= quantity then
        Ok((if swap then Swapped(o.bytes) else o.bytes)[..quantity])
      else Err(ProtocolError)
  }

  /** The bytes of a byte string with the two of each register exchanged. */
  function Swapped(bs: seq<byte>): (r: seq<byte>)
    requires |bs| % 2 == 0
    ensures |r| == |bs|
    ensures forall i :: 0 <= i < |bs| ==> r[i] == bs[if i % 2 == 0 then i + 1 else i - 1]
  {
    if bs == [] then [] else [bs[1], bs[0]] + Swapped(bs[2..])
  }

  /** A byte string, made to fill whole registers. */
  function Padded(bs: seq<byte>): (r: seq<byte>)
    ensures |r| % 2 == 0
  {
    if |bs| % 2 == 1 then bs + [0x00] else bs
  }

  /** The bytes that go out for a byte string. */
  function Outgoing(bs: seq<byte>, swap: bool): (r: seq<byte>)
    ensures |r| == |Padded(bs)|
  {
    if swap then Swapped(Padded(bs)) else Padded(bs)
  }

  /**
   The memory behind a caller's slice, of which the slice is the first length bytes, once the slice has
   been padded and swapped: it holds what goes out, unless there is no room for the padding.
   */
  function MemoryAfter(memory: seq<byte>, length: nat, swap: bool): (after: seq<byte>)
    requires length <= |memory|
    ensures |after| == |memory|
  {
    var out := Outgoing(memory[..length], swap);
    if |out| <= |memory| then out + memory[|out|..] else memory
  }

  /** Every register holds two equal bytes. */
  predicate Symmetric(bs: seq<byte>)
    requires |bs| % 2 == 0
  {
    bs == [] || (bs[0] == bs[1] && Symmetric(bs[2..]))
  }

  /**
   When a write of bytes leaves the caller's memory alone. The slice itself stays as it is exactly if there
   is no swap, or no room for the padding, or nothing to tell the two bytes of any register apart. The
   byte behind the slice becomes the padding of an odd slice that is not swapped, and all bytes after
   the padding stay as they are.
   */
  lemma MemoryKept(memory: seq<byte>, length: nat, swap: bool)
    requires length <= |memory|
    ensures var after, padded := MemoryAfter(memory, length, swap), Padded(memory[..length]);
            && (after[..length] == memory[..length] <==> !swap || |padded| > |memory| || Symmetric(padded))
            && (|padded| <= |memory| ==> after[|padded|..] == memory[|padded|..])
            && (length < |padded| <= |memory| && !swap ==> after[length] == 0)
  {
    var padded := Padded(memory[..length]);
    if swap && |padded| <= |memory| {
      SwappedPairs(padded, length);
      var after := MemoryAfter(memory, length, swap);
      assert after[..length] == Swapped(padded)[..length];
      assert memory[..length] == padded[..length];
    }
  }

  lemma {:induction false} SwappedPairs(bs: seq<byte>, length: nat)
    requires |bs| % 2 == 0 && length <= |bs| <= length + 1
    ensures Swapped(bs)[..length] == bs[..length] <==> Symmetric(bs)
  {
    if bs != [] {
      var r, rest := Swapped(bs), bs[2..];
      assert r == [bs[1], bs[0]] + Swapped(rest);
      if length == 1 {
        assert rest == [] && r[..1] == [bs[1]] && bs[..1] == [bs[0]];
      } else {
        SwappedPairs(rest, length - 2);
        hide Swapped;
        assert r[..length] == [bs[1], bs[0]] + Swapped(rest)[..length - 2];
        assert bs[..length] == [bs[0], bs[1]] + rest[..length - 2];
        FirstTwo([bs[1], bs[0]], Swapped(rest)[..length - 2], [bs[0], bs[1]], rest[..length - 2]);
      }
    }
  }

  lemma FirstTwo(a: seq<byte>, b: seq<byte>, c: seq<byte>, d: seq<byte>)
    requires |a| == |c| == 2
    ensures a + b == c + d <==> a == c && b == d
  {
    assert (a + b)[..2] == a && (a + b)[2..] == b;
    assert (c + d)[..2] == c && (c + d)[2..] == d;
  }

  /** A caller's two bytes are exchanged in place, and the byte behind a slice of one is overwritten. */
  lemma MemoryChanges()
    ensures MemoryAfter([1, 2], 2, true) == [2, 1]
    ensures MemoryAfter([1, 9], 1, false) == [1, 0]
  {
    var two, one: seq<byte> := [1, 2], [1, 9];
    assert two[..2] == two && Swapped(two) == [2, 1] + Swapped([]);
    assert one[..1] == [1];
  }

  // ---- Robustness ----

  /**
   Whatever the transport returns, a read reports an error or yields exactly the number of values asked
   for, and a write yields none.
   */
  lemma ExactlyAsMany(op: Op, unitId: byte, line: Line)
    ensures match Performing(op, unitId, line).0
            case Ok(Bools(bools)) => op.ReadBools? && |bools| == op.quantity
            case Ok(Registers(bytes)) => op.ReadRegisters? && |bytes| == 2 * op.quantity
            case Ok(Done) => !op.ReadBools? && !op.ReadRegisters?
            case Err(_) => true
  {
    hide Transacting;
    hide Request;
    hide Payload;
  }

  /**
   A response that the client accepts as a write's acknowledgement echoes the request; for a cleared
   coil, except for one byte.
   */
  lemma EchoedExactly(op: Op, unitId: byte, p: seq<byte>)
    requires !op.ReadBools? && !op.ReadRegisters?
    requires Request(op, unitId).Ok?
    ensures var sent := Request(op, unitId).value.payload;
            Reading(op, p) == Ok(Done) <==>
            |p| == 4 && p[..2] == sent[..2] && p[3] == sent[3] && (p[2] == sent[2] || (op.WriteCoil? && !op.value))
  {
    hide Packed;
    hide PackedLength;
    var sent := Request(op, unitId).value.payload;
    assert sent[..2] == Word16(op.addr);
    if |p| == 4 {
      assert p[..2] == [p[0], p[1]];
    }
  }

  /** An echo with another third byte is accepted for a cleared coil. */
  lemma LooseEcho(unitId: byte)
    ensures Request(WriteCoil(5, false), unitId) == Ok(Pdu(unitId, FC_WRITE_SINGLE_COIL, [0, 5, 0, 0]))
    ensures Reading(WriteCoil(5, false), [0, 5, 0xff, 0]) == Ok(Done)
    ensures Reading(WriteCoil(5, true), [0, 5, 0, 0]) == Err(ProtocolError)
  {
    var p: seq<byte> := [0, 5, 0xff, 0];
    assert Word16(5) + [0, 0] == [0, 5, 0, 0];
    assert p[0..2] == [0, 5];
  }

  lemma {:induction false} HowMany(n: nat, w: WordOrder, ws: seq<uint16>)
    requires n == 2 || n == 4
    ensures |ValuesOf(n, w, ws)| == if n == 2 then |ws| / 2 else |ws| / 4
  {
    hide Value;
    if |ws| >= n {
      HowMany(n, w, ws[n..]);
    }
  }

  /** `quantity*2` or `quantity*4` in 16 bits: the registers that a 32-bit or 64-bit read asks for. */
  function WideCount(n: nat, quantity: uint16): (count: uint16)
    requires n == 2 || n == 4
    ensures n == 2 ==> (count / 2 == quantity <==> quantity < 0x8000)
    ensures n == 4 ==> (count / 4 == quantity <==> quantity < 0x4000)
  {
    if n == 2 then Low16(quantity * 2) else Low16(quantity * 4)
  }

  /**
   A successful 32-bit or 64-bit read yields the number of values asked for exactly when that number
   of registers has not wrapped around in 16 bits.
   */
  lemma WideReadCount(n: nat, quantity: uint16, addr: uint16, regType: RegType, unitId: byte,
                      e: Endianness, w: WordOrder, line: Line)
    requires n == 2 || n == 4
    ensures var op := ReadRegisters(addr, WideCount(n, quantity), regType);
            var r := ValuesRead(n, e, w, Performing(op, unitId, line).0);
            r.Ok? ==> (|r.value| == quantity <==> (if n == 2 then quantity < 0x8000 else quantity < 0x4000))
  {
    var op := ReadRegisters(addr, WideCount(n, quantity), regType);
    var r := Performing(op, unitId, line).0;
    ExactlyAsMany(op, unitId, line);
    hide Performing;
    hide DecodeWords;
    hide ValuesOf;
    hide WideCount;
    if WordsRead(e, r).Ok? {
      HowMany(n, w, WordsRead(e, r).value);
    }
  }

  /** And it does happen: 32769 values are asked for, one register pair is read, and one value comes back. */
  lemma WrappedReadSucceeds(unitId: byte, e: Endianness, w: WordOrder)
    ensures var op := ReadRegisters(0, WideCount(2, 32769), HoldingRegister);
            var req := Request(op, unitId);
            var res := Ok(Pdu(unitId, FC_READ_HOLDING_REGISTERS, [4, 0, 0, 0, 7]));
            && req.Ok?
            && var r := ValuesRead(2, e, w, Concluding(op, req.value, res));
               r.Ok? && |r.value| == 1
  {
    var op := ReadRegisters(0, WideCount(2, 32769), HoldingRegister);
    var p: seq<byte> := [4, 0, 0, 0, 7];
    assert Reading(op, p) == Ok(Registers(p[1..]));
    hide DecodeWords;
    HowMany(2, w, DecodeWords(e, p[1..]));
    hide ValuesOf;
  }

  /** A byte read yields as many bytes as asked for. */
  lemma ByteReadCount(quantity: uint16, swap: bool, addr: uint16, regType: RegType, unitId: byte, line: Line)
    ensures var x := Performing(ReadRegisters(addr, RegistersFor(quantity), regType), unitId, line).0;
            var r := BytesRead(quantity, swap, x);
            && (r.Ok? <==> x.Ok?)
            && (r.Ok? ==> |r.value| == quantity)
            && (r.Err? ==> x == Err(r.error))
  {
    ExactlyAsMany(ReadRegisters(addr, RegistersFor(quantity), regType), unitId, line);
    hide Performing;
  }

  /** Swapping the bytes of each register is reading it in the other byte order. */
  lemma {:induction false} SwappedWords(bs: seq<byte>)
    requires |bs| % 2 == 0
    ensures DecodeWords(BigEndian, Swapped(bs)) == DecodeWords(LittleEndian, bs)
    ensures Swapped(Swapped(bs)) == bs
  {
    if bs != [] {
      var swapped := Swapped(bs);
      assert swapped[..2] == [bs[1], bs[0]] && swapped[2..] == Swapped(bs[2..]);
      SwappedWords(bs[2..]);
      assert bs[..2] == [bs[0], bs[1]];
    }
  }
}
