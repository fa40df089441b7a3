/**
 internal/modbus/client.go: the client itself, over either transport. Its private methods do what the
 functions of module Ops say, and the typed methods wrap them in the encodings.
 */
module Client {
  import opened Bits
  import opened Bytes
  import opened Encoding
  import opened Links
  import opened Modbus
  import opened Ops
  import Mbap
  import Rtu

  datatype Transport = Tcp(tt: Mbap.TcpTransport) | Serial(rt: Rtu.RtuTransport) {
    ghost function Repr(): set<object> {
      match this
      case Tcp(tt) => {tt} + tt.conn.Repr()
      case Serial(rt) => {rt, rt.clock} + rt.conn.Repr()
    }

    ghost predicate Valid()
      reads Repr()
    {
      match this
      case Tcp(tt) => tt.Valid()
      case Serial(rt) => rt.Valid()
    }

    ghost function State(): Line
      requires Valid()
      reads Repr()
    {
      match this
      case Tcp(tt) => Line(false, tt.conn.Pending(), tt.conn.Env(), tt.lastTxnId, tt.conn.Writes())
      case Serial(rt) => Line(true, rt.conn.Pending(), rt.conn.Env(), 0, rt.conn.Writes())
    }

    method ExecuteRequest(req: Pdu) returns (r: Result<Pdu>)
      requires Valid()
      modifies Repr()
      ensures Valid()
      ensures (r, State()) == Transacting(old(State()), req)
    {
      hide Mbap.Executing;
      hide Rtu.Executing;
      hide Conn.Pending;
      hide Conn.Valid;
      hide Conn.Env;
      hide Conn.Writes;
      hide Rtu.Paced;
      hide Rtu.Marked;
      match this {
        case Tcp(tt) => r := tt.ExecuteRequest(req);
        case Serial(rt) => r := rt.ExecuteRequest(req);
      }
    }
  }

  class ModbusClient {
    const transport: Transport
    var unitId: byte
    var endianness: Endianness
    var wordOrder: WordOrder

    ghost predicate Valid()
      reads transport.Repr()
    {
      this !in transport.Repr() && transport.Valid()
    }

    ghost function State(): Line
      requires Valid()
      reads transport.Repr()
    {
      transport.State()
    }

    constructor (transport: Transport)
      requires transport.Valid()
      ensures this.transport == transport && Valid()
      ensures unitId == 1 && endianness == BigEndian && wordOrder == HighWordFirst
    {
      this.transport, unitId, endianness, wordOrder := transport, 1, BigEndian, HighWordFirst;
    }

    method SetUnitId(id: byte)
      modifies `unitId
      ensures unitId == id
    {
      unitId := id;
    }

    method SetEncoding(e: Endianness, w: WordOrder)
      modifies `endianness, `wordOrder
      ensures endianness == e && wordOrder == w
    {
      endianness, wordOrder := e, w;
    }

    /** Sends the request over the wire, waits for the response, and checks where it comes from. */
    method ExecuteRequest(req: Pdu) returns (r: Result<Pdu>)
      requires Valid()
      modifies transport.Repr()
      ensures Valid()
      ensures var (res, after) := Transacting(old(State()), req);
              r == Accepted(req, res) && State() == after
    {
      hide Transport.Valid;
      hide Transport.State;
      hide Transacting;
      r := transport.ExecuteRequest(req);
      if r.Err? {
        if r.error == Link(DeadlineExceeded) {
          return Err(RequestTimedOut);
        }
        return r;
      }
      var res := r.value;
      if res.functionCode < 0x80 && res.unitId != req.unitId {
        return Err(BadUnitId);
      }
      // a gateway may answer for the unit, with an exception only
      if res.functionCode >= 0x80 && res.unitId != req.unitId && res.unitId != 0xff {
        return Err(BadUnitId);
      }
    }

    /** The cases of the response code that every method shares: an exception, or something unexpected. */
    method Validate(req: Pdu, res: Pdu) returns (p: Result<seq<byte>>)
      ensures p == Payload(req, Ok(res)) || Accepted(req, Ok(res)).Err?
    {
      if res.functionCode == req.functionCode {
        return Ok(res.payload);
      } else if res.functionCode == ErrorCode(req.functionCode) {
        if |res.payload| != 1 {
          return Err(ProtocolError);
        }
        return Err(MapExceptionCodeToError(res.payload[0]));
      }
      return Err(ProtocolError);
    }

    /** Sends a request and takes the payload out of a proper response. */
    method Ask(req: Pdu) returns (p: Result<seq<byte>>)
      requires Valid()
      modifies transport.Repr()
      ensures Valid()
      ensures var (res, after) := Transacting(old(State()), req);
              p == Payload(req, res) && State() == after
    {
      hide Transport.Valid;
      hide Transport.State;
      hide Transacting;
      var res := ExecuteRequest(req);
      if res.Err? {
        return Err(res.error);
      }
      p := Validate(req, res.value);
    }

    /** Reads booleans: discrete inputs if di holds, coils otherwise. */
    method ReadBools(addr: uint16, quantity: uint16, di: bool) returns (r: Result<seq<bool>>)
      requires Valid()
      modifies transport.Repr()
      ensures Valid()
      ensures (if r.Ok? then Ok(Bools(r.value)) else Err(r.error), State()) ==
              Performing(Op.ReadBools(addr, quantity, di), unitId, old(State()))
      ensures r.Ok? ==> |r.value| == quantity
    {
      hide Transport.Valid;
      hide Transport.State;
      hide Transacting;
      if quantity == 0 {
        return Err(UnexpectedParameters);
      }
      if quantity > 2000 {
        return Err(UnexpectedParameters);
      }
      if addr as int + quantity as int - 1 > 0xffff {
        return Err(UnexpectedParameters);
      }
      var functionCode := if di then FC_READ_DISCRETE_INPUTS else FC_READ_COILS;
      var payload := Uint16ToBytes(BigEndian, addr);
      payload := payload + Uint16ToBytes(BigEndian, quantity);
      hide Uint16ToBytes;
      var p := Ask(Pdu(unitId, functionCode, payload));
      hide Payload;
      if p.Err? {
        return Err(p.error);
      }
      var expectedLen := 1;
      expectedLen := expectedLen + quantity / 8;
      if quantity % 8 != 0 {
        expectedLen := expectedLen + 1;
      }
      if |p.value| != expectedLen {
        return Err(ProtocolError);
      }
      if p.value[0] as int + 1 != expectedLen {
        return Err(ProtocolError);
      }
      var bools := DecodeBools(quantity, p.value[1..]);
      return Ok(bools);
    }

    /** Reads registers, as bytes. */
    method ReadRegisterBytes(addr: uint16, quantity: uint16, regType: RegType) returns (r: Result<seq<byte>>)
      requires Valid()
      modifies transport.Repr()
      ensures Valid()
      ensures (if r.Ok? then Ok(Registers(r.value)) else Err(r.error), State()) ==
              Performing(Op.ReadRegisters(addr, quantity, regType), unitId, old(State()))
      ensures r.Ok? ==> |r.value| == 2 * quantity
    {
      hide Transport.Valid;
      hide Transport.State;
      hide Transacting;
      var functionCode;
      match regType {
        case HoldingRegister => functionCode := FC_READ_HOLDING_REGISTERS;
        case InputRegister => functionCode := FC_READ_INPUT_REGISTERS;
        case UnknownRegister(_) => return Err(UnexpectedParameters);
      }
      var err: Option<Error> := None;
      if quantity == 0 {
        err := Some(UnexpectedParameters);
      }
      if quantity > 123 {
        err := Some(UnexpectedParameters);
      }
      // in 32 bits, 0 + 0 - 1 wraps around
      var last := addr as int + quantity as int - 1;
      if (if last < 0 then last + 0x1_0000_0000 else last) > 0xffff {
        return Err(UnexpectedParameters);
      }
      var payload := Uint16ToBytes(BigEndian, addr);
      payload := payload + Uint16ToBytes(BigEndian, quantity);
      hide Uint16ToBytes;
      // whatever err is, it is overwritten here
      var p := Ask(Pdu(unitId, functionCode, payload));
      hide Payload;
      err := if p.Err? then Some(p.error) else None;
      if err.Some? {
        return Err(err.value);
      }
      if |p.value| != 1 + 2 * quantity as int {
        return Err(ProtocolError);
      }
      if p.value[0] as int != 2 * quantity as int {
        return Err(ProtocolError);
      }
      return Ok(p.value[1..]);
    }

    /** The request for one coil, and the test of its echo. */
    method WriteCoil(addr: uint16, value: bool) returns (r: Result<()>)
      requires Valid()
      modifies transport.Repr()
      ensures Valid()
      ensures (if r.Ok? then Ok(Done) else Err(r.error), State()) ==
              Performing(Op.WriteCoil(addr, value), unitId, old(State()))
    {
      hide Transport.Valid;
      hide Transport.State;
      hide Transacting;
      var payload := Uint16ToBytes(BigEndian, addr);
      hide Uint16ToBytes;
      hide BytesToUint16;
      if value {
        payload := payload + [0xff, 0x00];
      } else {
        payload := payload + [0x00, 0x00];
      }
      var p := Ask(Pdu(unitId, FC_WRITE_SINGLE_COIL, payload));
      hide Payload;
      if p.Err? {
        return Err(p.error);
      }
      if |p.value| != 4 || BytesToUint16(BigEndian, p.value[0..2]) != addr ||
         (value && p.value[2] != 0xff) || p.value[3] != 0x00 {
        return Err(ProtocolError);
      }
      return Ok(());
    }

    /** The request for a list of coils, and the test of its echo. */
    method WriteCoils(addr: uint16, values: seq<bool>) returns (r: Result<()>)
      requires Valid()
      modifies transport.Repr()
      ensures Valid()
      ensures (if r.Ok? then Ok(Done) else Err(r.error), State()) ==
              Performing(Op.WriteCoils(addr, values), unitId, old(State()))
    {
      hide Transport.Valid;
      hide Transport.State;
      hide Transacting;
      hide Packed;
      var quantity := Low16(|values|);
      if quantity == 0 {
        return Err(UnexpectedParameters);
      }
      if quantity > 0x7b0 {
        return Err(UnexpectedParameters);
      }
      if addr as int + quantity as int - 1 > 0xffff {
        return Err(UnexpectedParameters);
      }
      var encodedValues := EncodeBools(values);
      var payload := Uint16ToBytes(BigEndian, addr);
      payload := payload + Uint16ToBytes(BigEndian, quantity);
      hide Uint16ToBytes;
      hide BytesToUint16;
      payload := payload + [Low8(|encodedValues|)];
      payload := payload + encodedValues;
      var p := Ask(Pdu(unitId, FC_WRITE_MULTIPLE_COILS, payload));
      hide Payload;
      hide PackedLength;
      if p.Err? {
        return Err(p.error);
      }
      if |p.value| != 4 || BytesToUint16(BigEndian, p.value[0..2]) != addr ||
         BytesToUint16(BigEndian, p.value[2..4]) != quantity {
        return Err(ProtocolError);
      }
      return Ok(());
    }

    /** The request for one register, and the test of its echo. */
    method WriteRegister(addr: uint16, value: uint16) returns (r: Result<()>)
      requires Valid()
      modifies transport.Repr()
      ensures Valid()
      ensures (if r.Ok? then Ok(Done) else Err(r.error), State()) ==
              Performing(Op.WriteRegister(addr, endianness, value), unitId, old(State()))
    {
      hide Transport.Valid;
      hide Transport.State;
      hide Transacting;
      var payload := Uint16ToBytes(BigEndian, addr);
      payload := payload + Uint16ToBytes(endianness, value);
      hide Uint16ToBytes;
      hide BytesToUint16;
      var p := Ask(Pdu(unitId, FC_WRITE_SINGLE_REGISTER, payload));
      hide Payload;
      if p.Err? {
        return Err(p.error);
      }
      if |p.value| != 4 || BytesToUint16(BigEndian, p.value[0..2]) != addr ||
         BytesToUint16(endianness, p.value[2..4]) != value {
        return Err(ProtocolError);
      }
      return Ok(());
    }

    /** Writes multiple registers, given as bytes (function code 16). */
    method WriteRegisterBytes(addr: uint16, values: seq<byte>) returns (r: Result<()>)
      requires Valid()
      modifies transport.Repr()
      ensures Valid()
      ensures (if r.Ok? then Ok(Done) else Err(r.error), State()) ==
              Performing(Op.WriteRegisters(addr, values), unitId, old(State()))
    {
      hide Transport.Valid;
      hide Transport.State;
      hide Transacting;
      var payloadLength := Low16(|values|);
      var quantity := payloadLength / 2;
      if quantity == 0 {
        return Err(UnexpectedParameters);
      }
      if quantity > 123 {
        return Err(UnexpectedParameters);
      }
      if addr as int + quantity as int - 1 > 0xffff {
        return Err(UnexpectedParameters);
      }
      var payload := Uint16ToBytes(BigEndian, addr);
      payload := payload + Uint16ToBytes(BigEndian, quantity);
      hide Uint16ToBytes;
      hide BytesToUint16;
      payload := payload + [Low8(payloadLength)];
      payload := payload + values;
      var p := Ask(Pdu(unitId, FC_WRITE_MULTIPLE_REGISTERS, payload));
      hide Payload;
      if p.Err? {
        return Err(p.error);
      }
      if |p.value| != 4 || BytesToUint16(BigEndian, p.value[0..2]) != addr ||
         BytesToUint16(BigEndian, p.value[2..4]) != quantity {
        return Err(ProtocolError);
      }
      return Ok(());
    }

    // ---- Typed registers ----

    /** Registers as words. */
    method ReadRegisters(addr: uint16, quantity: uint16, regType: RegType) returns (r: Result<seq<uint16>>)
      requires Valid()
      modifies transport.Repr()
      ensures Valid()
      ensures var (x, after) := Performing(Op.ReadRegisters(addr, quantity, regType), unitId, old(State()));
              State() == after && r == WordsRead(endianness, x)
      ensures r.Ok? ==> |r.value| == quantity
    {
      hide Transport.Valid;
      hide Transport.State;
      hide Performing;
      hide DecodeWords;
      var mbPayload := ReadRegisterBytes(addr, quantity, regType);
      if mbPayload.Err? {
        return Err(mbPayload.error);
      }
      var values := BytesToUint16s(endianness, mbPayload.value);
      return Ok(values);
    }

    /** Pairs of registers as values. */
    method ReadUint32s(addr: uint16, quantity: uint16, regType: RegType) returns (r: Result<seq<uint32>>)
      requires Valid()
      modifies transport.Repr()
      ensures Valid()
      ensures var (x, after) := Performing(Op.ReadRegisters(addr, WideCount(2, quantity), regType), unitId, old(State()));
              && State() == after
              && match ValuesRead(2, endianness, wordOrder, x)
                 case Err(e) => r == Err(e)
                 case Ok(values) => r.Ok? && r.value == values
      ensures r.Ok? ==> (|r.value| == quantity <==> quantity < 0x8000)
    {
      hide Transport.Valid;
      hide Transport.State;
      hide Performing;
      hide DecodeWords;
      hide ValuesOf;
      ghost var line := State();
      WideReadCount(2, quantity, addr, regType, unitId, endianness, wordOrder, line);
      var mbPayload := ReadRegisterBytes(addr, Low16(quantity * 2), regType);
      if mbPayload.Err? {
        return Err(mbPayload.error);
      }
      var values := BytesToUint32s(endianness, wordOrder, mbPayload.value);
      return Ok(values);
    }

    /** Groups of four registers as values. */
    method ReadUint64s(addr: uint16, quantity: uint16, regType: RegType) returns (r: Result<seq<uint64>>)
      requires Valid()
      modifies transport.Repr()
      ensures Valid()
      ensures var (x, after) := Performing(Op.ReadRegisters(addr, WideCount(4, quantity), regType), unitId, old(State()));
              && State() == after
              && match ValuesRead(4, endianness, wordOrder, x)
                 case Err(e) => r == Err(e)
                 case Ok(values) => r.Ok? && r.value == values
      ensures r.Ok? ==> (|r.value| == quantity <==> quantity < 0x4000)
    {
      hide Transport.Valid;
      hide Transport.State;
      hide Performing;
      hide DecodeWords;
      hide ValuesOf;
      ghost var line := State();
      WideReadCount(4, quantity, addr, regType, unitId, endianness, wordOrder, line);
      var mbPayload := ReadRegisterBytes(addr, Low16(quantity * 4), regType);
      if mbPayload.Err? {
        return Err(mbPayload.error);
      }
      var values := BytesToUint64s(endianness, wordOrder, mbPayload.value);
      return Ok(values);
    }

    /** Registers as bytes, swapped in pairs if the client is little-endian. */
    method ReadBytes(addr: uint16, quantity: uint16, regType: RegType) returns (r: Result<seq<byte>>)
      requires Valid()
      modifies transport.Repr()
      ensures Valid()
      ensures var (x, after) := Performing(Op.ReadRegisters(addr, RegistersFor(quantity), regType), unitId, old(State()));
              State() == after && r == BytesRead(quantity, endianness.LittleEndian?, x)
      ensures r.Ok? ==> |r.value| == quantity
    {
      r := ReadSomeBytes(addr, quantity, regType, true);
    }

    /** Registers as bytes, unchanged. */
    method ReadRawBytes(addr: uint16, quantity: uint16, regType: RegType) returns (r: Result<seq<byte>>)
      requires Valid()
      modifies transport.Repr()
      ensures Valid()
      ensures var (x, after) := Performing(Op.ReadRegisters(addr, RegistersFor(quantity), regType), unitId, old(State()));
              State() == after && r == BytesRead(quantity, false, x)
      ensures r.Ok? ==> |r.value| == quantity
    {
      r := ReadSomeBytes(addr, quantity, regType, false);
    }

    method ReadSomeBytes(addr: uint16, quantity: uint16, regType: RegType, observeEndianness: bool)
      returns (r: Result<seq<byte>>)
      requires Valid()
      modifies transport.Repr()
      ensures Valid()
      ensures var (x, after) := Performing(Op.ReadRegisters(addr, RegistersFor(quantity), regType), unitId, old(State()));
              State() == after && r == BytesRead(quantity, observeEndianness && endianness.LittleEndian?, x)
      ensures r.Ok? ==> |r.value| == quantity
    {
      hide Transport.Valid;
      hide Transport.State;
      hide Performing;
      hide Swapped;
      var regCount := quantity / 2 + quantity % 2;
      var read := ReadRegisterBytes(addr, regCount, regType);
      if read.Err? {
        return Err(read.error);
      }
      var values := read.value;
      if observeEndianness && endianness == LittleEndian {
        values := PairsSwapped(values);
      }
      ghost var all := values;
      // the padding goes
      if quantity % 2 == 1 {
        values := values[0..|values| - 1];
      }
      assert values == all[..quantity];
      return Ok(values);
    }

    static method PairsSwapped(values: seq<byte>) returns (swapped: seq<byte>)
      requires |values| % 2 == 0
      ensures swapped == Swapped(values)
    {
      hide Swapped;
      var buf := new byte[|values|](i requires 0 <= i < |values| => values[i]);
      assert buf[..] == buf[..|values|] == values;
      SwapPairs(buf, |values|);
      swapped := buf[..];
      assert swapped == buf[..|values|];
    }

    /** Exchanges the two bytes of each register among the first n bytes, in place. */
    static method SwapPairs(values: array<byte>, n: nat)
      requires n % 2 == 0 && n <= values.Length
      modifies values
      ensures values[..n] == Swapped(old(values[..n]))
      ensures values[n..] == old(values[n..])
    {
      hide Swapped;
      var i := 0;
      while i < n
        invariant i % 2 == 0 && i <= n
        invariant forall k :: 0 <= k < i ==> values[k] == Swapped(old(values[..n]))[k]
        invariant forall k :: i <= k < values.Length ==> values[k] == old(values[k])
      {
        values[i], values[i + 1] := values[i + 1], values[i];
        i := i + 2;
      }
      assert values[..n] == Swapped(old(values[..n]));
    }

    /** Words as registers. */
    method WriteRegisters(addr: uint16, values: seq<uint16>) returns (r: Result<()>)
      requires Valid()
      modifies transport.Repr()
      ensures Valid()
      ensures (if r.Ok? then Ok(Done) else Err(r.error), State()) ==
              Performing(Op.WriteRegisters(addr, EncodeWords(endianness, values)), unitId, old(State()))
    {
      hide Transport.Valid;
      hide Transport.State;
      hide Performing;
      var payload := Uint16sToBytes(endianness, values);
      hide EncodeWords;
      r := WriteRegisterBytes(addr, payload);
    }

    /** Values as pairs of registers. */
    method WriteUint32s(addr: uint16, values: seq<uint32>) returns (r: Result<()>)
      requires Valid()
      modifies transport.Repr()
      ensures Valid()
      ensures (if r.Ok? then Ok(Done) else Err(r.error), State()) ==
              Performing(Op.WriteRegisters(addr, EncodeWords(endianness, WordsOf(2, wordOrder, values))), unitId, old(State()))
    {
      hide Transport.Valid;
      hide Transport.State;
      hide Performing;
      hide Words;
      var payload: seq<byte> := [];
      for i := 0 to |values|
        invariant Valid() && State() == old(State())
        invariant payload == EncodeWords(endianness, WordsOf(2, wordOrder, values[..i]))
      {
        WideStep(2, endianness, wordOrder, values, i);
        var bs := Uint32ToBytes(endianness, wordOrder, values[i]);
        payload := payload + bs;
      }
      assert values[..|values|] == values;
      hide EncodeWords;
      hide WordsOf;
      r := WriteRegisterBytes(addr, payload);
    }

    /** Values as groups of four registers. */
    method WriteUint64s(addr: uint16, values: seq<uint64>) returns (r: Result<()>)
      requires Valid()
      modifies transport.Repr()
      ensures Valid()
      ensures (if r.Ok? then Ok(Done) else Err(r.error), State()) ==
              Performing(Op.WriteRegisters(addr, EncodeWords(endianness, WordsOf(4, wordOrder, values))), unitId, old(State()))
    {
      hide Transport.Valid;
      hide Transport.State;
      hide Performing;
      hide Words;
      var payload: seq<byte> := [];
      for i := 0 to |values|
        invariant Valid() && State() == old(State())
        invariant payload == EncodeWords(endianness, WordsOf(4, wordOrder, values[..i]))
      {
        WideStep(4, endianness, wordOrder, values, i);
        var bs := Uint64ToBytes(endianness, wordOrder, values[i]);
        payload := payload + bs;
      }
      assert values[..|values|] == values;
      hide EncodeWords;
      hide WordsOf;
      r := WriteRegisterBytes(addr, payload);
    }

    /**
     Writes bytes to registers, swapped in pairs if the client is little-endian; an odd number is padded.
     The caller's slice is the first length bytes of some memory, and the rest of the memory is its room.
     */
    method WriteBytes(addr: uint16, memory: array<byte>, length: nat) returns (r: Result<()>)
      requires Valid() && memory !in transport.Repr() && length <= memory.Length
      modifies transport.Repr(), memory
      ensures Valid()
      ensures (if r.Ok? then Ok(Done) else Err(r.error), State()) ==
              Performing(Op.WriteRegisters(addr, Outgoing(old(memory[..length]), endianness.LittleEndian?)), unitId,
                         old(State()))
      ensures memory[..] == MemoryAfter(old(memory[..]), length, endianness.LittleEndian?)
    {
      r := WriteSomeBytes(addr, memory, length, true);
    }

    /** Writes bytes to registers as they are; an odd number is padded. */
    method WriteRawBytes(addr: uint16, memory: array<byte>, length: nat) returns (r: Result<()>)
      requires Valid() && memory !in transport.Repr() && length <= memory.Length
      modifies transport.Repr(), memory
      ensures Valid()
      ensures (if r.Ok? then Ok(Done) else Err(r.error), State()) ==
              Performing(Op.WriteRegisters(addr, Outgoing(old(memory[..length]), false)), unitId, old(State()))
      ensures memory[..] == MemoryAfter(old(memory[..]), length, false)
    {
      r := WriteSomeBytes(addr, memory, length, false);
    }

    /** Both: padding and swap happen in the caller's memory, unless it has no room for the padding. */
    method WriteSomeBytes(addr: uint16, memory: array<byte>, length: nat, observeEndianness: bool) returns (r: Result<()>)
      requires Valid() && memory !in transport.Repr() && length <= memory.Length
      modifies transport.Repr(), memory
      ensures Valid()
      ensures var swap := observeEndianness && endianness.LittleEndian?;
              && (if r.Ok? then Ok(Done) else Err(r.error), State()) ==
                 Performing(Op.WriteRegisters(addr, Outgoing(old(memory[..length]), swap)), unitId, old(State()))
              && memory[..] == MemoryAfter(old(memory[..]), length, swap)
    {
      hide Transport.Valid;
      hide Transport.State;
      hide Performing;
      hide Outgoing;
      hide MemoryAfter;
      var buf, n := Prepared(memory, length, observeEndianness && endianness == LittleEndian);
      r := WriteRegisterBytes(addr, buf[..n]);
    }

    /**
     Go's `append(values, 0x00)`: in place if there is room, in a copy otherwise; then the swap, wherever
     that was.
     */
    static method Prepared(memory: array<byte>, length: nat, swap: bool) returns (buf: array<byte>, n: nat)
      requires length <= memory.Length
      modifies memory
      ensures n <= buf.Length && buf[..n] == Outgoing(old(memory[..length]), swap)
      ensures memory[..] == MemoryAfter(old(memory[..]), length, swap)
    {
      hide Swapped;
      ghost var was := memory[..];
      assert was[..length] == memory[..length];
      buf, n := memory, length;
      if length % 2 == 1 {
        n := length + 1;
        if length < memory.Length {
          memory[length] := 0x00;
        } else {
          buf := WithZero(memory);
        }
      }
      assert buf[..n] == Padded(was[..length]);
      assert n <= memory.Length ==> buf == memory && memory[n..] == was[n..];
      if swap {
        SwapPairs(buf, n);
      }
      assert n <= memory.Length ==> memory[..] == memory[..n] + memory[n..];
    }

    static method WithZero(values: array<byte>) returns (buf: array<byte>)
      ensures fresh(buf) && buf[..] == values[..] + [0x00]
    {
      buf := new byte[values.Length + 1](i requires 0 <= i reads values => if i < values.Length then values[i] else 0x00);
    }
  }

  /** One more value on a list of values that are n words each. */
  lemma WideStep(n: nat, e: Endianness, w: WordOrder, values: seq<nat>, i: nat)
    requires i < |values|
    ensures EncodeWords(e, WordsOf(n, w, values[..i + 1])) ==
            EncodeWords(e, WordsOf(n, w, values[..i])) + EncodeWords(e, Words(n, w, values[i]))
  {
    assert values[..i + 1] == values[..i] + [values[i]];
    WordsOfConcat(n, w, values[..i], [values[i]]);
    assert WordsOf(n, w, [values[i]]) == Words(n, w, values[i]);
    EncodeConcat(e, WordsOf(n, w, values[..i]), Words(n, w, values[i]));
  }
}
