/**
 Client and server together, over MBAP: every request that the client sends reaches the handler as
 the call it stands for, and what the handler returns is what the client gets.
 */
module EndToEnd {
  import opened Bits
  import opened Bytes
  import opened Encoding
  import opened Links
  import opened Modbus
  import opened Ops
  import opened Server
  import Mbap

  /** The requests that both sides take. */
  predicate InRange(op: Op) {
    match op
    case ReadBools(addr, quantity, _) => 1 <= quantity <= 2000 && addr + quantity <= 0x1_0000
    case ReadRegisters(addr, quantity, regType) =>
      !regType.UnknownRegister? && 1 <= quantity <= 125 && addr + quantity <= 0x1_0000
    case WriteCoil(_, _) => true
    case WriteCoils(addr, values) => 1 <= |values| <= 1968 && addr + |values| <= 0x1_0000
    case WriteRegister(_, _, _) => true
    case WriteRegisters(addr, bytes) => |bytes| % 2 == 0 && 2 <= |bytes| <= 246 && addr + |bytes| / 2 <= 0x1_0000
  }

  /** The call that a request stands for. Register bytes reach the handler high byte first. */
  function CallOf(op: Op, unitId: byte): Call
    requires InRange(op)
  {
    match op
    case ReadBools(addr, quantity, di) =>
      if di then DiscreteInputs(unitId, addr, quantity) else Coils(unitId, addr, quantity, false, [])
    case ReadRegisters(addr, quantity, regType) =>
      if regType.HoldingRegister? then HoldingRegisters(unitId, addr, quantity, false, [])
      else InputRegisters(unitId, addr, quantity)
    case WriteCoil(addr, value) => Coils(unitId, addr, 1, true, [value])
    case WriteCoils(addr, values) => Coils(unitId, addr, |values|, true, values)
    case WriteRegister(addr, e, word) =>
      HoldingRegisters(unitId, addr, 1, true, [BytesToUint16(BigEndian, Uint16ToBytes(e, word))])
    case WriteRegisters(addr, bytes) => HoldingRegisters(unitId, addr, |bytes| / 2, true, DecodeWords(BigEndian, bytes))
  }

  /** A word with its two bytes exchanged. */
  function SwappedWord(v: uint16): uint16 {
    v / 256 + 256 * (v % 256)
  }

  /**
   Words cross between a side that encodes one way and a side that decodes the other with their bytes
   exchanged, and intact otherwise.
   */
  lemma {:induction false} WordsCross(e: Endianness, d: Endianness, ws: seq<uint16>)
    ensures var seen := DecodeWords(d, EncodeWords(e, ws));
            |seen| == |ws| && forall i :: 0 <= i < |ws| ==> seen[i] == if d == e then ws[i] else SwappedWord(ws[i])
  {
    if ws != [] {
      var bs := EncodeWords(e, ws);
      assert bs[..2] == Uint16ToBytes(e, ws[0]) && bs[2..] == EncodeWords(e, ws[1..]);
      WordsCross(e, d, ws[1..]);
      var seen := DecodeWords(d, bs);
      assert seen == [BytesToUint16(d, bs[..2])] + DecodeWords(d, bs[2..]);
    }
  }

  /** What the client should get for a call, given what the handler returns. */
  function Expected(h: Handler, log: seq<Call>, call: Call): Result<Outcome> {
    if call.OfBits() then
      match h.bits(log, call)
      case Err(e) => Err(Seen(e))
      case Ok(bits) =>
        if call.Writes() then Ok(Done)
        else if |bits| == call.quantity then Ok(Bools(bits))
        else Err(ServerDeviceFailure)
    else
      match h.words(log, call)
      case Err(e) => Err(Seen(e))
      case Ok(words) =>
        if call.Writes() then Ok(Done)
        else if |words| == call.quantity then Ok(Registers(EncodeWords(BigEndian, words)))
        else Err(ServerDeviceFailure)
  }

  /** The server takes a request in range for exactly the call it stands for. */
  lemma Understood(op: Op, unitId: byte)
    requires InRange(op)
    ensures Request(op, unitId).Ok?
    ensures Judge(Request(op, unitId).value) == Invoke(CallOf(op, unitId))
  {
    var req, call := Request(op, unitId).value, CallOf(op, unitId);
    hide Judge;
    InvokedExactly(req, call);
    match op
    case WriteCoils(_, values) => CoilsAsked(op, unitId);
    case WriteRegisters(_, bytes) => RegistersAsked(op, unitId);
    case WriteRegister(_, e, word) =>
      var bs := Uint16ToBytes(e, word);
      assert Word16(BytesToUint16(BigEndian, bs)) == bs by {
        WordBytes(bs, 0, BytesToUint16(BigEndian, bs));
        assert bs[0..2] == bs;
      }
    case _ =>
  }

  lemma CoilsAsked(op: Op, unitId: byte)
    requires op.WriteCoils? && InRange(op)
    ensures CallOf(op, unitId).InRange() && Asks(Request(op, unitId).value, CallOf(op, unitId))
  {
    hide Packed;
    hide BitAt;
    hide Uint16ToBytes;
    hide Word16;
    var p := Request(op, unitId).value.payload;
    var quantity: uint16 := |op.values|;
    assert Low16(|op.values|) == quantity && Low8(PackedLength(quantity)) == PackedLength(quantity);
    var head := Word16(op.addr) + Word16(quantity);
    assert p == head + [PackedLength(quantity)] + Packed(op.values);
    assert p[..4] == head && p[4] == PackedLength(quantity) && p[5..] == Packed(op.values);
    CoilsInBits(op.values);
  }

  lemma CoilsInBits(values: seq<bool>)
    ensures forall k :: 0 <= k < |values| ==> values[k] == BitAt(Packed(values), k)
  {
    UnpackPacked(values);
    hide BitAt;
    hide Packed;
    forall k | 0 <= k < |values|
      ensures values[k] == BitAt(Packed(values), k)
    {
      assert values[k] == Unpacked(|values|, Packed(values))[k];
    }
  }

  lemma RegistersAsked(op: Op, unitId: byte)
    requires op.WriteRegisters? && InRange(op)
    ensures CallOf(op, unitId).InRange() && Asks(Request(op, unitId).value, CallOf(op, unitId))
  {
    hide EncodeWords;
    hide DecodeWords;
    hide Uint16ToBytes;
    hide Word16;
    var p := Request(op, unitId).value.payload;
    var length := |op.bytes|;
    var quantity: uint16 := length / 2;
    var head := Word16(op.addr) + Word16(quantity);
    assert Low16(length) == length && Low8(length) == length == 2 * quantity;
    assert p == head + [length] + op.bytes;
    assert p[..4] == head && p[4] == length && p[5..] == op.bytes;
    EncodeDecoded(BigEndian, op.bytes);
    var words := DecodeWords(BigEndian, op.bytes);
    assert |words| == quantity;
  }

  /** Register reads of quantity 0 and 124 do go out. */
  lemma OddReadsSent(unitId: byte)
    ensures Request(ReadRegisters(5, 0, HoldingRegister), unitId) ==
            Ok(Pdu(unitId, FC_READ_HOLDING_REGISTERS, [0, 5, 0, 0]))
    ensures Request(ReadRegisters(5, 124, HoldingRegister), unitId) ==
            Ok(Pdu(unitId, FC_READ_HOLDING_REGISTERS, [0, 5, 0, 124]))
  {
    assert Word16(5) + Word16(0) == [0, 5, 0, 0];
    assert Word16(5) + Word16(124) == [0, 5, 0, 124];
  }

  /**
   What becomes of a register read. The client turns it down exactly if the kind of register is
   unknown or the range ends past the address space, nothing at address 0 included: a quantity of 0 or
   over 123 alone is no reason. The server calls its handler exactly for 1 to 125 registers, and drops
   the link otherwise.
   */
  lemma RegisterReadFate(h: Handler, log: seq<Call>, addr: uint16, quantity: uint16, regType: RegType, unitId: byte)
    ensures var op := ReadRegisters(addr, quantity, regType);
            var r := Request(op, unitId);
            && (r.Err? <==> regType.UnknownRegister? || addr + quantity == 0 || addr + quantity > 0x1_0000)
            && (r.Ok? ==>
                  && (Judge(r.value).Invoke? <==> 1 <= quantity <= 125)
                  && (Judge(r.value) == Reject(ProtocolError) <==> quantity == 0 || quantity > 125)
                  && (1 <= quantity <= 125 ==> InRange(op) && Judge(r.value) == Invoke(CallOf(op, unitId)))
                  && (quantity == 0 || quantity > 125 ==> Answering(h, log, r.value) == Drop && Logged(log, r.value) == log))
  {
    var op := ReadRegisters(addr, quantity, regType);
    var r := Request(op, unitId);
    if r.Ok? {
      if InRange(op) {
        Understood(op, unitId);
      } else {
        var p := r.value.payload;
        assert p[..4] == p;
        TwoWords(p, addr, quantity);
        hide Mbap.Word;
        hide Word16;
      }
    }
  }

  /**
   What becomes of a write of a list. The length is taken in 16 bits: what the client sends is in range
   exactly if the length has not wrapped around, and some lists that are far too long are sent.
   */
  lemma ListWriteFate(op: Op, unitId: byte)
    requires op.WriteCoils? || (op.WriteRegisters? && |op.bytes| % 2 == 0)
    ensures InRange(op) ==> Request(op, unitId).Ok?
    ensures Request(op, unitId).Ok? ==>
              (InRange(op) <==> (if op.WriteCoils? then |op.values| else |op.bytes|) < 0x1_0000)
  {
    hide Packed;
    hide PackedLength;
  }

  lemma LongListSent(values: seq<bool>, unitId: byte)
    requires |values| == 0x1_0001
    ensures Request(WriteCoils(5, values), unitId).Ok?
    ensures Request(WriteCoils(5, values), unitId).value.payload[..4] == [0, 5, 0, 1]
  {
    hide Packed;
    assert Word16(5) + Word16(1) == [0, 5, 0, 1];
  }

  /** One request through the server and back: the client gets what the handler has returned. */
  lemma Returned(h: Handler, log: seq<Call>, op: Op, unitId: byte)
    requires InRange(op) && !CriesFoul(h, log, CallOf(op, unitId))
    ensures Request(op, unitId).Ok?
    ensures var req := Request(op, unitId).value;
            var a := Answering(h, log, req);
            && Logged(log, req) == log + [CallOf(op, unitId)]
            && a.Reply?
            && |a.res.payload| <= Mbap.MAX_PAYLOAD
            && Concluding(op, req, Ok(a.res)) == Expected(h, log, CallOf(op, unitId))
  {
    var req, call := Request(op, unitId).value, CallOf(op, unitId);
    Understood(op, unitId);
    AnswerShape(h, log, req, 0);
    var a := Answering(h, log, req);
    var r := Processing(h, log, req);
    match r
    case Err(e) => ExceptionReturned(op, req, call, e);
    case Ok(res) => ReplyReturned(h, log, op, unitId);
  }

  lemma ExceptionReturned(op: Op, req: Pdu, call: Call, e: Error)
    requires req.functionCode < 0x80
    ensures Concluding(op, req, Ok(Exception(req, MapErrorToExceptionCode(e)))) == Err(Seen(e))
  {
    ExceptionCodesRoundTrip(e, 0);
  }

  lemma ReplyReturned(h: Handler, log: seq<Call>, op: Op, unitId: byte)
    requires InRange(op) && Request(op, unitId).Ok?
    requires Judge(Request(op, unitId).value) == Invoke(CallOf(op, unitId))
    requires Processing(h, log, Request(op, unitId).value).Ok?
    ensures var req := Request(op, unitId).value;
            Concluding(op, req, Processing(h, log, req)) == Expected(h, log, CallOf(op, unitId))
  {
    hide Judge;
    hide Request;
    var req, call := Request(op, unitId).value, CallOf(op, unitId);
    var res := Processing(h, log, req).value;
    assert Concluding(op, req, Ok(res)) == Reading(op, res.payload);
    if call.Writes() {
      hide Reading;
      EchoedExactly(op, unitId, res.payload);
    } else if call.OfBits() {
      BitsReturned(op, h.bits(log, call).value, res.payload);
    } else {
      WordsReturned(op, h.words(log, call).value, res.payload);
    }
  }

  lemma BitsReturned(op: Op, bits: seq<bool>, p: seq<byte>)
    requires op.ReadBools? && op.quantity <= 2000 && |bits| == op.quantity
    requires p == [Low8(PackedLength(|bits|))] + Packed(bits)
    ensures Reading(op, p) == Ok(Bools(bits))
  {
    UnpackPacked(bits);
    hide Packed;
    hide Unpacked;
    assert p[1..] == Packed(bits);
  }

  lemma WordsReturned(op: Op, words: seq<uint16>, p: seq<byte>)
    requires op.ReadRegisters? && op.quantity <= 125 && |words| == op.quantity
    requires p == [Low8(2 * |words|)] + EncodeWords(BigEndian, words)
    ensures Reading(op, p) == Ok(Registers(EncodeWords(BigEndian, words)))
  {
    hide EncodeWords;
    assert p[1..] == EncodeWords(BigEndian, words);
  }

  // ---- Whole conversations ----

  /** A request for a unit. */
  datatype Order = Order(unitId: byte, op: Op)

  /** The calls that the server's handler has had, and the client's end of the link. */
  datatype World = World(log: seq<Call>, line: Line)

  /** The frame that carries the client's next request. */
  function RequestFrame(line: Line, req: Pdu): Mbap.Frame {
    Mbap.FrameOf(Low16(line.txnId + 1), req)
  }

  /** One round: the client's request goes to the server, whose response goes to the client. */
  function Round(h: Handler, w: World, order: Order, env: Env): (Result<Outcome>, World) {
    match Request(order.op, order.unitId)
    case Err(e) => (Err(e), w)
    case Ok(req) =>
      var s := Serving(h, w.log, Mbap.Print(RequestFrame(w.line, req)), env);
      var arrived := w.line.(pending := w.line.pending + Mbap.PrintAll(s.frames));
      var (r, line) := Performing(order.op, order.unitId, arrived);
      (r, World(s.log, line))
  }

  function Conversing(h: Handler, w: World, orders: seq<Order>, env: Env): (seq<Result<Outcome>>, World)
    decreases orders
  {
    if orders == [] then ([], w) else
    var (r, next) := Round(h, w, orders[0], env);
    var (rs, end) := Conversing(h, next, orders[1..], env);
    ([r] + rs, end)
  }

  predicate Trouble(env: Env) {
    env.deadlineError.Some? || env.writeError.Some?
  }

  /** The client is on MBAP, nothing is left on its link, and its calls on the link work. */
  predicate Ready(line: Line) {
    !line.serial && line.pending == [] && !Trouble(line.env)
  }

  function CallsOf(orders: seq<Order>): seq<Call>
    requires forall i :: 0 <= i < |orders| ==> InRange(orders[i].op)
  {
    if orders == [] then [] else [CallOf(orders[0].op, orders[0].unitId)] + CallsOf(orders[1..])
  }

  /** The handler does not call any of these malformed. */
  predicate Polite(h: Handler, log: seq<Call>, calls: seq<Call>)
    decreases calls
  {
    calls == [] || (!CriesFoul(h, log, calls[0]) && Polite(h, log + [calls[0]], calls[1..]))
  }

  function ExpectedAll(h: Handler, log: seq<Call>, calls: seq<Call>): seq<Result<Outcome>>
    decreases calls
  {
    if calls == [] then [] else [Expected(h, log, calls[0])] + ExpectedAll(h, log + [calls[0]], calls[1..])
  }

  /** The server takes in one frame, and answers it if nothing is amiss. */
  lemma ServesOne(h: Handler, log: seq<Call>, f: Mbap.Frame, rest: seq<byte>, env: Env)
    requires Mbap.WellFormed(f) && f.protocolId == 0 && !Trouble(env)
    ensures var req := Mbap.PduOf(f);
            Serving(h, log, Mbap.Print(f) + rest, env) ==
            match Answering(h, log, req)
            case Drop => Session([], Logged(log, req), rest, true)
            case Reply(res) =>
              var s := Serving(h, Logged(log, req), rest, env);
              s.(frames := [Mbap.FrameOf(f.txnId, res)] + s.frames)
  {
    hide Mbap.ReadingFrame;
    hide Mbap.Print;
    hide Mbap.WellFormed;
    hide Answering;
    hide Logged;
    Mbap.ParsePrinted(f, rest, env.fate);
  }

  lemma ServesNothing(h: Handler, log: seq<Call>, env: Env)
    requires !Trouble(env)
    ensures Serving(h, log, [], env) == Session([], log, [], false)
  {
  }

  /** A session is the same in one go as request by request. */
  lemma InPieces(h: Handler, log: seq<Call>, f: Mbap.Frame, rest: seq<byte>, env: Env)
    requires Mbap.WellFormed(f) && f.protocolId == 0 && !Trouble(env)
    ensures var first := Serving(h, log, Mbap.Print(f), env);
            Serving(h, log, Mbap.Print(f) + rest, env) ==
            if first.dropped then first.(rest := rest)
            else
              var second := Serving(h, first.log, rest, env);
              second.(frames := first.frames + second.frames)
  {
    var req := Mbap.PduOf(f);
    var later := Logged(log, req);
    ServesOne(h, log, f, [], env);
    ServesOne(h, log, f, rest, env);
    ServesNothing(h, later, env);
    assert Mbap.Print(f) + [] == Mbap.Print(f);
    hide Serving;
    hide Mbap.Print;
    hide Mbap.WellFormed;
    hide Answering;
    hide Logged;
    hide Trouble;
    match Answering(h, log, req)
    case Drop =>
    case Reply(res) =>
      var reply := [Mbap.FrameOf(f.txnId, res)];
      var second := Serving(h, later, rest, env);
      assert Serving(h, log, Mbap.Print(f), env) == Session(reply, later, [], false);
      assert Serving(h, log, Mbap.Print(f) + rest, env) == second.(frames := reply + second.frames);
  }

  /** The result of an order is what the client makes of a frame. */
  predicate Delivered(order: Order, f: Mbap.Frame, r: Result<Outcome>) {
    && Request(order.op, order.unitId).Ok?
    && f.body != []
    && r == Concluding(order.op, Request(order.op, order.unitId).value, Ok(Mbap.PduOf(f)))
  }

  predicate DeliveredAll(orders: seq<Order>, frames: seq<Mbap.Frame>, results: seq<Result<Outcome>>) {
    && |frames| == |results| == |orders|
    && forall i :: 0 <= i < |orders| ==> Delivered(orders[i], frames[i], results[i])
  }

  lemma DeliveredMore(orders: seq<Order>, frames: seq<Mbap.Frame>, results: seq<Result<Outcome>>)
    requires |orders| > 0 && |frames| > 0 && |results| > 0
    requires Delivered(orders[0], frames[0], results[0])
    requires DeliveredAll(orders[1..], frames[1..], results[1..])
    ensures DeliveredAll(orders, frames, results)
  {
    hide Delivered;
    forall i | 0 <= i < |orders|
      ensures Delivered(orders[i], frames[i], results[i])
    {
      if i > 0 {
        assert Delivered(orders[1..][i - 1], frames[1..][i - 1], results[1..][i - 1]);
      }
    }
  }

  /** One round in range: one call, and its result. */
  lemma RoundTransparent(h: Handler, w: World, order: Order, env: Env)
    requires Ready(w.line) && !Trouble(env)
    requires InRange(order.op) && !CriesFoul(h, w.log, CallOf(order.op, order.unitId))
    ensures Request(order.op, order.unitId).Ok?
    ensures var call, (r, next) := CallOf(order.op, order.unitId), Round(h, w, order, env);
            var sent := RequestFrame(w.line, Request(order.op, order.unitId).value);
            && r == Expected(h, w.log, call)
            && next.log == w.log + [call]
            && next.line == w.line.(txnId := sent.txnId, writes := w.line.writes + [Mbap.Print(sent)])
  {
    Returned(h, w.log, order.op, order.unitId);
    var req := Request(order.op, order.unitId).value;
    var res := Answering(h, w.log, req).res;
    var f := RequestFrame(w.line, req);
    RequestFits(order.op, order.unitId);
    hide Request;
    hide Concluding;
    hide Answering;
    hide Logged;
    ServesOne(h, w.log, f, [], env);
    ServesNothing(h, Logged(w.log, req), env);
    assert Mbap.Print(f) + [] == Mbap.Print(f);
    assert Mbap.PduOf(f) == req;
    var g := Mbap.FrameOf(f.txnId, res);
    var s := Serving(h, w.log, Mbap.Print(f), env);
    assert s.frames == [g] && s.log == Logged(w.log, req);
    hide Serving;
    hide Mbap.Responding;
    hide Mbap.Print;
    assert Mbap.PrintAll([g]) == Mbap.Print(g) + [];
    assert w.line.pending + Mbap.PrintAll(s.frames) == Mbap.Print(g) + [];
    Mbap.RespondingStep(g, [], w.line.env.fate, f.txnId);
    assert Mbap.PduOf(g) == res;
  }

  /** The server's part of a round. */
  lemma RoundServed(h: Handler, w: World, order: Order, env: Env)
    requires Ready(w.line) && !Trouble(env)
    requires InRange(order.op) && !CriesFoul(h, w.log, CallOf(order.op, order.unitId))
    ensures Request(order.op, order.unitId).Ok?
    ensures var (r, next) := Round(h, w, order, env);
            var sent := RequestFrame(w.line, Request(order.op, order.unitId).value);
            var s := Serving(h, w.log, Mbap.Print(sent), env);
            && Mbap.WellFormed(sent) && sent.protocolId == 0
            && |s.frames| == 1 && s == Session(s.frames, next.log, [], false) && Delivered(order, s.frames[0], r)
  {
    RoundTransparent(h, w, order, env);
    Returned(h, w.log, order.op, order.unitId);
    RequestFits(order.op, order.unitId);
    var req := Request(order.op, order.unitId).value;
    var res := Answering(h, w.log, req).res;
    var f := RequestFrame(w.line, req);
    hide Request;
    hide Concluding;
    hide Answering;
    hide Logged;
    hide Expected;
    ServesOne(h, w.log, f, [], env);
    ServesNothing(h, Logged(w.log, req), env);
    assert Mbap.Print(f) + [] == Mbap.Print(f);
    assert Mbap.PduOf(f) == req && Mbap.PduOf(Mbap.FrameOf(f.txnId, res)) == res;
    hide Serving;
    hide Round;
    hide Mbap.Print;
  }

  lemma RequestFits(op: Op, unitId: byte)
    requires InRange(op) && Request(op, unitId).Ok?
    ensures |Request(op, unitId).value.payload| <= 251
  {
  }

  /** What a conversation comes to, round by round. */
  lemma {:induction false} Rounds(h: Handler, w: World, orders: seq<Order>, env: Env)
    requires Ready(w.line) && !Trouble(env)
    requires forall i :: 0 <= i < |orders| ==> InRange(orders[i].op)
    requires Polite(h, w.log, CallsOf(orders))
    ensures var (results, end) := Conversing(h, w, orders, env);
            && results == ExpectedAll(h, w.log, CallsOf(orders))
            && end.log == w.log + CallsOf(orders)
            && Ready(end.line)
            && |end.line.writes| == |w.line.writes| + |orders|
    decreases orders
  {
    hide Round;
    hide Expected;
    hide CriesFoul;
    hide CallOf;
    hide InRange;
    hide Trouble;
    hide Mbap.Print;
    if orders == [] {
    } else {
      RoundTransparent(h, w, orders[0], env);
      var (r, next) := Round(h, w, orders[0], env);
      var calls := CallsOf(orders);
      assert calls[1..] == CallsOf(orders[1..]);
      Rounds(h, next, orders[1..], env);
      var (rs, end) := Conversing(h, next, orders[1..], env);
      assert w.log + [calls[0]] + calls[1..] == w.log + calls;
    }
  }

  /** What the client has written since. */
  function Sent(before: World, after: World): seq<byte>
    requires |before.line.writes| <= |after.line.writes|
  {
    Flat(after.line.writes[|before.line.writes|..])
  }

  /** Nothing that the client has written is taken back. */
  lemma {:induction false} WritesGrow(h: Handler, w: World, orders: seq<Order>, env: Env)
    ensures w.line.writes <= Conversing(h, w, orders, env).1.line.writes
    decreases orders
  {
    hide Serving;
    hide Concluding;
    hide Request;
    hide Mbap.Responding;
    hide Mbap.Print;
    if orders != [] {
      WritesGrow(h, Round(h, w, orders[0], env).1, orders[1..], env);
    }
  }

  /** The server's rounds are one session over all that the client writes. */
  lemma {:induction false} OneSession(h: Handler, w: World, orders: seq<Order>, env: Env)
    requires Ready(w.line) && !Trouble(env)
    requires forall i :: 0 <= i < |orders| ==> InRange(orders[i].op)
    requires Polite(h, w.log, CallsOf(orders))
    ensures var (results, end) := Conversing(h, w, orders, env);
            && |w.line.writes| <= |end.line.writes|
            && var s := Serving(h, w.log, Sent(w, end), env);
               && s == Session(s.frames, end.log, [], false)
               && DeliveredAll(orders, s.frames, results)
    decreases orders
  {
    hide Round;
    hide CriesFoul;
    hide CallOf;
    hide InRange;
    hide Delivered;
    hide Mbap.WellFormed;
    hide Mbap.Print;
    var (results, end) := Conversing(h, w, orders, env);
    if orders == [] {
      ServesNothing(h, w.log, env);
      assert end.line.writes[|w.line.writes|..] == [];
    } else {
      hide Serving;
      hide Trouble;
      hide Sent;
      hide Expected;
      hide Request;
      hide DeliveredAll;
      RoundTransparent(h, w, orders[0], env);
      RoundServed(h, w, orders[0], env);
      var (r, next) := Round(h, w, orders[0], env);
      assert CallsOf(orders)[1..] == CallsOf(orders[1..]);
      OneSession(h, next, orders[1..], env);
      WritesGrow(h, next, orders[1..], env);
      var f := RequestFrame(w.line, Request(orders[0].op, orders[0].unitId).value);
      SessionsJoin(h, w, next, end, f, env);
      var s := Serving(h, w.log, Sent(w, end), env);
      assert s.frames[1..] == Serving(h, next.log, Sent(next, end), env).frames;
      assert results[1..] == Conversing(h, next, orders[1..], env).0;
      DeliveredMore(orders, s.frames, results);
    }
  }

  /** The session over one request, and the session over those that follow it. */
  lemma SessionsJoin(h: Handler, w: World, next: World, end: World, f: Mbap.Frame, env: Env)
    requires Mbap.WellFormed(f) && f.protocolId == 0 && !Trouble(env)
    requires next.line.writes == w.line.writes + [Mbap.Print(f)] && next.line.writes <= end.line.writes
    requires Serving(h, w.log, Mbap.Print(f), env).log == next.log && !Serving(h, w.log, Mbap.Print(f), env).dropped
    ensures var first, second := Serving(h, w.log, Mbap.Print(f), env), Serving(h, next.log, Sent(next, end), env);
            Serving(h, w.log, Sent(w, end), env) == second.(frames := first.frames + second.frames)
  {
    InPieces(h, w.log, f, Sent(next, end), env);
    SentFirst(w, next, end, Mbap.Print(f));
    hide Serving;
    hide Sent;
  }

  lemma SentFirst(w: World, next: World, end: World, written: seq<byte>)
    requires next.line.writes == w.line.writes + [written] && next.line.writes <= end.line.writes
    ensures Sent(w, end) == written + Sent(next, end)
  {
    var n := |w.line.writes|;
    assert end.line.writes[n..][0] == next.line.writes[n] == written;
    assert end.line.writes[n..][1..] == end.line.writes[n + 1..];
  }

  /**
   Transparency: over any sequence of requests in range, to any units, the handler is called exactly
   once for each, in order, with the same unit, range and arguments, and the client gets exactly what
   the handler returns: the values, or the same error if it has a code of its own. All that the server
   does is one session over the bytes that the client writes, with one frame for each request, and
   each result is what the client makes of its frame.
   */
  lemma Transparent(h: Handler, w: World, orders: seq<Order>, env: Env)
    requires Ready(w.line) && !Trouble(env)
    requires forall i :: 0 <= i < |orders| ==> InRange(orders[i].op)
    requires Polite(h, w.log, CallsOf(orders))
    ensures var (results, end) := Conversing(h, w, orders, env);
            && results == ExpectedAll(h, w.log, CallsOf(orders))
            && end.log == w.log + CallsOf(orders)
            && Ready(end.line)
            && |end.line.writes| == |w.line.writes| + |orders|
            && var s := Serving(h, w.log, Sent(w, end), env);
               && s == Session(s.frames, w.log + CallsOf(orders), [], false)
               && DeliveredAll(orders, s.frames, results)
  {
    Rounds(h, w, orders, env);
    OneSession(h, w, orders, env);
    hide Conversing;
    hide Serving;
    hide DeliveredAll;
  }
}
