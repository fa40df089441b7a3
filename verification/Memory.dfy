/**
 A server whose handler keeps 65536 holding registers and 65536 coils. Over any sequence of reads and
 writes, overlapping or not, a client sees just what the memory would hold if it were its own; and every
 list of values, of every width and in every byte and word order, comes back as it was written.
 */
module Memory {
  import opened Bytes
  import opened Encoding
  import opened EndToEnd
  import opened Links
  import opened Modbus
  import opened Ops
  import opened Server

  const SIZE: nat := 0x1_0000

  datatype Store = Store(registers: seq<uint16>, coils: seq<bool>) {
    predicate Sized() {
      |registers| == |coils| == SIZE
    }
  }

  /** Values put in place from an address on. */
  function Stored<T>(cells: seq<T>, addr: nat, values: seq<T>): (after: seq<T>)
    requires addr + |values| <= |cells|
    ensures |after| == |cells|
    ensures after[addr..addr + |values|] == values
    ensures forall i :: 0 <= i < |cells| && !(addr <= i < addr + |values|) ==> after[i] == cells[i]
  {
    cells[..addr] + values + cells[addr + |values|..]
  }

  // ---- The handler ----

  function After(store: Store, call: Call): (after: Store)
    requires store.Sized()
    ensures after.Sized()
  {
    if !call.Writes() || !call.InRange() then store
    else if call.Coils? then store.(coils := Stored(store.coils, call.addr, call.bits))
    else store.(registers := Stored(store.registers, call.addr, call.words))
  }

  /** The memory once the calls so far are done. */
  function Contents(start: Store, log: seq<Call>): (store: Store)
    requires start.Sized()
    ensures store.Sized()
  {
    if log == [] then start else After(Contents(start, log[..|log| - 1]), log[|log| - 1])
  }

  function FetchedBits(store: Store, call: Call): Result<seq<bool>>
    requires store.Sized()
  {
    if !call.Coils? then Err(IllegalFunction)
    else if !call.InRange() then Err(IllegalDataAddress)
    else if call.isWrite then Ok([])
    else Ok(store.coils[call.addr..call.addr + call.quantity])
  }

  function FetchedWords(store: Store, call: Call): Result<seq<uint16>>
    requires store.Sized()
  {
    if !call.HoldingRegisters? then Err(IllegalFunction)
    else if !call.InRange() then Err(IllegalDataAddress)
    else if call.isWrite then Ok([])
    else Ok(store.registers[call.addr..call.addr + call.quantity])
  }

  function MemoryHandler(start: Store): Handler
    requires start.Sized()
  {
    Handler((log, call) => FetchedBits(Contents(start, log), call),
            (log, call) => FetchedWords(Contents(start, log), call))
  }

  // ---- What the client sees ----

  /** A request in range for coils or holding registers. */
  predicate OnMemory(op: Op) {
    InRange(op) && (op.ReadBools? ==> !op.di) && (op.ReadRegisters? ==> op.regType.HoldingRegister?)
  }

  lemma AllInRange(orders: seq<Order>)
    requires forall i :: 0 <= i < |orders| ==> OnMemory(orders[i].op)
    ensures forall i :: 0 <= i < |orders| ==> InRange(orders[i].op)
  {
    hide InRange;
    forall i | 0 <= i < |orders|
      ensures InRange(orders[i].op)
    {
      assert OnMemory(orders[i].op);
    }
  }

  /** What a memory of the client's own would answer, and what it would hold then. */
  function Obeyed(store: Store, op: Op): (r: (Outcome, Store))
    requires store.Sized() && OnMemory(op)
    ensures r.1.Sized()
  {
    match op
    case ReadBools(addr, quantity, _) => (Bools(store.coils[addr..addr + quantity]), store)
    case ReadRegisters(addr, quantity, _) =>
      (Registers(EncodeWords(BigEndian, store.registers[addr..addr + quantity])), store)
    case WriteCoil(addr, value) => (Done, store.(coils := Stored(store.coils, addr, [value])))
    case WriteCoils(addr, values) => (Done, store.(coils := Stored(store.coils, addr, values)))
    case WriteRegister(addr, e, word) =>
      (Done, store.(registers := Stored(store.registers, addr, [BytesToUint16(BigEndian, Uint16ToBytes(e, word))])))
    case WriteRegisters(addr, bytes) =>
      (Done, store.(registers := Stored(store.registers, addr, DecodeWords(BigEndian, bytes))))
  }

  function ObeyedAll(store: Store, orders: seq<Order>): (r: (seq<Result<Outcome>>, Store))
    requires store.Sized() && forall i :: 0 <= i < |orders| ==> OnMemory(orders[i].op)
    ensures r.1.Sized()
    decreases orders
  {
    if orders == [] then ([], store) else
    var (outcome, next) := Obeyed(store, orders[0].op);
    var (rest, end) := ObeyedAll(next, orders[1..]);
    ([Ok(outcome)] + rest, end)
  }

  /**
   Over any sequence of reads and writes in range through the server, every result is what a memory of
   the client's own would give, and the server's memory ends up as that one would.
   */
  lemma Remembers(start: Store, w: World, orders: seq<Order>, env: Env)
    requires start.Sized() && Ready(w.line) && !Trouble(env)
    requires forall i :: 0 <= i < |orders| ==> OnMemory(orders[i].op)
    ensures var (results, end) := Conversing(MemoryHandler(start), w, orders, env);
            (results, Contents(start, end.log)) == ObeyedAll(Contents(start, w.log), orders)
  {
    hide InRange;
    AllInRange(orders);
    MemoryAnswers(start, w.log, orders);
    hide ObeyedAll;
    hide Contents;
    hide Conversing;
    hide Serving;
    hide MemoryHandler;
    Transparent(MemoryHandler(start), w, orders, env);
  }

  /** The handler's part: what it is asked for a list of orders. */
  lemma {:induction false} MemoryAnswers(start: Store, log: seq<Call>, orders: seq<Order>)
    requires start.Sized() && forall i :: 0 <= i < |orders| ==> OnMemory(orders[i].op)
    requires forall i :: 0 <= i < |orders| ==> InRange(orders[i].op)
    ensures var h, calls := MemoryHandler(start), CallsOf(orders);
            && Polite(h, log, calls)
            && ExpectedAll(h, log, calls) == ObeyedAll(Contents(start, log), orders).0
            && Contents(start, log + calls) == ObeyedAll(Contents(start, log), orders).1
    decreases orders
  {
    hide InRange;
    if orders == [] {
      hide Contents;
      assert log + CallsOf(orders) == log;
    } else {
      hide *;
      var h, op, unitId := MemoryHandler(start), orders[0].op, orders[0].unitId;
      var call, store := CallOf(op, unitId), Contents(start, log);
      var later := CallsOf(orders[1..]);
      MemoryAnswer(start, log, op, unitId);
      MemoryAnswers(start, log + [call], orders[1..]);
      FirstCall(orders);
      FirstObeyed(store, orders);
      FirstExpected(h, log, call, later);
      assert log + ([call] + later) == log + [call] + later;
    }
  }

  lemma FirstObeyed(store: Store, orders: seq<Order>)
    requires store.Sized() && orders != [] && forall i :: 0 <= i < |orders| ==> OnMemory(orders[i].op)
    ensures var (outcome, next) := Obeyed(store, orders[0].op);
            var r, rest := ObeyedAll(store, orders), ObeyedAll(next, orders[1..]);
            r.0 == [Ok(outcome)] + rest.0 && r.1 == rest.1
  {
    hide Obeyed;
    hide OnMemory;
  }

  lemma FirstCall(orders: seq<Order>)
    requires orders != [] && forall i :: 0 <= i < |orders| ==> InRange(orders[i].op)
    ensures CallsOf(orders) == [CallOf(orders[0].op, orders[0].unitId)] + CallsOf(orders[1..])
  {
  }

  lemma FirstExpected(h: Handler, log: seq<Call>, call: Call, later: seq<Call>)
    ensures Polite(h, log, [call] + later) <==> !CriesFoul(h, log, call) && Polite(h, log + [call], later)
    ensures ExpectedAll(h, log, [call] + later) == [Expected(h, log, call)] + ExpectedAll(h, log + [call], later)
  {
    hide CriesFoul;
    hide Expected;
    assert ([call] + later)[1..] == later;
  }

  /** One call of the memory, as the client sees it. */
  lemma MemoryAnswer(start: Store, log: seq<Call>, op: Op, unitId: byte)
    requires start.Sized() && OnMemory(op)
    ensures var h, call := MemoryHandler(start), CallOf(op, unitId);
            && !CriesFoul(h, log, call)
            && Expected(h, log, call) == Ok(Obeyed(Contents(start, log), op).0)
            && Contents(start, log + [call]) == Obeyed(Contents(start, log), op).1
  {
    var call := CallOf(op, unitId);
    Understood(op, unitId);
    InvokedExactly(Request(op, unitId).value, call);
    ContentsAfter(start, log, call);
    hide Contents;
    hide Request;
    hide Judge;
    hide Asks;
    hide EncodeWords;
    hide DecodeWords;
    hide Stored;
  }

  lemma ContentsAfter(start: Store, log: seq<Call>, call: Call)
    requires start.Sized()
    ensures Contents(start, log + [call]) == After(Contents(start, log), call)
  {
    assert (log + [call])[..|log|] == log;
  }

  // ---- Values come back ----

  /** A write, and a read after it. */
  function StoreAndFetch(start: Store, w: World, unitId: byte, write: Op, read: Op, env: Env)
    : (seq<Result<Outcome>>, World)
    requires start.Sized()
  {
    Conversing(MemoryHandler(start), w, [Order(unitId, write), Order(unitId, read)], env)
  }

  lemma WriteThenRead(start: Store, w: World, unitId: byte, write: Op, read: Op, env: Env)
    requires start.Sized() && Ready(w.line) && !Trouble(env)
    requires OnMemory(write) && OnMemory(read)
    ensures var (results, end) := StoreAndFetch(start, w, unitId, write, read, env);
            var (first, middle) := Obeyed(Contents(start, w.log), write);
            var (second, last) := Obeyed(middle, read);
            results == [Ok(first), Ok(second)] && Contents(start, end.log) == last
  {
    hide InRange;
    hide Obeyed;
    hide Conversing;
    hide Contents;
    hide MemoryHandler;
    Remembers(start, w, [Order(unitId, write), Order(unitId, read)], env);
    TwoObeyed(Contents(start, w.log), Order(unitId, write), Order(unitId, read));
  }

  lemma TwoObeyed(store: Store, a: Order, b: Order)
    requires store.Sized() && OnMemory(a.op) && OnMemory(b.op)
    ensures var (first, middle) := Obeyed(store, a.op);
            var (second, last) := Obeyed(middle, b.op);
            var r := ObeyedAll(store, [a, b]);
            r.0 == [Ok(first), Ok(second)] && r.1 == last
  {
    hide *;
    var (first, middle) := Obeyed(store, a.op);
    var (second, last) := Obeyed(middle, b.op);
    assert [a, b][1..] == [b] && [b][1..] == [];
    FirstObeyed(store, [a, b]);
    FirstObeyed(middle, [b]);
    NoneObeyed(last);
    var r := ObeyedAll(store, [a, b]);
    assert r.0 == [Ok(first)] + [Ok(second)] && r.1 == last;
  }

  lemma NoneObeyed(store: Store)
    requires store.Sized()
    ensures ObeyedAll(store, []) == ([], store)
  {
  }

  /** No register but some, and no coil, has changed. */
  ghost predicate Kept(start: Store, w: World, end: World, addr: nat, quantity: nat)
    requires start.Sized()
  {
    var before, after := Contents(start, w.log), Contents(start, end.log);
    && after.coils == before.coils
    && forall i :: 0 <= i < SIZE && !(addr <= i < addr + quantity) ==> after.registers[i] == before.registers[i]
  }

  lemma StoredAndFetched(start: Store, w: World, unitId: byte, addr: uint16, bytes: seq<byte>, quantity: uint16, env: Env)
    requires start.Sized() && Ready(w.line) && !Trouble(env)
    requires |bytes| == 2 * quantity && 1 <= quantity <= MAX_WRITE_WORDS && addr + quantity <= SIZE
    ensures var (results, end) :=
              StoreAndFetch(start, w, unitId, WriteRegisters(addr, bytes),
                            ReadRegisters(addr, quantity, HoldingRegister), env);
            results == [Ok(Done), Ok(Registers(bytes))] && Kept(start, w, end, addr, quantity)
  {
    var write, read := WriteRegisters(addr, bytes), ReadRegisters(addr, quantity, HoldingRegister);
    var words := DecodeWords(BigEndian, bytes);
    assert |bytes| % 2 == 0 && |words| == quantity;
    assert OnMemory(write) && OnMemory(read);
    WriteThenRead(start, w, unitId, write, read, env);
    EncodeDecoded(BigEndian, bytes);
    hide StoreAndFetch;
    hide Contents;
    hide Stored;
    hide EncodeWords;
    hide DecodeWords;
  }

  /** Words come back as written, in either byte order. */
  lemma WordsComeBack(start: Store, w: World, unitId: byte, addr: uint16, e: Endianness, words: seq<uint16>, env: Env)
    requires start.Sized() && Ready(w.line) && !Trouble(env)
    requires 1 <= |words| <= MAX_WRITE_WORDS && addr + |words| <= SIZE
    ensures var write, read := WriteRegisters(addr, EncodeWords(e, words)), ReadRegisters(addr, |words|, HoldingRegister);
            var (results, end) := StoreAndFetch(start, w, unitId, write, read, env);
            && |results| == 2 && results[0] == Ok(Done)
            && WordsRead(e, results[1]) == Ok(words)
            && Kept(start, w, end, addr, |words|)
  {
    StoredAndFetched(start, w, unitId, addr, EncodeWords(e, words), |words|, env);
    DecodeEncoded(e, words);
    hide StoreAndFetch;
    hide EncodeWords;
    hide DecodeWords;
    hide Kept;
  }

  lemma {:induction false} WordsOfLength(n: nat, o: WordOrder, values: seq<nat>)
    requires n == 2 || n == 4
    ensures |WordsOf(n, o, values)| == if n == 2 then 2 * |values| else 4 * |values|
  {
    hide Words;
    if values != [] {
      WordsOfLength(n, o, values[1..]);
    }
  }

  /** So do 32-bit and 64-bit values, in either byte order and either word order. */
  lemma WideValuesComeBack(start: Store, w: World, unitId: byte, addr: uint16, n: nat, e: Endianness, o: WordOrder,
                           values: seq<nat>, env: Env)
    requires start.Sized() && Ready(w.line) && !Trouble(env)
    requires (n == 2 && |values| <= 61) || (n == 4 && |values| <= 30)
    requires values != [] && Fit(n, values) && addr + WideCount(n, |values|) <= SIZE
    ensures var count := WideCount(n, |values|);
            var write := WriteRegisters(addr, EncodeWords(e, WordsOf(n, o, values)));
            var (results, end) := StoreAndFetch(start, w, unitId, write, ReadRegisters(addr, count, HoldingRegister), env);
            && |results| == 2 && results[0] == Ok(Done)
            && ValuesRead(n, e, o, results[1]) == Ok(values)
            && Kept(start, w, end, addr, count)
  {
    var words := WordsOf(n, o, values);
    WordsOfLength(n, o, values);
    assert |words| == WideCount(n, |values|) && 1 <= |words| <= MAX_WRITE_WORDS;
    WordsComeBack(start, w, unitId, addr, e, words, env);
    ValuesOfWordsOf(n, o, values);
    hide StoreAndFetch;
    hide EncodeWords;
    hide WordsRead;
    hide WordsOf;
    hide ValuesOf;
    hide Kept;
  }

  /** So do bytes, swapped or raw, an odd number of them included. */
  lemma BytesComeBack(start: Store, w: World, unitId: byte, addr: uint16, swap: bool, values: seq<byte>, env: Env)
    requires start.Sized() && Ready(w.line) && !Trouble(env)
    requires 1 <= |values| <= 246 && addr + RegistersFor(|values|) <= SIZE
    ensures var quantity := RegistersFor(|values|);
            var write, read := WriteRegisters(addr, Outgoing(values, swap)), ReadRegisters(addr, quantity, HoldingRegister);
            var (results, end) := StoreAndFetch(start, w, unitId, write, read, env);
            && |results| == 2 && results[0] == Ok(Done)
            && BytesRead(|values|, swap, results[1]) == Ok(values)
            && Kept(start, w, end, addr, quantity)
  {
    var padded, quantity := Padded(values), RegistersFor(|values|);
    assert |padded| == 2 * quantity && padded[..|values|] == values;
    SwappedWords(padded);
    hide StoreAndFetch;
    hide Swapped;
    hide Padded;
    hide Kept;
    StoredAndFetched(start, w, unitId, addr, Outgoing(values, swap), quantity, env);
  }

  /** So does a single register written by itself. */
  lemma RegisterComesBack(start: Store, w: World, unitId: byte, addr: uint16, e: Endianness, word: uint16, env: Env)
    requires start.Sized() && Ready(w.line) && !Trouble(env)
    ensures var write, read := WriteRegister(addr, e, word), ReadRegisters(addr, 1, HoldingRegister);
            var (results, end) := StoreAndFetch(start, w, unitId, write, read, env);
            && |results| == 2 && results[0] == Ok(Done)
            && WordsRead(e, results[1]) == Ok([word])
            && Kept(start, w, end, addr, 1)
  {
    var write, read := WriteRegister(addr, e, word), ReadRegisters(addr, 1, HoldingRegister);
    var bs := Uint16ToBytes(e, word);
    var seen := BytesToUint16(BigEndian, bs);
    OneWord(BigEndian, bs);
    OneWord(e, bs);
    assert BytesToUint16(e, bs) == word;
    assert OnMemory(write) && OnMemory(read);
    hide EncodeWords;
    hide DecodeWords;
    hide Uint16ToBytes;
    hide BytesToUint16;
    hide StoreAndFetch;
    hide Contents;
    hide OnMemory;
    hide InRange;
    WriteThenRead(start, w, unitId, write, read, env);
    var registers := Contents(start, w.log).registers;
    assert Stored(registers, addr, [seen])[addr..addr + 1] == [seen];
    hide Stored;
  }

  lemma OneWord(e: Endianness, bs: seq<byte>)
    requires |bs| == 2
    ensures DecodeWords(e, bs) == [BytesToUint16(e, bs)] && EncodeWords(e, [BytesToUint16(e, bs)]) == bs
  {
    assert bs[..2] == bs && bs[2..] == [];
    EncodeDecoded(e, bs);
  }

  /** So do coils, and no other coil or register changes. */
  lemma CoilsComeBack(start: Store, w: World, unitId: byte, addr: uint16, values: seq<bool>, env: Env)
    requires start.Sized() && Ready(w.line) && !Trouble(env)
    requires 1 <= |values| <= MAX_WRITE_BITS && addr + |values| <= SIZE
    ensures var write, read := WriteCoils(addr, values), ReadBools(addr, |values|, false);
            var (results, end) := StoreAndFetch(start, w, unitId, write, read, env);
            var before, after := Contents(start, w.log), Contents(start, end.log);
            && results == [Ok(Done), Ok(Bools(values))]
            && after.registers == before.registers
            && forall i :: 0 <= i < SIZE && !(addr <= i < addr + |values|) ==> after.coils[i] == before.coils[i]
  {
    var write, read := WriteCoils(addr, values), ReadBools(addr, |values|, false);
    WriteThenRead(start, w, unitId, write, read, env);
    hide StoreAndFetch;
    hide Contents;
    hide Stored;
  }
}
