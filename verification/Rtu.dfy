/**
 internal/modbus/rtu_transport.go: RTU frames, whose length follows from the function code and the
 byte after it, the errors their CRC catches, and the pacing of requests on the line.
 */
module Rtu {
  import opened Bytes
  import opened Crcs
  import opened Encoding
  import opened Links
  import opened Modbus
  import opened TwoBits

  const MAX_RTU_FRAME_LENGTH: nat := 256

  // ---- Frames ----

  /** How many bytes follow the first payload byte of a response; none for an unknown response code. */
  function ExpectedResponseLength(responseCode: byte, responseLength: byte): Option<nat> {
    if responseCode in {FC_READ_HOLDING_REGISTERS, FC_READ_INPUT_REGISTERS, FC_READ_COILS, FC_READ_DISCRETE_INPUTS} then
      Some(responseLength)
    else if responseCode in {FC_WRITE_SINGLE_REGISTER, FC_WRITE_MULTIPLE_REGISTERS, FC_WRITE_SINGLE_COIL,
                             FC_WRITE_MULTIPLE_COILS} then
      Some(3)
    else if responseCode == FC_MASK_WRITE_REGISTER then
      Some(5)
    else if responseCode in {0x83, 0x84, 0x81, 0x82, 0x86, 0x90, 0x85, 0x8f, 0x96} then
      Some(0)
    else
      None
  }

  function Body(p: Pdu): seq<byte> {
    [p.unitId, p.functionCode] + p.payload
  }

  /** A PDU with its CRC. */
  function Print(p: Pdu): seq<byte> {
    Body(p) + Uint16ToBytes(LittleEndian, CrcOf(Body(p)))
  }

  /** The payload is as long as its function code and first byte say, and the frame fits the buffer. */
  predicate Shaped(p: Pdu) {
    && 1 <= |p.payload| <= 252
    && ExpectedResponseLength(p.functionCode, p.payload[0]) == Some(|p.payload| - 1)
  }

  datatype FrameRead = FrameRead(result: Result<Pdu>, rest: seq<byte>)

  /** How many bytes follow the three of the header, its CRC included. */
  function Needed(head: FullRead): (r: Result<nat>)
    ensures r.Ok? && |head.data| <= 3 ==> |head.data| == 3 && r.value + 3 <= MAX_RTU_FRAME_LENGTH && 2 <= r.value
  {
    if 0 < |head.data| < 3 then Err(ShortFrame)
    else if head.err.Some? && head.err.value != UnexpectedEof then Err(FromLink(head.err.value))
    else if head.data == [] then Err(ProtocolError)
    else
      match ExpectedResponseLength(head.data[1], head.data[2])
      case None => Err(ProtocolError)
      case Some(length) =>
        if 3 + length + 2 > MAX_RTU_FRAME_LENGTH then Err(ProtocolError) else Ok(length + 2)
  }

  /** What becomes of a header and the bytes after it. */
  function Completed(header: seq<byte>, tail: FullRead, needed: nat): Result<Pdu>
    requires |header| == 3 && 2 <= needed
  {
    if tail.err.Some? && tail.err.value != UnexpectedEof then Err(FromLink(tail.err.value))
    else if |tail.data| != needed then Err(ShortFrame)
    else Checked(header + tail.data)
  }

  /** What reading a frame makes of a stream. */
  function ReadingFrame(stream: seq<byte>, fate: LinkError): FrameRead {
    var head := ReadingFull(stream, fate, 3);
    match Needed(head)
    case Err(e) => FrameRead(Err(e), head.rest)
    case Ok(needed) =>
      var tail := ReadingFull(head.rest, fate, needed);
      FrameRead(Completed(head.data, tail, needed), tail.rest)
  }

  /** The PDU in a frame, if its CRC is right. */
  function Checked(frame: seq<byte>): Result<Pdu>
    requires 4 <= |frame|
  {
    if EndsInCrc(frame) then Ok(Pdu(frame[0], frame[1], frame[2..|frame| - 2])) else Err(BadCRC)
  }

  /** A stream that starts with a header of known length, and holds that many bytes. */
  lemma ReadWhole(frame: seq<byte>, rest: seq<byte>, fate: LinkError)
    requires 5 <= |frame| <= MAX_RTU_FRAME_LENGTH
    requires ExpectedResponseLength(frame[1], frame[2]) == Some(|frame| - 5)
    ensures ReadingFrame(frame + rest, fate) == FrameRead(Checked(frame), rest)
  {
    hide EndsInCrc;
    hide ExpectedResponseLength;
    var stream := frame + rest;
    var n := |frame| - 3;
    assert stream[..3] == frame[..3] && stream[3..] == frame[3..] + rest;
    assert (frame[3..] + rest)[..n] == frame[3..] && (frame[3..] + rest)[n..] == rest;
    assert frame[..3] + frame[3..] == frame;
  }

  /** A successful read has consumed a whole frame of the length its header asks for. */
  lemma WholeRead(stream: seq<byte>, fate: LinkError)
    requires ReadingFrame(stream, fate).result.Ok?
    ensures var r := ReadingFrame(stream, fate);
            var n := |stream| - |r.rest|;
            && 5 <= n <= MAX_RTU_FRAME_LENGTH && n <= |stream|
            && r.rest == stream[n..]
            && ExpectedResponseLength(stream[1], stream[2]) == Some(n - 5)
            && EndsInCrc(stream[..n])
            && r.result == Ok(Pdu(stream[0], stream[1], stream[2..n - 2]))
  {
    hide EndsInCrc;
    hide ExpectedResponseLength;
    var head := ReadingFull(stream, fate, 3);
    var length := ExpectedResponseLength(head.data[1], head.data[2]).value;
    var n := length + 5;
    assert stream[3..][..length + 2] == stream[3..n] && stream[3..][length + 2..] == stream[n..];
    var frame := stream[..3] + stream[3..n];
    assert frame == stream[..n];
    assert frame[2..|frame| - 2] == stream[2..n - 2];
  }

  lemma PrintEndsInCrc(p: Pdu)
    ensures EndsInCrc(Print(p)) && |Print(p)| == |p.payload| + 4
  {
    var f, n := Print(p), |Body(p)|;
    assert f[..n] == Body(p) && f[n..] == Uint16ToBytes(LittleEndian, CrcOf(Body(p)));
  }

  /** A PDU comes back from its frame, whatever follows it, exactly when it is shaped like a response. */
  lemma RoundTrip(p: Pdu, rest: seq<byte>, fate: LinkError)
    ensures ReadingFrame(Print(p) + rest, fate) == FrameRead(Ok(p), rest) <==> Shaped(p)
  {
    hide EndsInCrc;
    hide CrcOf;
    PrintEndsInCrc(p);
    var f := Print(p);
    if Shaped(p) {
      assert f[1] == p.functionCode && f[2] == p.payload[0];
      ReadWhole(f, rest, fate);
      assert f[2..|f| - 2] == p.payload;
    } else if ReadingFrame(f + rest, fate) == FrameRead(Ok(p), rest) {
      WholeRead(f + rest, fate);
    }
  }

  /** Whatever a successful read consumed is the frame of what it returned. */
  lemma PrintParsed(stream: seq<byte>, fate: LinkError)
    requires ReadingFrame(stream, fate).result.Ok?
    ensures var r := ReadingFrame(stream, fate);
            Shaped(r.result.value) && stream == Print(r.result.value) + r.rest
  {
    hide CrcOf;
    var r := ReadingFrame(stream, fate);
    var p := r.result.value;
    WholeRead(stream, fate);
    var n := |stream| - |r.rest|;
    var frame := stream[..n];
    hide ReadingFrame;
    assert frame[..n - 2] == Body(p);
    assert frame == frame[..n - 2] + frame[n - 2..];
    assert p.payload[0] == stream[2];
  }

  /** No proper prefix of a frame yields a PDU. */
  lemma NoPrefix(p: Pdu, k: nat, fate: LinkError)
    requires Shaped(p) && k < |Print(p)|
    ensures ReadingFrame(Print(p)[..k], fate).result.Err?
  {
    hide EndsInCrc;
    PrintEndsInCrc(p);
    var prefix := Print(p)[..k];
    if ReadingFrame(prefix, fate).result.Ok? {
      WholeRead(prefix, fate);
    }
  }

  // ---- Corrupted frames ----

  /** The corrupted frame still asks for as many bytes as it has. */
  predicate SameExtent(p: Pdu, corrupted: seq<byte>) {
    && |corrupted| == |Print(p)|
    && 5 <= |corrupted|
    && ExpectedResponseLength(corrupted[1], corrupted[2]) == Some(|corrupted| - 5)
  }

  /** Every burst of at most sixteen bits in a frame, its CRC included, is reported and yields no PDU. */
  lemma BurstRejected(p: Pdu, corrupted: seq<byte>, start: nat, rest: seq<byte>, fate: LinkError)
    requires Shaped(p) && SameExtent(p, corrupted)
    requires Burst(Print(p), corrupted, start)
    ensures ReadingFrame(corrupted + rest, fate) == FrameRead(Err(BadCRC), rest)
  {
    hide EndsInCrc;
    PrintEndsInCrc(p);
    BurstDetected(Print(p), corrupted, start);
    ReadWhole(corrupted, rest, fate);
  }

  /** So is every corruption of an odd number of bits. */
  lemma OddErrorRejected(p: Pdu, corrupted: seq<byte>, rest: seq<byte>, fate: LinkError)
    requires Shaped(p) && SameExtent(p, corrupted)
    requires CountOnes(FlippedBits(Print(p), corrupted)) % 2 == 1
    ensures ReadingFrame(corrupted + rest, fate) == FrameRead(Err(BadCRC), rest)
  {
    hide EndsInCrc;
    PrintEndsInCrc(p);
    OddErrorDetected(Print(p), corrupted);
    ReadWhole(corrupted, rest, fate);
  }

  /** And so is every corruption of one, two or three bits. */
  lemma FewErrorsRejected(p: Pdu, corrupted: seq<byte>, rest: seq<byte>, fate: LinkError)
    requires Shaped(p) && SameExtent(p, corrupted)
    requires 1 <= CountOnes(FlippedBits(Print(p), corrupted)) <= 3
    ensures ReadingFrame(corrupted + rest, fate) == FrameRead(Err(BadCRC), rest)
  {
    hide EndsInCrc;
    PrintEndsInCrc(p);
    FewErrorsDetected(Print(p), corrupted);
    ReadWhole(corrupted, rest, fate);
  }

  // ---- The transport ----

  /** A clock that never goes back. Times and durations are in nanoseconds. */
  class Clock {
    var now: int

    /** Time passes while other things happen. */
    method Pass()
      modifies this
      ensures now >= old(now)
    {
      var d :| 0 <= d;
      now := now + d;
    }

    method Sleep(duration: int)
      modifies this
      ensures now >= old(now) && now >= old(now) + duration
    {
      if duration > 0 {
        now := now + duration;
      }
      Pass();
    }
  }

  /** How long a byte of eleven bits takes on the line. */
  function SerialCharTime(rate: nat): nat
    requires rate > 0
  {
    11_000_000_000 / rate
  }

  /** The silence between frames: t3.5. */
  function InterFrameDelay(speed: nat): nat
    requires speed > 0
  {
    if speed >= 19200 then 1_750_000 else SerialCharTime(speed) * 35 / 10
  }

  /**
   How the silence compares with 3.5 characters of eleven bits, which take 38500000000 / speed nanoseconds;
   both sides are scaled by twice the speed. It falls short by less than four nanoseconds exactly for
   the rates outside 19200 to 21999, where it is shorter by up to 13 percent. It is fully as long
   exactly from 22000 bauds on, and for the lower rates at which no rounding occurs.
   */
  lemma FixedDelay(speed: nat)
    requires speed > 0
    ensures var covered, chars := 2 * (speed * InterFrameDelay(speed)), 77_000_000_000;
            && (chars - covered < 8 * speed <==> speed < 19200 || speed >= 22000)
            && (covered >= chars <==>
                  speed >= 22000 ||
                  (speed < 19200 && 11_000_000_000 % speed == 0 && SerialCharTime(speed) % 2 == 0))
  {
    if speed < 19200 {
      RoundedDelay(speed);
    } else {
      assert 2 * (speed * 1_750_000) == 3_500_000 * speed;
    }
  }

  /** Below 19200 bauds, the character time and then the silence are rounded down to whole nanoseconds. */
  lemma RoundedDelay(speed: nat)
    requires 0 < speed < 19200
    ensures var covered := 2 * (speed * InterFrameDelay(speed));
            && 77_000_000_000 - 8 * speed < covered <= 77_000_000_000
            && (covered == 77_000_000_000 <==> 11_000_000_000 % speed == 0 && SerialCharTime(speed) % 2 == 0)
  {
    var t1, t35 := SerialCharTime(speed), InterFrameDelay(speed);
    var r, d := 11_000_000_000 % speed, t1 % 2;
    TenTimesSeven(t1, t1 / 2, d);
    Rounded(speed, t1, t35, r, d);
  }

  lemma TenTimesSeven(t1: nat, h: nat, d: nat)
    requires t1 == 2 * h + d && d < 2
    ensures 2 * (t1 * 35 / 10) == 7 * t1 - d
  {
    Tenth(t1 * 35, 7 * h + 3 * d, 5 * d);
  }

  lemma Tenth(x: nat, k: nat, e: nat)
    requires x == 10 * k + e && e < 10
    ensures x / 10 == k
  {
  }

  /** What rounding takes away, r of the character time and d of the silence. */
  lemma Rounded(speed: nat, t1: nat, t35: nat, r: nat, d: nat)
    requires speed * t1 + r == 11_000_000_000 && r < speed && d < 2
    requires 2 * t35 == 7 * t1 - d
    ensures var covered := 2 * (speed * t35);
            && 77_000_000_000 - 8 * speed < covered <= 77_000_000_000
            && (covered == 77_000_000_000 <==> r == 0 && d == 0)
  {
    assert speed * (2 * t35) == speed * (7 * t1 - d) == 7 * (speed * t1) - speed * d;
    assert d == 0 ==> speed * d == 0;
    assert d == 1 ==> speed * d == speed;
  }

  /** The character time, to the nanosecond. */
  lemma CharTime(rate: nat)
    requires rate > 0
    ensures rate * SerialCharTime(rate) <= 11_000_000_000 < rate * (SerialCharTime(rate) + 1)
  {
    var t1, r := SerialCharTime(rate), 11_000_000_000 % rate;
    assert rate * t1 + r == 11_000_000_000;
    assert rate * (t1 + 1) == rate * t1 + rate;
  }

  /**
   From 19200 bauds on the silence is one and the same, exactly 3.5 characters at 22000 bauds; between the two
   rates it covers at least 87 percent of 3.5 characters.
   */
  lemma SilenceFrom19200(speed: nat)
    requires speed >= 19200
    ensures InterFrameDelay(speed) == InterFrameDelay(22000)
    ensures 22000 * InterFrameDelay(22000) == 38_500_000_000
    ensures 100 * (2 * (speed * InterFrameDelay(speed))) >= 87 * 77_000_000_000
  {
    assert 200 * (speed * 1_750_000) == 350_000_000 * speed;
  }

  /** A write on the line: when it started, how many bytes it sent, and whether it succeeded. */
  datatype Transmission = Transmission(start: int, length: nat, ok: bool)

  /** How long a transmission keeps the line busy. */
  function Busy(t: Transmission, t1: nat): nat {
    if t.ok then t.length * t1 else 0
  }

  /** Each transmission starts at least its own length in character times plus t3.5 before every later one. */
  ghost predicate Paced(log: seq<Transmission>, t1: nat, t35: nat) {
    forall i, j :: 0 <= i < j < |log| && log[i].ok ==> log[i].start + Busy(log[i], t1) + t35 <= log[j].start
  }

  /** The activity mark is past the end of every transmission. */
  ghost predicate Marked(log: seq<Transmission>, t1: nat, lastActivity: int) {
    forall i :: 0 <= i < |log| && log[i].ok ==> log[i].start + Busy(log[i], t1) <= lastActivity
  }

  /** What one exchange does: its result, the stream left, and what was written. */
  datatype Exchange = Exchange(result: Result<Pdu>, rest: seq<byte>, written: seq<seq<byte>>)

  function Executing(pending: seq<byte>, env: Env, req: Pdu): Exchange {
    if env.deadlineError.Some? then Exchange(Err(FromLink(env.deadlineError.value)), pending, [])
    else if env.writeError.Some? then Exchange(Err(FromLink(env.writeError.value)), pending, [])
    else
      var r := ReadingFrame(pending, env.fate);
      Exchange(r.result, Flushed(r, env.fate), [Print(req)])
  }

  /** The three errors of framing. */
  predicate OutOfStep(r: Result<Pdu>) {
    r == Err(BadCRC) || r == Err(ShortFrame) || r == Err(ProtocolError)
  }

  /** After a framing error, up to 1024 further bytes are thrown away. */
  function Flushed(r: FrameRead, fate: LinkError): seq<byte> {
    if OutOfStep(r.result) then ReadingFull(r.rest, fate, 1024).rest
    else r.rest
  }

  class RtuTransport {
    const conn: Conn
    const clock: Clock
    const t35: nat
    const t1: nat
    var lastActivity: int
    ghost var log: seq<Transmission>

    ghost predicate Valid()
      reads this, conn.Repr()
    {
      && this !in conn.Repr() && clock !in conn.Repr() && conn.Valid()
      && Paced(log, t1, t35)
      && Marked(log, t1, lastActivity)
    }

    constructor (conn: Conn, clock: Clock, speed: nat, lastActivity: int)
      requires conn.Valid() && clock !in conn.Repr() && speed > 0
      ensures Valid()
      ensures this.conn == conn && this.clock == clock && this.lastActivity == lastActivity && log == []
      ensures t1 == SerialCharTime(speed) && t35 == InterFrameDelay(speed)
    {
      this.conn, this.clock, this.lastActivity, this.log := conn, clock, lastActivity, [];
      this.t1, this.t35 := SerialCharTime(speed), InterFrameDelay(speed);
    }

    /**
     Runs a request across the link and returns a response. The transmission starts no sooner than t3.5 after the
     activity mark, and the mark never goes back. Once the frame is out, t3.5 passes behind its last character,
     and after a framing error the longest frame's time as well. Then the mark is the present, or that last
     character if the line was silent; an exchange that sends nothing leaves it alone.
     */
    method ExecuteRequest(req: Pdu) returns (r: Result<Pdu>)
      requires Valid()
      modifies this, clock, conn.Repr()
      ensures Valid() && conn.Env() == old(conn.Env())
      ensures var x := Executing(old(conn.Pending()), conn.Env(), req);
              && r == x.result
              && conn.Pending() == x.rest
              && conn.Writes() == old(conn.Writes()) + x.written
      ensures lastActivity >= old(lastActivity) && clock.now >= old(clock.now)
      ensures conn.Env().deadlineError.Some? ==> log == old(log)
      ensures conn.Env().deadlineError.None? ==>
                && |log| == |old(log)| + 1
                && log[..|old(log)|] == old(log)
                && log[|old(log)|].start >= old(lastActivity) + t35
                && log[|old(log)|].length == |Print(req)|
                && log[|old(log)|].ok == conn.Env().writeError.None?
      ensures conn.Env().deadlineError.Some? || conn.Env().writeError.Some? ==> lastActivity == old(lastActivity)
      ensures conn.Env().deadlineError.None? && conn.Env().writeError.None? ==>
                var due := log[|old(log)|].start + |Print(req)| * t1;
                && clock.now >= due + t35 + (if OutOfStep(r) then 256 * t1 else 0)
                && lastActivity == if r == Err(RequestTimedOut) then due else clock.now
    {
      hide Conn.Pending;
      hide Conn.Valid;
      hide Conn.Env;
      hide Conn.Writes;
      hide Paced;
      hide Marked;
      hide Print;
      hide ReadingFrame;
      hide Flushed;
      var err := conn.SetDeadline();
      if err.Some? {
        return Err(FromLink(err.value));
      }
      err := Transmit(req);
      if err.Some? {
        return Err(FromLink(err.value));
      }
      r := Listen();
    }

    /** Sleeps until t3.5 after the mark, if that is still to come. */
    method AwaitSilence()
      modifies clock
      ensures clock.now >= old(clock.now) && clock.now >= lastActivity + t35
    {
      var t := clock.now - (lastActivity + t35);
      if t < 0 {
        clock.Sleep(-t);
      }
    }

    /** Sends a frame, once the line has been silent for t3.5. */
    method Transmit(req: Pdu) returns (err: Option<LinkError>)
      requires Valid()
      modifies this, clock, conn.Repr()
      ensures Valid() && conn.Env() == old(conn.Env()) && conn.Pending() == old(conn.Pending())
      ensures err == conn.Env().writeError
      ensures conn.Writes() == old(conn.Writes()) + if err.None? then [Print(req)] else []
      ensures lastActivity >= old(lastActivity) && clock.now >= old(clock.now)
      ensures |log| == |old(log)| + 1 && log[..|old(log)|] == old(log)
      ensures var t := log[|old(log)|];
              && t.start >= old(lastActivity) + t35 && t.length == |Print(req)| && t.ok == err.None?
              && lastActivity == if err.None? then t.start + |Print(req)| * t1 else old(lastActivity)
    {
      hide Busy;
      hide Conn.Budget;
      hide Conn.Closed;
      hide Conn.Pending;
      hide Conn.Valid;
      hide Conn.Env;
      hide Conn.Writes;
      hide Paced;
      hide Marked;
      hide Print;
      AwaitSilence();
      var ts := clock.now;
      var frame := AssembleRtuFrame(req);
      var n;
      n, err := conn.Write(frame);
      clock.Pass();
      Record(ts, |frame|, n, err.None?);
    }

    /**
     Moves the mark past a write that succeeded: the bytes may have been buffered, so the mark is when the last
     character is due.
     */
    method Record(ts: int, ghost length: nat, n: nat, ok: bool)
      requires Valid() && lastActivity + t35 <= ts
      requires ok ==> n == length
      modifies `lastActivity, `log
      ensures Valid()
      ensures log == old(log) + [Transmission(ts, length, ok)]
      ensures lastActivity == (if ok then ts + length * t1 else old(lastActivity)) && lastActivity >= old(lastActivity)
    {
      hide Conn.Valid;
      hide Paced;
      hide Marked;
      PacedSnoc(log, Transmission(ts, length, ok), t1, t35, lastActivity);
      log := log + [Transmission(ts, length, ok)];
      if ok {
        lastActivity := ts + n * t1;
      }
    }

    /** Reads the response back once the line has been silent, and flushes the line after a framing error. */
    method Listen() returns (r: Result<Pdu>)
      requires Valid()
      modifies this, clock, conn.Repr()
      ensures Valid() && conn.Env() == old(conn.Env()) && conn.Writes() == old(conn.Writes())
      ensures var x := ReadingFrame(old(conn.Pending()), conn.Env().fate);
              r == x.result && conn.Pending() == Flushed(x, conn.Env().fate)
      ensures lastActivity >= old(lastActivity) && clock.now >= old(clock.now) && log == old(log)
      ensures clock.now >= old(lastActivity) + t35 + (if OutOfStep(r) then 256 * t1 else 0)
      ensures lastActivity == if r == Err(RequestTimedOut) then old(lastActivity) else clock.now
    {
      hide Conn.Pending;
      hide Conn.Valid;
      hide Conn.Env;
      hide Conn.Writes;
      hide Paced;
      hide Marked;
      hide ReadingFull;
      hide ReadingFrame;
      clock.Sleep(lastActivity + t35 - clock.now);
      r := ReadRtuFrame();
      clock.Pass();
      if r == Err(BadCRC) || r == Err(ProtocolError) || r == Err(ShortFrame) {
        Resync();
      }
      // silence leaves the mark where the write has put it
      if r != Err(RequestTimedOut) {
        MarkedLater(log, t1, lastActivity, clock.now);
        lastActivity := clock.now;
      }
    }

    /** Throws away what else is on the line. */
    method Resync()
      requires Valid()
      modifies clock, conn.Repr()
      ensures Valid() && conn.Env() == old(conn.Env()) && conn.Writes() == old(conn.Writes())
      ensures conn.Pending() == ReadingFull(old(conn.Pending()), conn.Env().fate, 1024).rest
      ensures clock.now >= old(clock.now) + 256 * t1
    {
      hide Conn.Pending;
      hide Conn.Valid;
      hide Conn.Env;
      hide Conn.Writes;
      hide ReadingFull;
      clock.Sleep(MAX_RTU_FRAME_LENGTH * t1);
      var data, err := ReadFull(conn, 1024);
      clock.Pass();
    }

    /** Header and remainder of a frame, in one buffer. */
    method ReadRtuFrame() returns (r: Result<Pdu>)
      requires Valid()
      modifies conn.Repr()
      ensures Valid() && conn.Env() == old(conn.Env()) && conn.Writes() == old(conn.Writes())
      ensures FrameRead(r, conn.Pending()) == ReadingFrame(old(conn.Pending()), conn.Env().fate)
    {
      hide Conn.Pending;
      hide Conn.Valid;
      hide Conn.Env;
      hide Conn.Writes;
      hide Paced;
      hide Marked;
      hide Checked;
      hide Needed;
      hide ReadingFull;
      var rxbuf := new byte[MAX_RTU_FRAME_LENGTH](_ => 0);
      var header := ReadHeader(rxbuf);
      if header.Err? {
        return Err(header.error);
      }
      var bytesNeeded := header.value;
      var more, err := ReadFull(conn, bytesNeeded);
      if err.Some? && err.value != UnexpectedEof {
        return Err(FromLink(err.value));
      }
      if |more| != bytesNeeded {
        return Err(ShortFrame);
      }
      Store(rxbuf, 3, more);
      r := CheckFrame(rxbuf, 3 + bytesNeeded);
    }

    /** The first three bytes of a frame, and how many more they announce. */
    method ReadHeader(rxbuf: array<byte>) returns (bytesNeeded: Result<nat>)
      requires Valid() && rxbuf !in conn.Repr()
      requires rxbuf.Length == MAX_RTU_FRAME_LENGTH && rxbuf[1] == rxbuf[2] == 0
      modifies conn.Repr(), rxbuf
      ensures Valid() && conn.Env() == old(conn.Env()) && conn.Writes() == old(conn.Writes())
      ensures var head := ReadingFull(old(conn.Pending()), conn.Env().fate, 3);
              && bytesNeeded == Needed(head)
              && conn.Pending() == head.rest
              && (bytesNeeded.Ok? ==> rxbuf[..3] == head.data)
    {
      hide Conn.Pending;
      hide Conn.Valid;
      hide Conn.Env;
      hide Conn.Writes;
      hide Paced;
      hide Marked;
      hide ExpectedResponseLength;
      hide ReadingFull;
      var data, err := ReadFull(conn, 3);
      if (|data| > 0 || err.None?) && |data| != 3 {
        return Err(ShortFrame);
      }
      if err.Some? && err.value != UnexpectedEof {
        return Err(FromLink(err.value));
      }
      Store(rxbuf, 0, data);
      assert rxbuf[..|data|] == data;
      UnknownZero();
      var length := ExpectedResponseLength(rxbuf[1], rxbuf[2]);
      if length.None? {
        return Err(ProtocolError);
      }
      if |data| + length.value + 2 > MAX_RTU_FRAME_LENGTH {
        return Err(ProtocolError);
      }
      return Ok(length.value + 2);
    }

    /** Bytes read into the buffer at a given place. */
    method Store(rxbuf: array<byte>, at: nat, data: seq<byte>)
      requires at + |data| <= rxbuf.Length
      modifies rxbuf
      ensures rxbuf[..at + |data|] == old(rxbuf[..at]) + data
      ensures forall i :: at + |data| <= i < rxbuf.Length ==> rxbuf[i] == old(rxbuf[i])
    {
      forall i | 0 <= i < |data| {
        rxbuf[at + i] := data[i];
      }
    }

    /** Compares the CRC of the first n bytes with the CRC among them, and takes the PDU out. */
    method CheckFrame(rxbuf: array<byte>, n: nat) returns (r: Result<Pdu>)
      requires 4 <= n <= rxbuf.Length
      ensures r == Checked(rxbuf[..n])
    {
      hide AddBytes;
      ghost var frame := rxbuf[..n];
      var crc := new Crc();
      crc.Init();
      crc.Add(rxbuf[..n - 2]);
      var equal := crc.IsEqual(rxbuf[n - 2], rxbuf[n - 1]);
      assert rxbuf[..n - 2] == frame[..n - 2];
      assert [rxbuf[n - 2], rxbuf[n - 1]] == frame[n - 2..];
      if !equal {
        return Err(BadCRC);
      }
      assert rxbuf[2..n - 2] == frame[2..n - 2];
      return Ok(Pdu(rxbuf[0], rxbuf[1], rxbuf[2..n - 2]));
    }

    /** The body of a frame, then its CRC. */
    method AssembleRtuFrame(p: Pdu) returns (adu: seq<byte>)
      ensures adu == Print(p)
    {
      hide AddBytes;
      adu := [];
      adu := adu + [p.unitId];
      adu := adu + [p.functionCode];
      adu := adu + p.payload;
      assert adu == Body(p);
      var crc := new Crc();
      crc.Init();
      crc.Add(adu);
      var value := crc.Value();
      adu := adu + value;
    }
  }

  /** A transmission that starts t3.5 after the mark keeps the pacing, and the mark moves past it. */
  lemma PacedSnoc(log: seq<Transmission>, t: Transmission, t1: nat, t35: nat, mark: int)
    requires Paced(log, t1, t35) && Marked(log, t1, mark)
    requires mark + t35 <= t.start
    ensures Paced(log + [t], t1, t35)
    ensures Marked(log + [t], t1, if t.ok then t.start + Busy(t, t1) else mark)
    ensures mark <= t.start + Busy(t, t1)
  {
    hide Busy;
  }

  lemma MarkedLater(log: seq<Transmission>, t1: nat, mark: int, later: int)
    requires Marked(log, t1, mark) && mark <= later
    ensures Marked(log, t1, later)
  {
    hide Busy;
  }

  lemma UnknownZero()
    ensures ExpectedResponseLength(0, 0) == None
  {
  }
}
