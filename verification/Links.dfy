/**
 Byte streams under a transport: a socket or serial port that returns what it has in pieces of any
 size, the UDP adapter of internal/modbus/udp.go, and `io.ReadFull` over either.
 */
module Links {
  import opened Bytes
  import opened Modbus

  /**
   What the environment has in store for a link: how reading ends once the bytes are gone, and whether
   the other calls fail.
   */
  datatype Env = Env(fate: LinkError, writeError: Option<LinkError>, deadlineError: Option<LinkError>)

  /** A stream socket or serial port. */
  class Socket {
    var incoming: seq<byte>      // bytes still to be delivered
    var idle: nat                // reads that may still return nothing without an error
    var env: Env
    var writes: seq<seq<byte>>   // the buffers written so far
    var closed: bool

    constructor (incoming: seq<byte>, idle: nat, env: Env)
      ensures this.incoming == incoming && this.idle == idle && this.env == env && writes == [] && !closed
    {
      this.incoming, this.idle, this.env, this.writes, this.closed := incoming, idle, env, [], false;
    }

    /**
     Delivers any non-empty part of what is left, or nothing for a while; the error may come with the
     last bytes or after them.
     */
    method Read(limit: nat) returns (data: seq<byte>, err: Option<LinkError>)
      requires 0 < limit
      modifies `incoming, `idle
      ensures |data| <= limit
      ensures old(incoming) == data + incoming
      ensures err.Some? ==> err == Some(env.fate) && incoming == []
      ensures err.None? ==> |incoming| + idle < |old(incoming)| + old(idle)
      ensures |incoming| + idle <= |old(incoming)| + old(idle)
    {
      var stall: bool := *;
      if stall && idle > 0 {
        idle := idle - 1;
        return [], None;
      }
      if incoming == [] {
        return [], Some(env.fate);
      }
      var k: nat :| 0 < k <= limit && k <= |incoming|;
      data, incoming, err := incoming[..k], incoming[k..], None;
      var early: bool := *;
      if early && incoming == [] {
        err := Some(env.fate);
      }
    }

    method Write(data: seq<byte>) returns (n: nat, err: Option<LinkError>)
      modifies `writes
      ensures err == env.writeError
      ensures writes == if err.None? then old(writes) + [data] else old(writes)
      ensures err.None? ==> n == |data|
    {
      err := env.writeError;
      n := 0;
      if err.None? {
        writes := writes + [data];
        n := |data|;
      }
    }

  }

  const MAX_TCP_FRAME_LENGTH: nat := 260

  /** A UDP socket: every read takes one datagram, and what does not fit the buffer is lost. */
  class UdpSocket {
    var datagrams: seq<seq<byte>>
    var env: Env
    var writes: seq<seq<byte>>
    var closed: bool

    constructor (datagrams: seq<seq<byte>>, env: Env)
      ensures this.datagrams == datagrams && this.env == env && writes == [] && !closed
    {
      this.datagrams, this.env, this.writes, this.closed := datagrams, env, [], false;
    }

    method Read(limit: nat) returns (data: seq<byte>, err: Option<LinkError>)
      modifies `datagrams
      ensures old(datagrams) == [] ==> data == [] && err == Some(env.fate) && datagrams == []
      ensures old(datagrams) != [] ==> data == Cut(old(datagrams)[0], limit) && err == None && datagrams == old(datagrams)[1..]
    {
      if datagrams == [] {
        return [], Some(env.fate);
      }
      data, err := Cut(datagrams[0], limit), None;
      datagrams := datagrams[1..];
    }
  }

  function Cut(bs: seq<byte>, limit: nat): (r: seq<byte>)
    ensures |r| <= limit
  {
    if |bs| <= limit then bs else bs[..limit]
  }

  /** What reading datagrams into a full-size buffer yields. */
  function Received(datagrams: seq<seq<byte>>): seq<byte> {
    if datagrams == [] then [] else Cut(datagrams[0], MAX_TCP_FRAME_LENGTH) + Received(datagrams[1..])
  }

  /** Nothing is lost exactly when every datagram fits the buffer. */
  lemma {:induction false} NothingLost(datagrams: seq<seq<byte>>)
    ensures Received(datagrams) == Flat(datagrams) <==>
            forall i :: 0 <= i < |datagrams| ==> |datagrams[i]| <= MAX_TCP_FRAME_LENGTH
  {
    if datagrams != [] {
      var first, rest := datagrams[0], datagrams[1..];
      NothingLost(rest);
      ReceivedAtMost(rest);
      if Received(datagrams) == Flat(datagrams) {
        assert |Cut(first, MAX_TCP_FRAME_LENGTH)| + |Received(rest)| == |first| + |Flat(rest)|;
        assert Cut(first, MAX_TCP_FRAME_LENGTH) == first;
        assert Received(rest) == Flat(datagrams)[|first|..] == Flat(rest);
        forall i | 0 <= i < |datagrams|
          ensures |datagrams[i]| <= MAX_TCP_FRAME_LENGTH
        {
          assert i == 0 || datagrams[i] == rest[i - 1];
        }
      } else if |first| <= MAX_TCP_FRAME_LENGTH {
        assert Received(rest) != Flat(rest);
        var i :| 0 <= i < |rest| && |rest[i]| > MAX_TCP_FRAME_LENGTH;
        assert datagrams[i + 1] == rest[i];
      }
    }
  }

  lemma {:induction false} ReceivedAtMost(datagrams: seq<seq<byte>>)
    ensures |Received(datagrams)| <= |Flat(datagrams)|
  {
    if datagrams != [] {
      ReceivedAtMost(datagrams[1..]);
    }
  }

  /** `udpSockWrapper`: keeps what a read left over of a datagram for the next read. */
  class UdpSockWrapper {
    var leftoverCount: nat
    const rxbuf: array<byte>
    const sock: UdpSocket

    ghost predicate Valid()
      reads this
    {
      rxbuf.Length == MAX_TCP_FRAME_LENGTH && leftoverCount <= MAX_TCP_FRAME_LENGTH
    }

    ghost function Leftover(): seq<byte>
      requires Valid()
      reads this, rxbuf
    {
      rxbuf[..leftoverCount]
    }

    /** The byte stream still to come. */
    ghost function Pending(): seq<byte>
      requires Valid()
      reads this, rxbuf, sock
    {
      Leftover() + Received(sock.datagrams)
    }

    constructor (sock: UdpSocket)
      ensures Valid() && fresh(rxbuf) && this.sock == sock && Leftover() == []
    {
      this.leftoverCount := 0;
      this.rxbuf := new byte[MAX_TCP_FRAME_LENGTH](_ => 0);
      this.sock := sock;
    }

    /**
     A byte FIFO: bytes come out in order, none lost, none twice; one datagram at most is taken off the
     socket.
     */
    method Read(limit: nat) returns (data: seq<byte>, err: Option<LinkError>)
      requires Valid()
      modifies `leftoverCount, rxbuf, sock`datagrams
      ensures Valid()
      ensures |data| <= limit
      ensures old(Pending()) == data + Pending()
      ensures err.Some? <==> old(leftoverCount) == 0 && old(sock.datagrams) == []
      ensures err.Some? ==> data == [] && Pending() == [] && err == Some(sock.env.fate)
      ensures old(leftoverCount) > 0 ==> data == Cut(old(Leftover()), limit) && sock.datagrams == old(sock.datagrams)
      ensures old(leftoverCount) == 0 && err.None? ==>
                && data == Cut(Cut(old(sock.datagrams)[0], MAX_TCP_FRAME_LENGTH), limit)
                && sock.datagrams == old(sock.datagrams)[1..]
    {
      if leftoverCount > 0 {
        // the socket is not touched while something is left over
        err := None;
        data := Deliver(limit, leftoverCount, Received(sock.datagrams));
      } else {
        data, err := ReadDatagram(limit);
      }
    }

    method ReadDatagram(limit: nat) returns (data: seq<byte>, err: Option<LinkError>)
      requires Valid() && leftoverCount == 0
      modifies `leftoverCount, rxbuf, sock`datagrams
      ensures Valid()
      ensures |data| <= limit
      ensures old(Pending()) == data + Pending()
      ensures old(sock.datagrams) == [] ==> data == [] && Pending() == [] && err == Some(sock.env.fate)
      ensures old(sock.datagrams) != [] ==>
                && data == Cut(Cut(old(sock.datagrams)[0], MAX_TCP_FRAME_LENGTH), limit)
                && err == None
                && sock.datagrams == old(sock.datagrams)[1..]
    {
      ghost var queue := sock.datagrams;
      assert queue != [] ==> Received(queue) == Cut(queue[0], MAX_TCP_FRAME_LENGTH) + Received(queue[1..]);
      assert queue == [] ==> Received(queue) == [];
      hide Received;
      hide Cut;
      var got;
      got, err := sock.Read(MAX_TCP_FRAME_LENGTH);
      if err.Some? {
        return [], err;
      }
      forall i | 0 <= i < |got| {
        rxbuf[i] := got[i];
      }
      assert rxbuf[..|got|] == got;
      data := Deliver(limit, |got|, Received(queue[1..]));
    }

    /** Hands out the first bytes of the buffer and moves those left over to its beginning. */
    method Deliver(limit: nat, count: nat, ghost behind: seq<byte>) returns (data: seq<byte>)
      requires Valid() && count <= MAX_TCP_FRAME_LENGTH
      modifies `leftoverCount, rxbuf
      ensures Valid() && |data| <= limit
      ensures data == Cut(old(rxbuf[..count]), limit)
      ensures data + Leftover() == old(rxbuf[..count])
      ensures old(rxbuf[..count]) + behind == data + (Leftover() + behind)
    {
      var copied := if limit < count then limit else count;
      data := rxbuf[..copied];
      if count > copied {
        ShiftDown(copied, count);
      }
      leftoverCount := count - copied;
      assert (data + Leftover()) + behind == data + (Leftover() + behind);
    }

    /** Go's `copy(rxbuf, rxbuf[from:to])`, which allows for the overlap. */
    method ShiftDown(from: nat, to: nat)
      requires from <= to <= rxbuf.Length
      modifies rxbuf
      ensures rxbuf[..to - from] == old(rxbuf[from..to])
    {
      forall i | 0 <= i < to - from {
        rxbuf[i] := rxbuf[i + from];
      }
    }
  }

  /** Any run of reads of any sizes: the bytes delivered and those still to come are the stream, in order. */
  method ReadRun(usw: UdpSockWrapper, limits: seq<nat>) returns (chunks: seq<seq<byte>>)
    requires usw.Valid()
    modifies usw`leftoverCount, usw.rxbuf, usw.sock`datagrams
    ensures usw.Valid()
    ensures Flat(chunks) + usw.Pending() == old(usw.Pending())
  {
    hide UdpSockWrapper.Pending;
    hide Cut;
    ghost var stream := usw.Pending();
    chunks := [];
    assert Flat(chunks) + stream == stream;
    hide Flat;
    for i := 0 to |limits|
      invariant usw.Valid()
      invariant Flat(chunks) + usw.Pending() == stream
    {
      var data, err := usw.Read(limits[i]);
      if err.Some? {
        return;
      }
      FlatSnoc(chunks, data);
      assert Flat(chunks) + (data + usw.Pending()) == (Flat(chunks) + data) + usw.Pending();
      chunks := chunks + [data];
    }
  }

  /** The two kinds of link that transports sit on (`net.Conn` and `rtuLink` in the source). */
  datatype Conn = Stream(socket: Socket) | Datagrams(usw: UdpSockWrapper) {

    ghost function Repr(): set<object> {
      match this
      case Stream(socket) => {socket}
      case Datagrams(usw) => {usw, usw.rxbuf, usw.sock}
    }

    ghost predicate Valid()
      reads Repr()
    {
      Datagrams? ==> usw.Valid()
    }

    /** The bytes that reading will yield, whatever the pieces. */
    ghost function Pending(): seq<byte>
      requires Valid()
      reads Repr()
    {
      match this
      case Stream(socket) => socket.incoming
      case Datagrams(usw) => usw.Pending()
    }

    function Env(): Env
      reads Repr()
    {
      match this
      case Stream(socket) => socket.env
      case Datagrams(usw) => usw.sock.env
    }

    function Writes(): seq<seq<byte>>
      reads Repr()
    {
      match this
      case Stream(socket) => socket.writes
      case Datagrams(usw) => usw.sock.writes
    }

    function Closed(): bool
      reads Repr()
    {
      match this
      case Stream(socket) => socket.closed
      case Datagrams(usw) => usw.sock.closed
    }

    /** Bounds the number of reads until an error. */
    ghost function Budget(): nat
      requires Valid()
      reads Repr()
    {
      match this
      case Stream(socket) => |socket.incoming| + socket.idle
      case Datagrams(usw) => |usw.Pending()| + |usw.sock.datagrams|
    }

    method Read(limit: nat) returns (data: seq<byte>, err: Option<LinkError>)
      requires 0 < limit && Valid()
      modifies Repr()
      ensures Valid() && Env() == old(Env()) && Writes() == old(Writes()) && Closed() == old(Closed())
      ensures |data| <= limit
      ensures old(Pending()) == data + Pending()
      ensures err.Some? ==> err == Some(Env().fate) && Pending() == []
      ensures err.None? ==> Budget() < old(Budget())
    {
      hide Received;
      match this {
        case Stream(socket) =>
          data, err := socket.Read(limit);
        case Datagrams(usw) =>
          data, err := usw.Read(limit);
      }
    }

    method Write(data: seq<byte>) returns (n: nat, err: Option<LinkError>)
      requires Valid()
      modifies Repr()
      ensures Valid() && Env() == old(Env()) && Pending() == old(Pending()) && Closed() == old(Closed())
      ensures err == Env().writeError
      ensures Writes() == if err.None? then old(Writes()) + [data] else old(Writes())
      ensures err.None? ==> n == |data|
    {
      match this {
        case Stream(socket) =>
          n, err := socket.Write(data);
        case Datagrams(usw) =>
          err := usw.sock.env.writeError;
          n := 0;
          if err.None? {
            usw.sock.writes := usw.sock.writes + [data];
            n := |data|;
          }
      }
    }

    method SetDeadline() returns (err: Option<LinkError>)
      ensures err == Env().deadlineError
    {
      err := Env().deadlineError;
    }

    method Close()
      requires Valid()
      modifies Repr()
      ensures Valid() && Env() == old(Env()) && Pending() == old(Pending()) && Writes() == old(Writes())
      ensures Closed()
    {
      match this {
        case Stream(socket) => socket.closed := true;
        case Datagrams(usw) => usw.sock.closed := true;
      }
    }
  }

  /** What a full read of n bytes makes of a stream: the bytes, how it ended, and the stream after it. */
  datatype FullRead = FullRead(data: seq<byte>, err: Option<LinkError>, rest: seq<byte>)

  function ReadingFull(stream: seq<byte>, fate: LinkError, n: nat): (r: FullRead)
    ensures |r.data| <= n
    ensures r.err.None? <==> |r.data| == n
  {
    if n <= |stream| then FullRead(stream[..n], None, stream[n..])
    else FullRead(stream, Some(if stream != [] && fate.Eof? then UnexpectedEof else fate), [])
  }

  /** `io.ReadFull`: the result depends on the byte stream alone, not on the pieces it arrives in. */
  method ReadFull(conn: Conn, n: nat) returns (data: seq<byte>, err: Option<LinkError>)
    requires conn.Valid()
    modifies conn.Repr()
    ensures conn.Valid() && conn.Env() == old(conn.Env()) && conn.Writes() == old(conn.Writes())
    ensures conn.Closed() == old(conn.Closed())
    ensures FullRead(data, err, conn.Pending()) == ReadingFull(old(conn.Pending()), conn.Env().fate, n)
  {
    hide ReadingFull;
    hide Conn.Pending;
    hide Conn.Budget;
    ghost var stream := conn.Pending();
    data, err := [], None;
    while |data| < n && err.None?
      invariant conn.Valid() && conn.Env() == old(conn.Env()) && conn.Writes() == old(conn.Writes())
      invariant conn.Closed() == old(conn.Closed())
      invariant |data| <= n
      invariant stream == data + conn.Pending()
      invariant err.Some? ==> err == Some(conn.Env().fate) && conn.Pending() == []
      decreases err.None?, conn.Budget()
    {
      var more;
      more, err := conn.Read(n - |data|);
      assert data + (more + conn.Pending()) == (data + more) + conn.Pending();
      data := data + more;
    }
    ReadEnded(stream, conn.Env().fate, n, data, err, conn.Pending());
    if |data| >= n {
      err := None;
    } else if |data| > 0 && err == Some(Eof) {
      err := Some(UnexpectedEof);
    }
  }

  lemma ReadEnded(stream: seq<byte>, fate: LinkError, n: nat, data: seq<byte>, err: Option<LinkError>, rest: seq<byte>)
    requires stream == data + rest && |data| <= n
    requires err.Some? ==> err == Some(fate) && rest == []
    requires |data| == n || err.Some?
    ensures ReadingFull(stream, fate, n) ==
            FullRead(data, if |data| == n then None else Some(if |data| > 0 && fate.Eof? then UnexpectedEof else fate), rest)
  {
  }
}
