/**
 A frame reads the same however its bytes are cut up: over a stream link that delivers pieces of any
 size, and over the UDP adapter with the bytes in any datagrams that fit its buffer.
 */
module Segmentation {
  import opened Bytes
  import opened Links
  import opened Modbus
  import Mbap
  import Rtu

  /** A stream link and a UDP link that carry the same bytes. */
  method Carriers(datagrams: seq<seq<byte>>, idle: nat, env: Env) returns (stream: Conn, udp: Conn)
    requires forall i :: 0 <= i < |datagrams| ==> |datagrams[i]| <= MAX_TCP_FRAME_LENGTH
    ensures stream.Stream? && udp.Datagrams? && fresh(stream.Repr()) && fresh(udp.Repr())
    ensures stream.Valid() && udp.Valid() && stream.Repr() !! udp.Repr()
    ensures stream.Pending() == udp.Pending() == Flat(datagrams)
    ensures stream.Env() == udp.Env() == env
  {
    NothingLost(datagrams);
    var socket := new Socket(Flat(datagrams), idle, env);
    var sock := new UdpSocket(datagrams, env);
    var usw := new UdpSockWrapper(sock);
    stream, udp := Stream(socket), Datagrams(usw);
    assert [] + Received(datagrams) == Flat(datagrams);
  }

  /**
   Whatever the datagrams, the pieces and the stalls, an MBAP frame is the frame of the bytes put
   together.
   */
  method MbapFrame(datagrams: seq<seq<byte>>, idle: nat, env: Env)
    returns (overStream: Result<(Pdu, uint16)>, overUdp: Result<(Pdu, uint16)>)
    requires forall i :: 0 <= i < |datagrams| ==> |datagrams[i]| <= MAX_TCP_FRAME_LENGTH
    ensures overStream == overUdp == Mbap.ReadingFrame(Flat(datagrams), env.fate).result
  {
    hide Mbap.ReadingFrame;
    hide Conn.Pending;
    var stream, udp := Carriers(datagrams, idle, env);
    var tt := new Mbap.TcpTransport(stream);
    overStream := tt.ReadMbapFrame();
    tt := new Mbap.TcpTransport(udp);
    overUdp := tt.ReadMbapFrame();
  }

  /** So is an RTU frame. */
  method RtuFrame(datagrams: seq<seq<byte>>, idle: nat, env: Env, clock: Rtu.Clock, speed: nat)
    returns (overStream: Result<Pdu>, overUdp: Result<Pdu>)
    requires forall i :: 0 <= i < |datagrams| ==> |datagrams[i]| <= MAX_TCP_FRAME_LENGTH
    requires speed > 0
    ensures overStream == overUdp == Rtu.ReadingFrame(Flat(datagrams), env.fate).result
  {
    hide Rtu.ReadingFrame;
    hide Conn.Pending;
    var stream, udp := Carriers(datagrams, idle, env);
    var rt := new Rtu.RtuTransport(stream, clock, speed, 0);
    overStream := rt.ReadRtuFrame();
    rt := new Rtu.RtuTransport(udp, clock, speed, 0);
    overUdp := rt.ReadRtuFrame();
  }

  /** Two links that hold the same bytes and end alike stay alike through any number of frames. */
  method InStep(a: Mbap.TcpTransport, b: Mbap.TcpTransport, frames: nat)
    returns (fromA: seq<Result<(Pdu, uint16)>>, fromB: seq<Result<(Pdu, uint16)>>)
    requires a.Valid() && b.Valid() && a.conn.Repr() !! b.conn.Repr()
    requires a !in b.conn.Repr() && b !in a.conn.Repr()
    requires a.conn.Pending() == b.conn.Pending() && a.conn.Env() == b.conn.Env()
    modifies a.conn.Repr(), b.conn.Repr()
    ensures fromA == fromB && |fromA| == frames
    ensures a.Valid() && b.Valid()
    ensures a.conn.Pending() == b.conn.Pending()
  {
    hide Mbap.ReadingFrame;
    hide Conn.Pending;
    hide Conn.Env;
    hide Conn.Valid;
    hide Conn.Writes;
    fromA, fromB := [], [];
    for i := 0 to frames
      invariant fromA == fromB && |fromA| == i
      invariant a.Valid() && b.Valid()
      invariant a.conn.Pending() == b.conn.Pending() && a.conn.Env() == b.conn.Env()
    {
      var ra := a.ReadMbapFrame();
      var rb := b.ReadMbapFrame();
      fromA, fromB := fromA + [ra], fromB + [rb];
    }
  }
}
