/**
 Whole runs of `ExecuteRequest` on one connection, with responses that come late, twice or never, and
 with deadlines and writes that fail: when does a call get a response that was made for another request?
 Transaction ids wrap at 65536. In a run, frames arrive whole: no call gives up in the middle of one.
 What becomes of a call that does is at the end.
 */
module StaleResponses {
  import opened Bytes
  import opened Links
  import opened Mbap
  import opened Modbus

  /** A frame on its way to the client, and the number of the request it was made for. */
  datatype Arrival = Arrival(origin: nat, frame: Frame)

  /** Responses carry the transaction id of their request; frames of other protocols may carry anything. */
  predicate Genuine(a: Arrival) {
    && WellFormed(a.frame)
    && (a.frame.protocolId == 0 ==> a.frame.txnId == Low16(a.origin))
  }

  predicate AllGenuine(queue: seq<Arrival>) {
    forall i :: 0 <= i < |queue| ==> Genuine(queue[i])
  }

  /**
   One call: the request, the frames that arrive until the call gives up, and what the link does to it:
   setting the deadline or writing may fail, and reading ends in some error.
   */
  datatype Call = Call(req: Pdu, arrivals: seq<Arrival>, env: Env)

  /** The call gets as far as reading. */
  predicate Reads(env: Env) {
    env.deadlineError.None? && env.writeError.None?
  }

  /** The error of a call that gets no response. */
  function Ending(env: Env): LinkError {
    if env.deadlineError.Some? then env.deadlineError.value
    else if env.writeError.Some? then env.writeError.value
    else env.fate
  }

  /** The number of the last request after a call: a failed write uses one up, a failed deadline does not. */
  function Next(n: nat, env: Env): nat {
    if env.deadlineError.Some? then n else n + 1
  }

  function Frames(queue: seq<Arrival>): (frames: seq<Frame>)
    ensures |frames| == |queue|
    ensures forall i :: 0 <= i < |queue| ==> frames[i] == queue[i].frame
  {
    if queue == [] then [] else [queue[0].frame] + Frames(queue[1..])
  }

  /** What the calls of a run return, from the bytes on the connection. */
  function Results(calls: seq<Call>, txnId: uint16, pending: seq<byte>): (results: seq<Result<Pdu>>)
    ensures |results| == |calls|
  {
    if calls == [] then [] else
    var x := Executing(pending + PrintAll(Frames(calls[0].arrivals)), calls[0].env, txnId, calls[0].req);
    [x.result] + Results(calls[1..], x.txnId, x.rest)
  }

  function Choice(queue: seq<Arrival>, n: nat): nat {
    FirstAnswer(Frames(queue), Low16(n))
  }

  function After(queue: seq<Arrival>, n: nat): seq<Arrival> {
    var i := Choice(queue, n);
    if i < |queue| then queue[i + 1..] else []
  }

  /** The arrival that a call takes from the frames in flight, if any; n requests were made before. */
  function TakenBy(queue: seq<Arrival>, env: Env, n: nat): Option<Arrival> {
    var i := Choice(queue, n + 1);
    if Reads(env) && i < |queue| then Some(queue[i]) else None
  }

  /** What a call leaves in flight. */
  function Left(queue: seq<Arrival>, env: Env, n: nat): seq<Arrival> {
    if Reads(env) then After(queue, n + 1) else queue
  }

  /** The numbers that the calls of a run give to their requests. */
  function Numbers(calls: seq<Call>, n: nat): (numbers: seq<nat>)
    ensures |numbers| == |calls|
  {
    if calls == [] then [] else [Next(n, calls[0].env)] + Numbers(calls[1..], Next(n, calls[0].env))
  }

  /** The frames in flight in each call of a run: what was left before, and what arrives. */
  function Queues(calls: seq<Call>, n: nat, queue: seq<Arrival>): (queues: seq<seq<Arrival>>)
    ensures |queues| == |calls|
  {
    if calls == [] then [] else
    var q, env := queue + calls[0].arrivals, calls[0].env;
    [q] + Queues(calls[1..], Next(n, env), Left(q, env, n))
  }

  /** The arrivals the calls of a run take. */
  function Taken(calls: seq<Call>, n: nat, queue: seq<Arrival>): (taken: seq<Option<Arrival>>)
    ensures |taken| == |calls|
  {
    if calls == [] then [] else
    var q, env := queue + calls[0].arrivals, calls[0].env;
    [TakenBy(q, env, n)] + Taken(calls[1..], Next(n, env), Left(q, env, n))
  }

  /** The frame answers one of the last 65536 requests. */
  predicate Recent(a: Arrival, n: nat) {
    a.frame.protocolId == 0 ==> a.origin <= n < a.origin + 0x1_0000
  }

  predicate AllRecent(queue: seq<Arrival>, n: nat) {
    forall i :: 0 <= i < |queue| ==> Recent(queue[i], n)
  }

  lemma {:induction false} PrintAllConcat(a: seq<Frame>, b: seq<Frame>)
    ensures PrintAll(a + b) == PrintAll(a) + PrintAll(b)
  {
    hide Print;
    if a == [] {
      assert a + b == b;
    } else {
      assert (a + b)[1..] == a[1..] + b;
      PrintAllConcat(a[1..], b);
      assert Print(a[0]) + (PrintAll(a[1..]) + PrintAll(b)) == (Print(a[0]) + PrintAll(a[1..])) + PrintAll(b);
    }
  }

  /** What the transport makes of the frames in flight. */
  lemma RespondingToQueue(queue: seq<Arrival>, n: nat, fate: LinkError)
    requires AllGenuine(queue)
    ensures var x := Responding(PrintAll(Frames(queue)), fate, Low16(n));
            var i := Choice(queue, n);
            && x.rest == PrintAll(Frames(After(queue, n)))
            && x.result == if i < |queue| then Ok(PduOf(queue[i].frame)) else Err(FromLink(fate))
  {
    hide Print;
    hide Responding;
    hide FirstAnswer;
    var frames := Frames(queue);
    var i := Choice(queue, n);
    RespondingFindsFirst(frames, [], fate, Low16(n));
    assert PrintAll(frames) + [] == PrintAll(frames);
    if i < |queue| {
      assert frames[i + 1..] == Frames(queue[i + 1..]);
      assert PrintAll(frames[i + 1..]) + [] == PrintAll(frames[i + 1..]);
    } else {
      NothingLeft(fate, Low16(n));
    }
  }

  lemma NothingLeft(fate: LinkError, txnId: uint16)
    ensures Responding([], fate, txnId) == ResponseRead(Err(FromLink(fate)), [])
  {
    assert ReadingFull([], fate, MBAP_HEADER_LENGTH) == FullRead([], Some(fate), []);
  }

  /** One call, on bytes and on the queue. */
  lemma OneCall(queue: seq<Arrival>, env: Env, n: nat, req: Pdu)
    requires AllGenuine(queue)
    ensures var x := Executing(PrintAll(Frames(queue)), env, Low16(n), req);
            && x.txnId == Low16(Next(n, env))
            && x.rest == PrintAll(Frames(Left(queue, env, n)))
            && x.result == match TakenBy(queue, env, n)
                           case Some(a) => (if a.frame.body != [] then Ok(PduOf(a.frame)) else Err(ProtocolError))
                           case None => Err(FromLink(Ending(env)))
  {
    hide Print;
    hide Responding;
    hide Choice;
    hide After;
    hide PrintAll;
    assert Low16(Low16(n) + 1) == Low16(n + 1);
    if Reads(env) {
      RespondingToQueue(queue, n + 1, env.fate);
      var i := Choice(queue, n + 1);
      assert i < |queue| ==> Genuine(queue[i]);
    }
  }

  lemma Joined(queue: seq<Arrival>, arrivals: seq<Arrival>)
    ensures PrintAll(Frames(queue + arrivals)) == PrintAll(Frames(queue)) + PrintAll(Frames(arrivals))
  {
    PrintAllConcat(Frames(queue), Frames(arrivals));
    assert Frames(queue + arrivals) == Frames(queue) + Frames(arrivals);
  }

  // ---- Which response a call gets ----

  lemma Congruent(a: nat, n: nat)
    ensures Low16(a) == Low16(n) <==> (n - a) % 0x1_0000 == 0
  {
    var k, m := n / 0x1_0000, a / 0x1_0000;
    assert n - a == 0x1_0000 * (k - m) + (n % 0x1_0000 - a % 0x1_0000);
  }

  /** The first frame of this protocol whose request is a multiple of 65536 requests away, or the length. */
  function FirstCongruent(queue: seq<Arrival>, n: nat): (i: nat)
    ensures i <= |queue|
    ensures i < |queue| ==> queue[i].frame.protocolId == 0 && (n - queue[i].origin) % 0x1_0000 == 0
    ensures forall j :: 0 <= j < i ==> queue[j].frame.protocolId != 0 || (n - queue[j].origin) % 0x1_0000 != 0
  {
    if queue == [] || (queue[0].frame.protocolId == 0 && (n - queue[0].origin) % 0x1_0000 == 0) then 0
    else 1 + FirstCongruent(queue[1..], n)
  }

  lemma {:induction false} ChoiceIsCongruent(queue: seq<Arrival>, n: nat)
    requires AllGenuine(queue)
    ensures Choice(queue, n) == FirstCongruent(queue, n)
  {
    hide Low16;
    hide WellFormed;
    if queue != [] {
      Congruent(queue[0].origin, n);
      var rest := queue[1..];
      forall i | 0 <= i < |rest|
        ensures Genuine(rest[i])
      {
        assert rest[i] == queue[i + 1];
      }
      ChoiceIsCongruent(rest, n);
      assert Frames(queue)[1..] == Frames(rest);
      assert Genuine(queue[0]);
    }
  }

  /**
   A call that reads returns the first frame in flight whose request is a multiple of 65536 requests
   away from its own, made for its own or not; without one, and in any other case, it returns the error
   it ends in.
   */
  ghost predicate TakesCongruent(result: Result<Pdu>, taken: Option<Arrival>, queue: seq<Arrival>, n: nat, env: Env) {
    var i := FirstCongruent(queue, n);
    && taken == (if Reads(env) && i < |queue| then Some(queue[i]) else None)
    && (taken.Some? ==> taken.value.frame.body != [] && result == Ok(PduOf(taken.value.frame)))
    && (taken.None? ==> result == Err(FromLink(Ending(env))))
  }

  lemma CongruentCall(queue: seq<Arrival>, env: Env, n: nat, req: Pdu)
    requires AllGenuine(queue)
    ensures TakesCongruent(Executing(PrintAll(Frames(queue)), env, Low16(n), req).result,
                           TakenBy(queue, env, n), queue, Next(n, env), env)
  {
    hide Executing;
    hide PrintAll;
    OneCall(queue, env, n, req);
    ChoiceIsCongruent(queue, n + 1);
    hide Choice;
    var i := FirstCongruent(queue, n + 1);
    assert i < |queue| ==> Genuine(queue[i]);
  }

  /** In every call of the run, every frame in flight carries the transaction id of its request. */
  ghost predicate GenuineRun(calls: seq<Call>, n: nat, queue: seq<Arrival>) {
    forall i :: 0 <= i < |calls| ==> AllGenuine(Queues(calls, n, queue)[i])
  }

  /**
   Over any run, whatever the age of the responses and whichever calls fail: each call that reads gets
   the first frame in flight whose request is a multiple of 65536 requests away from its own, so it gets
   the response of another request exactly if that frame was not made for its own.
   */
  lemma {:induction false} TakenExactly(calls: seq<Call>, n: nat, queue: seq<Arrival>)
    requires GenuineRun(calls, n, queue)
    ensures var results, taken := Results(calls, Low16(n), PrintAll(Frames(queue))), Taken(calls, n, queue);
            var queues, numbers := Queues(calls, n, queue), Numbers(calls, n);
            forall i :: 0 <= i < |calls| ==> TakesCongruent(results[i], taken[i], queues[i], numbers[i], calls[i].env)
  {
    hide Executing;
    hide PrintAll;
    hide Frames;
    hide TakenBy;
    hide Left;
    hide Next;
    hide TakesCongruent;
    hide AllGenuine;
    hide Low16;
    if calls != [] {
      var env, later := calls[0].env, calls[1..];
      var q := queue + calls[0].arrivals;
      var m, rest := Next(n, env), Left(q, env, n);
      var queues, numbers := Queues(calls, n, queue), Numbers(calls, n);
      assert queues[0] == q && AllGenuine(q);
      assert GenuineRun(later, m, rest) by {
        forall i | 0 <= i < |later|
          ensures AllGenuine(Queues(later, m, rest)[i])
        {
          assert Queues(later, m, rest)[i] == queues[i + 1];
        }
      }
      Joined(queue, calls[0].arrivals);
      OneCall(q, env, n, calls[0].req);
      CongruentCall(q, env, n, calls[0].req);
      TakenExactly(later, m, rest);
      var results, taken := Results(calls, Low16(n), PrintAll(Frames(queue))), Taken(calls, n, queue);
      forall i | 0 <= i < |calls|
        ensures TakesCongruent(results[i], taken[i], queues[i], numbers[i], calls[i].env)
      {
        if i > 0 {
          assert later[i - 1] == calls[i];
          assert TakesCongruent(Results(later, Low16(m), PrintAll(Frames(rest)))[i - 1], Taken(later, m, rest)[i - 1],
                                Queues(later, m, rest)[i - 1], Numbers(later, m)[i - 1], later[i - 1].env);
        }
      }
    }
  }

  /** In every call that reads, every response in flight answers one of the last 65536 requests. */
  ghost predicate RecentRun(calls: seq<Call>, n: nat, queue: seq<Arrival>) {
    && GenuineRun(calls, n, queue)
    && forall i :: 0 <= i < |calls| && Reads(calls[i].env) ==> AllRecent(Queues(calls, n, queue)[i], Numbers(calls, n)[i])
  }

  /** What a call came to: a response made for its own request, or the error it ends in. */
  ghost predicate OwnOrError(result: Result<Pdu>, taken: Option<Arrival>, n: nat, env: Env) {
    match taken
    case Some(a) => Genuine(a) && a.origin == n && result == Ok(PduOf(a.frame))
    case None => result == Err(FromLink(Ending(env)))
  }

  /**
   Over any run in which no response in flight is older than 65536 requests, each call returns either a
   response made for its own request, or the error it ends in. Deadlines and writes may fail.
   */
  lemma NoStaleResponse(calls: seq<Call>, n: nat, queue: seq<Arrival>)
    requires RecentRun(calls, n, queue)
    ensures var results, taken := Results(calls, Low16(n), PrintAll(Frames(queue))), Taken(calls, n, queue);
            var numbers := Numbers(calls, n);
            forall i :: 0 <= i < |calls| ==> OwnOrError(results[i], taken[i], numbers[i], calls[i].env)
  {
    TakenExactly(calls, n, queue);
    var results, taken := Results(calls, Low16(n), PrintAll(Frames(queue))), Taken(calls, n, queue);
    var queues, numbers := Queues(calls, n, queue), Numbers(calls, n);
    hide Results;
    hide Taken;
    hide Queues;
    hide Numbers;
    forall i | 0 <= i < |calls|
      ensures OwnOrError(results[i], taken[i], numbers[i], calls[i].env)
    {
      assert TakesCongruent(results[i], taken[i], queues[i], numbers[i], calls[i].env);
      assert AllGenuine(queues[i]);
      RecentIsOwn(results[i], taken[i], queues[i], numbers[i], calls[i].env);
    }
  }

  lemma RecentIsOwn(result: Result<Pdu>, taken: Option<Arrival>, queue: seq<Arrival>, n: nat, env: Env)
    requires AllGenuine(queue) && (Reads(env) ==> AllRecent(queue, n))
    requires TakesCongruent(result, taken, queue, n, env)
    ensures OwnOrError(result, taken, n, env)
  {
    var i := FirstCongruent(queue, n);
    if taken.Some? {
      assert Genuine(queue[i]) && Recent(queue[i], n);
    }
  }

  /** An instance: a response that is 65536 requests old is returned as if it were the answer. */
  lemma StaleResponse(n: nat, a: Arrival, req: Pdu, fate: LinkError)
    requires Genuine(a) && a.frame.protocolId == 0 && a.origin + 0x1_0000 == n + 1
    ensures Executing(Print(a.frame), Env(fate, None, None), Low16(n), req).result == Ok(PduOf(a.frame))
    ensures !Recent(a, n + 1)
  {
    hide Print;
    hide Executing;
    var queue, env := [a], Env(fate, None, None);
    CongruentCall(queue, env, n, req);
    assert FirstCongruent(queue, n + 1) == 0;
    assert Frames(queue)[1..] == [] && Frames(queue)[0] == a.frame;
    assert PrintAll(Frames(queue)) == Print(a.frame) + PrintAll([]) == Print(a.frame);
  }

  // ---- Reads that stop inside a frame ----

  /** A stop in the middle of a frame takes all that had arrived of it, and the call ends in an error. */
  lemma StopsInside(f: Frame, k: nat, fate: LinkError, txnId: uint16)
    requires WellFormed(f) && 0 < k < |Print(f)|
    ensures var x := Responding(Print(f)[..k], fate, txnId);
            x.result.Err? && x.rest == []
  {
    FrameCutShort(f, k, fate);
    hide ReadingFrame;
    hide Print;
  }

  lemma FrameCutShort(f: Frame, k: nat, fate: LinkError)
    requires WellFormed(f) && 0 < k < |Print(f)|
    ensures var r := ReadingFrame(Print(f)[..k], fate);
            r.rest == [] && r.result in {Err(FromLink(fate)), Err(FromLink(UnexpectedEof))}
  {
    var length := Low16(1 + |f.body|);
    var head := Header(f.txnId, f.protocolId, length, f.unitId);
    var bs := Print(f)[..k];
    HeaderFields(f.txnId, f.protocolId, length, f.unitId);
    assert Print(f) == head + f.body && length == 1 + |f.body|;
    hide Print;
    hide Header;
    hide Word;
    if k >= MBAP_HEADER_LENGTH {
      assert bs[..MBAP_HEADER_LENGTH] == head && |bs[MBAP_HEADER_LENGTH..]| < |f.body|;
    }
  }

  /**
   So whole frames are needed: when a call gives up eight bytes into a frame that carries the bytes of
   another one, the next call takes that other frame for its answer, whatever the age of either.
   */
  lemma FrameInsideFrame(f: Frame, g: Frame, fc: byte, fate: LinkError, txnId: uint16)
    requires WellFormed(g) && g.protocolId == 0 && |g.body| <= 245
    requires f.body == [fc] + Print(g)
    ensures WellFormed(f)
    ensures Responding(Print(f)[..8], fate, txnId).result.Err? && Responding(Print(f)[..8], fate, txnId).rest == []
    ensures Responding(Print(f)[8..], fate, g.txnId) == ResponseRead(Ok(PduOf(g)), [])
  {
    StopsInside(f, 8, fate, txnId);
    assert Print(f)[8..] == Print(g) + [];
    hide Print;
    hide Responding;
    RespondingStep(g, [], fate, g.txnId);
  }
}
