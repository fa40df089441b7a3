/**
 internal/modbus/server.go: the pool of client connections. The critical sections under the lock are
 methods of a class; around them, any number of acceptors and handlers run as a step system, in every
 interleaving with Start and Stop. Sockets and listeners are numbered.
 */
module Pools {
  import opened Bytes

  /** The fields that the lock guards. */
  datatype Pool = Pool(started: bool, clients: seq<nat>, listener: Option<nat>, maxClients: nat) {
    function Starting(listening: Option<nat>): Pool {
      if started then this else this.(started := listening.Some?, listener := listening)
    }

    function Stopping(): Pool {
      this.(started := false)
    }

    predicate HasRoom() {
      started && |clients| < maxClients
    }

    function Admitting(sock: nat): Pool {
      if HasRoom() then this.(clients := clients + [sock]) else this
    }

    function Removing(sock: nat): Pool {
      this.(clients := SwapDelete(clients, sock))
    }
  }

  /** The position of the first occurrence, or the length. */
  function Find(s: seq<nat>, x: nat): (i: nat)
    ensures i <= |s|
    ensures i < |s| <==> x in s
    ensures i < |s| ==> s[i] == x
    ensures forall j :: 0 <= j < i ==> s[j] != x
  {
    if s == [] || s[0] == x then 0 else 1 + Find(s[1..], x)
  }

  /** The last element takes the place of the first occurrence. */
  function SwapDelete(s: seq<nat>, x: nat): seq<nat> {
    var i := Find(s, x);
    if i == |s| then s else s[i := s[|s| - 1]][..|s| - 1]
  }

  /** Exactly one occurrence goes, and nothing else changes but the order. */
  lemma SwapDeleteRemovesOne(s: seq<nat>, x: nat)
    ensures multiset(SwapDelete(s, x)) == multiset(s) - multiset{x}
  {
    var i, n := Find(s, x), |s| - 1;
    if i < |s| {
      var moved := s[i := s[n]];
      assert multiset(moved) == multiset(s) - multiset{x} + multiset{s[n]};
      assert moved == moved[..n] + [s[n]];
      Cancel(multiset(moved[..n]), multiset(s) - multiset{x}, s[n]);
    } else {
      assert x !in multiset(s);
      assert multiset(s) - multiset{x} == multiset(s);
    }
  }

  lemma Cancel(a: multiset<nat>, b: multiset<nat>, x: nat)
    requires a + multiset{x} == b + multiset{x}
    ensures a == b
  {
    assert a == a + multiset{x} - multiset{x};
    assert b == b + multiset{x} - multiset{x};
  }

  class ModbusServer {
    var started: bool
    var tcpClients: seq<nat>
    var tcpListener: Option<nat>
    const maxClients: nat

    ghost function State(): Pool
      reads this
    {
      Pool(started, tcpClients, tcpListener, maxClients)
    }

    constructor (maxClients: nat)
      ensures State() == Pool(false, [], None, maxClients)
    {
      this.started, this.tcpClients, this.tcpListener, this.maxClients := false, [], None, maxClients;
    }

    /** Starts accepting client connections; listening is what binding the socket gives. */
    method Start(listening: Option<nat>) returns (spawned: bool)
      modifies this
      ensures State() == old(State()).Starting(listening)
      ensures spawned <==> !old(started) && started
    {
      if started {
        return false;
      }
      tcpListener := listening;
      if listening.None? {
        return false;
      }
      started := true;
      return true;
    }

    /** Stops accepting connections and closes the listener and any active session. */
    method Stop() returns (listener: Option<nat>, socks: set<nat>)
      modifies this
      ensures State() == old(State()).Stopping()
      ensures listener == if old(started) then old(tcpListener) else None
      ensures socks == if old(started) then (set sock | sock in tcpClients) else {}
    {
      listener, socks := None, {};
      if !started {
        return;
      }
      started := false;
      listener := tcpListener;
      for i := 0 to |tcpClients|
        invariant socks == set sock | sock in tcpClients[..i]
      {
        socks := socks + {tcpClients[i]};
      }
      assert tcpClients[..|tcpClients|] == tcpClients;
    }

    /** Applies the connection limit to a new connection. */
    method Admit(sock: nat) returns (accepted: bool)
      modifies this
      ensures State() == old(State()).Admitting(sock)
      ensures accepted <==> old(State()).HasRoom()
    {
      if started && |tcpClients| < maxClients {
        accepted := true;
        tcpClients := tcpClients + [sock];
      } else {
        accepted := false;
      }
    }

    /** The swap with the last element, at the first place where the socket is found. */
    method Remove(sock: nat)
      modifies this
      ensures State() == old(State()).Removing(sock)
    {
      for i := 0 to |tcpClients|
        invariant tcpClients == old(tcpClients)
        invariant i <= Find(tcpClients, sock)
      {
        if tcpClients[i] == sock {
          tcpClients := tcpClients[i := tcpClients[|tcpClients| - 1]];
          tcpClients := tcpClients[..|tcpClients| - 1];
          break;
        }
      }
    }
  }

  // ---- Acceptors and handlers ----

  /** Where a goroutine is: an acceptor in its loop, or a handler of one connection. */
  datatype Thread =
    | Looping                   // an acceptor about to look at the listener
    | Accepting(listener: nat)  // blocked in Accept
    | Holding(sock: nat)        // has accepted, about to take the lock
    | Admitted(sock: nat)       // has put the connection in the pool
    | Rejected(sock: nat)       // has found no room for it
    | Serving(sock: nat)        // a handler at work on a connection in the pool
    | Removed(sock: nat)        // a handler that has taken it out of the pool
    | Done
  {
    /** The connection is its to close. */
    predicate Holds(x: nat) {
      (Holding? || Admitted? || Rejected? || Serving? || Removed?) && sock == x
    }

    /** It has the connection in the pool. */
    predicate Pools(x: nat) {
      (Admitted? || Serving?) && sock == x
    }
  }

  /** How many threads hold a connection. */
  function Holders(threads: seq<Thread>, x: nat): nat {
    if threads == [] then 0 else (if threads[0].Holds(x) then 1 else 0) + Holders(threads[1..], x)
  }

  /** How many threads have a connection in the pool. */
  function Poolers(threads: seq<Thread>, x: nat): (n: nat)
    ensures n <= Holders(threads, x)
  {
    if threads == [] then 0 else (if threads[0].Pools(x) then 1 else 0) + Poolers(threads[1..], x)
  }

  datatype State = State(pool: Pool, threads: seq<Thread>,
                         open: set<nat>, closed: set<nat>, sockets: nat, listeners: nat) {
    function With(i: nat, t: Thread): State
      requires i < |threads|
    {
      this.(threads := threads[i := t])
    }
  }

  function Initial(maxClients: nat): State {
    State(Pool(false, [], None, maxClients), [], {}, {}, 0, 0)
  }

  datatype Action =
    | Start(bound: bool)         // Start, when binding the socket works or fails
    | Stop
    | ReadListener(i: nat)       // an acceptor looks up the listener, without the lock
    | Accept(i: nat)             // a connection arrives
    | AcceptFails(i: nat)        // some other error
    | AcceptClosed(i: nat)       // the listener is closed
    | Admit(i: nat)
    | Spawn(i: nat)              // a handler for the connection starts
    | Reject(i: nat)
    | Drop(i: nat)               // a handler closes the link after a protocol error
    | Remove(i: nat)
    | Close(i: nat)

  /** What an action does, if it can happen. */
  function Step(s: State, a: Action): Option<State> {
    match a
    case Start(bound) =>
      var pool := s.pool.Starting(if bound then Some(s.listeners) else None);
      if s.pool.started then Some(s)
      else if bound then
        Some(s.(pool := pool, threads := s.threads + [Looping],
                open := s.open + {s.listeners}, listeners := s.listeners + 1))
      else Some(s.(pool := pool))
    case Stop =>
      if !s.pool.started then Some(s)
      else
        Some(s.(pool := s.pool.Stopping(),
                open := if s.pool.listener.Some? then s.open - {s.pool.listener.value} else s.open,
                closed := s.closed + set sock | sock in s.pool.clients))
    case _ =>
      if a.i < |s.threads| then ThreadStep(s, a, s.threads[a.i]) else None
  }

  function ThreadStep(s: State, a: Action, t: Thread): Option<State>
    requires !a.Start? && !a.Stop? && a.i < |s.threads|
  {
    match a
    case ReadListener(i) =>
      if t.Looping? && s.pool.listener.Some? then Some(s.With(i, Accepting(s.pool.listener.value))) else None
    case Accept(i) =>
      if t.Accepting? && t.listener in s.open then Some(s.With(i, Holding(s.sockets)).(sockets := s.sockets + 1)) else None
    case AcceptFails(i) =>
      if t.Accepting? then Some(s.With(i, Looping)) else None
    case AcceptClosed(i) =>
      if t.Accepting? && t.listener !in s.open then Some(s.With(i, Done)) else None
    case Admit(i) =>
      if !t.Holding? then None
      else
        var next := if s.pool.HasRoom() then Admitted(t.sock) else Rejected(t.sock);
        Some(s.With(i, next).(pool := s.pool.Admitting(t.sock)))
    case Spawn(i) =>
      if t.Admitted? then Some(s.(threads := s.threads[i := Looping] + [Serving(t.sock)])) else None
    case Reject(i) =>
      if t.Rejected? then Some(s.With(i, Looping).(closed := s.closed + {t.sock})) else None
    case Drop(i) =>
      if t.Serving? then Some(s.(closed := s.closed + {t.sock})) else None
    case Remove(i) =>
      if t.Serving? then Some(s.With(i, Removed(t.sock)).(pool := s.pool.Removing(t.sock))) else None
    case Close(i) =>
      if t.Removed? then Some(s.With(i, Done).(closed := s.closed + {t.sock})) else None
  }

  /** A run: the state after a sequence of actions, if each of them can happen. */
  function Run(s: State, actions: seq<Action>): Option<State>
    decreases actions
  {
    if actions == [] then Some(s) else
    match Step(s, actions[0])
    case None => None
    case Some(next) => Run(next, actions[1..])
  }

  // ---- Safety ----

  ghost predicate NoDuplicates(s: seq<nat>) {
    forall i, j :: 0 <= i < j < |s| ==> s[i] != s[j]
  }

  /**
   The pool holds each connection once, up to its limit, and just those whose handler has not removed
   them.
   */
  ghost predicate PoolExact(s: State) {
    && |s.pool.clients| <= s.pool.maxClients
    && NoDuplicates(s.pool.clients)
    && forall x: nat :: x in s.pool.clients <==> Poolers(s.threads, x) == 1
  }

  /** While the server is stopped, every connection in the pool is closed, and nothing listens. */
  ghost predicate StoppedIsClosed(s: State) {
    !s.pool.started ==> s.open == {} && forall x :: x in s.pool.clients ==> x in s.closed
  }

  /** No accepted connection is lost: exactly one thread has it to close, or it has been closed. */
  ghost predicate NoneLost(s: State) {
    forall x: nat :: x < s.sockets ==> x in s.closed || Holders(s.threads, x) == 1
  }

  ghost predicate Safe(s: State) {
    PoolExact(s) && StoppedIsClosed(s) && NoneLost(s)
  }

  /** The books on one connection balance. */
  ghost predicate Balanced(s: State, x: nat) {
    && multiset(s.pool.clients)[x] == Poolers(s.threads, x)
    && Holders(s.threads, x) <= 1
    && (Holders(s.threads, x) == 1 ==> x < s.sockets)
    && (x < s.sockets ==> x in s.closed || Holders(s.threads, x) == 1)
    && (!s.pool.started && Poolers(s.threads, x) > 0 ==> x in s.closed)
  }

  ghost predicate Bounded(s: State) {
    && |s.pool.clients| <= s.pool.maxClients
    && (if s.pool.started then s.pool.listener.Some? && s.open == {s.pool.listener.value} else s.open == {})
  }

  ghost predicate Invariant(s: State) {
    Bounded(s) && forall x: nat :: Balanced(s, x)
  }

  function One(b: bool): nat {
    if b then 1 else 0
  }

  lemma {:induction false} Replaced(threads: seq<Thread>, i: nat, t: Thread, x: nat)
    requires i < |threads|
    ensures Holders(threads[i := t], x) == Holders(threads, x) - One(threads[i].Holds(x)) + One(t.Holds(x))
    ensures Poolers(threads[i := t], x) == Poolers(threads, x) - One(threads[i].Pools(x)) + One(t.Pools(x))
    ensures One(threads[i].Holds(x)) <= Holders(threads, x) && One(threads[i].Pools(x)) <= Poolers(threads, x)
  {
    hide Thread.Holds;
    hide Thread.Pools;
    if i > 0 {
      Replaced(threads[1..], i - 1, t, x);
      assert threads[i := t][1..] == threads[1..][i - 1 := t];
    } else {
      assert threads[i := t][1..] == threads[1..];
    }
  }

  lemma {:induction false} Appended(threads: seq<Thread>, t: Thread, x: nat)
    ensures Holders(threads + [t], x) == Holders(threads, x) + One(t.Holds(x))
    ensures Poolers(threads + [t], x) == Poolers(threads, x) + One(t.Pools(x))
  {
    hide Thread.Holds;
    hide Thread.Pools;
    if threads == [] {
      assert [t][1..] == [];
      assert threads + [t] == [t];
    } else {
      Appended(threads[1..], t, x);
      assert (threads + [t])[1..] == threads[1..] + [t];
    }
  }

  lemma Twice(s: seq<nat>, i: nat, j: nat)
    requires i < j < |s| && s[i] == s[j]
    ensures multiset(s)[s[i]] >= 2
  {
    assert s == s[..j] + s[j..];
    assert s[i] in s[..j] && s[j] in s[j..];
    assert multiset(s[..j])[s[i]] >= 1 && multiset(s[j..])[s[i]] >= 1;
  }

  lemma InvariantIsSafe(s: State)
    requires Invariant(s)
    ensures Safe(s)
  {
    forall x: nat
      ensures x in s.pool.clients <==> Poolers(s.threads, x) == 1
      ensures !s.pool.started && x in s.pool.clients ==> x in s.closed
      ensures x < s.sockets ==> x in s.closed || Holders(s.threads, x) == 1
    {
      assert Balanced(s, x);
      assert x in s.pool.clients <==> x in multiset(s.pool.clients);
    }
    forall i, j | 0 <= i < j < |s.pool.clients|
      ensures s.pool.clients[i] != s.pool.clients[j]
    {
      var x := s.pool.clients[i];
      assert Balanced(s, x);
      if x == s.pool.clients[j] {
        Twice(s.pool.clients, i, j);
      }
    }
  }

  /** Every action keeps the invariant. */
  lemma StepKeepsInvariant(s: State, a: Action)
    requires Invariant(s)
    ensures Step(s, a).Some? ==> Invariant(Step(s, a).value)
  {
    var next := Step(s, a);
    if next.Some? {
      StepKeepsBounded(s, a);
      hide Bounded;
      forall x: nat
        ensures Balanced(next.value, x)
      {
        assert Balanced(s, x);
        StepKeepsBalanced(s, a, x);
      }
    }
  }

  lemma StepKeepsBounded(s: State, a: Action)
    requires Bounded(s) && Step(s, a).Some?
    ensures Bounded(Step(s, a).value)
  {
  }

  lemma StepKeepsBalanced(s: State, a: Action, x: nat)
    requires Balanced(s, x) && Step(s, a).Some?
    ensures Balanced(Step(s, a).value, x)
  {
    hide Step;
    hide Balanced;
    match a
    case Start(bound) => StartKeepsBalanced(s, bound, x);
    case Stop => StopKeepsBalanced(s, x);
    case Accept(i) => AcceptKeepsBalanced(s, i, x);
    case Admit(i) => AdmitKeepsBalanced(s, i, x);
    case Spawn(i) => SpawnKeepsBalanced(s, i, x);
    case Remove(i) => RemoveKeepsBalanced(s, i, x);
    case _ => OtherKeepsBalanced(s, a, x);
  }

  lemma StartKeepsBalanced(s: State, bound: bool, x: nat)
    requires Balanced(s, x)
    ensures Balanced(Step(s, Start(bound)).value, x)
  {
    Appended(s.threads, Looping, x);
  }

  lemma StopKeepsBalanced(s: State, x: nat)
    requires Balanced(s, x)
    ensures Balanced(Step(s, Stop).value, x)
  {
    assert x in s.pool.clients <==> x in multiset(s.pool.clients);
  }

  lemma SpawnKeepsBalanced(s: State, i: nat, x: nat)
    requires Balanced(s, x) && Step(s, Spawn(i)).Some?
    ensures Balanced(Step(s, Spawn(i)).value, x)
  {
    Replaced(s.threads, i, Looping, x);
    Appended(s.threads[i := Looping], Serving(s.threads[i].sock), x);
  }

  lemma OtherKeepsBalanced(s: State, a: Action, x: nat)
    requires a.ReadListener? || a.AcceptFails? || a.AcceptClosed? || a.Reject? || a.Drop? || a.Close?
    requires Balanced(s, x) && Step(s, a).Some?
    ensures Balanced(Step(s, a).value, x)
  {
    var next := Step(s, a).value;
    Replaced(s.threads, a.i, next.threads[a.i], x);
    assert s.threads[a.i := s.threads[a.i]] == s.threads;
  }

  lemma AcceptKeepsBalanced(s: State, i: nat, x: nat)
    requires Balanced(s, x) && Step(s, Accept(i)).Some?
    ensures Balanced(Step(s, Accept(i)).value, x)
  {
    Replaced(s.threads, i, Holding(s.sockets), x);
  }

  lemma AdmitKeepsBalanced(s: State, i: nat, x: nat)
    requires Balanced(s, x) && Step(s, Admit(i)).Some?
    ensures Balanced(Step(s, Admit(i)).value, x)
  {
    var sock := s.threads[i].sock;
    Replaced(s.threads, i, Admitted(sock), x);
    Replaced(s.threads, i, Rejected(sock), x);
  }

  lemma RemoveKeepsBalanced(s: State, i: nat, x: nat)
    requires Balanced(s, x) && Step(s, Remove(i)).Some?
    ensures Balanced(Step(s, Remove(i)).value, x)
  {
    var sock := s.threads[i].sock;
    Replaced(s.threads, i, Removed(sock), x);
    CountAfterDelete(s.pool.clients, sock, x);
    var next := Step(s, Remove(i)).value;
    assert next == s.With(i, Removed(sock)).(pool := s.pool.Removing(sock));
    hide Step;
    hide SwapDelete;
    hide Poolers;
    hide Holders;
  }

  lemma CountAfterDelete(s: seq<nat>, sock: nat, x: nat)
    ensures var n := multiset(s)[x];
            multiset(SwapDelete(s, sock))[x] == if x == sock && n > 0 then n - 1 else n
    ensures |SwapDelete(s, sock)| <= |s|
  {
    SwapDeleteRemovesOne(s, sock);
  }

  /**
   The safety of the pool over every interleaving of any number of acceptors and handlers with Start
   and Stop.
   */
  lemma SafeRun(maxClients: nat, actions: seq<Action>)
    ensures var end := Run(Initial(maxClients), actions);
            end.Some? ==> Safe(end.value)
  {
    hide Safe;
    RunKeepsInvariant(Initial(maxClients), actions);
    var end := Run(Initial(maxClients), actions);
    if end.Some? {
      InvariantIsSafe(end.value);
    }
  }

  lemma {:induction false} RunKeepsInvariant(s: State, actions: seq<Action>)
    requires Invariant(s)
    ensures Run(s, actions).Some? ==> Invariant(Run(s, actions).value)
    decreases actions
  {
    hide Invariant;
    hide Step;
    if actions != [] {
      StepKeepsInvariant(s, actions[0]);
      if Step(s, actions[0]).Some? {
        RunKeepsInvariant(Step(s, actions[0]).value, actions[1..]);
      }
    }
  }

  /** While the server is stopped nothing joins the pool, and nothing closed is opened again. */
  lemma NoneJoinsWhileStopped(s: State, a: Action, x: nat)
    requires !s.pool.started && Step(s, a).Some?
    ensures var next := Step(s, a).value;
            && multiset(next.pool.clients)[x] <= multiset(s.pool.clients)[x]
            && s.closed <= next.closed
            && (a.Start? || !next.pool.started)
  {
    if a.Remove? {
      CountAfterDelete(s.pool.clients, s.threads[a.i].sock, x);
    }
    hide SwapDelete;
  }

  /** So the pool only shrinks from a stop to the next start, whatever the threads that are still there do. */
  lemma {:induction false} ShrinksUntilStart(s: State, actions: seq<Action>, x: nat)
    requires !s.pool.started && Run(s, actions).Some?
    requires forall i :: 0 <= i < |actions| ==> !actions[i].Start?
    ensures var end := Run(s, actions).value;
            !end.pool.started && multiset(end.pool.clients)[x] <= multiset(s.pool.clients)[x]
    decreases actions
  {
    hide Step;
    if actions != [] {
      NoneJoinsWhileStopped(s, actions[0], x);
      ShrinksUntilStart(Step(s, actions[0]).value, actions[1..], x);
    }
  }

  function PileUp(): seq<Action> {
    [Start(true), ReadListener(0), Accept(0), Stop, Start(true), Admit(0), Spawn(0), ReadListener(0), ReadListener(1)]
  }

  /**
   An acceptor that was busy during a stop and a start does not end: it goes on beside the new one, on
   the same listener, and the connection it had accepted before the stop is served.
   */
  lemma AcceptorsCanPileUp(maxClients: nat)
    requires maxClients > 0
    ensures var end := Run(Initial(maxClients), PileUp());
            && end.Some?
            && end.value.threads == [Accepting(1), Accepting(1), Serving(0)]
            && end.value.pool.clients == [0]
  {
    var m := maxClients;
    var first, second := Pool(true, [], Some(0), m), Pool(true, [], Some(1), m);
    var actions := PileUp();
    var states := [
      Initial(m),
      State(first, [Looping], {0}, {}, 0, 1),
      State(first, [Accepting(0)], {0}, {}, 0, 1),
      State(first, [Holding(0)], {0}, {}, 1, 1),
      State(first.(started := false), [Holding(0)], {}, {}, 1, 1),
      State(second, [Holding(0), Looping], {1}, {}, 1, 2),
      State(second.(clients := [0]), [Admitted(0), Looping], {1}, {}, 1, 2),
      State(second.(clients := [0]), [Looping, Looping, Serving(0)], {1}, {}, 1, 2),
      State(second.(clients := [0]), [Accepting(1), Looping, Serving(0)], {1}, {}, 1, 2),
      State(second.(clients := [0]), [Accepting(1), Accepting(1), Serving(0)], {1}, {}, 1, 2)];
    assert {} + {0} == {0} && {0} - {0} == {} && {} + {1} == {1};
    assert (set sock: nat | sock in first.clients) == {};
    forall i | 0 <= i < 9
      ensures Step(states[i], actions[i]) == Some(states[i + 1])
    {
      var next := Step(states[i], actions[i]);
      if i < 5 {
        assert next.Some? && next.value.threads == states[i + 1].threads;
        assert next.value.open == states[i + 1].open && next.value.closed == states[i + 1].closed;
      } else {
        assert next.Some? && next.value.threads == states[i + 1].threads;
        assert next.value.pool.clients == states[i + 1].pool.clients;
      }
    }
    Follow(states, actions, 9);
  }

  lemma {:induction false} Follow(states: seq<State>, actions: seq<Action>, n: nat)
    requires n == |actions| && |states| == n + 1
    requires forall i :: 0 <= i < n ==> Step(states[i], actions[i]) == Some(states[i + 1])
    ensures Run(states[0], actions) == Some(states[n])
    decreases n
  {
    hide Step;
    if n > 0 {
      Follow(states[1..], actions[1..], n - 1);
    }
  }

  /** A handler that removes its connection takes exactly that one out, and it was there. */
  lemma RemovesItsOwn(s: State, i: nat)
    requires Invariant(s) && Step(s, Remove(i)).Some?
    ensures var sock, left := s.threads[i].sock, Step(s, Remove(i)).value.pool.clients;
            && sock in s.pool.clients && sock !in left
            && multiset(left) == multiset(s.pool.clients) - multiset{sock}
  {
    var sock := s.threads[i].sock;
    Replaced(s.threads, i, Removed(sock), sock);
    assert Balanced(s, sock);
    SwapDeleteRemovesOne(s.pool.clients, sock);
    var left := SwapDelete(s.pool.clients, sock);
    hide SwapDelete;
    assert sock in multiset(s.pool.clients);
    assert multiset(left)[sock] == 0;
    assert sock in left <==> sock in multiset(left);
  }

  /** Once no thread has a connection in the pool, the pool is empty. */
  lemma Drained(s: State)
    requires Invariant(s)
    requires forall x: nat :: Poolers(s.threads, x) == 0
    ensures s.pool.clients == []
  {
    forall x: nat
      ensures x !in multiset(s.pool.clients)
    {
      assert Balanced(s, x);
    }
    assert multiset(s.pool.clients) == multiset{};
    assert |s.pool.clients| == |multiset(s.pool.clients)|;
  }
}
