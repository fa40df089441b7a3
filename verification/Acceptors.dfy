/**
 internal/modbus/server.go: how many acceptors there can be, and which connections join the pool. A
 start spawns an acceptor without waiting for the one of an earlier start to end, and a connection that
 was accepted before a stop may take the lock only after the next start.
 */
module Acceptors {
  import opened Bytes
  import opened Pools

  // ---- How many acceptors ----

  /** A thread in the loop of `acceptTCPClients`. */
  predicate IsAcceptor(t: Thread) {
    t.Looping? || t.Accepting? || t.Holding? || t.Admitted? || t.Rejected?
  }

  function Alive(threads: seq<Thread>): nat {
    if threads == [] then 0 else One(IsAcceptor(threads[0])) + Alive(threads[1..])
  }

  /** A start that binds while the server is stopped. */
  predicate Starts(s: State, a: Action) {
    a.Start? && a.bound && !s.pool.started
  }

  lemma {:induction false} AliveReplaced(threads: seq<Thread>, i: nat, t: Thread)
    requires i < |threads|
    ensures Alive(threads[i := t]) == Alive(threads) - One(IsAcceptor(threads[i])) + One(IsAcceptor(t))
  {
    hide IsAcceptor;
    if i > 0 {
      AliveReplaced(threads[1..], i - 1, t);
      assert threads[i := t][1..] == threads[1..][i - 1 := t];
    } else {
      assert threads[i := t][1..] == threads[1..];
    }
  }

  lemma {:induction false} AliveAppended(threads: seq<Thread>, t: Thread)
    ensures Alive(threads + [t]) == Alive(threads) + One(IsAcceptor(t))
  {
    hide IsAcceptor;
    if threads == [] {
      assert [t][1..] == [];
      assert threads + [t] == [t];
    } else {
      AliveAppended(threads[1..], t);
      assert (threads + [t])[1..] == threads[1..] + [t];
    }
  }

  /** An acceptor comes to life exactly with a start, and ends exactly when it finds its listener closed. */
  lemma AliveAfter(s: State, a: Action)
    requires Step(s, a).Some?
    ensures Alive(Step(s, a).value.threads) == Alive(s.threads) + One(Starts(s, a)) - One(a.AcceptClosed?)
  {
    var next := Step(s, a).value;
    hide SwapDelete;
    match a
    case Start(_) => AliveAppended(s.threads, Looping);
    case Stop =>
    case Drop(_) =>
    case Spawn(i) =>
      AliveReplaced(s.threads, i, Looping);
      AliveAppended(s.threads[i := Looping], Serving(s.threads[i].sock));
    case _ => AliveReplaced(s.threads, a.i, next.threads[a.i]);
  }

  /** In every state of a run there is at most one acceptor. */
  predicate AtMostOne(s: State, actions: seq<Action>)
    requires Run(s, actions).Some?
    decreases actions
  {
    Alive(s.threads) <= 1 && (actions == [] || AtMostOne(Step(s, actions[0]).value, actions[1..]))
  }

  /** No start of a run comes while an acceptor of an earlier one is still there. */
  predicate StartsAlone(s: State, actions: seq<Action>)
    requires Run(s, actions).Some?
    decreases actions
  {
    actions == [] ||
    (!(Starts(s, actions[0]) && Alive(s.threads) > 0) && StartsAlone(Step(s, actions[0]).value, actions[1..]))
  }

  lemma {:induction false} AtMostOneFrom(s: State, actions: seq<Action>)
    requires Run(s, actions).Some? && Alive(s.threads) <= 1
    ensures AtMostOne(s, actions) <==> StartsAlone(s, actions)
    decreases actions
  {
    hide Step;
    hide Alive;
    if actions != [] {
      var next := Step(s, actions[0]).value;
      AliveAfter(s, actions[0]);
      if Alive(next.threads) <= 1 {
        AtMostOneFrom(next, actions[1..]);
      }
    }
  }

  /**
   Acceptors pile up in a run exactly when some start of it comes before the acceptor of an earlier one
   has ended.
   */
  lemma PileUpExactly(maxClients: nat, actions: seq<Action>)
    requires Run(Initial(maxClients), actions).Some?
    ensures AtMostOne(Initial(maxClients), actions) <==> StartsAlone(Initial(maxClients), actions)
  {
    AtMostOneFrom(Initial(maxClients), actions);
  }

  // ---- Which accepted connections join the pool ----

  /** Some state of a run has the connection in the pool. */
  predicate Joins(s: State, actions: seq<Action>, sock: nat)
    requires Run(s, actions).Some?
    decreases actions
  {
    sock in s.pool.clients || (actions != [] && Joins(Step(s, actions[0]).value, actions[1..], sock))
  }

  /** When a thread first takes the lock to admit its connection, or the length of the run. */
  function AdmitAt(actions: seq<Action>, i: nat): (k: nat)
    ensures k <= |actions|
    ensures k < |actions| ==> actions[k] == Admit(i)
  {
    if actions == [] || actions[0] == Admit(i) then 0 else 1 + AdmitAt(actions[1..], i)
  }

  /** Whether the server is started after some actions: the last start that binds, or stop, decides. */
  function StartedAfter(started: bool, actions: seq<Action>): bool
    decreases actions
  {
    if actions == [] then started
    else
      StartedAfter(if actions[0] == Start(true) then true else if actions[0] == Stop then false else started, actions[1..])
  }

  lemma {:induction false} StartedRun(s: State, actions: seq<Action>)
    requires Run(s, actions).Some?
    ensures Run(s, actions).value.pool.started == StartedAfter(s.pool.started, actions)
    decreases actions
  {
    if actions != [] {
      StartedRun(Step(s, actions[0]).value, actions[1..]);
    }
  }

  lemma {:induction false} RunPrefix(s: State, actions: seq<Action>, k: nat)
    requires Run(s, actions).Some? && k <= |actions|
    ensures Run(s, actions[..k]).Some?
    decreases actions
  {
    hide Step;
    if k > 0 {
      RunPrefix(Step(s, actions[0]).value, actions[1..], k - 1);
      assert actions[..k][1..] == actions[1..][..k - 1];
    }
  }

  /** The connection has been accepted, and whoever still has it is not going to put it in the pool. */
  ghost predicate Past(s: State, sock: nat) {
    && sock < s.sockets
    && sock !in s.pool.clients
    && forall j :: 0 <= j < |s.threads| && s.threads[j].Holds(sock) ==> s.threads[j].Rejected? || s.threads[j].Removed?
  }

  lemma PastStaysPast(s: State, a: Action, sock: nat)
    requires Past(s, sock) && Step(s, a).Some?
    ensures Past(Step(s, a).value, sock)
  {
    if a.Remove? {
      CountAfterDelete(s.pool.clients, s.threads[a.i].sock, sock);
      assert sock in SwapDelete(s.pool.clients, s.threads[a.i].sock) <==>
             sock in multiset(SwapDelete(s.pool.clients, s.threads[a.i].sock));
      assert sock !in multiset(s.pool.clients);
    }
    hide SwapDelete;
  }

  lemma {:induction false} PastNeverJoins(s: State, actions: seq<Action>, sock: nat)
    requires Past(s, sock) && Run(s, actions).Some?
    ensures !Joins(s, actions, sock)
    decreases actions
  {
    hide Step;
    if actions != [] {
      PastStaysPast(s, actions[0], sock);
      PastNeverJoins(Step(s, actions[0]).value, actions[1..], sock);
    }
  }

  /** A thread that has accepted a connection, and is the only one that has it. */
  ghost predicate Pending(s: State, i: nat, sock: nat) {
    && i < |s.threads| && s.threads[i] == Holding(sock)
    && sock < s.sockets
    && sock !in s.pool.clients
    && forall j :: 0 <= j < |s.threads| && s.threads[j].Holds(sock) ==> j == i
  }

  /** It stays so until the thread takes the lock; then the connection is in the pool, or past. */
  lemma PendingStep(s: State, a: Action, i: nat, sock: nat)
    requires Pending(s, i, sock) && Step(s, a).Some?
    ensures var next := Step(s, a).value;
            if a != Admit(i) then Pending(next, i, sock)
            else if s.pool.HasRoom() then sock in next.pool.clients
            else Past(next, sock)
  {
    if a.Remove? {
      CountAfterDelete(s.pool.clients, s.threads[a.i].sock, sock);
      assert sock in SwapDelete(s.pool.clients, s.threads[a.i].sock) <==>
             sock in multiset(SwapDelete(s.pool.clients, s.threads[a.i].sock));
      assert sock !in multiset(s.pool.clients);
    }
    hide SwapDelete;
  }

  lemma {:induction false} JoinsFrom(s: State, actions: seq<Action>, i: nat, sock: nat)
    requires Pending(s, i, sock) && Run(s, actions).Some?
    ensures var k := AdmitAt(actions, i);
            && Run(s, actions[..k]).Some?
            && (Joins(s, actions, sock) <==> k < |actions| && Run(s, actions[..k]).value.pool.HasRoom())
    decreases actions
  {
    hide Step;
    hide Pending;
    hide Past;
    hide Pool.HasRoom;
    if actions == [] {
      assert !Joins(s, actions, sock) by { assert Pending(s, i, sock); NotYetIn(s, i, sock); }
    } else {
      var next, later, k := Step(s, actions[0]).value, actions[1..], AdmitAt(actions, i);
      NotYetIn(s, i, sock);
      PendingStep(s, actions[0], i, sock);
      RunPrefix(s, actions, k);
      if actions[0] != Admit(i) {
        JoinsFrom(next, later, i, sock);
        assert actions[..k][1..] == later[..k - 1];
      } else if s.pool.HasRoom() {
        assert Joins(next, later, sock);
      } else {
        PastNeverJoins(next, later, sock);
      }
    }
  }

  lemma NotYetIn(s: State, i: nat, sock: nat)
    requires Pending(s, i, sock)
    ensures sock !in s.pool.clients
  {
  }

  /**
   In a state that satisfies the invariant, a connection held by a thread is held by that one only, and
   not in the pool.
   */
  lemma HoldingIsPending(s: State, i: nat)
    requires Invariant(s) && i < |s.threads| && s.threads[i].Holding?
    ensures Pending(s, i, s.threads[i].sock)
  {
    var sock := s.threads[i].sock;
    assert Balanced(s, sock);
    Replaced(s.threads, i, Done, sock);
    assert Poolers(s.threads[i := Done], sock) <= Holders(s.threads[i := Done], sock);
    assert sock in s.pool.clients <==> sock in multiset(s.pool.clients);
    forall j | 0 <= j < |s.threads| && s.threads[j].Holds(sock)
      ensures j == i
    {
      if j != i {
        Replaced(s.threads[i := Done], j, Done, sock);
      }
    }
  }

  /**
   A connection that was accepted and not yet admitted when the server is stopped joins the pool
   later exactly if its acceptor takes the lock after the server has been started again and not stopped
   since, and the pool has room then.
   */
  lemma JoinsAfterStopExactly(s: State, actions: seq<Action>, i: nat)
    requires Invariant(s) && !s.pool.started && Run(s, actions).Some?
    requires i < |s.threads| && s.threads[i].Holding?
    ensures var k := AdmitAt(actions, i);
            && Run(s, actions[..k]).Some?
            && (Joins(s, actions, s.threads[i].sock) <==>
                && k < |actions|
                && StartedAfter(false, actions[..k])
                && |Run(s, actions[..k]).value.pool.clients| < s.pool.maxClients)
  {
    var k := AdmitAt(actions, i);
    HoldingIsPending(s, i);
    JoinsFrom(s, actions, i, s.threads[i].sock);
    StartedRun(s, actions[..k]);
    SameLimit(s, actions[..k]);
  }

  lemma {:induction false} SameLimit(s: State, actions: seq<Action>)
    requires Run(s, actions).Some?
    ensures Run(s, actions).value.pool.maxClients == s.pool.maxClients
    decreases actions
  {
    if actions != [] {
      SameLimit(Step(s, actions[0]).value, actions[1..]);
    }
  }
}
