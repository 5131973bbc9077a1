/** The mutable objects the gateway's connections share, and the functions that put them together. */
module GatewayObjects {
  import opened Options
  import opened Lifecycle

  class ConnectionGuard {
    const maxConcurrent: int
    var active: nat

    constructor (maxConcurrent: int)
      ensures active == 0 && this.maxConcurrent == maxConcurrent
    {
      this.maxConcurrent := maxConcurrent;
      active := 0;
    }

    method TryAcquire() returns (ok: bool)
      modifies this
      ensures ok == (old(active) < maxConcurrent)
      ensures active == if ok then old(active) + 1 else old(active)
    {
      if active >= maxConcurrent {
        return false;
      }
      active := active + 1;
      ok := true;
    }

    method Release()
      modifies this
      ensures active == Decrement(old(active))
    {
      if active > 0 {
        active := active - 1;
      }
    }
  }

  lemma OneMore(ended: seq<Socket>, s: Socket)
    ensures multiset(ended + [s]) == multiset(ended) + multiset({s})
    ensures multiset(ended) == multiset(ended) + multiset({})
  {
  }

  lemma OneLess(q: set<Socket>, todo: set<Socket>, s: Socket)
    requires s in todo
    ensures multiset(q - (todo - {s})) == multiset(q - todo) + (if s in q then multiset{s} else multiset{})
  {
    if s in q {
      assert q - (todo - {s}) == (q - todo) + {s};
      assert multiset((q - todo) + {s}) == multiset(q - todo) + multiset{s};
    } else {
      assert q - (todo - {s}) == q - todo;
    }
  }

  class DrainController {
    var conns: map<Socket, nat>
    var draining: bool
    var cerrados: nat
    /** `onAllClosed` is set and the budget's timer is running. */
    var waiting: bool
    /** What the promise of `drain` was resolved with. */
    var result: Option<DrainResult>
    /** The sockets `end()` was called on, in order. */
    var ended: seq<Socket>

    constructor ()
      ensures conns == map[] && !draining && cerrados == 0 && !waiting && result == None && ended == []
    {
      conns, draining, cerrados, waiting, result, ended := map[], false, 0, false, None, [];
    }

    method Register(socket: Socket)
      modifies this
      ensures conns == old(conns)[socket := 0]
      ensures unchanged(this`draining) && unchanged(this`cerrados) && unchanged(this`waiting) && unchanged(this`result) && unchanged(this`ended)
    {
      conns := conns[socket := 0];
    }

    method BeginOp(socket: Socket)
      modifies this`conns
      ensures conns == if socket in old(conns) then old(conns)[socket := old(conns)[socket] + 1] else old(conns)
    {
      if socket in conns {
        conns := conns[socket := conns[socket] + 1];
      }
    }

    method CloseIfQuiescent(socket: Socket)
      modifies this`ended
      ensures ended == if draining && socket in conns && conns[socket] == 0 then old(ended) + [socket] else old(ended)
    {
      if draining && socket in conns && conns[socket] == 0 {
        ended := ended + [socket];
      }
    }

    method EndOp(socket: Socket)
      modifies this`conns, this`ended
      ensures conns == if socket in old(conns) then old(conns)[socket := Decrement(old(conns)[socket])] else old(conns)
      ensures ended == if draining && socket in conns && conns[socket] == 0 then old(ended) + [socket] else old(ended)
    {
      if socket !in conns {
        return;
      }
      conns := conns[socket := Decrement(conns[socket])];
      CloseIfQuiescent(socket);
    }

    /** The `close` listener. */
    method OnClose(socket: Socket)
      modifies this`conns, this`cerrados, this`result
      ensures conns == old(conns) - {socket}
      ensures cerrados == if socket in old(conns) then old(cerrados) + 1 else old(cerrados)
      ensures result == if draining && conns == map[] && waiting && old(result).None? then Some(Drained(cerrados, 0)) else old(result)
    {
      if socket in conns {
        cerrados := cerrados + 1;
      }
      conns := conns - {socket};
      if draining && conns == map[] {
        if waiting && result.None? {
          result := Some(Drained(cerrados, 0));
        }
      }
    }

    method Drain()
      modifies this
      ensures conns == old(conns) && draining && cerrados == 0
      ensures waiting == (old(waiting) || conns != map[])
      ensures result == if conns == map[] then Some(Drained(0, 0)) else old(result)
      ensures multiset(ended) == multiset(old(ended)) + multiset(Quiescent(conns))
    {
      draining := true;
      cerrados := 0;
      if conns == map[] {
        assert Quiescent(conns) == {};
        result := Some(Drained(cerrados, 0));
        return;
      }
      CloseAllQuiescent();
      waiting := true;
    }

    /** The sweep over the sockets registered when the drain begins. */
    method CloseAllQuiescent()
      requires draining
      modifies this`ended
      ensures multiset(ended) == multiset(old(ended)) + multiset(Quiescent(conns))
    {
      var todo := conns.Keys;
      assert Quiescent(conns) - todo == {};
      while todo != {}
        invariant todo <= conns.Keys
        invariant multiset(ended) == multiset(old(ended)) + multiset(Quiescent(conns) - todo)
        decreases |todo|
      {
        var socket :| socket in todo;
        CloseIfQuiescent(socket);
        OneLess(Quiescent(conns), todo, socket);
        todo := todo - {socket};
      }
      assert Quiescent(conns) - {} == Quiescent(conns);
    }

    method BudgetExpires()
      modifies this`waiting, this`result
      ensures !waiting && result == Some(BudgetExceeded(cerrados, |conns|))
    {
      waiting := false;
      result := Some(BudgetExceeded(cerrados, |conns|));
    }
  }

  /** One process: the guard, the controller and the shutdown sequence around them. */
  class Process {
    const guard: ConnectionGuard
    const drain: DrainController
    var phase: Phase
    ghost var ops: map<Socket, nat>
    ghost var seen: set<Socket>
    ghost var atStart: nat

    constructor (max: int)
      ensures Contents() == Start(max) && fresh(guard) && fresh(drain)
    {
      guard := new ConnectionGuard(max);
      drain := new DrainController();
      phase, ops, seen, atStart := Serving, map[], {}, 0;
    }

    ghost function Contents(): Gateway
      reads this, guard, drain
    {
      Lifecycle.Gateway(guard.maxConcurrent, guard.active, drain.conns, drain.draining, drain.cerrados, drain.waiting,
                        drain.result, multiset(drain.ended), phase, ops, seen, atStart)
    }

    /** `acceptConnection`; `taken` when the socket was handed to the connection handler. */
    method AcceptConnection(socket: Socket) returns (taken: bool)
      requires Inv(Contents()) && Enabled(Contents(), Offer(socket))
      modifies this, guard, drain
      ensures Contents() == Step(old(Contents()), Offer(socket)) && Inv(Contents())
      ensures taken == (socket in drain.conns)
    {
      StepInv(Contents(), Offer(socket));
      seen := seen + {socket};
      var acquired := guard.TryAcquire();
      if !acquired {
        return false;
      }
      if drain.draining {
        guard.Release();
        return false;
      }
      drain.Register(socket);
      ops := ops[socket := 0];
      taken := true;
    }

    method OnBeginOp(socket: Socket)
      requires Inv(Contents()) && Enabled(Contents(), BeginOp(socket))
      modifies this, drain
      ensures Contents() == Step(old(Contents()), BeginOp(socket)) && Inv(Contents())
    {
      ghost var g := Contents();
      ops := ops[socket := Ops(g, socket) + 1];
      drain.BeginOp(socket);
      StepInv(g, BeginOp(socket));
    }

    method OnEndOp(socket: Socket)
      requires Inv(Contents()) && Enabled(Contents(), EndOp(socket))
      modifies this, drain
      ensures Contents() == Step(old(Contents()), EndOp(socket)) && Inv(Contents())
    {
      ghost var g := Contents();
      ops := ops[socket := Decrement(Ops(g, socket))];
      drain.EndOp(socket);
      OneMore(old(drain.ended), socket);
      assert multiset(drain.ended) == g.ended + multiset(Ends(g, EndOp(socket)));
      assert Contents() == Step(g, EndOp(socket));
      StepInv(g, EndOp(socket));
    }

    /** Both `close` listeners: the controller's, then the guard's. */
    method OnSocketClosed(socket: Socket)
      requires Inv(Contents()) && Enabled(Contents(), SocketClosed(socket))
      modifies guard, drain
      ensures Contents() == Step(old(Contents()), SocketClosed(socket)) && Inv(Contents())
    {
      ghost var g := Contents();
      drain.OnClose(socket);
      guard.Release();
      StepInv(g, SocketClosed(socket));
    }

    /** `onSignal`: the first signal starts the drain, the others do nothing. */
    method OnSignal()
      requires Inv(Contents()) && Enabled(Contents(), Signal)
      modifies this, drain
      ensures Contents() == Step(old(Contents()), Signal) && Inv(Contents())
    {
      StepInv(Contents(), Signal);
      if !phase.Serving? {
        return;
      }
      phase := Phase.Draining;
      atStart := |drain.conns|;
      drain.Drain();
    }

    method OnBudgetExpires()
      requires Inv(Contents()) && Enabled(Contents(), BudgetExpires)
      modifies drain
      ensures Contents() == Step(old(Contents()), BudgetExpires) && Inv(Contents())
    {
      StepInv(Contents(), BudgetExpires);
      drain.BudgetExpires();
    }
  }
}
