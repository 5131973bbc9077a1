/**
 * The life of the gateway's connections: a cap on how many are open, a count of running operations for each,
 * and an orderly drain when the process is told to stop.
 */
module Lifecycle {
  import opened Options

  type Socket = nat

  datatype DrainResult = Drained(closed: nat, remaining: nat) | BudgetExceeded(closed: nat, remaining: nat)

  datatype Phase = Serving | Draining | Flushing | ClosingPool | Exited(code: int)

  /**
   * `active` is the guard's counter; `conns` and the fields after it belong to the drain controller. `ended`
   * counts the calls of `end()`. History: `ops`, the operations really running on each socket, closed or not;
   * `seen`, the sockets that were ever offered; `atStart`, the connections open when the drain began.
   */
  datatype Gateway = Gateway(
    max: int, active: nat, conns: map<Socket, nat>, draining: bool, closed: nat, waiting: bool,
    result: Option<DrainResult>, ended: multiset<Socket>, phase: Phase,
    ops: map<Socket, nat>, seen: set<Socket>, atStart: nat)

  datatype Event =
    | Offer(socket: Socket)
    | BeginOp(socket: Socket)
    | EndOp(socket: Socket)
    | SocketClosed(socket: Socket)
    | Signal
    | BudgetExpires
    | DrainSettles
    | FlushReturns
    | PoolCloses
    | HardTimer

  function Start(max: int): Gateway {
    Gateway(max, 0, map[], false, 0, false, None, multiset{}, Serving, map[], {}, 0)
  }

  function Ops(g: Gateway, s: Socket): nat {
    if s in g.ops then g.ops[s] else 0
  }

  /** Data comes from open sockets; an operation may end after its socket closed; a socket closes once. */
  predicate Enabled(g: Gateway, e: Event) {
    && !g.phase.Exited?
    && match e
       case Offer(s) => s !in g.seen
       case BeginOp(s) => s in g.conns
       case EndOp(s) => Ops(g, s) > 0
       case SocketClosed(s) => s in g.conns
       case Signal => true
       case BudgetExpires => g.waiting && g.result.None?
       case DrainSettles => g.phase.Draining? && g.result.Some?
       case FlushReturns => g.phase.Flushing?
       case PoolCloses => g.phase.ClosingPool?
       case HardTimer => !g.phase.Serving?
  }

  /** The sockets without a running operation, as far as the controller knows. */
  function Quiescent(conns: map<Socket, nat>): set<Socket> {
    set s | s in conns && conns[s] == 0
  }

  /** The sockets on which an event calls `end()`. */
  function Ends(g: Gateway, e: Event): set<Socket> {
    match e
    case EndOp(s) => if s in g.conns && g.draining && Decrement(g.conns[s]) == 0 then {s} else {}
    case Signal => if g.phase.Serving? then Quiescent(g.conns) else {}
    case _ => {}
  }

  function Decrement(n: nat): nat {
    if n > 0 then n - 1 else 0
  }

  function Step(g: Gateway, e: Event): Gateway {
    match e
    case Offer(s) =>
      var seen := g.(seen := g.seen + {s});
      if g.active >= g.max || g.draining then seen
      else seen.(active := g.active + 1, conns := g.conns[s := 0], ops := g.ops[s := 0])
    case BeginOp(s) =>
      var run := g.(ops := g.ops[s := Ops(g, s) + 1]);
      if s in g.conns then run.(conns := g.conns[s := g.conns[s] + 1]) else run
    case EndOp(s) =>
      var run := g.(ops := g.ops[s := Decrement(Ops(g, s))], ended := g.ended + multiset(Ends(g, e)));
      if s in g.conns then run.(conns := g.conns[s := Decrement(g.conns[s])]) else run
    case SocketClosed(s) =>
      var left := g.conns - {s};
      var closed := if s in g.conns then g.closed + 1 else g.closed;
      g.(active := Decrement(g.active), conns := left, closed := closed,
         result := if g.draining && left == map[] && g.waiting && g.result.None? then Some(Drained(closed, 0)) else g.result)
    case Signal =>
      if !g.phase.Serving? then g
      else
        var d := g.(phase := Draining, draining := true, closed := 0, atStart := |g.conns|);
        if g.conns == map[] then d.(result := Some(Drained(0, 0)))
        else d.(ended := g.ended + multiset(Ends(g, e)), waiting := true)
    case BudgetExpires => g.(waiting := false, result := Some(BudgetExceeded(g.closed, |g.conns|)))
    case DrainSettles => g.(phase := Flushing)
    case FlushReturns => g.(phase := ClosingPool)
    case PoolCloses => g.(phase := Exited(0))
    case HardTimer => g.(phase := Exited(1))
  }

  ghost predicate Possible(g: Gateway, events: seq<Event>)
    decreases |events|
  {
    events == [] || (Enabled(g, events[0]) && Possible(Step(g, events[0]), events[1..]))
  }

  function Run(g: Gateway, events: seq<Event>): Gateway
    decreases |events|
  {
    if events == [] then g else Run(Step(g, events[0]), events[1..])
  }

  // ----- Invariants -----

  /** The guard counts the registered sockets, and the controller the running operations. */
  ghost predicate Counted(g: Gateway) {
    Sized(g) && Tracked(g)
  }

  ghost predicate Sized(g: Gateway) {
    g.active == |g.conns| && (g.active <= g.max || g.active == 0)
  }

  ghost predicate Tracked(g: Gateway) {
    && (forall s :: s in g.conns ==> s in g.seen && s in g.ops && g.conns[s] == g.ops[s])
    && (forall s :: s in g.ops ==> s in g.seen)
  }

  /** Once draining, a registered socket has a running operation or was ended. */
  ghost predicate BusyOrEnded(g: Gateway) {
    g.draining ==> forall s :: s in g.conns ==> g.conns[s] > 0 || s in g.ended
  }

  /** What the drain reports, and that it is never left without an answer once every socket is closed. */
  ghost predicate Reported(g: Gateway) {
    && (g.draining <==> !g.phase.Serving?)
    && (g.waiting ==> g.draining)
    && (g.draining ==> g.closed + |g.conns| == g.atStart && (g.waiting || g.result.Some?))
    && (g.draining && g.conns == map[] ==> g.result.Some?)
    && (!g.draining ==> g.result.None?)
    && match g.result
       case Some(Drained(closed, remaining)) => g.conns == map[] && closed == g.atStart == g.closed && remaining == 0
       case Some(BudgetExceeded(closed, remaining)) => closed + remaining == g.atStart && remaining > 0 && closed <= g.closed
       case None => true
  }

  /** Nothing is flushed nor closed before the drain reported. */
  ghost predicate Ordered(g: Gateway) {
    g.phase.Flushing? || g.phase.ClosingPool? || g.phase == Exited(0) ==> g.result.Some?
  }

  ghost predicate Inv(g: Gateway) {
    Counted(g) && BusyOrEnded(g) && Reported(g) && Ordered(g)
  }

  lemma Removed(m: map<Socket, nat>, s: Socket)
    requires s in m
    ensures |m - {s}| == |m| - 1 && (m - {s} == map[] <==> |m| == 1)
  {
    assert (m - {s}).Keys == m.Keys - {s};
    assert |(m - {s}).Keys| == |m.Keys| - 1;
  }

  lemma Added(m: map<Socket, nat>, s: Socket, n: nat)
    ensures |m[s := n]| == if s in m then |m| else |m| + 1
  {
    assert m[s := n].Keys == m.Keys + {s};
    if s in m {
      assert m.Keys + {s} == m.Keys;
    }
  }

  lemma OfferSized(g: Gateway, s: Socket)
    requires Sized(g) && s !in g.conns
    ensures Sized(Step(g, Offer(s)))
  {
    Added(g.conns, s, 0);
  }

  lemma StepSized(g: Gateway, e: Event)
    requires Sized(g) && Enabled(g, e) && (e.Offer? ==> e.socket !in g.conns)
    ensures Sized(Step(g, e))
  {
    match e
    case Offer(s) => OfferSized(g, s);
    case BeginOp(s) => Added(g.conns, s, g.conns[s] + 1);
    case EndOp(s) =>
      if s in g.conns {
        Added(g.conns, s, Decrement(g.conns[s]));
      }
    case SocketClosed(s) => Removed(g.conns, s);
    case _ =>
  }

  lemma StepTracked(g: Gateway, e: Event)
    requires Tracked(g) && Enabled(g, e)
    ensures Tracked(Step(g, e))
  {
  }

  lemma StepCounted(g: Gateway, e: Event)
    requires Counted(g) && Enabled(g, e)
    ensures Counted(Step(g, e))
  {
    StepSized(g, e);
    StepTracked(g, e);
  }

  lemma StepBusyOrEnded(g: Gateway, e: Event)
    requires Counted(g) && BusyOrEnded(g) && Reported(g) && Enabled(g, e)
    ensures BusyOrEnded(Step(g, e))
  {
  }

  lemma CloseReported(g: Gateway, s: Socket)
    requires Reported(g) && s in g.conns
    ensures Reported(Step(g, SocketClosed(s)))
  {
    Removed(g.conns, s);
  }

  lemma OperationReported(g: Gateway, e: Event)
    requires Reported(g) && Enabled(g, e) && (e.BeginOp? || e.EndOp?)
    ensures Reported(Step(g, e))
  {
    var s := e.socket;
    if s in g.conns {
      Added(g.conns, s, Step(g, e).conns[s]);
    }
  }

  lemma StepReported(g: Gateway, e: Event)
    requires Reported(g) && Enabled(g, e)
    ensures Reported(Step(g, e))
  {
    match e
    case Offer(s) =>
    case BeginOp(s) => OperationReported(g, e);
    case EndOp(s) => OperationReported(g, e);
    case SocketClosed(s) => CloseReported(g, s);
    case _ =>
  }

  lemma StepInv(g: Gateway, e: Event)
    requires Inv(g) && Enabled(g, e)
    ensures Inv(Step(g, e))
  {
    StepCounted(g, e);
    StepBusyOrEnded(g, e);
    StepReported(g, e);
  }

  lemma {:induction false} RunInv(g: Gateway, events: seq<Event>)
    requires Inv(g) && Possible(g, events)
    ensures Inv(Run(g, events))
    decreases |events|
  {
    if events != [] {
      StepInv(g, events[0]);
      RunInv(Step(g, events[0]), events[1..]);
    }
  }

  // ----- The main results -----

  /**
   * In every run: the guard's counter is the number of registered sockets and never above the cap; once
   * draining, each registered socket is busy or ended; the sockets closed and those remaining add up to what
   * there was; and the drain reports that all closed exactly when they did before the budget ran out.
   */
  lemma EveryRun(max: int, events: seq<Event>)
    requires Possible(Start(max), events)
    ensures Inv(Run(Start(max), events))
  {
    RunInv(Start(max), events);
  }

  /**
   * `end()` is called exactly on the registered sockets without a running operation: all of them when the drain
   * begins, and from then on each one whose last operation ends.
   */
  lemma EndsWhenQuiescent(max: int, events: seq<Event>, e: Event)
    requires Possible(Start(max), events) && Enabled(Run(Start(max), events), e)
    ensures var g := Run(Start(max), events);
            var t := Step(g, e);
            && t.ended == g.ended + multiset(Ends(g, e))
            && forall s :: s in Ends(g, e) <==>
                 s in t.conns && t.draining && Ops(t, s) == 0 && (e == EndOp(s) || (e.Signal? && g.phase.Serving?))
  {
    RunInv(Start(max), events);
    var g := Run(Start(max), events);
    assert Ends(g, e) == {} ==> g.ended + multiset(Ends(g, e)) == g.ended;
  }

  /** A new socket is registered exactly when the gateway is serving and fewer sockets than the cap are registered. */
  lemma TakenIffRoom(max: int, events: seq<Event>, s: Socket)
    requires Possible(Start(max), events) && Enabled(Run(Start(max), events), Offer(s))
    ensures var g := Run(Start(max), events);
            var taken := s in Step(g, Offer(s)).conns;
            && (taken <==> g.phase.Serving? && |g.conns| < max)
            && Step(g, Offer(s)).conns == (if taken then g.conns[s := 0] else g.conns)
  {
    RunInv(Start(max), events);
    CapStays(Start(max), events);
    OfferStep(Run(Start(max), events), s);
  }

  lemma OfferStep(g: Gateway, s: Socket)
    requires Sized(g) && Reported(g) && s !in g.conns
    ensures var taken := g.phase.Serving? && |g.conns| < g.max;
            Step(g, Offer(s)).conns == if taken then g.conns[s := 0] else g.conns
  {
  }

  /** The drain starts from the sockets registered then, and reports those still there when the budget runs out. */
  ghost predicate ReportsTheRest(g: Gateway) {
    && (Enabled(g, Signal) && g.phase.Serving? ==> Step(g, Signal).atStart == |g.conns|)
    && (Enabled(g, BudgetExpires) ==>
          && 0 < |g.conns| <= g.atStart
          && Step(g, BudgetExpires).result == Some(BudgetExceeded(g.atStart - |g.conns|, |g.conns|)))
  }

  lemma BudgetStep(g: Gateway)
    requires Reported(g)
    ensures ReportsTheRest(g)
  {
  }

  lemma BudgetReport(max: int, events: seq<Event>)
    requires Possible(Start(max), events)
    ensures ReportsTheRest(Run(Start(max), events))
  {
    RunInv(Start(max), events);
    BudgetStep(Run(Start(max), events));
  }

  function Begun(events: seq<Event>, s: Socket): nat {
    if events == [] then 0 else (if events[0] == BeginOp(s) then 1 else 0) + Begun(events[1..], s)
  }

  function Finished(events: seq<Event>, s: Socket): nat {
    if events == [] then 0 else (if events[0] == EndOp(s) then 1 else 0) + Finished(events[1..], s)
  }

  lemma {:induction false} OperationsFrom(g: Gateway, events: seq<Event>, s: Socket)
    requires Inv(g) && Possible(g, events)
    ensures Ops(Run(g, events), s) == Ops(g, s) + Begun(events, s) - Finished(events, s)
    decreases |events|
  {
    if events != [] {
      StepInv(g, events[0]);
      OperationsStep(g, events[0], s);
      OperationsFrom(Step(g, events[0]), events[1..], s);
    }
  }

  lemma OperationsStep(g: Gateway, e: Event, s: Socket)
    requires Tracked(g) && Enabled(g, e)
    ensures Ops(Step(g, e), s) == Ops(g, s) + (if e == BeginOp(s) then 1 else 0) - (if e == EndOp(s) then 1 else 0)
  {
  }

  /** The controller's count of a registered socket is that of the operations begun on it and not ended. */
  lemma OperationsAreCounted(max: int, events: seq<Event>, s: Socket)
    requires Possible(Start(max), events) && s in Run(Start(max), events).conns
    ensures Run(Start(max), events).conns[s] == Begun(events, s) - Finished(events, s)
  {
    RunInv(Start(max), events);
    OperationsFrom(Start(max), events, s);
  }

  /** What has happened, and what has not, when the process is in a phase; it ends with 0 or with 1. */
  ghost predicate PhaseTells(phase: Phase, events: seq<Event>) {
    && (Signal in events <==> !phase.Serving?)
    && (HardTimer in events <==> phase == Exited(1))
    && (PoolCloses in events <==> phase == Exited(0))
    && (phase.Serving? || phase.Draining? ==> DrainSettles !in events)
    && (phase.Serving? || phase.Draining? || phase.Flushing? ==> FlushReturns !in events)
    && (phase.Flushing? ==> DrainSettles in events)
    && (phase.ClosingPool? || phase == Exited(0) ==> DrainSettles in events && FlushReturns in events)
    && (phase.Exited? ==> phase.code in {0, 1})
  }

  lemma {:induction false} RunSnoc(g: Gateway, events: seq<Event>, e: Event)
    ensures Run(g, events + [e]) == Step(Run(g, events), e)
    ensures Possible(g, events + [e]) <==> Possible(g, events) && Enabled(Run(g, events), e)
    decreases |events|
  {
    if events == [] {
      assert [] + [e] == [e] && [e][1..] == [];
    } else {
      assert (events + [e])[1..] == events[1..] + [e];
      RunSnoc(Step(g, events[0]), events[1..], e);
    }
  }

  /** The shutdown goes through its phases in order: signal, drain, flush, pool, and exit. */
  lemma {:induction false} PhasesInOrder(max: int, events: seq<Event>)
    requires Possible(Start(max), events)
    ensures PhaseTells(Run(Start(max), events).phase, events)
    decreases |events|
  {
    if events != [] {
      var init, last := events[..|events| - 1], events[|events| - 1];
      assert events == init + [last];
      RunSnoc(Start(max), init, last);
      PhasesInOrder(max, init);
      PhaseAdvances(Run(Start(max), init), init, last);
    }
  }

  lemma PhaseAdvances(g: Gateway, events: seq<Event>, e: Event)
    requires Enabled(g, e) && PhaseTells(g.phase, events)
    ensures PhaseTells(Step(g, e).phase, events + [e])
  {
    assert forall x :: x in events + [e] <==> x in events || x == e;
  }

  lemma {:induction false} CapStays(g: Gateway, events: seq<Event>)
    ensures Run(g, events).max == g.max
    decreases |events|
  {
    if events != [] {
      CapStays(Step(g, events[0]), events[1..]);
    }
  }

  /** Neither counter's floor at zero is ever reached from below. */
  lemma ClampsNeverNeeded(max: int, events: seq<Event>, s: Socket)
    requires Possible(Start(max), events)
    ensures var g := Run(Start(max), events);
            && (Enabled(g, SocketClosed(s)) ==> g.active > 0)
            && (Enabled(g, EndOp(s)) && s in g.conns ==> g.conns[s] > 0)
  {
    RunInv(Start(max), events);
    var g := Run(Start(max), events);
    if s in g.conns {
      assert |g.conns| > 0 by { Removed(g.conns, s); }
    }
  }

  /** No connection is taken in while draining. */
  lemma {:induction false} DrainingOnlyShrinks(g: Gateway, events: seq<Event>)
    requires Inv(g) && Possible(g, events) && g.draining
    ensures Run(g, events).draining && Run(g, events).conns.Keys <= g.conns.Keys
    decreases |events|
  {
    if events != [] {
      StepInv(g, events[0]);
      assert Step(g, events[0]).conns.Keys <= g.conns.Keys;
      DrainingOnlyShrinks(Step(g, events[0]), events[1..]);
    }
  }
}
