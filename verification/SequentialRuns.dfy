/** A connection whose runs never overlap behaves as one of the interleavings. */
module SequentialRuns {
  import opened Options
  import opened Bytes
  import opened Avl
  import opened AvlParse
  import opened Framing
  import opened Connection
  import I = Interleaving

  /** The record counts acknowledged. */
  function Acks(log: seq<Effect>): seq<nat> {
    if log == [] then []
    else Acks(log[..|log| - 1]) + (match log[|log| - 1] case AvlAck(n) => [n] case _ => [])
  }

  /** The same connection, seen without and with overlapping runs; none is in flight. */
  ghost predicate Same(c: Conn, s: I.State) {
    && s.ready == c.ready && s.imei == c.imei && s.vehicle == c.vehicleId && s.buffer == c.buffer && s.destroyed == c.destroyed
    && s.recordsReceived == c.recordsReceived && s.recordsPublished == c.recordsPublished
    && s.runs == [] && s.acks == Acks(c.log)
  }

  /** The same topic and parsers on both sides. */
  ghost predicate Agrees(k: I.Config, w: World) {
    && k.crashTopic == w.crashTopic
    && (forall bytes :: k.packet(bytes) == w.packet(bytes))
    && (forall bytes :: k.hello(bytes) == w.hello(bytes))
  }

  /** From `s` the events are possible and lead to a state that is the same as `c`. */
  ghost predicate Leads(k: I.Config, s: I.State, events: seq<I.Event>, c: Conn) {
    I.Possible(k, s, events) && Same(c, I.Run(k, s, events))
  }

  lemma LeadsNow(k: I.Config, s: I.State, c: Conn)
    requires Same(c, s)
    ensures Leads(k, s, [], c)
  {
  }

  lemma LeadsLater(k: I.Config, s: I.State, e: I.Event, rest: seq<I.Event>, c: Conn)
    requires I.Enabled(s, e) && Leads(k, I.Step(k, s, e), rest, c)
    ensures Leads(k, s, [e] + rest, c)
  {
    assert ([e] + rest)[1..] == rest;
  }

  lemma NoAck(log: seq<Effect>, e: Effect)
    requires !e.AvlAck?
    ensures Acks(log + [e]) == Acks(log)
  {
    assert (log + [e])[..|log|] == log;
    assert Acks(log) + [] == Acks(log);
  }

  lemma OneAck(log: seq<Effect>, n: nat)
    ensures Acks(log + [AvlAck(n)]) == Acks(log) + [n]
  {
    assert (log + [AvlAck(n)])[..|log|] == log;
  }

  lemma {:induction false} NoAcks(log: seq<Effect>, effects: seq<Effect>)
    requires forall e :: e in effects ==> !e.AvlAck?
    ensures Acks(log + effects) == Acks(log)
    decreases |effects|
  {
    if effects == [] {
      assert log + effects == log;
    } else {
      var init, last := effects[..|effects| - 1], effects[|effects| - 1];
      NoAcks(log, init);
      NoAck(log + init, last);
      assert log + init + [last] == log + effects;
    }
  }

  lemma PublicationsHaveNoAcks(w: World, c: Conn, p: AvlPacket)
    ensures var (crash, publishes) := Publications(w, c, p);
            Acks(c.log + (crash + publishes)) == Acks(c.log)
  {
    var (crash, publishes) := Publications(w, c, p);
    var imei := if c.imei.Some? then c.imei.value else [];
    PublishesArePublishes(w, c.log + crash, imei, c.vehicleId, p.records);
    NoAcks(c.log, crash + publishes);
  }

  lemma CloseSame(c: Conn, s: I.State, effect: Effect)
    requires Same(c, s)
    ensures effect.AvlAck? ==> Same(Close(c, [effect]), s.(acks := s.acks + [effect.recordCount], destroyed := true))
    ensures !effect.AvlAck? ==> Same(Close(c, [effect]), s.(destroyed := true))
    ensures Same(Close(c, []), s.(destroyed := true))
  {
    if effect.AvlAck? {
      OneAck(c.log, effect.recordCount);
    } else {
      NoAck(c.log, effect);
    }
    NoAck(c.log + [effect], Destroy);
    NoAck(c.log + [], Destroy);
    assert c.log + [] == c.log;
  }

  // ----- One packet -----

  /** The waits of a packet, each over as soon as it starts. */
  function Waits(k: I.Config, p: AvlPacket, ok: bool): seq<I.Event> {
    (if k.crashTopic && IsCrashTracePacket(p) then [I.CrashDone(0, true)] else []) + [I.PublishDone(0, ok)]
  }

  /** The state when they are over, before the loop goes on. */
  function Waited(k: I.Config, s: I.State, p: AvlPacket, ok: bool): I.State {
    if ok then Delivered(Offered(k, s, p), p.records) else Undelivered(Offered(k, s, p), p.records)
  }

  /** A packet is received, and all of it is handed over. */
  function Offered(k: I.Config, s: I.State, p: AvlPacket): I.State {
    var records := I.Records(I.ImeiOf(s), s.vehicle, p.records);
    s.(recordsReceived := s.recordsReceived + |p.records|,
       offered := s.offered + [I.FirstOffer(k, s, p)] + (if k.crashTopic && IsCrashTracePacket(p) then [records] else []))
  }

  function Delivered(s: I.State, rs: seq<AvlRecord>): I.State {
    s.(recordsPublished := s.recordsPublished + |rs|, acks := s.acks + [|rs|], published := s.published + rs)
  }

  function Undelivered(s: I.State, rs: seq<AvlRecord>): I.State {
    s.(acks := s.acks + [0], lost := s.lost + rs, destroyed := true)
  }

  function Published(w: World, c: Conn, p: AvlPacket): bool {
    AllOk(Publications(w, c, p).1)
  }

  lemma ForwardSame(k: I.Config, w: World, c: Conn, s: I.State, p: AvlPacket)
    requires Same(c, s) && !c.destroyed
    ensures var c1 := c.(recordsReceived := c.recordsReceived + |p.records|);
            Same(Forward(w, c1, p), Waited(k, s, p, Published(w, c1, p)))
  {
    var c1 := c.(recordsReceived := c.recordsReceived + |p.records|);
    var (crash, publishes) := Publications(w, c1, p);
    PublicationsHaveNoAcks(w, c1, p);
    AcknowledgeSame(c1, Offered(k, s, p), crash + publishes, p.records, AllOk(publishes));
  }

  lemma WaitingLeads(k: I.Config, waiting: I.State, p: AvlPacket, ok: bool, after: I.State, rest: seq<I.Event>, end: Conn)
    requires waiting.runs == [I.Publishing(p)] && Leads(k, after, rest, end)
    requires I.Enabled(waiting, I.PublishDone(0, ok)) && I.Step(k, waiting, I.PublishDone(0, ok)) == after
    ensures Leads(k, waiting, [I.PublishDone(0, ok)] + rest, end)
  {
    LeadsLater(k, waiting, I.PublishDone(0, ok), rest, end);
  }

  lemma BeginLeads(k: I.Config, s: I.State, p: AvlPacket, next: nat, ok: bool, after: I.State, rest: seq<I.Event>, end: Conn)
    requires s.runs == [] && Leads(k, after, rest, end)
    requires after == if ok then I.Loop(k, Waited(k, s, p, ok)) else Waited(k, s, p, ok)
    ensures Leads(k, I.Begin(k, s, Done(p, next)), Waits(k, p, ok) + rest, end)
  {
    var waiting := Offered(k, s, p).(runs := [I.Publishing(p)]);
    PublishStep(k, waiting, p, ok, after);
    WaitingLeads(k, waiting, p, ok, after, rest, end);
    BegunLeads(k, s, p, next, ok, waiting, rest, end);
  }

  lemma BegunLeads(k: I.Config, s: I.State, p: AvlPacket, next: nat, ok: bool, waiting: I.State, rest: seq<I.Event>, end: Conn)
    requires s.runs == [] && Leads(k, waiting, [I.PublishDone(0, ok)] + rest, end)
    requires waiting == Offered(k, s, p).(runs := [I.Publishing(p)])
    ensures Leads(k, I.Begin(k, s, Done(p, next)), Waits(k, p, ok) + rest, end)
  {
    var begun := I.Begin(k, s, Done(p, next));
    var tail := [I.PublishDone(0, ok)] + rest;
    if k.crashTopic && IsCrashTracePacket(p) {
      CrashStep(k, s, begun, waiting, p);
      LeadsLater(k, begun, I.CrashDone(0, true), tail, end);
      assert Waits(k, p, ok) + rest == [I.CrashDone(0, true)] + tail;
    } else {
      assert s.offered + [I.FirstOffer(k, s, p)] + [] == s.offered + [I.FirstOffer(k, s, p)];
      assert begun == waiting;
      assert Waits(k, p, ok) + rest == tail;
    }
  }

  lemma CrashStep(k: I.Config, s: I.State, begun: I.State, waiting: I.State, p: AvlPacket)
    requires begun.runs == [I.CrashPublishing(I.ImeiOf(s), p)] && begun.vehicle == s.vehicle
    requires waiting == begun.(runs := [I.Publishing(p)],
                               offered := begun.offered + [I.Records(I.ImeiOf(s), s.vehicle, p.records)])
    ensures I.Enabled(begun, I.CrashDone(0, true)) && I.Step(k, begun, I.CrashDone(0, true)) == waiting
  {
    assert begun.runs[0 := I.Publishing(p)] == [I.Publishing(p)];
  }

  lemma PublishStep(k: I.Config, waiting: I.State, p: AvlPacket, ok: bool, after: I.State)
    requires waiting.runs == [I.Publishing(p)]
    requires var idle := waiting.(runs := []);
             after == if ok then I.Loop(k, Delivered(idle, p.records)) else Undelivered(idle, p.records)
    ensures I.Enabled(waiting, I.PublishDone(0, ok)) && I.Step(k, waiting, I.PublishDone(0, ok)) == after
  {
    assert I.Without(waiting.runs, 0) == [];
  }

  lemma CountedSame(c: Conn, s: I.State, rs: seq<AvlRecord>)
    requires Same(c, s) && !c.destroyed
    ensures Same(c.(recordsPublished := c.recordsPublished + |rs|, log := c.log + [AvlAck(|rs|)]), Delivered(s, rs))
  {
    OneAck(c.log, |rs|);
  }

  lemma ZeroSame(c: Conn, s: I.State, rs: seq<AvlRecord>)
    requires Same(c, s) && !c.destroyed
    ensures Same(Close(c, [AvlAck(0)]), Undelivered(s, rs))
  {
    CloseSame(c, s, AvlAck(0));
  }

  lemma AcknowledgeSame(c: Conn, s: I.State, effects: seq<Effect>, rs: seq<AvlRecord>, ok: bool)
    requires Same(c, s) && !c.destroyed && Acks(c.log + effects) == Acks(c.log)
    ensures var d := Acknowledge(c.(log := c.log + effects), |rs|, ok);
            Same(d, if ok then Delivered(s, rs) else Undelivered(s, rs))
  {
    var done := c.(log := c.log + effects);
    if ok {
      CountedSame(done, s, rs);
    } else {
      ZeroSame(done, s, rs);
    }
  }

  // ----- The packet loop -----

  lemma {:induction false} LoopLeads(k: I.Config, w: World, c: Conn, s: I.State) returns (events: seq<I.Event>)
    requires Agrees(k, w) && Same(c, s) && c.ready && !c.destroyed
    ensures Leads(k, I.Loop(k, s), events, Run(w, c))
    decreases |c.buffer|
  {
    NextSound(true, c.buffer);
    match Next(true, c.buffer)
    case Wait =>
      events := [];
      LeadsNow(k, s, c);
    case Reject =>
      events := [];
      CloseSame(c, s, Destroy);
      RunTo(w, c, Close(c, []));
      LeadsNow(k, s.(destroyed := true), Close(c, []));
    case Take(Ping) =>
      var d := c.(buffer := Drop(c.buffer, 1));
      RunTo(w, c, d);
      events := LoopLeads(k, w, d, I.Carve(s, Ping));
    case Take(Packet(bytes)) =>
      StepTakes(w, c, bytes);
      RunTo(w, c, Deliver(w, c, w.packet(bytes), |bytes|));
      events := DeliverLeads(k, w, c, s, bytes, w.packet(bytes));
  }

  lemma {:induction false} DeliverLeads(k: I.Config, w: World, c: Conn, s: I.State, bytes: seq<byte>, parsed: Parsed<AvlPacket>)
    returns (events: seq<I.Event>)
    requires Agrees(k, w) && Same(c, s) && c.ready && !c.destroyed && 0 < |bytes| <= |c.buffer|
    ensures Leads(k, I.Begin(k, I.Carve(s, Packet(bytes)), parsed), events, Run(w, Deliver(w, c, parsed, |bytes|)))
    decreases |c.buffer|, 0
  {
    var d := Deliver(w, c, parsed, |bytes|);
    var c1, s1 := c.(buffer := Drop(c.buffer, |bytes|)), I.Carve(s, Packet(bytes));
    match parsed
    case Fail(_) =>
      events := [];
      CloseSame(c1, s1, AvlAck(0));
      LeadsNow(k, s1.(acks := s1.acks + [0], destroyed := true), d);
    case Done(p, next) =>
      var c2 := c1.(recordsReceived := c1.recordsReceived + |p.records|);
      var ok := Published(w, c2, p);
      var t := Waited(k, s1, p, ok);
      ForwardSame(k, w, c1, s1, p);
      ForwardReady(w, c2, p);
      var rest: seq<I.Event> := [];
      var after := t;
      if ok {
        rest := LoopLeads(k, w, d, t);
        after := I.Loop(k, t);
      } else {
        LeadsNow(k, t, d);
      }
      BeginLeads(k, s1, p, next, ok, after, rest, Run(w, d));
      events := Waits(k, p, ok) + rest;
  }

  lemma ForwardReady(w: World, c: Conn, p: AvlPacket)
    ensures var d := Forward(w, c, p);
            d.ready == c.ready && d.buffer == c.buffer && (!c.destroyed ==> d.destroyed == !Published(w, c, p))
  {
  }

  // ----- A chunk -----

  /** The chunk, then each wait of its run as soon as it starts. */
  lemma ChunkLeads(k: I.Config, w: World, c: Conn, s: I.State, chunk: seq<byte>) returns (events: seq<I.Event>)
    requires Agrees(k, w) && Same(c, s) && !c.destroyed
    ensures Leads(k, s, events, Receive(w, c, chunk))
  {
    var c1 := More(c, chunk);
    var s1 := s.(buffer := s.buffer + chunk, received := s.received + chunk);
    if c.ready {
      var rest := LoopLeads(k, w, c1, s1);
      LeadsLater(k, s, I.Data(chunk), rest, Run(w, c1));
      events := [I.Data(chunk)] + rest;
    } else {
      var rest := ShakeLeads(k, w, c1, s1);
      LeadsLater(k, s, I.Data(chunk), rest, Run(w, c1));
      events := [I.Data(chunk)] + rest;
    }
  }

  lemma ShakeLeads(k: I.Config, w: World, c: Conn, s: I.State) returns (events: seq<I.Event>)
    requires Agrees(k, w) && Same(c, s) && !c.ready && !c.destroyed
    ensures Leads(k, I.Shake(k, s), events, Run(w, c))
  {
    NextSound(false, c.buffer);
    match Next(false, c.buffer)
    case Take(Hello(bytes)) => events := GreetLeads(k, w, c, s, bytes, w.hello(bytes));
    case _ =>
      events := [];
      LeadsNow(k, s, c);
  }

  lemma GreetLeads(k: I.Config, w: World, c: Conn, s: I.State, bytes: seq<byte>, parsed: Parsed<Imei>) returns (events: seq<I.Event>)
    requires Agrees(k, w) && Same(c, s) && !c.ready && !c.destroyed && |bytes| <= |c.buffer|
    requires Next(false, c.buffer) == Take(Hello(bytes)) && parsed == w.hello(bytes)
    ensures Leads(k, I.Greet(s, bytes, parsed), events, Run(w, c))
  {
    var d := Greet(w, c, parsed, |bytes|);
    StepGreets(w, c, bytes);
    RunTo(w, c, d);
    match parsed
    case Fail(_) =>
      events := [];
      CloseSame(c, s, ImeiAck(false));
      LeadsNow(k, s.(destroyed := true), d);
    case Done(imei, _) =>
      events := ResolveLeads(k, w, c, s, bytes, imei, d);
  }

  lemma ResolveLeads(k: I.Config, w: World, c: Conn, s: I.State, bytes: seq<byte>, imei: Imei, d: Conn) returns (events: seq<I.Event>)
    requires Agrees(k, w) && Same(c, s) && !c.ready && !c.destroyed && |bytes| <= |c.buffer| && d == Greet(w, c, Done(imei, 0), |bytes|)
    ensures Leads(k, I.Greet(s, bytes, Done(imei, 0)), events, Run(w, d))
  {
    var c1 := c.(imei := Some(imei), buffer := Drop(c.buffer, |bytes|));
    var waiting := I.Greet(s, bytes, Done(imei, 0));
    var idle := waiting.(runs := []);
    var resolution := w.resolve(c1.log, imei);
    var e := I.ResolveDone(0, resolution);
    assert waiting.runs == [I.Resolving(imei)] && I.Without(waiting.runs, 0) == [];
    assert Same(c1, idle);
    if resolution.Resolved? {
      NoAck(c1.log, ImeiAck(true));
      var rest := LoopLeads(k, w, d, I.Found(waiting, 0, resolution.vehicleId));
      LeadsLater(k, waiting, e, rest, Run(w, d));
      events := [e] + rest;
    } else {
      CloseSame(c1, idle, ImeiAck(false));
      LeadsNow(k, idle.(destroyed := true), d);
      LeadsLater(k, waiting, e, [], d);
      events := [e] + [];
    }
  }
}
