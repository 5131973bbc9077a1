/**
 * What an acknowledgement names. It carries a count and nothing else, so a device takes it for the first records
 * it still has. That is right as long as no chunk completes a packet while another packet is in flight.
 */
module StopAndWait {
  import opened Options
  import opened Bytes
  import opened Avl
  import opened AvlParse
  import opened Handshake
  import opened Framing
  import opened Connection
  import opened Interleaving

  /** The packet a run would find in `buf`, after the pings. */
  function Ahead(buf: seq<byte>): Option<seq<byte>>
    decreases |buf|
  {
    match Next(true, buf)
    case Take(Packet(bytes)) => Some(bytes)
    case Take(Ping) => Ahead(Drop(buf, 1))
    case _ => None
  }

  /** A chunk that completes a message while a run is in flight. */
  predicate Barges(s: State, e: Event) {
    && e.Data? && s.runs != []
    && if s.ready then Ahead(s.buffer + e.chunk).Some? else Next(false, s.buffer + e.chunk).Take?
  }

  ghost predicate NeverBarges(k: Config, s: State, events: seq<Event>)
    decreases |events|
  {
    events == [] || (!Barges(s, events[0]) && NeverBarges(k, Interleaving.Step(k, s, events[0]), events[1..]))
  }

  /** At most one run is in flight, and the records of the packets taken are, in order, published, in flight and lost. */
  ghost predicate Ordered(k: Config, s: State) {
    && |s.runs| <= 1
    && s.published + InFlight(s.runs) + s.lost == RecordsIn(k, s.carved)
    && (s.lost != [] ==> s.runs == [] && s.destroyed)
  }

  lemma OneInFlight(r: Pending)
    ensures InFlight([r]) == RecordsOfRun(r)
  {
    InFlightSnoc([], r);
    assert [] + [r] == [r];
  }

  lemma BeginOrdered(k: Config, s: State, parsed: Parsed<AvlPacket>)
    requires s.runs == [] && s.lost == [] && s.published + Accepted(parsed) == RecordsIn(k, s.carved)
    ensures Ordered(k, Begin(k, s, parsed))
  {
    if parsed.Done? {
      OneInFlight(Interleaving.Waiting(k, s, parsed.value));
    }
  }

  lemma {:induction false} LoopOrdered(k: Config, s: State)
    requires s.runs == [] && s.lost == [] && s.published == RecordsIn(k, s.carved)
    ensures Ordered(k, Loop(k, s))
    decreases |s.buffer|
  {
    NextSound(true, s.buffer);
    match Next(true, s.buffer)
    case Take(Packet(bytes)) =>
      RecordsInSnoc(k, s.carved, Packet(bytes));
      BeginOrdered(k, Carve(s, Packet(bytes)), k.packet(bytes));
    case Take(Ping) =>
      RecordsInSnoc(k, s.carved, Ping);
      LoopOrdered(k, Carve(s, Ping));
    case _ =>
  }

  /** Without a packet ahead, a run skips pings and does nothing else. */
  lemma {:induction false} LoopSkips(k: Config, s: State)
    requires Ahead(s.buffer).None?
    ensures var r := Loop(k, s);
            && r.runs == s.runs && r.published == s.published && r.lost == s.lost && r.acks == s.acks
            && RecordsIn(k, r.carved) == RecordsIn(k, s.carved) && (s.destroyed ==> r.destroyed)
    decreases |s.buffer|
  {
    NextSound(true, s.buffer);
    match Next(true, s.buffer)
    case Take(Ping) =>
      RecordsInSnoc(k, s.carved, Ping);
      LoopSkips(k, Carve(s, Ping));
    case _ =>
  }

  lemma GreetOrdered(k: Config, s: State, bytes: seq<byte>, parsed: Parsed<Imei>)
    requires Ordered(k, s) && s.runs == [] && s.lost == []
    ensures Ordered(k, Interleaving.Greet(s, bytes, parsed))
  {
    RecordsInSnoc(k, s.carved, Hello(bytes));
    if parsed.Done? {
      OneInFlight(Resolving(parsed.value));
    }
  }

  lemma DataOrdered(k: Config, s: State, chunk: seq<byte>)
    requires Ordered(k, s) && !s.destroyed && !Barges(s, Data(chunk))
    ensures Ordered(k, Interleaving.Step(k, s, Data(chunk)))
  {
    var c := s.(buffer := s.buffer + chunk, received := s.received + chunk);
    if !c.ready {
      match Next(false, c.buffer)
      case Take(Hello(bytes)) => GreetOrdered(k, c, bytes, k.hello(bytes));
      case _ =>
    } else if c.runs == [] {
      LoopOrdered(k, c);
    } else {
      LoopSkips(k, c);
    }
  }

  lemma StepOrdered(k: Config, s: State, e: Event)
    requires Ordered(k, s) && Enabled(s, e) && !Barges(s, e)
    ensures Ordered(k, Interleaving.Step(k, s, e))
  {
    match e
    case Data(chunk) => DataOrdered(k, s, chunk);
    case ResolveDone(i, resolution) => ResolveDoneOrdered(k, s, resolution);
    case CrashDone(i, _) => InFlightReplace(s.runs, i, Publishing(s.runs[i].packet));
    case PublishDone(i, ok) => PublishDoneOrdered(k, s, ok);
    case Closed =>
  }

  lemma ResolveDoneOrdered(k: Config, s: State, resolution: Resolution)
    requires Ordered(k, s) && Enabled(s, ResolveDone(0, resolution))
    ensures Ordered(k, Interleaving.Step(k, s, ResolveDone(0, resolution)))
  {
    OneInFlight(s.runs[0]);
    if resolution.Resolved? {
      LoopOrdered(k, Found(s, 0, resolution.vehicleId));
    }
  }

  lemma PublishDoneOrdered(k: Config, s: State, ok: bool)
    requires Ordered(k, s) && Enabled(s, PublishDone(0, ok))
    ensures Ordered(k, Interleaving.Step(k, s, PublishDone(0, ok)))
  {
    var rs := s.runs[0].packet.records;
    PublishDoneStep(k, s, 0, ok);
    EndOrdered(k, s, rs);
    if ok {
      LoopOrdered(k, Published(s, 0, rs));
    }
  }

  lemma EndOrdered(k: Config, s: State, rs: seq<AvlRecord>)
    requires Ordered(k, s) && |s.runs| == 1 && RecordsOfRun(s.runs[0]) == rs
    ensures Published(s, 0, rs).runs == [] && Published(s, 0, rs).lost == []
    ensures Published(s, 0, rs).published == RecordsIn(k, s.carved) && Ordered(k, Lost(s, 0, rs))
  {
    OneInFlight(s.runs[0]);
    assert s.runs == [s.runs[0]] && Without(s.runs, 0) == [];
    assert s.published + rs + [] == s.published + rs && s.published + [] + rs == s.published + rs && [] + rs == rs;
  }

  lemma {:induction false} RunOrdered(k: Config, s: State, events: seq<Event>)
    requires Ordered(k, s) && Possible(k, s, events) && NeverBarges(k, s, events)
    ensures Ordered(k, Interleaving.Run(k, s, events))
    decreases |events|
  {
    if events != [] {
      StepOrdered(k, s, events[0]);
      RunOrdered(k, Interleaving.Step(k, s, events[0]), events[1..]);
    }
  }

  lemma {:induction false} NeverBargesIsNeverMisread(k: Config, s: State, events: seq<Event>)
    requires Phased(s) && Possible(k, s, events) && NeverBarges(k, s, events)
    ensures NeverMisread(k, s, events)
    decreases |events|
  {
    if events != [] {
      StepPhased(k, s, events[0]);
      NeverBargesIsNeverMisread(k, Interleaving.Step(k, s, events[0]), events[1..]);
    }
  }

  /** The acknowledgements name the records published: those are the first of the packets taken. */
  ghost predicate NamesThePublished(k: Config, s: State) {
    s.published <= RecordsIn(k, s.carved) && |s.published| == Sum(s.acks)
  }

  /**
   * If no chunk completes a message while a run is in flight, then in every reachable state, whatever fails and
   * whenever the socket closes, the records published are the first of the stream, as many as were acknowledged.
   */
  lemma AcknowledgedAreTheFirst(k: Config, events: seq<Event>)
    requires Possible(k, START, events) && NeverBarges(k, START, events)
    ensures var s := Interleaving.Run(k, START, events);
            && s.carved <= Tokens(false, s.received)
            && NamesThePublished(k, s) && s.published == RecordsIn(k, s.carved)[..Sum(s.acks)]
  {
    StartConserved(k);
    RunConserves(k, START, events);
    RunOrdered(k, START, events);
    NeverBargesIsNeverMisread(k, START, events);
    CanonicalIffNeverMisread(k, events);
    OrderedNames(k, Interleaving.Run(k, START, events));
  }

  lemma OrderedNames(k: Config, s: State)
    requires Ordered(k, s) && |s.published| == Sum(s.acks)
    ensures NamesThePublished(k, s) && s.published == RecordsIn(k, s.carved)[..Sum(s.acks)]
  {
    assert s.published + InFlight(s.runs) + s.lost == s.published + (InFlight(s.runs) + s.lost);
  }

  // ----- A packet that overtakes another -----

  /** What ends the run at `i`: its publication succeeds. */
  function Finish(k: Config, i: nat, p: AvlPacket): seq<Event> {
    (if k.crashTopic && IsCrashTracePacket(p) then [CrashDone(i, true)] else []) + [PublishDone(i, true)]
  }

  /** A run that has just begun with a packet. */
  predicate BeganWith(k: Config, r: Pending, q: AvlPacket) {
    !r.Resolving? && r.packet == q && (r.CrashPublishing? <==> k.crashTopic && IsCrashTracePacket(q))
  }

  /** `runs`, and one more that began with a packet. */
  predicate Joined(k: Config, runs: seq<Pending>, more: seq<Pending>, q: AvlPacket) {
    |more| == |runs| + 1 && more[..|runs|] == runs && BeganWith(k, more[|runs|], q)
  }

  /** A run took the packet `q` and began with it. */
  ghost predicate Took(k: Config, s: State, r: State, q: AvlPacket) {
    && r.published == s.published && Joined(k, s.runs, r.runs, q)
    && RecordsIn(k, r.carved) == RecordsIn(k, s.carved) + q.records
  }

  lemma TakesPacket(k: Config, s: State, bytes: seq<byte>, q: AvlPacket, next: nat)
    requires Next(true, s.buffer) == Take(Packet(bytes)) && k.packet(bytes) == Done(q, next)
    ensures Took(k, s, Loop(k, s), q)
  {
    RecordsInSnoc(k, s.carved, Packet(bytes));
    var c := Carve(s, Packet(bytes));
    assert Loop(k, s) == Begin(k, c, Done(q, next));
    assert Begin(k, c, Done(q, next)).runs == s.runs + [Interleaving.Waiting(k, c, q)];
  }

  lemma {:induction false} LoopReaches(k: Config, s: State, bytes: seq<byte>, q: AvlPacket, next: nat)
    requires Ahead(s.buffer) == Some(bytes) && k.packet(bytes) == Done(q, next)
    ensures Took(k, s, Loop(k, s), q)
    decreases |s.buffer|
  {
    NextSound(true, s.buffer);
    match Next(true, s.buffer)
    case Take(Packet(_)) => TakesPacket(k, s, bytes, q, next);
    case Take(Ping) =>
      LoopReaches(k, Carve(s, Ping), bytes, q, next);
      TookAfterPing(k, s, Loop(k, Carve(s, Ping)), q);
    case _ =>
  }

  lemma TookAfterPing(k: Config, s: State, r: State, q: AvlPacket)
    requires Took(k, Carve(s, Ping), r, q)
    ensures Took(k, s, r, q)
  {
    RecordsInSnoc(k, s.carved, Ping);
  }

  lemma {:induction false} RecordsInGrow(k: Config, a: seq<Token>, b: seq<Token>)
    requires a <= b
    ensures RecordsIn(k, a) <= RecordsIn(k, b)
    decreases |b|
  {
    if a != b {
      RecordsInGrow(k, a, b[..|b| - 1]);
    }
  }

  lemma {:induction false} LoopPublishesNothing(k: Config, s: State)
    ensures Loop(k, s).published == s.published
    decreases |s.buffer|
  {
    NextSound(true, s.buffer);
    match Next(true, s.buffer)
    case Take(Ping) => LoopPublishesNothing(k, Carve(s, Ping));
    case _ =>
  }

  lemma FinishReaches(k: Config, s: State, i: nat, q: AvlPacket)
    requires i < |s.runs| && BeganWith(k, s.runs[i], q)
    ensures Possible(k, s, Finish(k, i, q))
    ensures var t := Interleaving.Run(k, s, Finish(k, i, q));
            t.published == s.published + q.records && s.carved <= t.carved
  {
    var crash := k.crashTopic && IsCrashTracePacket(q);
    var waiting := if crash then Interleaving.Step(k, s, CrashDone(i, true)) else s;
    var e := PublishDone(i, true);
    PublishDoneStep(k, waiting, i, true);
    LoopPublishesNothing(k, Published(waiting, i, q.records));
    LoopKeeps(k, Published(waiting, i, q.records));
    OneStep(k, waiting, e);
    if crash {
      TwoSteps(k, s, CrashDone(i, true), e);
      assert [CrashDone(i, true)] + [e] == [CrashDone(i, true), e];
    } else {
      assert Finish(k, i, q) == [e];
    }
  }

  /**
   * The condition is needed. A chunk that completes an acceptable packet `q` while the packet `p` is in flight can
   * be acknowledged first; the acknowledgement then names the published records if and only if those of `q` are
   * also the first of `p` and `q` together, as when a packet is sent again.
   */
  lemma BargingMisnames(k: Config, s: State, chunk: seq<byte>, p: AvlPacket, bytes: seq<byte>, q: AvlPacket, next: nat)
    requires Ordered(k, s) && s.ready && !s.destroyed && |s.runs| == 1 && !s.runs[0].Resolving? && s.runs[0].packet == p
    requires Ahead(s.buffer + chunk) == Some(bytes) && k.packet(bytes) == Done(q, next)
    ensures var events := [Data(chunk)] + Finish(k, 1, q);
            && Possible(k, s, events)
            && var t := Interleaving.Run(k, s, events);
               && t.published == s.published + q.records
               && (t.published <= RecordsIn(k, t.carved) <==> q.records <= p.records + q.records)
  {
    BargeReaches(k, s, chunk, bytes, q, next);
    var u := Interleaving.Step(k, s, Data(chunk));
    InFlightOf(s, p);
    MisnamesAfter(k, u, s.published, p, q);
    Prepend(k, s, Data(chunk), Finish(k, 1, q));
  }

  lemma MisnamesAfter(k: Config, u: State, done: seq<AvlRecord>, p: AvlPacket, q: AvlPacket)
    requires |u.runs| == 2 && BeganWith(k, u.runs[1], q)
    requires u.published == done && RecordsIn(k, u.carved) == done + p.records + q.records
    ensures Possible(k, u, Finish(k, 1, q))
    ensures var t := Interleaving.Run(k, u, Finish(k, 1, q));
            && t.published == done + q.records
            && (t.published <= RecordsIn(k, t.carved) <==> q.records <= p.records + q.records)
  {
    FinishReaches(k, u, 1, q);
    var t := Interleaving.Run(k, u, Finish(k, 1, q));
    RecordsInGrow(k, u.carved, t.carved);
    Overtaken(done, p.records, q.records, RecordsIn(k, t.carved));
  }

  lemma BargeReaches(k: Config, s: State, chunk: seq<byte>, bytes: seq<byte>, q: AvlPacket, next: nat)
    requires s.ready && Ahead(s.buffer + chunk) == Some(bytes) && k.packet(bytes) == Done(q, next)
    ensures Took(k, s, Interleaving.Step(k, s, Data(chunk)), q)
  {
    LoopReaches(k, s.(buffer := s.buffer + chunk, received := s.received + chunk), bytes, q, next);
  }

  lemma InFlightOf(s: State, p: AvlPacket)
    requires |s.runs| == 1 && !s.runs[0].Resolving? && s.runs[0].packet == p
    ensures InFlight(s.runs) == p.records
  {
    OneInFlight(s.runs[0]);
    assert s.runs == [s.runs[0]];
  }

  lemma SecondIsPublished(k: Config, s: State, p: AvlPacket, q: AvlPacket)
    requires s.ready && s.runs == [Publishing(p), Publishing(q)] && s.buffer == []
    ensures Interleaving.Step(k, s, PublishDone(1, true)) ==
              s.(runs := [Publishing(p)], recordsPublished := s.recordsPublished + |q.records|,
                 acks := s.acks + [|q.records|], published := s.published + q.records)
  {
    PublishDoneStep(k, s, 1, true);
    assert Without(s.runs, 1) == [Publishing(p)];
  }

  /** Two packets without waiting; the second is published, and then the first fails. */
  function Hurry(x: seq<byte>, y: seq<byte>): seq<Event> {
    [Data(x)] + ([Data(y)] + ([PublishDone(1, true)] + [PublishDone(0, false)]))
  }

  /**
   * A device that does not wait: its second packet is published and acknowledged while the first is in flight,
   * and then the first fails. The device hears the count of the second and forgets that many of its first records.
   */
  lemma FirstPacketIsLost(k: Config, s: State, x: seq<byte>, y: seq<byte>, p: AvlPacket, q: AvlPacket, n: nat, m: nat)
    requires s.ready && !s.destroyed && s.buffer == [] && s.runs == [] && !k.crashTopic
    requires Next(true, x) == Take(Packet(x)) && k.packet(x) == Done(p, n)
    requires Next(true, y) == Take(Packet(y)) && k.packet(y) == Done(q, m)
    ensures Possible(k, s, Hurry(x, y))
    ensures var t := Interleaving.Run(k, s, Hurry(x, y));
            && t.acks == s.acks + [|q.records|] + [0] && t.destroyed
            && t.published == s.published + q.records && t.lost == s.lost + p.records
  {
    var s1 := Interleaving.Step(k, s, Data(x));
    PacketArrives(k, s, x, p, n);
    var s2 := Interleaving.Step(k, s1, Data(y));
    PacketArrives(k, s1, y, q, m);
    assert s2.runs == [Publishing(p), Publishing(q)];
    var s3 := Interleaving.Step(k, s2, PublishDone(1, true));
    SecondIsPublished(k, s2, p, q);
    PublishDoneStep(k, s3, 0, false);
    OneStep(k, s3, PublishDone(0, false));
    Prepend(k, s2, PublishDone(1, true), [PublishDone(0, false)]);
    Prepend(k, s1, Data(y), [PublishDone(1, true)] + [PublishDone(0, false)]);
    Prepend(k, s, Data(x), [Data(y)] + ([PublishDone(1, true)] + [PublishDone(0, false)]));
  }

  /** Such a connection is what a handshake and its look-up leave. */
  lemma HandshakeThenReady(k: Config, imei: Imei, resolution: Resolution)
    requires ReadsHandshakes(k) && ValidImei(imei) && resolution.Resolved?
    ensures var s := Interleaving.Step(k, START, Data(EncodeHandshake(imei)));
            var t := Interleaving.Step(k, s, ResolveDone(0, resolution));
            && Enabled(START, Data(EncodeHandshake(imei))) && Enabled(s, ResolveDone(0, resolution))
            && t.ready && !t.destroyed && t.buffer == [] && t.runs == [] && t.acks == [] && t.published == [] && t.lost == []
  {
    HandshakeTaken(k, imei);
    var s := Interleaving.Step(k, START, Data(EncodeHandshake(imei)));
    assert Without(s.runs, 0) == [];
  }

  /** So a device that does not wait can lose its first packet on any connection. */
  lemma FirstPacketIsLostFromStart(
    k: Config, imei: Imei, resolution: Resolution, x: seq<byte>, y: seq<byte>, p: AvlPacket, q: AvlPacket, n: nat, m: nat)
    requires ReadsHandshakes(k) && ValidImei(imei) && resolution.Resolved? && !k.crashTopic
    requires Next(true, x) == Take(Packet(x)) && k.packet(x) == Done(p, n)
    requires Next(true, y) == Take(Packet(y)) && k.packet(y) == Done(q, m)
    ensures var events := [Data(EncodeHandshake(imei))] + ([ResolveDone(0, resolution)] + Hurry(x, y));
            && Possible(k, START, events)
            && var t := Interleaving.Run(k, START, events);
               t.acks == [|q.records|] + [0] && t.destroyed && t.published == q.records && t.lost == p.records
  {
    var hello := Data(EncodeHandshake(imei));
    HandshakeThenReady(k, imei, resolution);
    var s := Interleaving.Step(k, START, hello);
    var t := Interleaving.Step(k, s, ResolveDone(0, resolution));
    FirstPacketIsLost(k, t, x, y, p, q, n, m);
    Prepend(k, s, ResolveDone(0, resolution), Hurry(x, y));
    Prepend(k, START, hello, [ResolveDone(0, resolution)] + Hurry(x, y));
    assert [] + q.records == q.records && [] + p.records == p.records;
  }

  lemma Overtaken<T>(done: seq<T>, p: seq<T>, q: seq<T>, all: seq<T>)
    requires done + p + q <= all
    ensures done + q <= all <==> q <= p + q
  {
    assert done + p + q == done + (p + q);
    assert all[|done|..|done| + |q|] == (p + q)[..|q|];
    if done + q <= all {
      assert (done + q)[|done|..] == q;
    }
    if q <= p + q {
      assert all[..|done| + |q|] == done + q;
    }
  }
}
