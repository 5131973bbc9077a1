/**
 * A connection whose runs overlap. `processBuffer` is not serialised: every chunk starts a run, and a run that
 * waits for a look-up or a publication lets other runs use the shared buffer, counters and flag. The steps below
 * are what happens between two waits.
 */
module Interleaving {
  import opened Options
  import opened Bytes
  import opened Avl
  import opened AvlParse
  import opened Handshake
  import opened Framing
  import opened Connection

  /** What a run in flight waits for. A run that publishes a whole packet first has read the IMEI before. */
  datatype Pending = Resolving(imei: Imei) | CrashPublishing(imei: Imei, packet: AvlPacket) | Publishing(packet: AvlPacket)

  /** A look-up that found what it looked for. */
  datatype Lookup = Lookup(imei: Imei, vehicle: Option<string>)

  /** What is handed to a topic, under which IMEI and vehicle. */
  datatype Offer =
    | Whole(imei: Imei, vehicle: Option<string>, packet: AvlPacket)
    | Records(imei: Imei, vehicle: Option<string>, records: seq<AvlRecord>)

  /**
   * The shared state and the runs in flight. `received` and `carved` are the history of the stream: the bytes
   * that arrived and the messages taken from them, in order. `published` and `lost` are the records of the packets
   * whose publications all succeeded, and of those one of whose publications failed. `lookups` and `offered` are
   * the look-ups that ended well and what was handed to the topics.
   */
  datatype State = State(
    ready: bool, imei: Option<Imei>, vehicle: Option<string>, buffer: seq<byte>, recordsReceived: nat, recordsPublished: nat, destroyed: bool,
    runs: seq<Pending>, received: seq<byte>, carved: seq<Token>, acks: seq<nat>,
    published: seq<AvlRecord>, lost: seq<AvlRecord>, lookups: seq<Lookup>, offered: seq<Offer>)

  /** The topic for crash packets, if there is one, and the two parsers: the results hold for any. */
  datatype Config = Config(crashTopic: bool, packet: seq<byte> -> Parsed<AvlPacket>, hello: seq<byte> -> Parsed<Imei>)

  datatype Event =
    | Data(chunk: seq<byte>)
    | ResolveDone(run: nat, resolution: Resolution)
    | CrashDone(run: nat, ok: bool)
    | PublishDone(run: nat, ok: bool)
    | Closed

  const START := State(false, None, None, [], 0, 0, false, [], [], [], [], [], [], [], [])

  /** An event that can happen: a closed socket reports no data, and only a run in flight goes on. */
  predicate Enabled(s: State, e: Event) {
    match e
    case Data(_) => !s.destroyed
    case ResolveDone(i, _) => i < |s.runs| && s.runs[i].Resolving?
    case CrashDone(i, _) => i < |s.runs| && s.runs[i].CrashPublishing?
    case PublishDone(i, _) => i < |s.runs| && s.runs[i].Publishing?
    case Closed => true
  }

  function Without(runs: seq<Pending>, i: nat): seq<Pending> {
    if i < |runs| then runs[..i] + runs[i + 1..] else runs
  }

  /** A message leaves the buffer. */
  function Carve(s: State, t: Token): State {
    s.(buffer := Drop(s.buffer, |Wire(t)|), carved := s.carved + [t])
  }

  /** The packet loop up to the next wait or return: it starts waiting for at most one packet. */
  function Loop(k: Config, s: State): State
    decreases |s.buffer|
  {
    NextSound(true, s.buffer);
    match Next(true, s.buffer)
    case Reject => s.(destroyed := true)
    case Take(Packet(bytes)) => Begin(k, Carve(s, Packet(bytes)), k.packet(bytes))
    case Take(Ping) => Loop(k, Carve(s, Ping))
    case _ => s
  }

  /** A carved packet starts being published, or closes the connection. */
  function Begin(k: Config, s: State, parsed: Parsed<AvlPacket>): State {
    match parsed
    case Fail(_) => s.(acks := s.acks + [0], destroyed := true)
    case Done(p, _) =>
      s.(recordsReceived := s.recordsReceived + |p.records|, runs := s.runs + [Waiting(k, s, p)],
         offered := s.offered + [FirstOffer(k, s, p)])
  }

  /** What the run waits for first, and what it hands over before. */
  function Waiting(k: Config, s: State, p: AvlPacket): Pending {
    if k.crashTopic && IsCrashTracePacket(p) then CrashPublishing(ImeiOf(s), p) else Publishing(p)
  }

  function FirstOffer(k: Config, s: State, p: AvlPacket): Offer {
    if k.crashTopic && IsCrashTracePacket(p) then Whole(ImeiOf(s), s.vehicle, p) else Records(ImeiOf(s), s.vehicle, p.records)
  }

  function ImeiOf(s: State): Imei {
    if s.imei.Some? then s.imei.value else []
  }

  /** A new run while the handshake is not complete. */
  function Shake(k: Config, s: State): State {
    match Next(false, s.buffer)
    case Take(Hello(bytes)) => Greet(s, bytes, k.hello(bytes))
    case _ => s
  }

  function Greet(s: State, bytes: seq<byte>, parsed: Parsed<Imei>): State {
    match parsed
    case Fail(_) => s.(destroyed := true)
    case Done(imei, _) => var c := Carve(s, Hello(bytes)); c.(imei := Some(imei), runs := s.runs + [Resolving(imei)])
  }

  function Step(k: Config, s: State, e: Event): State {
    match e
    case Data(chunk) =>
      var c := s.(buffer := s.buffer + chunk, received := s.received + chunk);
      if c.ready then Loop(k, c) else Shake(k, c)
    case ResolveDone(i, resolution) =>
      if i < |s.runs| && s.runs[i].Resolving? then
        match resolution
        case Resolved(vehicleId, _) => Loop(k, Found(s, i, vehicleId))
        case ResolveFailed => s.(runs := Without(s.runs, i), destroyed := true)
      else s
    case CrashDone(i, _) =>
      if i < |s.runs| && s.runs[i].CrashPublishing? then
        s.(runs := s.runs[i := Publishing(s.runs[i].packet)],
           offered := s.offered + [Records(s.runs[i].imei, s.vehicle, s.runs[i].packet.records)])
      else s
    case PublishDone(i, ok) =>
      if i < |s.runs| && s.runs[i].Publishing? then
        var rs := s.runs[i].packet.records;
        if ok then Loop(k, Published(s, i, rs)) else Lost(s, i, rs)
      else s
    case Closed => s.(destroyed := true)
  }

  /** A look-up is over: the connection is ready, and its vehicle is the one found last. */
  function Found(s: State, i: nat, vehicleId: Option<string>): State
    requires i < |s.runs| && s.runs[i].Resolving?
  {
    s.(runs := Without(s.runs, i), ready := true, vehicle := vehicleId,
       lookups := s.lookups + [Lookup(s.runs[i].imei, vehicleId)])
  }

  /** The events, each possible when it happens. */
  ghost predicate Possible(k: Config, s: State, events: seq<Event>)
    decreases |events|
  {
    events == [] || (Enabled(s, events[0]) && Possible(k, Step(k, s, events[0]), events[1..]))
  }

  function Run(k: Config, s: State, events: seq<Event>): State
    decreases |events|
  {
    if events == [] then s else Run(k, Step(k, s, events[0]), events[1..])
  }

  // ----- What every interleaving keeps -----

  function Sum(ns: seq<nat>): nat {
    if ns == [] then 0 else Sum(ns[..|ns| - 1]) + ns[|ns| - 1]
  }

  function RecordsOfRun(r: Pending): seq<AvlRecord> {
    if r.Resolving? then [] else r.packet.records
  }

  /** The records of the packets in flight. */
  function InFlight(runs: seq<Pending>): seq<AvlRecord> {
    if runs == [] then [] else InFlight(runs[..|runs| - 1]) + RecordsOfRun(runs[|runs| - 1])
  }

  /** The records of the packets among `ts` that the parser accepts. */
  function RecordsIn(k: Config, ts: seq<Token>): seq<AvlRecord> {
    if ts == [] then [] else RecordsIn(k, ts[..|ts| - 1]) + RecordsOf(k, ts[|ts| - 1])
  }

  function RecordsOf(k: Config, t: Token): seq<AvlRecord> {
    if t.Packet? then Accepted(k.packet(t.bytes)) else []
  }

  function Accepted(parsed: Parsed<AvlPacket>): seq<AvlRecord> {
    match parsed case Done(p, _) => p.records case Fail(_) => []
  }

  /** Where the records are: published, in flight or lost. */
  function Placed(s: State): multiset<AvlRecord> {
    multiset(s.published) + multiset(InFlight(s.runs)) + multiset(s.lost)
  }

  /** The books of a connection, when the records of the last packet carved, `owed`, are not received yet. */
  ghost predicate Balanced(k: Config, s: State, owed: seq<AvlRecord>) {
    && s.received == Wires(s.carved) + s.buffer
    && Sum(s.acks) == s.recordsPublished == |s.published|
    && |Placed(s)| == s.recordsReceived
    && Placed(s) + multiset(owed) == multiset(RecordsIn(k, s.carved))
    && (s.lost != [] ==> s.destroyed)
  }

  ghost predicate Conserved(k: Config, s: State) {
    Balanced(k, s, [])
  }

  /** When no run is in flight, an open connection waits for bytes and for nothing else. */
  ghost predicate Quiescent(s: State) {
    s.runs == [] && !s.destroyed ==> Next(s.ready, s.buffer).Wait?
  }

  lemma SumSnoc(ns: seq<nat>, n: nat)
    ensures Sum(ns + [n]) == Sum(ns) + n
  {
    assert (ns + [n])[..|ns|] == ns;
  }

  lemma InFlightSnoc(runs: seq<Pending>, r: Pending)
    ensures InFlight(runs + [r]) == InFlight(runs) + RecordsOfRun(r)
  {
    assert (runs + [r])[..|runs|] == runs;
  }

  lemma {:induction false} InFlightConcat(a: seq<Pending>, b: seq<Pending>)
    ensures InFlight(a + b) == InFlight(a) + InFlight(b)
    decreases |b|
  {
    if b == [] {
      assert a + b == a;
    } else {
      var init, last := b[..|b| - 1], b[|b| - 1];
      InFlightConcat(a, init);
      assert (a + b)[..|a + b| - 1] == a + init;
      Associate(InFlight(a), InFlight(init), RecordsOfRun(last));
    }
  }

  lemma Associate<T>(a: seq<T>, b: seq<T>, c: seq<T>)
    ensures a + b + c == a + (b + c)
  {
  }

  lemma InFlightAround(a: seq<Pending>, r: Pending, b: seq<Pending>)
    ensures multiset(InFlight(a + [r] + b)) == multiset(InFlight(a + b)) + multiset(RecordsOfRun(r))
  {
    InFlightSnoc(a, r);
    InFlightConcat(a + [r], b);
    InFlightConcat(a, b);
    Exchange(InFlight(a), RecordsOfRun(r), InFlight(b));
  }

  lemma InFlightWithout(runs: seq<Pending>, i: nat)
    requires i < |runs|
    ensures multiset(InFlight(runs)) == multiset(InFlight(Without(runs, i))) + multiset(RecordsOfRun(runs[i]))
  {
    Spliced(runs, i);
    InFlightAround(runs[..i], runs[i], runs[i + 1..]);
  }

  lemma Spliced<T>(xs: seq<T>, i: nat)
    requires i < |xs|
    ensures xs == xs[..i] + [xs[i]] + xs[i + 1..]
  {
  }

  lemma Exchange<T>(a: seq<T>, b: seq<T>, c: seq<T>)
    ensures multiset(a + b + c) == multiset(a + c) + multiset(b)
  {
  }

  lemma {:induction false} InFlightReplace(runs: seq<Pending>, i: nat, r: Pending)
    requires i < |runs| && RecordsOfRun(r) == RecordsOfRun(runs[i])
    ensures InFlight(runs[i := r]) == InFlight(runs)
    decreases |runs|
  {
    var n := |runs| - 1;
    if i == n {
      assert runs[i := r][..n] == runs[..n];
    } else {
      InFlightReplace(runs[..n], i, r);
      assert runs[i := r][..n] == runs[..n][i := r];
    }
  }

  lemma WiresSnoc(ts: seq<Token>, t: Token)
    ensures Wires(ts + [t]) == Wires(ts) + Wire(t)
  {
    WiresConcat(ts, [t]);
    assert [t][1..] == [];
    assert Wires([t]) == Wire(t) + [];
  }

  lemma RecordsInSnoc(k: Config, ts: seq<Token>, t: Token)
    ensures RecordsIn(k, ts + [t]) == RecordsIn(k, ts) + RecordsOf(k, t)
  {
    assert (ts + [t])[..|ts|] == ts;
  }

  lemma CarveWires(s: State, t: Token)
    requires s.received == Wires(s.carved) + s.buffer && Wire(t) <= s.buffer
    ensures s.received == Wires(s.carved + [t]) + Drop(s.buffer, |Wire(t)|)
  {
    WiresSnoc(s.carved, t);
    assert s.buffer == Wire(t) + Drop(s.buffer, |Wire(t)|);
    Associate(Wires(s.carved), Wire(t), Drop(s.buffer, |Wire(t)|));
  }

  /** A message leaves the buffer, and its records are owed. */
  lemma CarveBalances(k: Config, s: State, t: Token, owed: seq<AvlRecord>)
    requires Conserved(k, s) && Wire(t) <= s.buffer && RecordsIn(k, s.carved + [t]) == RecordsIn(k, s.carved) + owed
    ensures Balanced(k, Carve(s, t), owed)
  {
    CarveWires(s, t);
  }

  /** The records of a packet are in flight from then on. */
  lemma BeginConserves(k: Config, s: State, parsed: Parsed<AvlPacket>)
    requires Balanced(k, s, Accepted(parsed))
    ensures Conserved(k, Begin(k, s, parsed))
  {
    match parsed
    case Fail(_) => SumSnoc(s.acks, 0);
    case Done(p, _) =>
      BeginAdds(k, s, p, Waiting(k, s, p), FirstOffer(k, s, p));
  }

  lemma BeginAdds(k: Config, s: State, p: AvlPacket, pending: Pending, offer: Offer)
    requires Balanced(k, s, p.records) && RecordsOfRun(pending) == p.records
    ensures Conserved(k, s.(recordsReceived := s.recordsReceived + |p.records|, runs := s.runs + [pending],
                            offered := s.offered + [offer]))
  {
    var t := s.(recordsReceived := s.recordsReceived + |p.records|, runs := s.runs + [pending], offered := s.offered + [offer]);
    BeganPlaced(s, t, pending);
    assert |Placed(t)| == |Placed(s)| + |multiset(p.records)|;
  }

  lemma BeganPlaced(s: State, t: State, pending: Pending)
    requires t.runs == s.runs + [pending] && t.published == s.published && t.lost == s.lost
    ensures Placed(t) == Placed(s) + multiset(RecordsOfRun(pending))
  {
    InFlightSnoc(s.runs, pending);
    assert multiset(InFlight(t.runs)) == multiset(InFlight(s.runs)) + multiset(RecordsOfRun(pending));
  }

  lemma BeginQuiescent(k: Config, s: State, parsed: Parsed<AvlPacket>)
    ensures Quiescent(Begin(k, s, parsed))
  {
  }

  lemma {:induction false} LoopConserves(k: Config, s: State)
    requires Conserved(k, s) && s.ready
    ensures Conserved(k, Loop(k, s)) && Quiescent(Loop(k, s))
    decreases |s.buffer|
  {
    NextSound(true, s.buffer);
    match Next(true, s.buffer)
    case Take(Packet(bytes)) =>
      RecordsInSnoc(k, s.carved, Packet(bytes));
      CarveBalances(k, s, Packet(bytes), Accepted(k.packet(bytes)));
      BeginConserves(k, Carve(s, Packet(bytes)), k.packet(bytes));
      BeginQuiescent(k, Carve(s, Packet(bytes)), k.packet(bytes));
    case Take(Ping) =>
      RecordsInSnoc(k, s.carved, Ping);
      CarveBalances(k, s, Ping, []);
      LoopConserves(k, Carve(s, Ping));
    case _ =>
  }

  lemma ShakeConserves(k: Config, s: State)
    requires Conserved(k, s) && !s.ready
    ensures Conserved(k, Shake(k, s)) && Quiescent(Shake(k, s))
  {
    NextSound(false, s.buffer);
    match Next(false, s.buffer)
    case Take(Hello(bytes)) => GreetConserves(k, s, bytes, k.hello(bytes));
    case _ =>
  }

  lemma GreetConserves(k: Config, s: State, bytes: seq<byte>, parsed: Parsed<Imei>)
    requires Conserved(k, s) && bytes <= s.buffer
    ensures Conserved(k, Greet(s, bytes, parsed)) && Quiescent(Greet(s, bytes, parsed))
  {
    RecordsInSnoc(k, s.carved, Hello(bytes));
    CarveBalances(k, s, Hello(bytes), []);
    if parsed.Done? {
      var c := Carve(s, Hello(bytes)).(imei := Some(parsed.value));
      InFlightSnoc(c.runs, Resolving(parsed.value));
      SameBooks(k, c, c.(runs := c.runs + [Resolving(parsed.value)]));
    }
  }

  /** A step that moves no record. */
  lemma SameBooks(k: Config, s: State, t: State)
    requires Conserved(k, s) && multiset(InFlight(t.runs)) == multiset(InFlight(s.runs))
    requires t.published == s.published && t.lost == s.lost && t.carved == s.carved && t.received == s.received
    requires t.buffer == s.buffer && t.acks == s.acks && t.recordsPublished == s.recordsPublished
    requires t.recordsReceived == s.recordsReceived && (s.destroyed ==> t.destroyed)
    ensures Conserved(k, t)
  {
    assert Placed(t) == Placed(s);
  }

  function Published(s: State, i: nat, rs: seq<AvlRecord>): State {
    s.(runs := Without(s.runs, i), recordsPublished := s.recordsPublished + |rs|, acks := s.acks + [|rs|],
       published := s.published + rs)
  }

  function Lost(s: State, i: nat, rs: seq<AvlRecord>): State {
    s.(runs := Without(s.runs, i), acks := s.acks + [0], lost := s.lost + rs, destroyed := true)
  }

  lemma PublishedConserves(k: Config, s: State, i: nat)
    requires Conserved(k, s) && i < |s.runs| && s.runs[i].Publishing?
    ensures Conserved(k, Published(s, i, s.runs[i].packet.records))
  {
    PublishedPlaced(s, i);
    SumSnoc(s.acks, |s.runs[i].packet.records|);
  }

  lemma PublishedPlaced(s: State, i: nat)
    requires i < |s.runs| && s.runs[i].Publishing?
    ensures Placed(Published(s, i, s.runs[i].packet.records)) == Placed(s)
  {
    InFlightWithout(s.runs, i);
  }

  lemma PublishDoneStep(k: Config, s: State, i: nat, ok: bool)
    requires i < |s.runs| && s.runs[i].Publishing?
    ensures var rs := s.runs[i].packet.records;
            Step(k, s, PublishDone(i, ok)) == if ok then Loop(k, Published(s, i, rs)) else Lost(s, i, rs)
  {
  }

  lemma PublishDoneConserves(k: Config, s: State, i: nat, ok: bool)
    requires Conserved(k, s) && s.ready && i < |s.runs| && s.runs[i].Publishing?
    ensures Conserved(k, Step(k, s, PublishDone(i, ok))) && Quiescent(Step(k, s, PublishDone(i, ok)))
  {
    PublishDoneStep(k, s, i, ok);
    if ok {
      PublishedConserves(k, s, i);
      LoopConserves(k, Published(s, i, s.runs[i].packet.records));
    } else {
      LostConserves(k, s, i);
    }
  }

  lemma LostConserves(k: Config, s: State, i: nat)
    requires Conserved(k, s) && i < |s.runs| && s.runs[i].Publishing?
    ensures Conserved(k, Lost(s, i, s.runs[i].packet.records))
  {
    LostPlaced(s, i);
    SumSnoc(s.acks, 0);
  }

  lemma LostPlaced(s: State, i: nat)
    requires i < |s.runs| && s.runs[i].Publishing?
    ensures Placed(Lost(s, i, s.runs[i].packet.records)) == Placed(s)
  {
    InFlightWithout(s.runs, i);
  }

  lemma StepConserves(k: Config, s: State, e: Event)
    requires Conserved(k, s) && Quiescent(s) && Phased(s) && Enabled(s, e)
    ensures Conserved(k, Step(k, s, e)) && Quiescent(Step(k, s, e))
  {
    match e
    case Data(chunk) => DataConserves(k, s, chunk);
    case ResolveDone(i, resolution) => ResolveDoneConserves(k, s, i, resolution);
    case CrashDone(i, _) =>
      InFlightReplace(s.runs, i, Publishing(s.runs[i].packet));
      SameBooks(k, s, Step(k, s, e));
    case PublishDone(i, ok) =>
      assert s.runs[i] in s.runs;
      PublishDoneConserves(k, s, i, ok);
    case Closed => SameBooks(k, s, Step(k, s, e));
  }

  lemma DataConserves(k: Config, s: State, chunk: seq<byte>)
    requires Conserved(k, s)
    ensures Conserved(k, Step(k, s, Data(chunk))) && Quiescent(Step(k, s, Data(chunk)))
  {
    var c := s.(buffer := s.buffer + chunk, received := s.received + chunk);
    assert c.received == Wires(c.carved) + c.buffer;
    assert Placed(c) == Placed(s);
    if c.ready {
      LoopConserves(k, c);
    } else {
      ShakeConserves(k, c);
    }
  }

  lemma ResolveDoneConserves(k: Config, s: State, i: nat, resolution: Resolution)
    requires Conserved(k, s) && i < |s.runs| && s.runs[i].Resolving?
    ensures Conserved(k, Step(k, s, ResolveDone(i, resolution))) && Quiescent(Step(k, s, ResolveDone(i, resolution)))
  {
    InFlightWithout(s.runs, i);
    match resolution
    case Resolved(vehicleId, _) =>
      SameBooks(k, s, Found(s, i, vehicleId));
      LoopConserves(k, Found(s, i, vehicleId));
    case ResolveFailed => SameBooks(k, s, s.(runs := Without(s.runs, i), destroyed := true));
  }

  /**
   * In every interleaving: the messages taken, followed by the buffer, are the bytes received; the counts
   * acknowledged add up to the records published; the records of the packets taken are, each as often as it was
   * taken, published, in flight or lost to a failed publication, which closes the connection; and a connection
   * that is open and has no run in flight holds no complete message.
   */
  lemma {:induction false} RunConserves(k: Config, s: State, events: seq<Event>)
    requires Invariant(k, s) && Possible(k, s, events)
    ensures Invariant(k, Run(k, s, events))
    decreases |events|
  {
    if events != [] {
      StepInvariant(k, s, events[0]);
      RunConserves(k, Step(k, s, events[0]), events[1..]);
    }
  }

  /** The books balance, a quiet connection waits for bytes, and the phases are in order. */
  ghost predicate Invariant(k: Config, s: State) {
    Conserved(k, s) && Quiescent(s) && Phased(s)
  }

  lemma StepInvariant(k: Config, s: State, e: Event)
    requires Invariant(k, s) && Enabled(s, e)
    ensures Invariant(k, Step(k, s, e))
  {
    StepConserves(k, s, e);
    StepPhased(k, s, e);
  }

  // ----- The look-up window -----

  /** Before the flag is set only look-ups are in flight, and one is if the handshake was taken. */
  ghost predicate Phased(s: State) {
    && (!s.ready ==> forall r :: r in s.runs ==> r.Resolving?)
    && (!s.ready && !s.destroyed && s.carved != [] ==> s.runs != [])
    && (s.ready || s.runs != [] ==> s.carved != [])
  }

  lemma {:induction false} LoopKeeps(k: Config, s: State)
    ensures var r := Loop(k, s);
            r.ready == s.ready && s.carved <= r.carved && s.runs <= r.runs && (s.destroyed ==> r.destroyed)
            && r.received == s.received
    decreases |s.buffer|
  {
    NextSound(true, s.buffer);
    match Next(true, s.buffer)
    case Take(Packet(bytes)) => BeginKeeps(k, Carve(s, Packet(bytes)), k.packet(bytes));
    case Take(Ping) => LoopKeeps(k, Carve(s, Ping));
    case _ =>
  }

  lemma BeginKeeps(k: Config, s: State, parsed: Parsed<AvlPacket>)
    ensures var r := Begin(k, s, parsed);
            r.ready == s.ready && s.carved == r.carved && s.runs <= r.runs && (s.destroyed ==> r.destroyed)
            && r.received == s.received
  {
  }

  lemma ClosedStep(k: Config, s: State, e: Event)
    requires Enabled(s, e)
    ensures e.Closed? ==> Step(k, s, e).destroyed
    ensures s.destroyed ==> Step(k, s, e).destroyed && Step(k, s, e).received == s.received
  {
    match e
    case ResolveDone(i, resolution) =>
      if resolution.Resolved? {
        LoopKeeps(k, Found(s, i, resolution.vehicleId));
      }
    case PublishDone(i, ok) => LoopKeeps(k, Published(s, i, s.runs[i].packet.records));
    case _ =>
  }

  lemma {:induction false} StaysClosed(k: Config, s: State, events: seq<Event>)
    requires s.destroyed && Possible(k, s, events)
    ensures Run(k, s, events).destroyed && Run(k, s, events).received == s.received
    decreases |events|
  {
    if events != [] {
      ClosedStep(k, s, events[0]);
      StaysClosed(k, Step(k, s, events[0]), events[1..]);
    }
  }

  /** Once the socket closed, the runs in flight end without a byte more from the network. */
  lemma NothingAfterClose(k: Config, s: State, events: seq<Event>)
    requires Possible(k, Step(k, s, Closed), events)
    ensures Run(k, Step(k, s, Closed), events).destroyed && Run(k, Step(k, s, Closed), events).received == s.received
  {
    StaysClosed(k, Step(k, s, Closed), events);
  }

  lemma StepPhased(k: Config, s: State, e: Event)
    requires Phased(s) && Enabled(s, e)
    ensures Phased(Step(k, s, e))
  {
    match e
    case Data(chunk) =>
      var c := s.(buffer := s.buffer + chunk, received := s.received + chunk);
      if c.ready {
        LoopKeeps(k, c);
      } else {
        ShakePhased(k, c);
      }
    case ResolveDone(i, resolution) =>
      if resolution.Resolved? {
        LoopKeeps(k, Found(s, i, resolution.vehicleId));
      }
    case CrashDone(i, _) =>
      assert s.runs[i] in s.runs;
    case PublishDone(i, ok) =>
      assert s.runs[i] in s.runs;
      LoopKeeps(k, Published(s, i, s.runs[i].packet.records));
    case Closed =>
  }

  lemma ShakePhased(k: Config, s: State)
    requires Phased(s) && !s.ready
    ensures Phased(Shake(k, s))
  {
    match Next(false, s.buffer)
    case Take(Hello(bytes)) => GreetPhased(s, bytes, k.hello(bytes));
    case _ =>
  }

  lemma GreetPhased(s: State, bytes: seq<byte>, parsed: Parsed<Imei>)
    requires Phased(s) && !s.ready
    ensures Phased(Greet(s, bytes, parsed))
  {
  }

  /** A chunk that arrives during the look-up and is long enough to be read as a handshake. */
  ghost predicate Misread(s: State, e: Event) {
    e.Data? && !s.ready && s.carved != [] && Next(false, s.buffer + e.chunk).Take?
  }

  ghost predicate NeverMisread(k: Config, s: State, events: seq<Event>)
    decreases |events|
  {
    events == [] || (!Misread(s, events[0]) && NeverMisread(k, Step(k, s, events[0]), events[1..]))
  }

  lemma {:induction false} LoopLegal(k: Config, s: State)
    requires Legal(false, s.carved) && s.carved != []
    ensures Legal(false, Loop(k, s).carved)
    decreases |s.buffer|
  {
    NextSound(true, s.buffer);
    match Next(true, s.buffer)
    case Take(t) =>
      NextOfToken(true, s.buffer);
      LegalSnoc(false, s.carved, t);
      if t.Packet? {
        BeginKeeps(k, Carve(s, t), k.packet(t.bytes));
      } else {
        LoopLegal(k, Carve(s, t));
      }
    case _ =>
  }

  lemma StepLegal(k: Config, s: State, e: Event)
    requires Phased(s) && Legal(false, s.carved) && Enabled(s, e) && !Misread(s, e)
    ensures Legal(false, Step(k, s, e).carved)
  {
    match e
    case Data(chunk) =>
      var c := s.(buffer := s.buffer + chunk, received := s.received + chunk);
      if c.ready {
        LoopLegal(k, c);
      } else if s.carved == [] {
        FirstHandshakeLegal(k, c);
      }
    case ResolveDone(i, resolution) =>
      if resolution.Resolved? {
        LoopLegal(k, Found(s, i, resolution.vehicleId));
      }
    case PublishDone(i, ok) =>
      LoopLegal(k, Published(s, i, s.runs[i].packet.records));
    case _ =>
  }

  lemma FirstHandshakeLegal(k: Config, s: State)
    requires s.carved == []
    ensures Legal(false, Shake(k, s).carved)
  {
    match Next(false, s.buffer)
    case Take(Hello(bytes)) =>
      NextOfToken(false, s.buffer);
      LegalSnoc(false, [], Hello(bytes));
      assert [] + [Hello(bytes)] == [Hello(bytes)];
      GreetCarves(s, bytes, k.hello(bytes));
    case _ =>
  }

  lemma GreetCarves(s: State, bytes: seq<byte>, parsed: Parsed<Imei>)
    ensures Greet(s, bytes, parsed).carved == if parsed.Done? then s.carved + [Hello(bytes)] else s.carved
    ensures Greet(s, bytes, parsed).destroyed == (s.destroyed || parsed.Fail?)
  {
  }

  /** A second handshake was taken from the stream. */
  ghost predicate Garbled(s: State) {
    exists k :: 0 < k < |s.carved| && s.carved[k].Hello?
  }

  lemma {:induction false} NoSecondHello(ready: bool, buf: seq<byte>, k: nat)
    requires k < |Tokens(ready, buf)| && (k > 0 || ready)
    ensures !Tokens(ready, buf)[k].Hello?
    decreases |buf|
  {
    NextSound(ready, buf);
    var t := Next(ready, buf).token;
    if k > 0 {
      NoSecondHello(true, buf[|Wire(t)|..], k - 1);
    }
  }

  lemma StepGrows(k: Config, s: State, e: Event)
    ensures s.carved <= Step(k, s, e).carved && (s.destroyed ==> Step(k, s, e).destroyed)
  {
    match e
    case Data(chunk) =>
      var c := s.(buffer := s.buffer + chunk, received := s.received + chunk);
      if c.ready {
        LoopKeeps(k, c);
      } else {
        ShakeGrows(k, c);
      }
    case ResolveDone(i, resolution) =>
      if i < |s.runs| && s.runs[i].Resolving? && resolution.Resolved? {
        LoopKeeps(k, Found(s, i, resolution.vehicleId));
      }
    case PublishDone(i, ok) =>
      if i < |s.runs| && s.runs[i].Publishing? {
        LoopKeeps(k, Published(s, i, s.runs[i].packet.records));
      }
    case _ =>
  }

  lemma ShakeGrows(k: Config, s: State)
    ensures s.carved <= Shake(k, s).carved && (s.destroyed ==> Shake(k, s).destroyed)
  {
    match Next(false, s.buffer)
    case Take(Hello(bytes)) => GreetCarves(s, bytes, k.hello(bytes));
    case _ =>
  }

  lemma {:induction false} RunGrows(k: Config, s: State, events: seq<Event>)
    ensures s.carved <= Run(k, s, events).carved && (s.destroyed ==> Run(k, s, events).destroyed)
    decreases |events|
  {
    if events != [] {
      StepGrows(k, s, events[0]);
      RunGrows(k, Step(k, s, events[0]), events[1..]);
    }
  }

  /** A misread chunk closes the connection or takes a second handshake from the stream. */
  lemma MisreadGarbles(k: Config, s: State, e: Event)
    requires Misread(s, e)
    ensures Step(k, s, e).destroyed || Garbled(Step(k, s, e))
  {
    var c := s.(buffer := s.buffer + e.chunk, received := s.received + e.chunk);
    NextSound(false, c.buffer);
    var bytes := Next(false, c.buffer).token.bytes;
    GreetCarves(c, bytes, k.hello(bytes));
    var r := Step(k, s, e);
    assert r == Greet(c, bytes, k.hello(bytes));
    if !r.destroyed {
      assert r.carved[|s.carved|].Hello?;
    }
  }

  lemma {:induction false} RunLegal(k: Config, s: State, events: seq<Event>)
    requires Phased(s) && Legal(false, s.carved) && Possible(k, s, events) && NeverMisread(k, s, events)
    ensures Legal(false, Run(k, s, events).carved)
    decreases |events|
  {
    if events != [] {
      StepLegal(k, s, events[0]);
      StepPhased(k, s, events[0]);
      RunLegal(k, Step(k, s, events[0]), events[1..]);
    }
  }

  lemma {:induction false} RunGarbled(k: Config, s: State, events: seq<Event>)
    requires !NeverMisread(k, s, events)
    ensures Run(k, s, events).destroyed || Garbled(Run(k, s, events))
    decreases |events|
  {
    var next := Step(k, s, events[0]);
    if Misread(s, events[0]) {
      MisreadGarbles(k, s, events[0]);
      RunGrows(k, next, events[1..]);
      var end := Run(k, next, events[1..]);
      if Garbled(next) {
        var at :| 0 < at < |next.carved| && next.carved[at].Hello?;
        assert end.carved[at] == next.carved[at];
      }
    } else {
      RunGarbled(k, next, events[1..]);
    }
  }

  lemma StartConserved(k: Config)
    ensures Conserved(k, START) && Quiescent(START) && Phased(START) && Legal(false, START.carved)
  {
  }

  lemma CanonicalFrom(k: Config, start: State, events: seq<Event>)
    requires Invariant(k, start) && Legal(false, start.carved) && Possible(k, start, events)
    ensures var s := Run(k, start, events);
            && (NeverMisread(k, start, events) ==> s.carved <= Tokens(false, s.received))
            && (!s.destroyed && s.carved <= Tokens(false, s.received) ==> NeverMisread(k, start, events))
  {
    var s := Run(k, start, events);
    RunConserves(k, start, events);
    if NeverMisread(k, start, events) {
      RunLegal(k, start, events);
      LegalState(k, s);
    } else {
      RunGarbled(k, start, events);
      if !s.destroyed {
        GarbledState(s);
      }
    }
  }

  /**
   * The messages a connection took, in any interleaving, are those its bytes are made of if no chunk was misread
   * during the look-up, and, when the connection is still open, only if none was.
   */
  lemma CanonicalIffNeverMisread(k: Config, events: seq<Event>)
    requires Possible(k, START, events)
    ensures var s := Run(k, START, events);
            && (NeverMisread(k, START, events) ==> s.carved <= Tokens(false, s.received))
            && (!s.destroyed && s.carved <= Tokens(false, s.received) ==> NeverMisread(k, START, events))
  {
    StartConserved(k);
    CanonicalFrom(k, START, events);
  }

  /** From the handshake to the end of its look-up the device sends nothing. */
  ghost predicate SilentInLookup(k: Config, s: State, events: seq<Event>)
    decreases |events|
  {
    events == []
    || (!(events[0].Data? && !s.ready && s.carved != []) && SilentInLookup(k, Step(k, s, events[0]), events[1..]))
  }

  /** So silence is enough. */
  lemma {:induction false} SilentIsNeverMisread(k: Config, s: State, events: seq<Event>)
    requires SilentInLookup(k, s, events)
    ensures NeverMisread(k, s, events)
    decreases |events|
  {
    if events != [] {
      SilentIsNeverMisread(k, Step(k, s, events[0]), events[1..]);
    }
  }

  lemma LegalState(k: Config, s: State)
    requires Conserved(k, s) && Legal(false, s.carved)
    ensures s.carved <= Tokens(false, s.received)
    ensures Next(s.carved != [], s.buffer).Wait? ==> s.carved == Tokens(false, s.received)
  {
    LegalIsCanonical(false, s.carved, s.buffer);
  }

  lemma GarbledState(s: State)
    requires Garbled(s)
    ensures !(s.carved <= Tokens(false, s.received))
  {
    var k :| 0 < k < |s.carved| && s.carved[k].Hello?;
    if s.carved <= Tokens(false, s.received) {
      assert Tokens(false, s.received)[k] == s.carved[k];
      NoSecondHello(false, s.received, k);
    }
  }

  /**
   * A device that is silent during the look-up, or sends too little to be misread: once no run is in flight and
   * if the connection is still open, each complete message was taken exactly once and in order, and all the
   * records of its packets were published and acknowledged.
   */
  lemma AllServedWhenQuiet(k: Config, events: seq<Event>)
    requires Possible(k, START, events) && NeverMisread(k, START, events)
    requires var s := Run(k, START, events);
             s.runs == [] && !s.destroyed
    ensures var s := Run(k, START, events);
            && s.carved == Tokens(false, s.received)
            && Sum(s.acks) == s.recordsPublished == s.recordsReceived
            && multiset(s.published) == multiset(RecordsIn(k, Tokens(false, s.received)))
  {
    var s := Run(k, START, events);
    StartConserved(k);
    RunConserves(k, START, events);
    RunLegal(k, START, events);
    LegalState(k, s);
    QuietState(k, s);
  }

  lemma QuietState(k: Config, s: State)
    requires Conserved(k, s) && Quiescent(s) && Phased(s) && s.runs == [] && !s.destroyed
    ensures Next(s.carved != [], s.buffer).Wait? && Sum(s.acks) == s.recordsPublished == s.recordsReceived
    ensures multiset(s.published) == multiset(RecordsIn(k, s.carved))
  {
  }

  ghost predicate ReadsHandshakes(k: Config) {
    forall bytes :: k.hello(bytes) == ParseHandshake(bytes)
  }

  /** A device that does not wait: its first packet arrives during the look-up, and the connection is closed. */
  lemma EagerPacketCloses(k: Config, imei: seq<byte>, packet: seq<byte>)
    requires ReadsHandshakes(k)
    requires ValidImei(imei) && |packet| >= 2 && packet[0] == packet[1] == 0
    ensures var events := [Data(EncodeHandshake(imei)), Data(packet)];
            Possible(k, START, events) && Run(k, START, events).destroyed
  {
    var s := Step(k, START, Data(EncodeHandshake(imei)));
    HandshakeTaken(k, imei);
    EagerStep(k, s, packet);
    TwoSteps(k, START, Data(EncodeHandshake(imei)), Data(packet));
  }

  /** A device that says its IMEI twice: the connection stays open and the stream is cut wrong. */
  lemma RepeatedHandshakeGarbles(k: Config, imei: seq<byte>)
    requires ReadsHandshakes(k) && ValidImei(imei)
    ensures var h := EncodeHandshake(imei);
            var s := Run(k, START, [Data(h), Data(h)]);
            Possible(k, START, [Data(h), Data(h)]) && !s.destroyed && Garbled(s) && !(s.carved <= Tokens(false, s.received))
  {
    var h := EncodeHandshake(imei);
    var s := Step(k, START, Data(h));
    HandshakeTaken(k, imei);
    HandshakeStep(k, s, imei);
    TwoSteps(k, START, Data(h), Data(h));
    assert Step(k, s, Data(h)).carved[1].Hello?;
    GarbledState(Step(k, s, Data(h)));
  }

  lemma HandshakeStep(k: Config, s: State, imei: seq<byte>)
    requires ReadsHandshakes(k) && ValidImei(imei) && !s.ready && !s.destroyed && s.buffer == []
    ensures var h := EncodeHandshake(imei);
            var t := Step(k, s, Data(h));
            && !t.ready && !t.destroyed && t.buffer == [] && t.runs == s.runs + [Resolving(imei)]
            && t.carved == s.carved + [Hello(h)] && t.imei == Some(imei) && t.lookups == s.lookups && t.offered == s.offered
  {
    var h := EncodeHandshake(imei);
    Pow256Values();
    BEToBE(|imei|, 2);
    assert h[..2] == ToBE(|imei|, 2) && h[..|h|] == h;
    assert [] + h == h && h + [] == h;
    HandshakeRoundTrip(imei, []);
  }

  lemma TwoSteps(k: Config, s: State, e: Event, f: Event)
    requires Enabled(s, e) && Enabled(Step(k, s, e), f)
    ensures Possible(k, s, [e, f]) && Run(k, s, [e, f]) == Step(k, Step(k, s, e), f)
  {
    var t := Step(k, s, e);
    assert [e, f][1..] == [f] && [f][1..] == [];
    assert Possible(k, Step(k, t, f), []);
    assert Possible(k, t, [f]) && Run(k, t, [f]) == Step(k, t, f);
  }

  lemma EagerStep(k: Config, s: State, packet: seq<byte>)
    requires ReadsHandshakes(k) && !s.ready && s.buffer == [] && |packet| >= 2 && packet[0] == packet[1] == 0
    ensures Step(k, s, Data(packet)).destroyed
  {
    assert s.buffer + packet == packet;
    ZeroLength(packet);
    GreetCarves(s.(buffer := packet, received := s.received + packet), packet[..2], k.hello(packet[..2]));
  }

  lemma HandshakeTaken(k: Config, imei: seq<byte>)
    requires ReadsHandshakes(k) && ValidImei(imei)
    ensures var s := Step(k, START, Data(EncodeHandshake(imei)));
            !s.ready && !s.destroyed && s.buffer == [] && s.runs == [Resolving(imei)] && s.carved == [Hello(EncodeHandshake(imei))]
  {
    HandshakeStep(k, START, imei);
  }

  lemma OneStep(k: Config, s: State, e: Event)
    requires Enabled(s, e)
    ensures Possible(k, s, [e]) && Run(k, s, [e]) == Step(k, s, e)
  {
    assert [e][1..] == [];
    assert Possible(k, Step(k, s, e), []);
  }

  lemma Prepend(k: Config, s: State, e: Event, rest: seq<Event>)
    requires Enabled(s, e) && Possible(k, Step(k, s, e), rest)
    ensures Possible(k, s, [e] + rest)
    ensures Run(k, s, [e] + rest) == Run(k, Step(k, s, e), rest)
  {
    assert ([e] + rest)[1..] == rest;
  }

  /** One packet in one chunk, to a connection that holds no other bytes. */
  lemma PacketArrives(k: Config, s: State, x: seq<byte>, p: AvlPacket, next: nat)
    requires s.ready && !s.destroyed && s.buffer == [] && !k.crashTopic
    requires Next(true, x) == Take(Packet(x)) && k.packet(x) == Done(p, next)
    ensures Step(k, s, Data(x)) ==
              s.(received := s.received + x, carved := s.carved + [Packet(x)],
                 recordsReceived := s.recordsReceived + |p.records|, runs := s.runs + [Publishing(p)],
                 offered := s.offered + [Records(ImeiOf(s), s.vehicle, p.records)])
  {
    assert [] + x == x;
    assert Drop(x, |x|) == [];
  }

  /** Two zero bytes declare an IMEI of length 0, which is refused. */
  lemma ZeroLength(packet: seq<byte>)
    requires |packet| >= 2 && packet[0] == packet[1] == 0
    ensures Next(false, packet) == Take(Hello(packet[..2])) && ParseHandshake(packet[..2]).Fail?
  {
    var s := packet[..2];
    assert s[..1][..0] == [] && BE(s[..1]) == BE([]) * 256 + s[0];
    assert BE(s) == BE(s[..1]) * 256 + s[1];
    assert s[0..2] == s;
  }
}
