/** One connection of the gateway whose runs finish before the next chunk arrives. */
module Connection {
  import opened Options
  import opened Bytes
  import opened Avl
  import opened AvlParse
  import opened Handshake
  import opened Framing

  type Imei = seq<byte>

  datatype Resolution = Resolved(vehicleId: Option<string>, pendingDeviceId: Option<string>) | ResolveFailed

  /** What the connection does to the outside, in order. */
  datatype Effect =
    | ImeiAck(accept: bool)
    | CrashTrace(imei: Imei, vehicle: Option<string>, packet: AvlPacket)
    | Publish(imei: Imei, vehicle: Option<string>, record: AvlRecord, ok: bool)
    | AvlAck(recordCount: nat)
    | Destroy

  /**
   * What a connection is given: the answers of the outside, which may depend on everything that was done before,
   * whether there is a crash topic, and the two parsers.
   */
  datatype World = World(
    resolve: (seq<Effect>, Imei) -> Resolution,
    publish: (seq<Effect>, AvlRecord) -> bool,
    crashTopic: bool,
    packet: seq<byte> -> Parsed<AvlPacket>,
    hello: seq<byte> -> Parsed<Imei>)

  /** The parsers are the ones of the codec; what does not ask for it holds for any. */
  ghost predicate ReadsTheCodec(w: World) {
    && (forall bytes :: w.packet(bytes) == ParsePacket(bytes))
    && (forall bytes :: w.hello(bytes) == ParseHandshake(bytes))
  }

  datatype Conn = Conn(
    ready: bool, imei: Option<Imei>, vehicleId: Option<string>, pendingDeviceId: Option<string>,
    buffer: seq<byte>, recordsReceived: nat, recordsPublished: nat, destroyed: bool, log: seq<Effect>)

  const FRESH := Conn(false, None, None, None, [], 0, 0, false, [])

  const CRASH_EVENT_AVL_ID := 247

  predicate IsCrashTracePacket(p: AvlPacket) {
    exists r :: r in p.records && r.priority == 2 && r.io.eventIoId == CRASH_EVENT_AVL_ID
  }

  function Close(c: Conn, effects: seq<Effect>): Conn {
    c.(destroyed := true, log := c.log + effects + [Destroy])
  }

  /** A handshake that is not an IMEI, or an IMEI that cannot be looked up, is refused. */
  function Greet(w: World, c: Conn, parsed: Parsed<Imei>, length: nat): Conn {
    match parsed
    case Fail(_) => Close(c, [ImeiAck(false)])
    case Done(imei, _) =>
      var c1 := c.(imei := Some(imei), buffer := Drop(c.buffer, length));
      match w.resolve(c1.log, imei)
      case ResolveFailed => Close(c1, [ImeiAck(false)])
      case Resolved(vehicleId, pending) =>
        c1.(vehicleId := vehicleId, pendingDeviceId := pending, ready := true, log := c1.log + [ImeiAck(true)])
  }

  function Drop(buf: seq<byte>, n: nat): seq<byte> {
    if n <= |buf| then buf[n..] else []
  }

  /** Every record is offered to the topic, whatever happens to the others. */
  function Publishes(w: World, log: seq<Effect>, imei: Imei, vehicle: Option<string>, records: seq<AvlRecord>): (r: seq<Effect>)
    ensures |r| == |records|
  {
    if records == [] then []
    else
      var before := Publishes(w, log, imei, vehicle, records[..|records| - 1]);
      var last := records[|records| - 1];
      before + [Publish(imei, vehicle, last, w.publish(log + before, last))]
  }

  predicate AllOk(effects: seq<Effect>) {
    forall i :: 0 <= i < |effects| ==> effects[i].Publish? && effects[i].ok
  }

  /** A packet is acknowledged with its record count once all its records are published, and with 0 otherwise. */
  function Deliver(w: World, c: Conn, parsed: Parsed<AvlPacket>, length: nat): Conn {
    var c1 := c.(buffer := Drop(c.buffer, length));
    match parsed
    case Fail(_) => Close(c1, [AvlAck(0)])
    case Done(p, _) => Forward(w, c1.(recordsReceived := c1.recordsReceived + |p.records|), p)
  }

  /** The publications of a parsed packet: the whole packet to the crash topic, then each record. */
  function Publications(w: World, c: Conn, p: AvlPacket): (seq<Effect>, seq<Effect>) {
    var imei := if c.imei.Some? then c.imei.value else [];
    var crash := if w.crashTopic && IsCrashTracePacket(p) then [CrashTrace(imei, c.vehicleId, p)] else [];
    (crash, Publishes(w, c.log + crash, imei, c.vehicleId, p.records))
  }

  /** What happens to a packet once it is parsed. */
  function Forward(w: World, c: Conn, p: AvlPacket): Conn {
    var (crash, publishes) := Publications(w, c, p);
    Acknowledge(c.(log := c.log + (crash + publishes)), |p.records|, AllOk(publishes))
  }

  function Acknowledge(c: Conn, n: nat, ok: bool): Conn {
    if ok then c.(recordsPublished := c.recordsPublished + n, log := c.log + [AvlAck(n)]) else Close(c, [AvlAck(0)])
  }

  function Step(w: World, c: Conn): Conn {
    match Next(c.ready, c.buffer)
    case Wait => c
    case Reject => Close(c, [])
    case Take(Hello(bytes)) => Greet(w, c, w.hello(bytes), |bytes|)
    case Take(Ping) => c.(buffer := Drop(c.buffer, 1))
    case Take(Packet(bytes)) => Deliver(w, c, w.packet(bytes), |bytes|)
  }

  predicate Idle(c: Conn) {
    c.destroyed || Next(c.ready, c.buffer).Wait?
  }

  lemma StepProgress(w: World, c: Conn)
    requires !Idle(c)
    ensures var s := Step(w, c);
            s.destroyed || |s.buffer| < |c.buffer|
  {
    NextSound(c.ready, c.buffer);
  }

  function Size(c: Conn): nat {
    if c.destroyed then 0 else 1 + |c.buffer|
  }

  /** A run of `processBuffer`: steps until the buffer holds no complete message or the socket is closed. */
  function Run(w: World, c: Conn): Conn
    decreases Size(c)
  {
    if Idle(c) then c
    else
      StepProgress(w, c);
      Run(w, Step(w, c))
  }

  function More(c: Conn, chunk: seq<byte>): Conn {
    c.(buffer := c.buffer + chunk)
  }

  /** A chunk arrives; a closed socket reports no more data. */
  function Receive(w: World, c: Conn, chunk: seq<byte>): Conn {
    if c.destroyed then c else Run(w, More(c, chunk))
  }

  function ReceiveAll(w: World, c: Conn, chunks: seq<seq<byte>>): Conn
    decreases |chunks|
  {
    if chunks == [] then c else ReceiveAll(w, Receive(w, c, chunks[0]), chunks[1..])
  }

  // ----- The way a stream is split into chunks does not matter -----

  /** Everything about a connection except the bytes a closed one has left over. */
  function Settled(c: Conn): Conn {
    if c.destroyed then c.(buffer := []) else c
  }

  lemma DropMore(buf: seq<byte>, n: nat, chunk: seq<byte>)
    requires n <= |buf|
    ensures Drop(buf + chunk, n) == Drop(buf, n) + chunk
  {
  }

  lemma GreetMore(w: World, c: Conn, parsed: Parsed<Imei>, length: nat, chunk: seq<byte>)
    requires length <= |c.buffer|
    ensures Greet(w, More(c, chunk), parsed, length) == More(Greet(w, c, parsed, length), chunk)
  {
    DropMore(c.buffer, length, chunk);
  }

  lemma ForwardMore(w: World, c: Conn, p: AvlPacket, chunk: seq<byte>)
    ensures Forward(w, More(c, chunk), p) == More(Forward(w, c, p), chunk)
  {
  }

  lemma DeliverMore(w: World, c: Conn, parsed: Parsed<AvlPacket>, length: nat, chunk: seq<byte>)
    requires length <= |c.buffer|
    ensures Deliver(w, More(c, chunk), parsed, length) == More(Deliver(w, c, parsed, length), chunk)
  {
    DropMore(c.buffer, length, chunk);
    if parsed.Done? {
      var c1 := c.(buffer := Drop(c.buffer, length), recordsReceived := c.recordsReceived + |parsed.value.records|);
      ForwardMore(w, c1, parsed.value, chunk);
    }
  }

  lemma StepMore(w: World, c: Conn, chunk: seq<byte>)
    requires !Idle(c)
    ensures !Idle(More(c, chunk)) && Step(w, More(c, chunk)) == More(Step(w, c), chunk)
  {
    NextStable(c.ready, c.buffer, chunk);
    NextSound(c.ready, c.buffer);
    match Next(c.ready, c.buffer)
    case Reject =>
    case Take(Hello(bytes)) => GreetMore(w, c, w.hello(bytes), |bytes|, chunk);
    case Take(Ping) => DropMore(c.buffer, 1, chunk);
    case Take(Packet(bytes)) => DeliverMore(w, c, w.packet(bytes), |bytes|, chunk);
  }

  /** Running before the rest of the bytes arrive gives what running with all of them gives. */
  lemma {:induction false} RunMore(w: World, c: Conn, chunk: seq<byte>)
    ensures Settled(Run(w, More(c, chunk))) == Settled(Receive(w, Run(w, c), chunk))
    decreases Size(c)
  {
    if !Idle(c) {
      StepMore(w, c, chunk);
      StepProgress(w, c);
      RunMore(w, Step(w, c), chunk);
    }
  }

  function Concat(chunks: seq<seq<byte>>): seq<byte> {
    if chunks == [] then [] else chunks[0] + Concat(chunks[1..])
  }

  lemma ReceiveSettled(w: World, c: Conn, d: Conn, chunk: seq<byte>)
    requires Settled(c) == Settled(d)
    ensures Settled(Receive(w, c, chunk)) == Settled(Receive(w, d, chunk))
  {
  }

  lemma {:induction false} ReceiveAllSettled(w: World, c: Conn, d: Conn, chunks: seq<seq<byte>>)
    requires Settled(c) == Settled(d)
    ensures Settled(ReceiveAll(w, c, chunks)) == Settled(ReceiveAll(w, d, chunks))
    decreases |chunks|
  {
    if chunks != [] {
      ReceiveSettled(w, c, d, chunks[0]);
      ReceiveAllSettled(w, Receive(w, c, chunks[0]), Receive(w, d, chunks[0]), chunks[1..]);
    }
  }

  lemma MoreMore(c: Conn, a: seq<byte>, b: seq<byte>)
    ensures More(More(c, a), b) == More(c, a + b)
  {
    assert c.buffer + a + b == c.buffer + (a + b);
  }

  lemma ReceiveTwice(w: World, c: Conn, a: seq<byte>, b: seq<byte>)
    ensures Settled(Receive(w, Receive(w, c, a), b)) == Settled(Receive(w, c, a + b))
  {
    if !c.destroyed {
      RunMore(w, More(c, a), b);
      MoreMore(c, a, b);
    }
  }

  lemma {:induction false} ReceiveAllAtOnce(w: World, c: Conn, chunks: seq<seq<byte>>)
    requires Idle(c)
    ensures Settled(ReceiveAll(w, c, chunks)) == Settled(Receive(w, c, Concat(chunks)))
    decreases |chunks|
  {
    if chunks == [] {
      assert More(c, []) == c;
    } else {
      var d := Receive(w, c, chunks[0]);
      RunIdle(w, More(c, chunks[0]));
      ReceiveAllAtOnce(w, d, chunks[1..]);
      ReceiveTwice(w, c, chunks[0], Concat(chunks[1..]));
    }
  }

  lemma {:induction false} RunIdle(w: World, c: Conn)
    ensures Idle(Run(w, c))
    decreases Size(c)
  {
    if !Idle(c) {
      StepProgress(w, c);
      RunIdle(w, Step(w, c));
    }
  }

  /**
   * However the same bytes are split into chunks, a connection ends up with the same handshake, counters,
   * writes and publications, in the same order, and with the same bytes left over if it is still open.
   */
  lemma ChunkingIndependence(w: World, a: seq<seq<byte>>, b: seq<seq<byte>>)
    requires Concat(a) == Concat(b)
    ensures Settled(ReceiveAll(w, FRESH, a)) == Settled(ReceiveAll(w, FRESH, b))
  {
    ReceiveAllAtOnce(w, FRESH, a);
    ReceiveAllAtOnce(w, FRESH, b);
  }

  lemma StepGreets(w: World, c: Conn, bytes: seq<byte>)
    requires Next(c.ready, c.buffer) == Take(Hello(bytes))
    ensures Step(w, c) == Greet(w, c, w.hello(bytes), |bytes|)
  {
  }

  lemma StepTakes(w: World, c: Conn, bytes: seq<byte>)
    requires Next(c.ready, c.buffer) == Take(Packet(bytes))
    ensures Step(w, c) == Deliver(w, c, w.packet(bytes), |bytes|)
  {
  }

  lemma RunTo(w: World, c: Conn, d: Conn)
    requires !Idle(c) && Step(w, c) == d
    ensures Run(w, c) == Run(w, d)
  {
    StepProgress(w, c);
  }

  // ----- Counters and acknowledgements -----

  function AckSum(log: seq<Effect>): nat {
    if log == [] then 0
    else AckSum(log[..|log| - 1]) + (match log[|log| - 1] case AvlAck(n) => n case _ => 0)
  }

  /** The acknowledgement at `i` comes right after that many successful publications. */
  ghost predicate AckEarned(log: seq<Effect>, i: nat)
    requires i < |log|
  {
    log[i].AvlAck? ==> log[i].recordCount <= i && AllOk(log[i - log[i].recordCount..i])
  }

  ghost predicate Accounted(c: Conn) {
    && AckSum(c.log) == c.recordsPublished <= c.recordsReceived
    && forall i :: 0 <= i < |c.log| ==> AckEarned(c.log, i)
  }

  lemma {:induction false} AckSumConcat(a: seq<Effect>, b: seq<Effect>)
    ensures AckSum(a + b) == AckSum(a) + AckSum(b)
    decreases |b|
  {
    if b == [] {
      assert a + b == a;
    } else {
      assert (a + b)[..|a + b| - 1] == a + b[..|b| - 1];
      AckSumConcat(a, b[..|b| - 1]);
    }
  }

  ghost predicate NoAcks(effects: seq<Effect>) {
    forall i :: 0 <= i < |effects| ==> !effects[i].AvlAck? || effects[i].recordCount == 0
  }

  lemma {:induction false} NoAcksSum(effects: seq<Effect>)
    requires NoAcks(effects)
    ensures AckSum(effects) == 0
    decreases |effects|
  {
    if effects != [] {
      NoAcksSum(effects[..|effects| - 1]);
    }
  }

  lemma EarnedStays(log: seq<Effect>, effects: seq<Effect>, i: nat)
    requires i < |log| && AckEarned(log, i)
    ensures AckEarned(log + effects, i)
  {
    if log[i].AvlAck? {
      var n := log[i].recordCount;
      assert (log + effects)[i - n..i] == log[i - n..i];
    }
  }

  lemma QuietEffects(c: Conn, effects: seq<Effect>)
    requires Accounted(c) && NoAcks(effects)
    ensures Accounted(c.(log := c.log + effects))
  {
    NoAcksSum(effects);
    AckSumConcat(c.log, effects);
    var log := c.log + effects;
    forall i | 0 <= i < |log|
      ensures AckEarned(log, i)
    {
      if i < |c.log| {
        EarnedStays(c.log, effects, i);
      } else {
        assert log[i] == effects[i - |c.log|];
      }
    }
  }

  lemma {:induction false} PublishesArePublishes(w: World, log: seq<Effect>, imei: Imei, vehicle: Option<string>, records: seq<AvlRecord>)
    ensures forall e :: e in Publishes(w, log, imei, vehicle, records) ==> e.Publish?
    decreases |records|
  {
    if records != [] {
      PublishesArePublishes(w, log, imei, vehicle, records[..|records| - 1]);
    }
  }

  lemma EarnedAck(c: Conn, n: nat)
    requires Accounted(c) && n <= |c.log| && AllOk(c.log[|c.log| - n..]) && c.recordsPublished + n <= c.recordsReceived
    ensures Accounted(c.(recordsPublished := c.recordsPublished + n, log := c.log + [AvlAck(n)]))
  {
    var log := c.log + [AvlAck(n)];
    assert log[..|log| - 1] == c.log;
    forall i | 0 <= i < |log|
      ensures AckEarned(log, i)
    {
      if i < |c.log| {
        EarnedStays(c.log, [AvlAck(n)], i);
      } else {
        assert log[i - n..i] == c.log[|c.log| - n..];
      }
    }
  }

  lemma CloseAccounted(c: Conn, effects: seq<Effect>)
    requires Accounted(c) && NoAcks(effects)
    ensures Accounted(Close(c, effects))
  {
    QuietEffects(c, effects + [Destroy]);
    assert c.log + effects + [Destroy] == c.log + (effects + [Destroy]);
  }

  lemma ForwardAccounted(w: World, c: Conn, p: AvlPacket)
    requires Accounted(c) && c.recordsPublished + |p.records| <= c.recordsReceived
    ensures Accounted(Forward(w, c, p))
  {
    var (crash, publishes) := Publications(w, c, p);
    var imei := if c.imei.Some? then c.imei.value else [];
    PublishesArePublishes(w, c.log + crash, imei, c.vehicleId, p.records);
    AcknowledgeAccounted(c, crash, publishes);
  }

  lemma AcknowledgeAccounted(c: Conn, crash: seq<Effect>, publishes: seq<Effect>)
    requires Accounted(c) && c.recordsPublished + |publishes| <= c.recordsReceived
    requires (forall e :: e in publishes ==> e.Publish?) && (forall e :: e in crash ==> e.CrashTrace?)
    ensures Accounted(Acknowledge(c.(log := c.log + (crash + publishes)), |publishes|, AllOk(publishes)))
  {
    NoAcksInPublications(crash, publishes);
    QuietEffects(c, crash + publishes);
    var d := c.(log := c.log + (crash + publishes));
    if AllOk(publishes) {
      LastOfThree(c.log, crash, publishes);
      EarnedAck(d, |publishes|);
    } else {
      CloseAccounted(d, [AvlAck(0)]);
    }
  }

  lemma NoAcksInPublications(crash: seq<Effect>, publishes: seq<Effect>)
    requires (forall e :: e in publishes ==> e.Publish?) && (forall e :: e in crash ==> e.CrashTrace?)
    ensures NoAcks(crash + publishes)
  {
    var effects := crash + publishes;
    assert forall i :: 0 <= i < |effects| ==> effects[i] in effects;
  }

  lemma LastOfThree(a: seq<Effect>, b: seq<Effect>, c: seq<Effect>)
    ensures (a + (b + c))[|a + (b + c)| - |c|..] == c
  {
  }

  lemma GreetAccounted(w: World, c: Conn, parsed: Parsed<Imei>, length: nat)
    requires Accounted(c)
    ensures Accounted(Greet(w, c, parsed, length))
  {
    CloseAccounted(c, [ImeiAck(false)]);
    if parsed.Done? {
      var c1 := c.(imei := Some(parsed.value), buffer := Drop(c.buffer, length));
      CloseAccounted(c1, [ImeiAck(false)]);
      QuietEffects(c1, [ImeiAck(true)]);
    }
  }

  lemma DeliverAccounted(w: World, c: Conn, parsed: Parsed<AvlPacket>, length: nat)
    requires Accounted(c)
    ensures Accounted(Deliver(w, c, parsed, length))
  {
    var c1 := c.(buffer := Drop(c.buffer, length));
    match parsed
    case Fail(_) => CloseAccounted(c1, [AvlAck(0)]);
    case Done(p, _) => ReceivedAccounted(w, c1, p);
  }

  lemma ReceivedAccounted(w: World, c: Conn, p: AvlPacket)
    requires Accounted(c)
    ensures Accounted(Forward(w, c.(recordsReceived := c.recordsReceived + |p.records|), p))
  {
    ForwardAccounted(w, c.(recordsReceived := c.recordsReceived + |p.records|), p);
  }

  lemma StepAccounted(w: World, c: Conn)
    requires Accounted(c)
    ensures Accounted(Step(w, c))
  {
    match Next(c.ready, c.buffer)
    case Wait =>
    case Reject =>
      CloseAccounted(c, []);
      assert Step(w, c) == Close(c, []);
    case Take(Hello(bytes)) =>
      StepGreets(w, c, bytes);
      GreetAccounted(w, c, w.hello(bytes), |bytes|);
    case Take(Ping) =>
      assert Step(w, c) == c.(buffer := Drop(c.buffer, 1));
    case Take(Packet(bytes)) =>
      StepTakes(w, c, bytes);
      DeliverAccounted(w, c, w.packet(bytes), |bytes|);
  }

  lemma {:induction false} RunAccounted(w: World, c: Conn)
    requires Accounted(c)
    ensures Accounted(Run(w, c))
    decreases Size(c)
  {
    if !Idle(c) {
      StepProgress(w, c);
      StepAccounted(w, c);
      RunAccounted(w, Step(w, c));
    }
  }

  /**
   * Whatever bytes arrive: the counts acknowledged add up to the records published, never more than the records
   * received, and every acknowledgement comes right after the successful publication of that many records.
   */
  lemma {:induction false} AcknowledgedMeansPublished(w: World, c: Conn, chunks: seq<seq<byte>>)
    requires Accounted(c)
    ensures Accounted(ReceiveAll(w, c, chunks))
    decreases |chunks|
  {
    if chunks != [] {
      RunAccounted(w, More(c, chunks[0]));
      AcknowledgedMeansPublished(w, Receive(w, c, chunks[0]), chunks[1..]);
    }
  }

  // ----- Whose records they are -----

  /**
   * Everything published so far carries the IMEI of the handshake and the vehicle it was resolved to, the device
   * was told yes exactly if the connection is ready and no only if it is closed, and it is closed when it says so.
   */
  ghost predicate Labelled(c: Conn) {
    && (c.ready ==> c.imei.Some?)
    && (c.ready <==> ImeiAck(true) in c.log)
    && (ImeiAck(false) in c.log ==> c.destroyed && !c.ready)
    && (c.destroyed <==> Destroy in c.log)
    && forall e :: e in c.log && (e.Publish? || e.CrashTrace?) ==> c.ready && c.imei == Some(e.imei) && c.vehicleId == e.vehicle
  }

  lemma {:induction false} PublishesLabelled(w: World, log: seq<Effect>, imei: Imei, vehicle: Option<string>, records: seq<AvlRecord>)
    ensures forall e :: e in Publishes(w, log, imei, vehicle, records) ==> e.Publish? && e.imei == imei && e.vehicle == vehicle
    decreases |records|
  {
    if records != [] {
      PublishesLabelled(w, log, imei, vehicle, records[..|records| - 1]);
    }
  }

  lemma ForwardLabelled(w: World, c: Conn, p: AvlPacket)
    requires Labelled(c) && c.ready
    ensures Labelled(Forward(w, c, p)) && Forward(w, c, p).imei == c.imei && Forward(w, c, p).vehicleId == c.vehicleId
  {
    var (crash, publishes) := Publications(w, c, p);
    PublishesLabelled(w, c.log + crash, c.imei.value, c.vehicleId, p.records);
    assert forall e :: e in crash + publishes ==> c.imei == Some(e.imei) && c.vehicleId == e.vehicle;
    AcknowledgeLabelled(c, crash + publishes, |p.records|, AllOk(publishes));
  }

  lemma AcknowledgeLabelled(c: Conn, effects: seq<Effect>, n: nat, ok: bool)
    requires Labelled(c) && c.ready
    requires forall e :: e in effects ==> (e.Publish? || e.CrashTrace?) && c.imei == Some(e.imei) && c.vehicleId == e.vehicle
    ensures Labelled(Acknowledge(c.(log := c.log + effects), n, ok))
  {
  }

  lemma StepLabelled(w: World, c: Conn)
    requires Labelled(c) && !Idle(c)
    ensures Labelled(Step(w, c))
  {
    NextSound(c.ready, c.buffer);
    match Next(c.ready, c.buffer)
    case Reject =>
    case Take(Hello(bytes)) => GreetLabelled(w, c, w.hello(bytes), |bytes|);
    case Take(Ping) =>
    case Take(Packet(bytes)) => DeliverLabelled(w, c, w.packet(bytes), |bytes|);
  }

  lemma GreetLabelled(w: World, c: Conn, parsed: Parsed<Imei>, length: nat)
    requires Labelled(c) && !c.ready && !c.destroyed
    ensures Labelled(Greet(w, c, parsed, length))
  {
  }

  lemma DeliverLabelled(w: World, c: Conn, parsed: Parsed<AvlPacket>, length: nat)
    requires Labelled(c) && c.ready
    ensures Labelled(Deliver(w, c, parsed, length))
  {
    var c1 := c.(buffer := Drop(c.buffer, length));
    match parsed
    case Fail(_) =>
    case Done(p, _) => ForwardLabelled(w, c1.(recordsReceived := c1.recordsReceived + |p.records|), p);
  }

  lemma {:induction false} RunLabelled(w: World, c: Conn)
    requires Labelled(c)
    ensures Labelled(Run(w, c))
    decreases Size(c)
  {
    if !Idle(c) {
      StepProgress(w, c);
      StepLabelled(w, c);
      RunLabelled(w, Step(w, c));
    }
  }

  /** Whatever bytes arrive, the handshake is answered as it went, and no record is published for another device or vehicle. */
  lemma {:induction false} RecordsKeepTheirDevice(w: World, c: Conn, chunks: seq<seq<byte>>)
    requires Labelled(c)
    ensures Labelled(ReceiveAll(w, c, chunks))
    decreases |chunks|
  {
    if chunks != [] {
      RunLabelled(w, More(c, chunks[0]));
      RecordsKeepTheirDevice(w, Receive(w, c, chunks[0]), chunks[1..]);
    }
  }
}
