/** A device that speaks the protocol: a handshake, then packets with pings between them. */
module Session {
  import opened Options
  import opened Bytes
  import opened Avl
  import opened AvlParse
  import opened AvlExact
  import opened Handshake
  import opened Framing
  import opened Connection

  /** Some pings, then a packet. */
  datatype Turn = Turn(pings: nat, packet: AvlPacket)

  function TurnBytes(t: Turn): seq<byte> {
    seq(t.pings, _ => PING) + EncodePacket(t.packet)
  }

  function TurnsBytes(turns: seq<Turn>): seq<byte> {
    if turns == [] then [] else TurnBytes(turns[0]) + TurnsBytes(turns[1..])
  }

  ghost predicate Sendable(p: AvlPacket) {
    ValidPacket(p) && Fits(|EncodeData(p)|, 4)
  }

  /** Every IMEI is looked up and every record published. */
  ghost predicate Cooperative(w: World) {
    && ReadsTheCodec(w)
    && (forall log, imei :: w.resolve(log, imei).Resolved?)
    && (forall log, record :: w.publish(log, record))
  }

  // ----- What a run leaves in the log -----

  /** What is written back to the device. */
  function Replies(log: seq<Effect>): seq<Effect> {
    if log == [] then []
    else Replies(log[..|log| - 1]) + (if log[|log| - 1].ImeiAck? || log[|log| - 1].AvlAck? then [log[|log| - 1]] else [])
  }

  function Records(log: seq<Effect>): seq<AvlRecord> {
    if log == [] then []
    else Records(log[..|log| - 1]) + (match log[|log| - 1] case Publish(_, _, r, true) => [r] case _ => [])
  }

  function Counts(turns: seq<Turn>): seq<nat> {
    if turns == [] then [] else [|turns[0].packet.records|] + Counts(turns[1..])
  }

  function CountAcks(turns: seq<Turn>): seq<Effect> {
    if turns == [] then [] else [AvlAck(|turns[0].packet.records|)] + CountAcks(turns[1..])
  }

  function AllRecords(turns: seq<Turn>): seq<AvlRecord> {
    if turns == [] then [] else turns[0].packet.records + AllRecords(turns[1..])
  }

  // ----- What the device reads of it -----

  /** The bytes of the replies. */
  function Heard(replies: seq<Effect>): seq<byte> {
    if replies == [] then []
    else ReplyBytes(replies[0]) + Heard(replies[1..])
  }

  function ReplyBytes(e: Effect): seq<byte> {
    match e
    case ImeiAck(accept) => EncodeImeiAck(accept)
    case AvlAck(n) => if EncodeAvlAck(n).Some? then EncodeAvlAck(n).value else []
    case _ => []
  }

  /** The device reads one count every four bytes. */
  function CountsRead(s: seq<byte>): seq<nat> {
    if |s| < 4 then [] else [BE(s[..4])] + CountsRead(s[4..])
  }

  lemma {:induction false} CountsReadBack(turns: seq<Turn>)
    requires forall t :: t in turns ==> Sendable(t.packet)
    ensures CountsRead(Heard(CountAcks(turns))) == Counts(turns)
  {
    if turns != [] {
      var n := |turns[0].packet.records|;
      var acks := CountAcks(turns);
      assert acks[0] == AvlAck(n) && acks[1..] == CountAcks(turns[1..]);
      assert turns[0] in turns;
      AckRoundTrip(n);
      Pow256Values();
      var first := EncodeAvlAck(n).value;
      assert Heard(acks) == first + Heard(acks[1..]);
      assert Heard(acks)[..4] == first && Heard(acks)[4..] == Heard(acks[1..]);
      CountsReadBack(turns[1..]);
    }
  }

  lemma {:induction false} LogConcat(a: seq<Effect>, b: seq<Effect>)
    ensures Replies(a + b) == Replies(a) + Replies(b) && Records(a + b) == Records(a) + Records(b)
    decreases |b|
  {
    if b == [] {
      assert a + b == a;
    } else {
      assert (a + b)[..|a + b| - 1] == a + b[..|b| - 1];
      LogConcat(a, b[..|b| - 1]);
    }
  }

  lemma {:induction false} PublishesAll(w: World, log: seq<Effect>, imei: Imei, vehicle: Option<string>, records: seq<AvlRecord>)
    requires Cooperative(w)
    ensures AllPublished(Publishes(w, log, imei, vehicle, records), records)
    decreases |records|
  {
    if records != [] {
      var n := |records| - 1;
      PublishesAll(w, log, imei, vehicle, records[..n]);
      var before := Publishes(w, log, imei, vehicle, records[..n]);
      AllPublishedSnoc(before, records, Publish(imei, vehicle, records[n], w.publish(log + before, records[n])));
    }
  }

  ghost predicate AllPublished(ps: seq<Effect>, records: seq<AvlRecord>) {
    AllOk(ps) && Replies(ps) == [] && Records(ps) == records
  }

  lemma AllPublishedSnoc(ps: seq<Effect>, records: seq<AvlRecord>, last: Effect)
    requires records != [] && AllPublished(ps, records[..|records| - 1])
    requires last.Publish? && last.ok && last.record == records[|records| - 1]
    ensures AllPublished(ps + [last], records)
  {
    SinglePublish(last);
    LogConcat(ps, [last]);
  }

  lemma SinglePublish(e: Effect)
    requires e.Publish? && e.ok
    ensures Replies([e]) == [] && Records([e]) == [e.record]
  {
    assert [e][..0] == [];
  }

  lemma SingleAck(n: nat)
    ensures Replies([AvlAck(n)]) == [AvlAck(n)] && Records([AvlAck(n)]) == []
  {
    assert [AvlAck(n)][..0] == [];
  }

  lemma SingleCrash(e: Effect)
    requires e.CrashTrace?
    ensures Replies([e]) == [] && Records([e]) == []
  {
    assert [e][..0] == [];
  }

  /** The connection after it served `turns`, from `c`. */
  ghost predicate Served(c: Conn, d: Conn, turns: seq<Turn>) {
    && d.ready && !d.destroyed && d.imei == c.imei && d.vehicleId == c.vehicleId && d.buffer == []
    && d.recordsReceived - c.recordsReceived == |AllRecords(turns)| == d.recordsPublished - c.recordsPublished
    && Replies(d.log) == Replies(c.log) + CountAcks(turns)
    && Records(d.log) == Records(c.log) + AllRecords(turns)
  }

  lemma LogOfPacket(log: seq<Effect>, crash: seq<Effect>, publishes: seq<Effect>, records: seq<AvlRecord>)
    requires AllPublished(publishes, records) && (crash == [] || (|crash| == 1 && crash[0].CrashTrace?))
    ensures Replies(log + (crash + publishes) + [AvlAck(|records|)]) == Replies(log) + [AvlAck(|records|)]
    ensures Records(log + (crash + publishes) + [AvlAck(|records|)]) == Records(log) + records
  {
    if crash != [] {
      SingleCrash(crash[0]);
      assert crash == [crash[0]];
    }
    var n := |records|;
    LogConcat(crash, publishes);
    var effects := crash + publishes;
    assert Replies(effects) == [] && Records(effects) == records;
    LogConcat(log, effects);
    var before := log + effects;
    assert Replies(before) == Replies(log) && Records(before) == Records(log) + records;
    LogConcat(before, [AvlAck(n)]);
    SingleAck(n);
  }

  /** `d` is `c` after it published and acknowledged `records`. */
  ghost predicate Acknowledged(c: Conn, d: Conn, records: seq<AvlRecord>) {
    && d == c.(recordsPublished := c.recordsPublished + |records|, log := d.log)
    && Replies(d.log) == Replies(c.log) + [AvlAck(|records|)]
    && Records(d.log) == Records(c.log) + records
  }

  lemma AcknowledgeServes(c: Conn, crash: seq<Effect>, publishes: seq<Effect>, records: seq<AvlRecord>)
    requires AllPublished(publishes, records) && (crash == [] || (|crash| == 1 && crash[0].CrashTrace?))
    ensures Acknowledged(c, Acknowledge(c.(log := c.log + (crash + publishes)), |records|, AllOk(publishes)), records)
  {
    LogOfPacket(c.log, crash, publishes, records);
  }

  lemma ForwardServes(w: World, c: Conn, p: AvlPacket)
    requires Cooperative(w)
    ensures Acknowledged(c, Forward(w, c, p), p.records)
  {
    var (crash, publishes) := Publications(w, c, p);
    var imei := if c.imei.Some? then c.imei.value else [];
    PublishesAll(w, c.log + crash, imei, c.vehicleId, p.records);
    AcknowledgeServes(c, crash, publishes, p.records);
  }

  // ----- Cutting what the device sends -----

  /** Every buffer the parser accepts is cut as one packet, whatever follows it. */
  lemma AcceptedIsCut(buf: seq<byte>, rest: seq<byte>)
    ensures ParsePacket(buf).Done? ==> Next(true, buf + rest) == Take(Packet(buf))
  {
    if ParsePacket(buf).Done? {
      var f, next := ParseFrame(buf).value, ParseFrame(buf).next;
      ReadFrame(buf, f, next);
      assert buf[0..4] == buf[..4];
      FirstByte(buf);
      NextStable(true, buf, rest);
      assert buf[..|buf|] == buf;
    }
  }

  lemma FirstByte(buf: seq<byte>)
    requires |buf| >= 4 && BE(buf[..4]) == 0
    ensures buf[0] == 0
  {
    var s := buf[..4];
    assert s[..3][..2] == s[..2] && s[..2][..1] == s[..1] && s[..1][0] == buf[0];
    assert BE(s) == BE(s[..3]) * 256 + s[3];
    assert BE(s[..3]) == BE(s[..2]) * 256 + s[2];
    assert BE(s[..2]) == BE(s[..1]) * 256 + s[1];
    assert s[..1][..0] == [];
    assert BE(s[..1]) == BE([]) * 256 + s[0];
  }

  lemma HelloIsCut(imei: seq<byte>, rest: seq<byte>)
    requires ValidImei(imei)
    ensures Next(false, EncodeHandshake(imei) + rest) == Take(Hello(EncodeHandshake(imei)))
  {
    var s := EncodeHandshake(imei);
    Pow256Values();
    BEToBE(|imei|, 2);
    assert s[..2] == ToBE(|imei|, 2);
    assert s[..|s|] == s;
    NextStable(false, s, rest);
  }

  lemma {:induction false} RunPings(w: World, c: Conn, n: nat, rest: seq<byte>)
    requires c.ready && !c.destroyed && c.buffer == seq(n, _ => PING) + rest
    ensures Run(w, c) == Run(w, c.(buffer := rest))
    decreases n
  {
    if n == 0 {
      assert c.buffer == rest;
    } else {
      assert Drop(c.buffer, 1) == seq(n - 1, _ => PING) + rest;
      RunPings(w, c.(buffer := Drop(c.buffer, 1)), n - 1, rest);
    }
  }

  function AfterPacket(w: World, c: Conn, p: AvlPacket, rest: seq<byte>): Conn {
    Forward(w, c.(buffer := rest, recordsReceived := c.recordsReceived + |p.records|), p)
  }

  lemma DeliverParsed(w: World, c: Conn, p: AvlPacket, next: nat, length: nat)
    ensures Deliver(w, c, Done(p, next), length) == AfterPacket(w, c, p, Drop(c.buffer, length))
  {
  }

  lemma PacketStep(w: World, c: Conn, p: AvlPacket, rest: seq<byte>)
    requires ReadsTheCodec(w) && c.ready && !c.destroyed && Sendable(p) && c.buffer == EncodePacket(p) + rest
    ensures Step(w, c) == AfterPacket(w, c, p, rest) && !Idle(c)
  {
    var bytes := EncodePacket(p);
    RoundTrip(p);
    AcceptedIsCut(bytes, rest);
    assert Drop(c.buffer, |bytes|) == rest;
    DeliverParsed(w, c, p, |bytes|, |bytes|);
    StepTakes(w, c, bytes);
  }

  lemma RunPacket(w: World, c: Conn, p: AvlPacket, rest: seq<byte>)
    requires ReadsTheCodec(w) && c.ready && !c.destroyed && Sendable(p) && c.buffer == EncodePacket(p) + rest
    ensures Run(w, c) == Run(w, AfterPacket(w, c, p, rest))
  {
    PacketStep(w, c, p, rest);
    RunTo(w, c, AfterPacket(w, c, p, rest));
  }

  lemma AfterPacketOf(w: World, c: Conn, p: AvlPacket, buffer: seq<byte>, rest: seq<byte>)
    ensures AfterPacket(w, c.(buffer := buffer), p, rest) == AfterPacket(w, c, p, rest)
  {
  }

  lemma RunTurn(w: World, c: Conn, t: Turn, rest: seq<byte>)
    requires ReadsTheCodec(w) && c.ready && !c.destroyed && Sendable(t.packet) && c.buffer == TurnBytes(t) + rest
    ensures Run(w, c) == Run(w, AfterPacket(w, c, t.packet, rest))
  {
    var after := EncodePacket(t.packet) + rest;
    assert c.buffer == seq(t.pings, _ => PING) + after;
    RunPings(w, c, t.pings, after);
    RunPacket(w, c.(buffer := after), t.packet, rest);
    AfterPacketOf(w, c, t.packet, after, rest);
  }

  /** `d` is `c` after it served one packet, with `rest` still to be cut. */
  ghost predicate ServedOne(c: Conn, d: Conn, p: AvlPacket, rest: seq<byte>) {
    && d.ready && !d.destroyed && d.imei == c.imei && d.vehicleId == c.vehicleId && d.buffer == rest
    && d.recordsReceived == c.recordsReceived + |p.records| && d.recordsPublished == c.recordsPublished + |p.records|
    && Replies(d.log) == Replies(c.log) + [AvlAck(|p.records|)] && Records(d.log) == Records(c.log) + p.records
  }

  lemma AfterPacketServes(w: World, c: Conn, p: AvlPacket, rest: seq<byte>)
    requires Cooperative(w) && c.ready && !c.destroyed
    ensures ServedOne(c, AfterPacket(w, c, p, rest), p, rest)
  {
    ForwardServes(w, c.(buffer := rest, recordsReceived := c.recordsReceived + |p.records|), p);
  }

  lemma ServedCons(c: Conn, c': Conn, d: Conn, turns: seq<Turn>)
    requires turns != [] && ServedOne(c, c', turns[0].packet, TurnsBytes(turns[1..])) && Served(c', d, turns[1..])
    ensures Served(c, d, turns)
  {
    var p, rest := turns[0].packet, turns[1..];
    Associate(Replies(c.log), [AvlAck(|p.records|)], CountAcks(rest));
    Associate(Records(c.log), p.records, AllRecords(rest));
    assert CountAcks(turns) == [AvlAck(|p.records|)] + CountAcks(rest);
    assert AllRecords(turns) == p.records + AllRecords(rest);
  }

  lemma Associate<T>(a: seq<T>, b: seq<T>, c: seq<T>)
    ensures a + b + c == a + (b + c)
  {
  }

  lemma RunNothing(w: World, c: Conn)
    requires c.ready && !c.destroyed && c.buffer == []
    ensures Served(c, Run(w, c), [])
  {
  }

  lemma {:induction false} RunTurns(w: World, c: Conn, turns: seq<Turn>)
    requires Cooperative(w) && forall t :: t in turns ==> Sendable(t.packet)
    requires c.ready && !c.destroyed && c.buffer == TurnsBytes(turns)
    ensures Served(c, Run(w, c), turns)
    decreases |turns|
  {
    if turns == [] {
      RunNothing(w, c);
    } else {
      var p, rest := turns[0].packet, TurnsBytes(turns[1..]);
      RunTurn(w, c, turns[0], rest);
      var c' := AfterPacket(w, c, p, rest);
      AfterPacketServes(w, c, p, rest);
      RunTurns(w, c', turns[1..]);
      ServedCons(c, c', Run(w, c'), turns);
    }
  }

  /**
   * A device that sends its IMEI and its packets, with any pings between them and in chunks of any size, is
   * accepted, has every record published once and in order, reads back the byte 0x01 and then the record count of
   * each packet, and leaves nothing in the buffer.
   */
  lemma DeviceIsServed(w: World, imei: Imei, turns: seq<Turn>, chunks: seq<seq<byte>>)
    requires Cooperative(w) && ValidImei(imei) && forall t :: t in turns ==> Sendable(t.packet)
    requires Concat(chunks) == EncodeHandshake(imei) + TurnsBytes(turns)
    ensures var d := ReceiveAll(w, FRESH, chunks);
            && d.ready && !d.destroyed && d.imei == Some(imei) && d.buffer == []
            && d.recordsReceived == d.recordsPublished == |AllRecords(turns)|
            && Records(d.log) == AllRecords(turns)
            && Heard(Replies(d.log)) == [0x01] + Heard(CountAcks(turns))
            && CountsRead(Heard(CountAcks(turns))) == Counts(turns)
  {
    ReceiveAllAtOnce(w, FRESH, chunks);
    var greeted := Greeted(w, imei, TurnsBytes(turns));
    RunTurns(w, greeted, turns);
    SettledOpen(ReceiveAll(w, FRESH, chunks), Run(w, greeted));
    ServedFromNothing(greeted, Run(w, greeted), turns);
    CountsReadBack(turns);
  }

  lemma SettledOpen(c: Conn, d: Conn)
    requires Settled(c) == Settled(d) && !d.destroyed
    ensures c == d
  {
  }

  lemma ServedFromNothing(c: Conn, d: Conn, turns: seq<Turn>)
    requires Served(c, d, turns) && c.recordsReceived == c.recordsPublished == 0 && Replies(c.log) == [ImeiAck(true)] && Records(c.log) == []
    ensures d.recordsReceived == d.recordsPublished == |AllRecords(turns)|
    ensures Heard(Replies(d.log)) == [0x01] + Heard(CountAcks(turns)) && Records(d.log) == AllRecords(turns)
  {
    var replies := Replies(d.log);
    assert replies == [ImeiAck(true)] + CountAcks(turns) && replies[1..] == CountAcks(turns);
    assert [] + AllRecords(turns) == AllRecords(turns);
  }

  lemma Greeted(w: World, imei: Imei, rest: seq<byte>) returns (c: Conn)
    requires Cooperative(w) && ValidImei(imei)
    ensures c.ready && !c.destroyed && c.imei == Some(imei) && c.buffer == rest
    ensures c.recordsReceived == c.recordsPublished == 0 && Replies(c.log) == [ImeiAck(true)] && Records(c.log) == []
    ensures Receive(w, FRESH, EncodeHandshake(imei) + rest) == Run(w, c)
  {
    var s := EncodeHandshake(imei);
    var start := More(FRESH, s + rest);
    assert start.buffer == s + rest && s + [] == s;
    HelloIsCut(imei, rest);
    HandshakeRoundTrip(imei, []);
    StepGreets(w, start, s);
    c := Greet(w, start, Done(imei, 2 + |imei|), |s|);
    RunTo(w, start, c);
    GreetedFresh(w, start, imei, s, rest);
  }

  lemma GreetedFresh(w: World, start: Conn, imei: Imei, s: seq<byte>, rest: seq<byte>)
    requires Cooperative(w) && start == More(FRESH, s + rest)
    ensures var c := Greet(w, start, Done(imei, 2 + |imei|), |s|);
            && c.ready && !c.destroyed && c.imei == Some(imei) && c.buffer == rest
            && c.recordsReceived == c.recordsPublished == 0 && Replies(c.log) == [ImeiAck(true)] && Records(c.log) == []
  {
    assert Drop(s + rest, |s|) == rest && start.buffer == s + rest;
    assert [] + [ImeiAck(true)] == [ImeiAck(true)] && [ImeiAck(true)][..0] == [];
  }
}
