/**
 * What a connection does, seen from the device. The effects a connection logs while it serves a packet are steps
 * of `Delivery`, each possible where it stands: what `Delivery` asks of an acknowledgement, that every record of
 * the batch was published, is what the gateway's code does.
 */
module Uplink {
  import opened Options
  import opened Bytes
  import opened Avl
  import opened Connection
  import opened Session
  import opened Persist
  import D = Delivery

  /** A publication that succeeded puts its record at the same place of the batch into the topic. */
  function PublishSteps(imei: Imei, publishes: seq<Effect>): seq<D.Event> {
    if publishes == [] then []
    else
      var n := |publishes| - 1;
      PublishSteps(imei, publishes[..n]) + (if Succeeded(publishes[n]) then [D.PublishOne(imei, n)] else [])
  }

  predicate Succeeded(e: Effect) {
    e.Publish? && e.ok
  }

  /** The steps of a packet: its publications, and the acknowledgement or the end of the connection. */
  function StepsOf(imei: Imei, publishes: seq<Effect>): seq<D.Event> {
    PublishSteps(imei, publishes) + [if AllOk(publishes) then D.Acknowledge(imei) else D.Disconnect(imei)]
  }

  /** The messages that a log says were published. */
  function MessagesIn(log: seq<Effect>): set<Message> {
    set e | e in log && Succeeded(e) :: Message(e.imei, e.vehicle, e.record)
  }

  lemma MessagesInConcat(a: seq<Effect>, b: seq<Effect>)
    ensures MessagesIn(a + b) == MessagesIn(a) + MessagesIn(b)
  {
    assert forall e :: e in a + b <==> e in a || e in b;
  }

  // ----- Runs of the delivery, one after the other -----

  lemma RunSnoc(s: D.System, a: seq<D.Event>, e: D.Event)
    requires D.Possible(s, a) && D.Enabled(D.Run(s, a), e)
    ensures D.Possible(s, a + [e]) && D.Run(s, a + [e]) == D.Step(D.Run(s, a), e)
  {
    D.Last(D.Run(s, a), e);
    D.RunConcat(s, a, [e]);
  }

  // ----- One packet -----

  /** Nothing of the device changed but its link, and the messages published are those before and `more`. */
  ghost predicate Moved(s: D.System, t: D.System, imei: Imei, link: D.Link, more: set<Message>) {
    D.Get(t, imei) == D.Get(s, imei).(link := link) && t.published == s.published + more
  }

  /** The places of the records that were published. */
  function Places(publishes: seq<Effect>): set<nat> {
    set i: nat | i < |publishes| && Succeeded(publishes[i])
  }

  /** The publications of a batch, in its order. */
  ghost predicate PublicationsOf(publishes: seq<Effect>, imei: Imei, v: Option<string>, batch: seq<AvlRecord>) {
    && |publishes| <= |batch|
    && forall i :: 0 <= i < |publishes| ==> publishes[i] == Publish(imei, v, batch[i], publishes[i].Publish? && publishes[i].ok)
  }

  lemma {:induction false} PublishesAreOfTheBatch(w: World, log: seq<Effect>, imei: Imei, v: Option<string>, batch: seq<AvlRecord>)
    ensures PublicationsOf(Publishes(w, log, imei, v, batch), imei, v, batch)
    decreases |batch|
  {
    if batch != [] {
      PublishesAreOfTheBatch(w, log, imei, v, batch[..|batch| - 1]);
    }
  }

  lemma {:induction false} PublishStepsRun(s: D.System, imei: Imei, v: Option<string>, batch: seq<AvlRecord>, publishes: seq<Effect>)
    requires D.Get(s, imei).link == D.Busy(v, batch, {}) && PublicationsOf(publishes, imei, v, batch)
    ensures D.Possible(s, PublishSteps(imei, publishes))
    ensures Moved(s, D.Run(s, PublishSteps(imei, publishes)), imei, D.Busy(v, batch, Places(publishes)), MessagesIn(publishes))
    decreases |publishes|
  {
    if publishes != [] {
      var n := |publishes| - 1;
      var init, last := publishes[..n], publishes[n];
      PublishStepsRun(s, imei, v, batch, init);
      var steps := PublishSteps(imei, init);
      LastPublication(s, D.Run(s, steps), imei, v, batch, init, last);
      assert publishes == init + [last];
      if Succeeded(last) {
        RunSnoc(s, steps, D.PublishOne(imei, n));
      } else {
        assert steps + [] == steps;
      }
    }
  }

  lemma LastPublication(s: D.System, u: D.System, imei: Imei, v: Option<string>, batch: seq<AvlRecord>, init: seq<Effect>, last: Effect)
    requires Moved(s, u, imei, D.Busy(v, batch, Places(init)), MessagesIn(init))
    requires |init| < |batch| && (Succeeded(last) ==> last == Publish(imei, v, batch[|init|], true))
    ensures var all := init + [last];
            if Succeeded(last) then
              && D.Enabled(u, D.PublishOne(imei, |init|))
              && Moved(s, D.Step(u, D.PublishOne(imei, |init|)), imei, D.Busy(v, batch, Places(all)), MessagesIn(all))
            else Moved(s, u, imei, D.Busy(v, batch, Places(all)), MessagesIn(all))
  {
    MessagesInConcat(init, [last]);
    if Succeeded(last) {
      assert MessagesIn([last]) == {Message(imei, v, batch[|init|])};
      assert Places(init + [last]) == Places(init) + {|init|};
    } else {
      assert MessagesIn(init + [last]) == MessagesIn(init);
      assert Places(init + [last]) == Places(init);
    }
  }

  /**
   * The packet a device waits for: the steps of its effects are possible, and the acknowledgement is one of them
   * exactly if the connection stays open.
   */
  lemma PacketIsDelivered(w: World, c: Conn, p: AvlPacket, s: D.System, imei: Imei)
    requires c.imei == Some(imei) && !c.destroyed && D.Get(s, imei).link == D.Busy(c.vehicleId, p.records, {})
    ensures var publishes := Publications(w, c, p).1;
            var d := Forward(w, c, p);
            && D.Possible(s, StepsOf(imei, publishes))
            && Moved(s, D.Run(s, StepsOf(imei, publishes)), imei,
                     if d.destroyed then D.Offline else D.Acked(c.vehicleId, |p.records|), MessagesIn(publishes))
            && MessagesIn(d.log) == MessagesIn(c.log) + MessagesIn(publishes)
            && d.recordsPublished == c.recordsPublished + (if d.destroyed then 0 else |p.records|)
  {
    var (crash, publishes) := Publications(w, c, p);
    PublishesAreOfTheBatch(w, c.log + crash, imei, c.vehicleId, p.records);
    PublishStepsRun(s, imei, c.vehicleId, p.records, publishes);
    var t := D.Run(s, PublishSteps(imei, publishes));
    RunSnoc(s, PublishSteps(imei, publishes), if AllOk(publishes) then D.Acknowledge(imei) else D.Disconnect(imei));
    ForwardLogs(w, c, p);
  }

  lemma ForwardLogs(w: World, c: Conn, p: AvlPacket)
    ensures MessagesIn(Forward(w, c, p).log) == MessagesIn(c.log) + MessagesIn(Publications(w, c, p).1)
  {
    var (crash, publishes) := Publications(w, c, p);
    var end := if AllOk(publishes) then [AvlAck(|p.records|)] else [AvlAck(0)] + [Destroy];
    assert Forward(w, c, p).log == c.log + (crash + publishes) + end;
    MessagesInConcat(c.log + (crash + publishes), end);
    MessagesInConcat(c.log, crash + publishes);
    MessagesInConcat(crash, publishes);
    assert MessagesIn(crash) == {} && MessagesIn(end) == {};
  }

  // ----- A whole session -----

  /**
   * The device is where the connection says: it let go of the first records, as many as the connection counts
   * as published, and what was published is in the log of the connection.
   */
  ghost predicate InStep(c: Conn, d: Conn, s: D.System, t: D.System, imei: Imei, records: seq<AvlRecord>) {
    && InPlace(D.Get(s, imei), D.Get(t, imei), records, d.recordsPublished - c.recordsPublished, d.destroyed, c.vehicleId)
    && SameMessages(c, d, s, t)
  }

  ghost predicate InPlace(a: D.Device, b: D.Device, records: seq<AvlRecord>, n: int, destroyed: bool, vehicle: Option<string>) {
    LetGo(a, b, records, n) && b.link == (if destroyed then D.Offline else D.Online(vehicle)) && (!destroyed ==> n == |records|)
  }

  /** The device had `records` first, and let go of `n` of them. */
  ghost predicate LetGo(a: D.Device, b: D.Device, records: seq<AvlRecord>, n: int) {
    0 <= n <= |records| && records <= a.buffer && b.dropped == a.dropped + records[..n] && b.buffer == a.buffer[n..]
  }

  ghost predicate SameMessages(c: Conn, d: Conn, s: D.System, t: D.System) {
    exists more :: MessagesIn(d.log) == MessagesIn(c.log) + more && t.published == s.published + more
  }

  /** A device sends the records of a packet, waits, and lets go of them when the acknowledgement arrives. */
  lemma TurnIsDelivered(w: World, c: Conn, p: AvlPacket, s: D.System, imei: Imei) returns (events: seq<D.Event>)
    requires c.imei == Some(imei) && !c.destroyed && |p.records| <= 255
    requires D.Get(s, imei).link == D.Online(c.vehicleId) && p.records <= D.Get(s, imei).buffer
    ensures D.Possible(s, events) && InStep(c, Forward(w, c, p), s, D.Run(s, events), imei, p.records)
  {
    var n, publishes, d := |p.records|, Publications(w, c, p).1, Forward(w, c, p);
    var sent := D.Step(s, D.Send(imei, n));
    assert D.Get(s, imei).buffer[..n] == p.records;
    PacketIsDelivered(w, c, p, sent, imei);
    D.Last(s, D.Send(imei, n));
    D.RunConcat(s, [D.Send(imei, n)], StepsOf(imei, publishes));
    events := [D.Send(imei, n)] + StepsOf(imei, publishes);
    var t := D.Run(s, events);
    if d.destroyed {
      assert D.Get(s, imei).dropped + p.records[..0] == D.Get(s, imei).dropped;
    } else {
      RunSnoc(s, events, D.AckArrives(imei));
      events := events + [D.AckArrives(imei)];
    }
  }

  lemma SameMessagesThen(c: Conn, c': Conn, d: Conn, s: D.System, s': D.System, t: D.System)
    requires SameMessages(c, c', s, s') && SameMessages(c', d, s', t)
    ensures SameMessages(c, d, s, t)
  {
    var more :| MessagesIn(c'.log) == MessagesIn(c.log) + more && s'.published == s.published + more;
    var more' :| MessagesIn(d.log) == MessagesIn(c'.log) + more' && t.published == s'.published + more';
    assert MessagesIn(d.log) == MessagesIn(c.log) + (more + more') && t.published == s.published + (more + more');
  }

  lemma LetGoThen(a: D.Device, b: D.Device, e: D.Device, first: seq<AvlRecord>, rest: seq<AvlRecord>, n: int)
    requires LetGo(a, b, first, |first|) && LetGo(b, e, rest, n)
    ensures LetGo(a, e, first + rest, |first| + n)
  {
    assert (first + rest)[..|first| + n] == first + rest[..n];
    assert a.buffer == first + b.buffer;
  }

  lemma LetGoOf(a: D.Device, b: D.Device, first: seq<AvlRecord>, rest: seq<AvlRecord>, n: int)
    requires LetGo(a, b, first, n) && first + rest <= a.buffer
    ensures LetGo(a, b, first + rest, n)
  {
    assert (first + rest)[..n] == first[..n];
  }

  lemma InStepThen(c: Conn, c': Conn, d: Conn, s: D.System, s': D.System, t: D.System, imei: Imei, first: seq<AvlRecord>, rest: seq<AvlRecord>)
    requires InStep(c, c', s, s', imei, first) && InStep(c', d, s', t, imei, rest)
    requires !c'.destroyed && c'.vehicleId == c.vehicleId
    ensures InStep(c, d, s, t, imei, first + rest)
  {
    var n := d.recordsPublished - c'.recordsPublished;
    assert c'.recordsPublished - c.recordsPublished == |first| && d.recordsPublished - c.recordsPublished == |first| + n;
    SameMessagesThen(c, c', d, s, s', t);
    LetGoThen(D.Get(s, imei), D.Get(s', imei), D.Get(t, imei), first, rest, n);
  }

  lemma Remaining(buffer: seq<AvlRecord>, first: seq<AvlRecord>, rest: seq<AvlRecord>)
    requires first + rest <= buffer
    ensures first <= buffer && rest <= buffer[|first|..]
  {
    assert buffer[..|first|] == (first + rest)[..|first|];
    assert buffer[|first|..][..|rest|] == buffer[|first|..|first| + |rest|] == (first + rest)[|first|..];
  }

  lemma NothingDelivered(c: Conn, s: D.System, imei: Imei)
    requires !c.destroyed && D.Get(s, imei).link == D.Online(c.vehicleId)
    ensures D.Possible(s, []) && InStep(c, c, s, D.Run(s, []), imei, [])
  {
    assert MessagesIn(c.log) == MessagesIn(c.log) + {} && s.published == s.published + {};
    assert D.Get(s, imei).dropped + [] == D.Get(s, imei).dropped;
  }

  /** The connection when a packet is taken from it. */
  function Before(c: Conn, p: AvlPacket, rest: seq<byte>): Conn {
    c.(buffer := rest, recordsReceived := c.recordsReceived + |p.records|)
  }

  lemma SameLogs(c: Conn, c1: Conn, d: Conn, s: D.System, t: D.System)
    requires SameMessages(c1, d, s, t) && MessagesIn(c1.log) == MessagesIn(c.log)
    ensures SameMessages(c, d, s, t)
  {
    var more :| MessagesIn(d.log) == MessagesIn(c1.log) + more && t.published == s.published + more;
    assert MessagesIn(d.log) == MessagesIn(c.log) + more;
  }

  lemma SameStart(c: Conn, c1: Conn, d: Conn, s: D.System, t: D.System, imei: Imei, records: seq<AvlRecord>)
    requires InStep(c1, d, s, t, imei, records)
    requires c1.log == c.log && c1.recordsPublished == c.recordsPublished && c1.vehicleId == c.vehicleId
    ensures InStep(c, d, s, t, imei, records)
  {
    SameLogs(c, c1, d, s, t);
  }

  lemma AfterPacketKeeps(w: World, c: Conn, p: AvlPacket, rest: seq<byte>)
    ensures var d := AfterPacket(w, c, p, rest);
            d == Forward(w, Before(c, p, rest), p) && d.ready == c.ready && d.imei == c.imei && d.vehicleId == c.vehicleId && d.buffer == rest
  {
  }

  /** The first packet of a session, and what is left of the device's buffer for the others. */
  lemma FirstTurn(w: World, c: Conn, p: AvlPacket, bytes: seq<byte>, rest: seq<AvlRecord>, s: D.System, imei: Imei) returns (events: seq<D.Event>)
    requires c.imei == Some(imei) && !c.destroyed && |p.records| <= 255
    requires D.Get(s, imei).link == D.Online(c.vehicleId) && p.records + rest <= D.Get(s, imei).buffer
    ensures D.Possible(s, events)
    ensures var (d, t) := (AfterPacket(w, c, p, bytes), D.Run(s, events));
            && InStep(c, d, s, t, imei, p.records)
            && (d.destroyed ==> InStep(c, d, s, t, imei, p.records + rest))
            && (!d.destroyed ==> D.Get(t, imei).link == D.Online(d.vehicleId) && rest <= D.Get(t, imei).buffer)
  {
    Remaining(D.Get(s, imei).buffer, p.records, rest);
    AfterPacketKeeps(w, c, p, bytes);
    events := TurnIsDelivered(w, Before(c, p, bytes), p, s, imei);
    var (d, t) := (AfterPacket(w, c, p, bytes), D.Run(s, events));
    SameStart(c, Before(c, p, bytes), d, s, t, imei, p.records);
    if d.destroyed {
      LetGoOf(D.Get(s, imei), D.Get(t, imei), p.records, rest, d.recordsPublished - c.recordsPublished);
    }
  }

  /**
   * A device that sends packets and waits for each acknowledgement, on any stream of packets and pings and whatever
   * fails: the session is a run of `Delivery` in which the device lets go of exactly the records the connection
   * acknowledged.
   */
  lemma {:induction false} SessionIsDelivered(w: World, c: Conn, turns: seq<Turn>, s: D.System, imei: Imei) returns (events: seq<D.Event>)
    requires ReadsTheCodec(w) && forall t :: t in turns ==> Sendable(t.packet)
    requires c.ready && !c.destroyed && c.imei == Some(imei) && c.buffer == TurnsBytes(turns)
    requires D.Get(s, imei).link == D.Online(c.vehicleId) && AllRecords(turns) <= D.Get(s, imei).buffer
    ensures D.Possible(s, events) && InStep(c, Run(w, c), s, D.Run(s, events), imei, AllRecords(turns))
    decreases |turns|
  {
    if turns == [] {
      events := [];
      RunNothing(w, c);
      NothingDelivered(c, s, imei);
    } else {
      var p, bytes, rest := turns[0].packet, TurnsBytes(turns[1..]), AllRecords(turns[1..]);
      assert turns[0] in turns && AllRecords(turns) == p.records + rest;
      RunTurn(w, c, turns[0], bytes);
      AfterPacketKeeps(w, c, p, bytes);
      events := FirstTurn(w, c, p, bytes, rest, s, imei);
      var c' := AfterPacket(w, c, p, bytes);
      if c'.destroyed {
        assert Run(w, c') == c';
      } else {
        events := RestOfSession(w, c, c', p, turns, s, imei, events);
      }
    }
  }

  lemma {:induction false} RestOfSession(w: World, c: Conn, c': Conn, p: AvlPacket, turns: seq<Turn>, s: D.System, imei: Imei, first: seq<D.Event>)
    returns (events: seq<D.Event>)
    requires ReadsTheCodec(w) && turns != [] && forall t :: t in turns ==> Sendable(t.packet)
    requires c'.ready && !c'.destroyed && c'.imei == Some(imei) && c'.buffer == TurnsBytes(turns[1..]) && c'.vehicleId == c.vehicleId
    requires D.Possible(s, first) && InStep(c, c', s, D.Run(s, first), imei, p.records)
    requires var s' := D.Run(s, first);
             D.Get(s', imei).link == D.Online(c'.vehicleId) && AllRecords(turns[1..]) <= D.Get(s', imei).buffer
    ensures D.Possible(s, events) && InStep(c, Run(w, c'), s, D.Run(s, events), imei, p.records + AllRecords(turns[1..]))
    decreases |turns|, 0
  {
    var s' := D.Run(s, first);
    var more := SessionIsDelivered(w, c', turns[1..], s', imei);
    D.RunConcat(s, first, more);
    InStepThen(c, c', Run(w, c'), s, s', D.Run(s', more), imei, p.records, AllRecords(turns[1..]));
    events := first + more;
  }
}
