/**
 * The way of a record from the device to the table: devices that keep records until they are acknowledged,
 * connections that break, acknowledgements that get lost, a topic that delivers at least once, and a consumer
 * that may fail before or after it writes. Every step below may happen at any time it is enabled.
 */
module Delivery {
  import opened Options
  import opened Avl
  import opened Connection
  import opened Persist

  /**
   * A device's connection: waiting, with a batch being published, or acknowledged by the gateway. A device has one
   * packet in flight at a time: `Uplink` derives these steps from the gateway's code, and `StopAndWait` shows what
   * an acknowledgement means without that.
   */
  datatype Link =
    | Offline
    | Online(vehicleId: Option<string>)
    | Busy(vehicleId: Option<string>, batch: seq<AvlRecord>, published: set<nat>)
    | Acked(vehicleId: Option<string>, count: nat)

  /** `sampled` and `dropped` are the history of the device: all its records, and those it has let go. */
  datatype Device = Device(buffer: seq<AvlRecord>, link: Link, sampled: seq<AvlRecord>, dropped: seq<AvlRecord>)

  /** A message the consumer dealt with, and the registrations at that moment. */
  datatype Handling = Handling(message: Message, vehicles: map<Imei, string>)

  /** `sent`, `published` and `handled` are history. */
  datatype System = System(
    devices: map<Imei, Device>, vehicles: map<Imei, string>, topic: multiset<Message>, dlq: multiset<Message>,
    rows: seq<Row>, sent: set<Message>, published: set<Message>, handled: seq<Handling>)

  datatype Event =
    | Sample(imei: Imei, record: AvlRecord)
    | Connect(imei: Imei)
    | Send(imei: Imei, count: nat)
    | PublishOne(imei: Imei, index: nat)
    | LatePublish(message: Message)
    | Acknowledge(imei: Imei)
    | AckArrives(imei: Imei)
    | Disconnect(imei: Imei)
    | Deliver(message: Message, dbOk: bool, ackOk: bool)
    | DeadLetter(message: Message)
    | Register(imei: Imei, vehicleId: string)
    | Unregister(imei: Imei)

  const NOTHING := System(map[], map[], multiset{}, multiset{}, [], {}, {}, [])
  const NEW_DEVICE := Device([], Offline, [], [])

  function Get(s: System, imei: Imei): Device {
    if imei in s.devices then s.devices[imei] else NEW_DEVICE
  }

  function Put(s: System, imei: Imei, d: Device): System {
    s.(devices := s.devices[imei := d])
  }

  predicate Enabled(s: System, e: Event) {
    match e
    case Connect(imei) => Get(s, imei).link.Offline?
    case Send(imei, n) => Get(s, imei).link.Online? && n <= |Get(s, imei).buffer| && n <= 255
    case PublishOne(imei, i) => Get(s, imei).link.Busy? && i < |Get(s, imei).link.batch|
    case LatePublish(m) => m in s.sent
    case Acknowledge(imei) =>
      var link := Get(s, imei).link;
      link.Busy? && forall i: nat :: i < |link.batch| ==> i in link.published
    case AckArrives(imei) => Get(s, imei).link.Acked?
    case Deliver(m, _, _) => m in s.topic
    case DeadLetter(m) => m in s.topic
    case _ => true
  }

  function Lookup(vehicles: map<Imei, string>, imei: Imei): Option<string> {
    if imei in vehicles then Some(vehicles[imei]) else None
  }

  function Messages(imei: Imei, vehicleId: Option<string>, batch: seq<AvlRecord>): set<Message> {
    set i | 0 <= i < |batch| :: Message(imei, vehicleId, batch[i])
  }

  function Publish(s: System, m: Message): System {
    s.(topic := s.topic + multiset{m}, published := s.published + {m})
  }

  /** The consumer throws on an instant no Date holds; the message is not acknowledged. */
  predicate Throws(m: Message, vehicles: map<Imei, string>) {
    VehicleOf(m, vehicles).Some? && m.record.timestampMs > MAX_DATE_MS
  }

  function Step(s: System, e: Event): System
    requires Enabled(s, e)
  {
    match e
    case Sample(imei, r) =>
      var d := Get(s, imei);
      Put(s, imei, d.(buffer := d.buffer + [r], sampled := d.sampled + [r]))
    case Connect(imei) => Put(s, imei, Get(s, imei).(link := Online(Lookup(s.vehicles, imei))))
    case Send(imei, n) =>
      var d := Get(s, imei);
      var batch := d.buffer[..n];
      Put(s, imei, d.(link := Busy(d.link.vehicleId, batch, {}))).(sent := s.sent + Messages(imei, d.link.vehicleId, batch))
    case PublishOne(imei, i) =>
      var d := Get(s, imei);
      var link := d.link;
      Publish(Put(s, imei, d.(link := link.(published := link.published + {i}))), Message(imei, link.vehicleId, link.batch[i]))
    case LatePublish(m) => Publish(s, m)
    case Acknowledge(imei) =>
      var d := Get(s, imei);
      Put(s, imei, d.(link := Acked(d.link.vehicleId, |d.link.batch|)))
    case AckArrives(imei) =>
      var d := Get(s, imei);
      var n := if d.link.count <= |d.buffer| then d.link.count else |d.buffer|;
      Put(s, imei, d.(buffer := d.buffer[n..], dropped := d.dropped + d.buffer[..n], link := Online(d.link.vehicleId)))
    case Disconnect(imei) => Put(s, imei, Get(s, imei).(link := Offline))
    case Deliver(m, dbOk, ackOk) =>
      if !dbOk then s
      else
        var c := s.(rows := After(s.rows, s.vehicles, m), handled := s.handled + [Handling(m, s.vehicles)]);
        if ackOk && !Throws(m, s.vehicles) then c.(topic := s.topic - multiset{m}) else c
    case DeadLetter(m) => s.(topic := s.topic - multiset{m}, dlq := s.dlq + multiset{m})
    case Register(imei, vehicleId) => s.(vehicles := s.vehicles[imei := vehicleId])
    case Unregister(imei) => s.(vehicles := s.vehicles - {imei})
  }

  ghost predicate Possible(s: System, events: seq<Event>)
    decreases |events|
  {
    events == [] || (Enabled(s, events[0]) && Possible(Step(s, events[0]), events[1..]))
  }

  function Run(s: System, events: seq<Event>): System
    requires Possible(s, events)
    decreases |events|
  {
    if events == [] then s else Run(Step(s, events[0]), events[1..])
  }

  // ----- Devices -----

  ghost predicate WasPublished(s: System, imei: Imei, r: AvlRecord) {
    exists v :: Message(imei, v, r) in s.published
  }

  ghost predicate LinkOk(s: System, imei: Imei, d: Device) {
    match d.link
    case Busy(v, batch, published) =>
      && batch <= d.buffer
      && forall i :: 0 <= i < |batch| ==> Message(imei, v, batch[i]) in s.sent && (i in published ==> WasPublished(s, imei, batch[i]))
    case Acked(_, n) => n <= |d.buffer| && forall i :: 0 <= i < n ==> WasPublished(s, imei, d.buffer[i])
    case _ => true
  }

  /** A device has let go of the first of its records only, each of them published. */
  ghost predicate DeviceOk(s: System, imei: Imei, d: Device) {
    && d.sampled == d.dropped + d.buffer
    && (forall r :: r in d.dropped ==> WasPublished(s, imei, r))
    && LinkOk(s, imei, d)
  }

  ghost predicate DevicesOk(s: System) {
    forall imei :: imei in s.devices ==> DeviceOk(s, imei, s.devices[imei])
  }

  lemma MorePublished(s: System, t: System, imei: Imei, d: Device)
    requires DeviceOk(s, imei, d) && s.sent <= t.sent && s.published <= t.published
    ensures DeviceOk(t, imei, d)
  {
    forall r | WasPublished(s, imei, r)
      ensures WasPublished(t, imei, r)
    {
      var v :| Message(imei, v, r) in s.published;
      assert Message(imei, v, r) in t.published;
    }
  }

  /** One device changed, and more may have been sent or published. */
  lemma PutOk(s: System, t: System, imei: Imei, d: Device)
    requires DevicesOk(s) && s.sent <= t.sent && s.published <= t.published
    requires t.devices == s.devices[imei := d] && DeviceOk(t, imei, d)
    ensures DevicesOk(t)
  {
    forall other | other in t.devices
      ensures DeviceOk(t, other, t.devices[other])
    {
      if other != imei {
        MorePublished(s, t, other, s.devices[other]);
      }
    }
  }

  lemma SameDevices(s: System, t: System)
    requires DevicesOk(s) && s.sent <= t.sent && s.published <= t.published && t.devices == s.devices
    ensures DevicesOk(t)
  {
    forall imei | imei in t.devices
      ensures DeviceOk(t, imei, t.devices[imei])
    {
      MorePublished(s, t, imei, s.devices[imei]);
    }
  }

  lemma GetOk(s: System, imei: Imei)
    requires DevicesOk(s)
    ensures DeviceOk(s, imei, Get(s, imei))
  {
  }

  lemma StepDevices(s: System, e: Event)
    requires DevicesOk(s) && Enabled(s, e)
    ensures DevicesOk(Step(s, e))
  {
    var t := Step(s, e);
    match e
    case Sample(imei, r) =>
      GetOk(s, imei);
      SampleOk(s, imei, Get(s, imei), r);
      PutOk(s, t, imei, Get(t, imei));
    case Send(imei, n) =>
      GetOk(s, imei);
      SendOk(s, imei, n);
      PutOk(s, t, imei, Get(t, imei));
    case PublishOne(imei, i) =>
      GetOk(s, imei);
      PublishOneOk(s, imei, i);
      PutOk(s, t, imei, Get(t, imei));
    case Connect(_) => StepLink(s, e);
    case Acknowledge(_) => StepLink(s, e);
    case AckArrives(_) => StepLink(s, e);
    case Disconnect(_) => StepLink(s, e);
    case _ => SameDevices(s, t);
  }

  lemma StepLink(s: System, e: Event)
    requires DevicesOk(s) && Enabled(s, e) && (e.Connect? || e.Acknowledge? || e.AckArrives? || e.Disconnect?)
    ensures DevicesOk(Step(s, e))
  {
    var t := Step(s, e);
    match e
    case Connect(imei) =>
      GetOk(s, imei);
      PutOk(s, t, imei, Get(t, imei));
    case Acknowledge(imei) =>
      GetOk(s, imei);
      AcknowledgeOk(s, imei, Get(s, imei));
      PutOk(s, t, imei, Get(t, imei));
    case AckArrives(imei) =>
      GetOk(s, imei);
      AckOk(s, imei, Get(s, imei));
      PutOk(s, t, imei, Get(t, imei));
    case Disconnect(imei) =>
      GetOk(s, imei);
      PutOk(s, t, imei, Get(t, imei));
  }

  lemma SendOk(s: System, imei: Imei, n: nat)
    requires DeviceOk(s, imei, Get(s, imei)) && Enabled(s, Send(imei, n))
    ensures DeviceOk(Step(s, Send(imei, n)), imei, Get(Step(s, Send(imei, n)), imei))
  {
    var d, t := Get(s, imei), Step(s, Send(imei, n));
    MorePublished(s, t, imei, d);
    assert forall i :: 0 <= i < n ==> Message(imei, d.link.vehicleId, d.buffer[..n][i]) in t.sent;
  }

  lemma PublishOneOk(s: System, imei: Imei, i: nat)
    requires DeviceOk(s, imei, Get(s, imei)) && Enabled(s, PublishOne(imei, i))
    ensures DeviceOk(Step(s, PublishOne(imei, i)), imei, Get(Step(s, PublishOne(imei, i)), imei))
  {
    var d, t := Get(s, imei), Step(s, PublishOne(imei, i));
    MorePublished(s, t, imei, d);
    assert WasPublished(t, imei, d.link.batch[i]);
  }

  lemma SampleOk(s: System, imei: Imei, d: Device, r: AvlRecord)
    requires DeviceOk(s, imei, d)
    ensures DeviceOk(s, imei, d.(buffer := d.buffer + [r], sampled := d.sampled + [r]))
  {
    assert d.dropped + d.buffer + [r] == d.dropped + (d.buffer + [r]);
  }

  lemma AcknowledgeOk(s: System, imei: Imei, d: Device)
    requires DeviceOk(s, imei, d) && d.link.Busy? && forall i: nat :: i < |d.link.batch| ==> i in d.link.published
    ensures DeviceOk(s, imei, d.(link := Acked(d.link.vehicleId, |d.link.batch|)))
  {
    forall i | 0 <= i < |d.link.batch|
      ensures WasPublished(s, imei, d.buffer[i])
    {
      assert d.buffer[i] == d.link.batch[i];
    }
  }

  lemma AckOk(s: System, imei: Imei, d: Device)
    requires DeviceOk(s, imei, d) && d.link.Acked?
    ensures var n := d.link.count;
            n <= |d.buffer| && DeviceOk(s, imei, d.(buffer := d.buffer[n..], dropped := d.dropped + d.buffer[..n], link := Online(d.link.vehicleId)))
  {
    var n := d.link.count;
    assert d.dropped + d.buffer == d.dropped + d.buffer[..n] + d.buffer[n..];
  }

  // ----- The table -----

  /** The table that the messages handled make, one after the other, from an empty one. */
  function Replay(handled: seq<Handling>): seq<Row> {
    if handled == [] then []
    else After(Replay(handled[..|handled| - 1]), handled[|handled| - 1].vehicles, handled[|handled| - 1].message)
  }

  /** A handling that has a row as its result: the vehicle was known and the instant a Date. */
  predicate Stores(h: Handling) {
    VehicleOf(h.message, h.vehicles).Some? && h.message.record.timestampMs <= MAX_DATE_MS
  }

  ghost predicate HandledKey(handled: seq<Handling>, key: Key) {
    exists i :: 0 <= i < |handled| && Stores(handled[i]) && KeyOf(handled[i].message) == key
  }

  lemma HandledKeySnoc(handled: seq<Handling>, h: Handling, key: Key)
    ensures HandledKey(handled + [h], key) <==> HandledKey(handled, key) || (Stores(h) && KeyOf(h.message) == key)
  {
    var all := handled + [h];
    if HandledKey(handled, key) {
      var i :| 0 <= i < |handled| && Stores(handled[i]) && KeyOf(handled[i].message) == key;
      assert all[i] == handled[i];
    }
    if Stores(h) && KeyOf(h.message) == key {
      assert all[|handled|] == h;
    }
    if HandledKey(all, key) {
      var i :| 0 <= i < |all| && Stores(all[i]) && KeyOf(all[i].message) == key;
      assert i < |handled| ==> all[i] == handled[i];
    }
  }

  /**
   * However often and in whatever order messages are handled, the table holds exactly one row for each key that
   * was handled with a known vehicle, and the row is the one of the first such handling.
   */
  lemma {:induction false} TableOfHandled(handled: seq<Handling>)
    ensures var rows := Replay(handled);
            && UniqueKeys(rows)
            && (forall key :: HasKey(rows, key) <==> HandledKey(handled, key))
            && forall j :: 0 <= j < |rows| ==> FirstHandled(handled, rows[j])
    decreases |handled|
  {
    if handled != [] {
      var before, h := handled[..|handled| - 1], handled[|handled| - 1];
      var rows := Replay(before);
      TableOfHandled(before);
      AfterKeepsRows(rows, h.vehicles, h.message);
      assert handled == before + [h];
      forall key
        ensures HasKey(Replay(handled), key) <==> HandledKey(handled, key)
      {
        HandledKeySnoc(before, h, key);
        AfterHasKey(rows, h, key);
      }
      forall j | 0 <= j < |Replay(handled)|
        ensures FirstHandled(handled, Replay(handled)[j])
      {
        if j < |rows| {
          FirstHandledStays(before, h, rows[j]);
        } else {
          NewRowIsFirst(before, h);
        }
      }
    }
  }

  lemma AfterHasKey(rows: seq<Row>, h: Handling, key: Key)
    ensures HasKey(After(rows, h.vehicles, h.message), key) <==> HasKey(rows, key) || (Stores(h) && KeyOf(h.message) == key)
  {
    var after := After(rows, h.vehicles, h.message);
    if HasKey(rows, key) {
      var i :| 0 <= i < |rows| && rows[i].key == key;
      assert after[i] == rows[i];
    }
    if after != rows {
      assert after[|rows|].key == KeyOf(h.message);
    }
  }

  /** `row` is what the first handling of its key stored. */
  ghost predicate FirstHandled(handled: seq<Handling>, row: Row) {
    exists i ::
      && 0 <= i < |handled| && Stores(handled[i])
      && row == RowOf(handled[i].message, VehicleOf(handled[i].message, handled[i].vehicles).value)
      && forall k :: 0 <= k < i ==> !(Stores(handled[k]) && KeyOf(handled[k].message) == row.key)
  }

  lemma FirstHandledStays(handled: seq<Handling>, h: Handling, row: Row)
    requires FirstHandled(handled, row)
    ensures FirstHandled(handled + [h], row)
  {
    var i :|
      && 0 <= i < |handled| && Stores(handled[i])
      && row == RowOf(handled[i].message, VehicleOf(handled[i].message, handled[i].vehicles).value)
      && forall k :: 0 <= k < i ==> !(Stores(handled[k]) && KeyOf(handled[k].message) == row.key);
    var all := handled + [h];
    assert forall k :: 0 <= k <= i ==> all[k] == handled[k];
  }

  lemma NewRowIsFirst(handled: seq<Handling>, h: Handling)
    requires Stores(h) && !HandledKey(handled, KeyOf(h.message))
    ensures FirstHandled(handled + [h], RowOf(h.message, VehicleOf(h.message, h.vehicles).value))
  {
    var all := handled + [h];
    assert all[|handled|] == h;
    forall k | 0 <= k < |handled|
      ensures !(Stores(all[k]) && KeyOf(all[k].message) == KeyOf(h.message))
    {
      assert all[k] == handled[k];
    }
  }

  // ----- Nothing published is lost -----

  /** A message was handled and acknowledged without a row for it: nobody knew its vehicle. */
  predicate Discards(h: Handling) {
    VehicleOf(h.message, h.vehicles).None?
  }

  ghost predicate HandledOk(handled: seq<Handling>, m: Message) {
    exists i :: 0 <= i < |handled| && handled[i].message == m && (Stores(handled[i]) || Discards(handled[i]))
  }

  ghost predicate TopicOk(s: System) {
    forall m :: m in s.published ==> m in s.topic || m in s.dlq || HandledOk(s.handled, m)
  }

  ghost predicate Inv(s: System) {
    DevicesOk(s) && s.rows == Replay(s.handled) && TopicOk(s)
  }

  lemma HandledOkSnoc(handled: seq<Handling>, h: Handling, m: Message)
    requires HandledOk(handled, m)
    ensures HandledOk(handled + [h], m)
  {
    var i :| 0 <= i < |handled| && handled[i].message == m && (Stores(handled[i]) || Discards(handled[i]));
    assert (handled + [h])[i] == handled[i];
  }

  lemma DeliverTopic(s: System, m: Message, ackOk: bool)
    requires TopicOk(s) && m in s.topic
    ensures TopicOk(Step(s, Deliver(m, true, ackOk)))
  {
    var t, h := Step(s, Deliver(m, true, ackOk)), Handling(m, s.vehicles);
    forall p | p in t.published
      ensures p in t.topic || p in t.dlq || HandledOk(t.handled, p)
    {
      if HandledOk(s.handled, p) {
        HandledOkSnoc(s.handled, h, p);
      } else if p == m && ackOk && !Throws(m, s.vehicles) {
        assert t.handled[|s.handled|] == h;
      }
    }
  }

  lemma StepInv(s: System, e: Event)
    requires Inv(s) && Enabled(s, e)
    ensures Inv(Step(s, e))
  {
    StepDevices(s, e);
    StepTopic(s, e);
    if e.Deliver? && e.dbOk {
      assert (s.handled + [Handling(e.message, s.vehicles)])[..|s.handled|] == s.handled;
    }
  }

  lemma StepTopic(s: System, e: Event)
    requires TopicOk(s) && Enabled(s, e)
    ensures TopicOk(Step(s, e))
  {
    match e
    case Deliver(m, dbOk, ackOk) =>
      if dbOk {
        DeliverTopic(s, m, ackOk);
      }
    case _ =>
  }

  lemma {:induction false} RunInv(s: System, events: seq<Event>)
    requires Inv(s) && Possible(s, events)
    ensures Inv(Run(s, events))
    decreases |events|
  {
    if events != [] {
      StepInv(s, events[0]);
      RunInv(Step(s, events[0]), events[1..]);
    }
  }

  // ----- The main results -----

  /** In every run: a record leaves a device only after it was published, and in the order it was sampled. */
  lemma DroppedWasPublished(events: seq<Event>, imei: Imei)
    requires Possible(NOTHING, events)
    ensures var s := Run(NOTHING, events);
            var d := Get(s, imei);
            d.sampled == d.dropped + d.buffer && forall r :: r in d.dropped ==> WasPublished(s, imei, r)
  {
    RunInv(NOTHING, events);
    GetOk(Run(NOTHING, events), imei);
  }

  /** In every run: one row for each key, exactly for the keys ever handled with a vehicle, never a later copy. */
  lemma StoredExactlyOnce(events: seq<Event>)
    requires Possible(NOTHING, events)
    ensures var s := Run(NOTHING, events);
            && UniqueKeys(s.rows)
            && (forall key :: HasKey(s.rows, key) <==> HandledKey(s.handled, key))
            && forall j :: 0 <= j < |s.rows| ==> FirstHandled(s.handled, s.rows[j])
  {
    RunInv(NOTHING, events);
    TableOfHandled(Run(NOTHING, events).handled);
  }

  /** In every run: every row holds, column by column, a message that was handled, and the first one of its key. */
  lemma RowsHoldTheirMessages(events: seq<Event>, j: nat) returns (i: nat)
    requires Possible(NOTHING, events) && j < |Run(NOTHING, events).rows|
    ensures var s := Run(NOTHING, events);
            && i < |s.handled| && Columns(s.rows[j], s.handled[i].message, s.handled[i].vehicles)
            && s.handled[i].message.record.timestampMs <= 8_640_000_000_000_000
            && forall k :: 0 <= k < i && VehicleKnown(s.handled[k].message, s.handled[k].vehicles) ==>
                 s.handled[k].message.imei != s.rows[j].key.imei
                 || s.handled[k].message.record.timestampMs != s.rows[j].key.timestampMs
  {
    StoredExactlyOnce(events);
    var s := Run(NOTHING, events);
    assert FirstHandled(s.handled, s.rows[j]);
    i :|
      && 0 <= i < |s.handled| && Stores(s.handled[i])
      && s.rows[j] == RowOf(s.handled[i].message, VehicleOf(s.handled[i].message, s.handled[i].vehicles).value)
      && forall k :: 0 <= k < i ==> !(Stores(s.handled[k]) && KeyOf(s.handled[k].message) == s.rows[j].key);
    RowColumns(s.handled[i].message, s.handled[i].vehicles);
  }

  /** Where the record of a device can be. */
  ghost predicate Somewhere(s: System, imei: Imei, r: AvlRecord) {
    || r in Get(s, imei).buffer
    || (exists v :: Message(imei, v, r) in s.topic)
    || (exists v :: Message(imei, v, r) in s.dlq)
    || HasKey(s.rows, Key(imei, r.timestampMs))
    || (exists i :: 0 <= i < |s.handled| && s.handled[i].message.record == r && s.handled[i].message.imei == imei && Discards(s.handled[i]))
  }

  /**
   * In every run: each record a device sampled is still on the device, in the topic, among the dead letters, or
   * stored under its key, unless a message with it was handled while its device had no vehicle.
   */
  lemma NothingIsLost(events: seq<Event>, imei: Imei, r: AvlRecord)
    requires Possible(NOTHING, events) && r in Get(Run(NOTHING, events), imei).sampled
    ensures Somewhere(Run(NOTHING, events), imei, r)
  {
    var s := Run(NOTHING, events);
    RunInv(NOTHING, events);
    GetOk(s, imei);
    if r !in Get(s, imei).buffer {
      var v :| Message(imei, v, r) in s.published;
      var m := Message(imei, v, r);
      if m !in s.topic && m !in s.dlq {
        var i :| 0 <= i < |s.handled| && s.handled[i].message == m && (Stores(s.handled[i]) || Discards(s.handled[i]));
        if Stores(s.handled[i]) {
          TableOfHandled(s.handled);
          assert HandledKey(s.handled, KeyOf(m));
        }
      }
    }
  }

  // ----- Instants that no Date holds -----

  /** No row is ever made of a record whose instant no Date holds. */
  lemma LateInstantsNeverStored(events: seq<Event>, imei: Imei, timestampMs: int)
    requires Possible(NOTHING, events) && timestampMs > MAX_DATE_MS
    ensures !HasKey(Run(NOTHING, events).rows, Key(imei, timestampMs))
  {
    StoredExactlyOnce(events);
  }

  /**
   * In every run: once such a record is published, its message is in the topic or among the dead letters, unless it
   * carried no vehicle and was discarded while nobody knew one.
   */
  lemma WhereLateInstantsAre(events: seq<Event>, m: Message)
    requires Possible(NOTHING, events) && m in Run(NOTHING, events).published && m.record.timestampMs > MAX_DATE_MS
    ensures var s := Run(NOTHING, events);
            || m in s.topic || m in s.dlq
            || ((m.vehicleId.None? || m.vehicleId.value == "") &&
                exists i :: 0 <= i < |s.handled| && s.handled[i].message == m && Discards(s.handled[i]))
  {
    RunInv(NOTHING, events);
  }

  /** A device of a registered vehicle sends its one record. */
  function OneSent(imei: Imei, vehicleId: string, r: AvlRecord): seq<Event> {
    [Register(imei, vehicleId)] + ([Sample(imei, r)] + ([Connect(imei)] + [Send(imei, 1)]))
  }

  /** It is published and acknowledged, and the device hears it. */
  function OneServed(imei: Imei): seq<Event> {
    [PublishOne(imei, 0)] + ([Acknowledge(imei)] + [AckArrives(imei)])
  }

  /**
   * A late record is acknowledged like any other: the device has let go of it, and its message is in the topic,
   * from where it can only go to the dead letters.
   */
  lemma LateInstantIsAcknowledged(imei: Imei, vehicleId: string, r: AvlRecord)
    requires r.timestampMs > MAX_DATE_MS && vehicleId != ""
    ensures var events := OneSent(imei, vehicleId, r) + OneServed(imei);
            && Possible(NOTHING, events)
            && var s := Run(NOTHING, events);
               && Get(s, imei).dropped == [r] && Get(s, imei).buffer == []
               && Message(imei, Some(vehicleId), r) in s.topic && Message(imei, Some(vehicleId), r) in s.published
               && !HasKey(s.rows, Key(imei, r.timestampMs))
  {
    var events := OneSent(imei, vehicleId, r) + OneServed(imei);
    OneIsSent(imei, vehicleId, r);
    OneIsServed(Run(NOTHING, OneSent(imei, vehicleId, r)), imei, Some(vehicleId), r);
    RunConcat(NOTHING, OneSent(imei, vehicleId, r), OneServed(imei));
    LateInstantsNeverStored(events, imei, r.timestampMs);
  }

  /** Any other record of a registered vehicle is acknowledged too, and stored by the first delivery, which ends its way. */
  lemma OneIsStored(imei: Imei, vehicleId: string, r: AvlRecord)
    requires r.timestampMs <= 8_640_000_000_000_000 && vehicleId != ""
    ensures var m := Message(imei, Some(vehicleId), r);
            var events := (OneSent(imei, vehicleId, r) + OneServed(imei)) + [Deliver(m, true, true)];
            && Possible(NOTHING, events)
            && var s := Run(NOTHING, events);
               && Get(s, imei).dropped == [r] && Get(s, imei).buffer == [] && s.topic == multiset{}
               && |s.rows| == 1 && Columns(s.rows[0], m, map[imei := vehicleId])
  {
    var m, before := Message(imei, Some(vehicleId), r), OneSent(imei, vehicleId, r) + OneServed(imei);
    OneIsSent(imei, vehicleId, r);
    OneIsServed(Run(NOTHING, OneSent(imei, vehicleId, r)), imei, Some(vehicleId), r);
    RunConcat(NOTHING, OneSent(imei, vehicleId, r), OneServed(imei));
    var s := Run(NOTHING, before);
    Last(s, Deliver(m, true, true));
    RunConcat(NOTHING, before, [Deliver(m, true, true)]);
    HandlingStores(s.rows, s.vehicles, m);
    DeliverInWords(s, m, true, true);
  }

  /**
   * A delivery leaves the topic if and only if the database did its part, the acknowledgement arrived, and the consumer
   * did not throw on an instant that no Date holds; what it handled is on record if the database did its part.
   */
  lemma DeliverInWords(s: System, m: Message, dbOk: bool, ackOk: bool)
    requires m in s.topic
    ensures var t := Step(s, Deliver(m, dbOk, ackOk));
            var throws := VehicleKnown(m, s.vehicles) && m.record.timestampMs > 8_640_000_000_000_000;
            && t.topic == (if dbOk && ackOk && !throws then s.topic - multiset{m} else s.topic)
            && t.handled == (if dbOk then s.handled + [Handling(m, s.vehicles)] else s.handled)
            && t.rows == (if dbOk then After(s.rows, s.vehicles, m) else s.rows)
            && t.dlq == s.dlq && t.devices == s.devices
  {
  }

  /** What else can happen outside: a message published again or given up, and vehicles registered and removed. */
  lemma OutsideInWords(s: System, m: Message, imei: Imei, vehicleId: string)
    ensures m in s.sent ==> Step(s, LatePublish(m)) == s.(topic := s.topic + multiset{m}, published := s.published + {m})
    ensures m in s.topic ==> Step(s, DeadLetter(m)) == s.(topic := s.topic - multiset{m}, dlq := s.dlq + multiset{m})
    ensures Step(s, Register(imei, vehicleId)) == s.(vehicles := s.vehicles[imei := vehicleId])
    ensures Step(s, Unregister(imei)) == s.(vehicles := s.vehicles - {imei})
  {
  }

  lemma OneIsSent(imei: Imei, vehicleId: string, r: AvlRecord)
    ensures Possible(NOTHING, OneSent(imei, vehicleId, r))
    ensures var s := Run(NOTHING, OneSent(imei, vehicleId, r));
            && Get(s, imei) == Device([r], Busy(Some(vehicleId), [r], {}), [r], [])
            && s.topic == multiset{} && s.rows == [] && s.handled == [] && s.vehicles == map[imei := vehicleId]
  {
    var s1 := Step(NOTHING, Register(imei, vehicleId));
    var s2 := Step(s1, Sample(imei, r));
    assert Get(s2, imei) == Device([r], Offline, [r], []);
    var s3 := Step(s2, Connect(imei));
    assert Get(s3, imei) == Device([r], Online(Some(vehicleId)), [r], []);
    assert [r][..1] == [r];
    Last(s3, Send(imei, 1));
    Prepend(s2, Connect(imei), [Send(imei, 1)]);
    Prepend(s1, Sample(imei, r), [Connect(imei)] + [Send(imei, 1)]);
    Prepend(NOTHING, Register(imei, vehicleId), [Sample(imei, r)] + ([Connect(imei)] + [Send(imei, 1)]));
  }

  lemma OneIsServed(s: System, imei: Imei, v: Option<string>, r: AvlRecord)
    requires Get(s, imei) == Device([r], Busy(v, [r], {}), [r], [])
    ensures Possible(s, OneServed(imei))
    ensures var t := Run(s, OneServed(imei));
            && Get(t, imei) == Device([], Online(v), [r], [r])
            && t.topic == s.topic + multiset{Message(imei, v, r)} && Message(imei, v, r) in t.published
            && t.rows == s.rows && t.handled == s.handled && t.vehicles == s.vehicles
  {
    var s1 := Step(s, PublishOne(imei, 0));
    assert Get(s1, imei).link == Busy(v, [r], {} + {0});
    var s2 := Step(s1, Acknowledge(imei));
    assert Get(s2, imei) == Device([r], Acked(v, 1), [r], []);
    assert [r][1..] == [] && [] + [r][..1] == [r];
    Last(s2, AckArrives(imei));
    Prepend(s1, Acknowledge(imei), [AckArrives(imei)]);
    Prepend(s, PublishOne(imei, 0), [Acknowledge(imei)] + [AckArrives(imei)]);
  }

  lemma {:induction false} RunConcat(s: System, a: seq<Event>, b: seq<Event>)
    requires Possible(s, a) && Possible(Run(s, a), b)
    ensures Possible(s, a + b) && Run(s, a + b) == Run(Run(s, a), b)
    decreases |a|
  {
    if a == [] {
      assert a + b == b;
    } else {
      assert (a + b)[1..] == a[1..] + b;
      RunConcat(Step(s, a[0]), a[1..], b);
    }
  }

  lemma Prepend(s: System, e: Event, rest: seq<Event>)
    requires Enabled(s, e) && Possible(Step(s, e), rest)
    ensures Possible(s, [e] + rest) && Run(s, [e] + rest) == Run(Step(s, e), rest)
  {
    assert ([e] + rest)[1..] == rest;
  }

  lemma Last(s: System, e: Event)
    requires Enabled(s, e)
    ensures Possible(s, [e]) && Run(s, [e]) == Step(s, e)
  {
    assert [e][1..] == [];
  }
}
