/** The connection handler as it runs: mutable state, and a loop that eats the buffer. */
module ConnectionHandler {
  import opened Options
  import opened Bytes
  import opened Crc16Ibm
  import opened Avl
  import opened AvlParse
  import opened AvlReader
  import opened Handshake
  import opened Framing
  import opened Connection

  /** The buffer without the pings it starts with. */
  method SkipNetworkPings(buffer: seq<byte>) returns (rest: seq<byte>)
    ensures rest == Skip(buffer)
  {
    var offset := 0;
    while offset < |buffer| && buffer[offset] == PING
      invariant offset <= |buffer|
      invariant Skip(buffer[offset..]) == Skip(buffer)
    {
      assert buffer[offset..][1..] == buffer[offset + 1..];
      offset := offset + 1;
    }
    rest := buffer[offset..];
  }

  function Skip(buffer: seq<byte>): seq<byte> {
    if buffer != [] && buffer[0] == PING then Skip(buffer[1..]) else buffer
  }

  lemma {:induction false} RunSkip(w: World, c: Conn)
    requires c.ready && !c.destroyed
    ensures Run(w, c) == Run(w, c.(buffer := Skip(c.buffer)))
    ensures |Skip(c.buffer)| <= |c.buffer| && (Skip(c.buffer) == [] || Skip(c.buffer)[0] != PING)
    decreases |c.buffer|
  {
    if c.buffer != [] && c.buffer[0] == PING {
      var d := c.(buffer := c.buffer[1..]);
      RunTo(w, c, d);
      RunSkip(w, d);
      assert d.(buffer := Skip(d.buffer)) == c.(buffer := Skip(c.buffer));
    }
  }

  /** What the loop finds once the pings are skipped. */
  lemma HeadOfPackets(buf: seq<byte>)
    requires buf == [] || buf[0] != PING
    ensures |buf| < 8 ==> Next(true, buf).Wait?
    ensures |buf| >= 8 && BE(buf[..4]) != 0 ==> Next(true, buf).Reject?
    ensures |buf| >= 8 && BE(buf[..4]) == 0 ==>
              var total := 8 + BE(buf[4..8]) + 4;
              Next(true, buf) == if |buf| < total then Wait else Take(Packet(buf[..total]))
  {
  }

  class Handler {
    const world: World
    const table: array<bv16>
    var imei: Option<Imei>
    var vehicleId: Option<string>
    var pendingDeviceId: Option<string>
    var buffer: seq<byte>
    var recordsReceived: nat
    var recordsPublished: nat
    var receivedFirstHandshake: bool
    var destroyed: bool
    var log: seq<Effect>

    ghost function Contents(): Conn
      reads this
    {
      Conn(receivedFirstHandshake, imei, vehicleId, pendingDeviceId, buffer, recordsReceived, recordsPublished, destroyed, log)
    }

    constructor (world: World, table: array<bv16>)
      ensures Contents() == FRESH && this.world == world && this.table == table
    {
      this.world, this.table := world, table;
      imei, vehicleId, pendingDeviceId := None, None, None;
      buffer, recordsReceived, recordsPublished := [], 0, 0;
      receivedFirstHandshake, destroyed, log := false, false, [];
    }

    method OnData(chunk: seq<byte>)
      requires IsTable(table) && ReadsTheCodec(world) && !destroyed
      modifies this
      ensures Contents() == Receive(world, old(Contents()), chunk)
    {
      buffer := if |buffer| == 0 then chunk else buffer + chunk;
      assert Contents() == More(old(Contents()), chunk);
      ProcessBuffer();
    }

    method ProcessBuffer()
      requires IsTable(table) && ReadsTheCodec(world) && !destroyed
      modifies this
      ensures Contents() == Run(world, old(Contents()))
    {
      if !receivedFirstHandshake {
        if |buffer| < 2 {
          return;
        }
        var declaredLen := BE(buffer[..2]);
        if |buffer| < 2 + declaredLen {
          return;
        }
        Shake(buffer[..2 + declaredLen]);
        RunTo(world, old(Contents()), Contents());
        if destroyed {
          return;
        }
      }
      var more := true;
      while more
        invariant more ==> receivedFirstHandshake && !destroyed
        invariant !more ==> Idle(Contents())
        invariant Run(world, Contents()) == Run(world, old(Contents()))
        decreases more, |buffer|
      {
        more := TakePacket();
      }
    }

    /** The body of the packet loop; `more` when it did not return. */
    method TakePacket() returns (more: bool)
      requires IsTable(table) && ReadsTheCodec(world) && receivedFirstHandshake && !destroyed
      modifies this
      ensures Run(world, Contents()) == Run(world, old(Contents()))
      ensures if more then receivedFirstHandshake && !destroyed && |buffer| < |old(buffer)| else Idle(Contents())
    {
      RunSkip(world, Contents());
      buffer := SkipNetworkPings(buffer);
      HeadOfPackets(buffer);
      if |buffer| < 8 {
        return false;
      }
      var preamble := BE(buffer[..4]);
      if preamble != 0 {
        RefusePreamble();
        return false;
      }
      var dataLen := BE(buffer[4..8]);
      var totalLen := 8 + dataLen + 4;
      if |buffer| < totalLen {
        return false;
      }
      CarvePacket(totalLen);
      more := !destroyed;
    }

    /** Bytes that no packet starts with. */
    method RefusePreamble()
      requires receivedFirstHandshake && !destroyed && Next(true, buffer).Reject?
      modifies this
      ensures destroyed && Run(world, Contents()) == Run(world, old(Contents()))
    {
      DestroySocket([]);
      RunTo(world, old(Contents()), Contents());
    }

    /** The packet the buffer starts with. */
    method CarvePacket(totalLen: nat)
      requires IsTable(table) && ReadsTheCodec(world) && receivedFirstHandshake && !destroyed
      requires 0 < totalLen <= |buffer| && Next(true, buffer) == Take(Packet(buffer[..totalLen]))
      modifies this
      ensures Run(world, Contents()) == Run(world, old(Contents()))
      ensures receivedFirstHandshake && |buffer| < |old(buffer)|
    {
      ghost var c, bytes := Contents(), buffer[..totalLen];
      HandlePacket(buffer[..totalLen]);
      StepTakes(world, c, bytes);
      RunTo(world, c, Contents());
      DeliverProgress(world, c, world.packet(bytes), totalLen);
    }

    /** Phase one, once the declared length has arrived. */
    method Shake(bytes: seq<byte>)
      requires ReadsTheCodec(world) && |bytes| <= |buffer|
      modifies this
      ensures Contents() == Greet(world, old(Contents()), world.hello(bytes), |bytes|)
      ensures destroyed || receivedFirstHandshake || old(destroyed)
    {
      var r := ParseImeiHandshake(bytes);
      if r.Err? {
        DestroySocket([ImeiAck(false)]);
        return;
      }
      imei := Some(r.value);
      buffer := buffer[|bytes|..];
      var resolution := world.resolve(log, r.value);
      if resolution.ResolveFailed? {
        DestroySocket([ImeiAck(false)]);
        return;
      }
      vehicleId, pendingDeviceId := resolution.vehicleId, resolution.pendingDeviceId;
      receivedFirstHandshake := true;
      log := log + [ImeiAck(true)];
    }

    /** `socket.write` of each effect, then `socket.destroy`. */
    method DestroySocket(effects: seq<Effect>)
      modifies this
      ensures Contents() == Close(old(Contents()), effects)
    {
      log := log + effects + [Destroy];
      destroyed := true;
    }

    /** One packet: parse, publish, acknowledge. */
    method HandlePacket(bytes: seq<byte>)
      requires IsTable(table) && ReadsTheCodec(world) && |bytes| <= |buffer|
      modifies this
      ensures Contents() == Deliver(world, old(Contents()), world.packet(bytes), |bytes|)
    {
      var r := ParseAvlPacket(table, bytes);
      RecordCount(world, bytes);
      HandleParsed(r, world.packet(bytes), |bytes|);
    }

    method HandleParsed(r: Result<AvlPacket>, ghost parsed: Parsed<AvlPacket>, length: nat)
      requires r == match parsed case Done(packet, _) => Ok(packet) case Fail(error) => Err(error)
      requires (parsed.Done? ==> parsed.value.recordCount == |parsed.value.records|) && length <= |buffer|
      modifies this
      ensures Contents() == Deliver(world, old(Contents()), parsed, length)
    {
      buffer := buffer[length..];
      if r.Err? {
        DestroySocket([AvlAck(0)]);
        return;
      }
      recordsReceived := recordsReceived + r.value.recordCount;
      ForwardPacket(r.value);
    }

    method ForwardPacket(packet: AvlPacket)
      requires packet.recordCount == |packet.records|
      modifies this
      ensures Contents() == Forward(world, old(Contents()), packet)
    {
      ghost var start := Contents();
      var id := if imei.Some? then imei.value else [];
      PublishCrashTrace(id, packet);
      var ok := PublishRecords(id, packet.records);
      ghost var (crash, publishes) := Publications(world, start, packet);
      assert start.log + crash + publishes == start.log + (crash + publishes);
      AcknowledgePacket(packet.recordCount, ok);
    }

    /** The whole packet to the crash topic; whether it gets there changes nothing. */
    method PublishCrashTrace(id: Imei, packet: AvlPacket)
      requires id == if imei.Some? then imei.value else []
      modifies this
      ensures Contents() == old(Contents()).(log := old(log) + Publications(world, old(Contents()), packet).0)
    {
      if world.crashTopic && IsCrashTracePacket(packet) {
        log := log + [CrashTrace(id, vehicleId, packet)];
      } else {
        assert log + [] == log;
      }
    }

    method AcknowledgePacket(recordCount: nat, ok: bool)
      modifies this
      ensures Contents() == Acknowledge(old(Contents()), recordCount, ok)
    {
      if ok {
        recordsPublished := recordsPublished + recordCount;
        log := log + [AvlAck(recordCount)];
      } else {
        DestroySocket([AvlAck(0)]);
      }
    }

    /** `Promise.all` over the records: all are offered, and it fails if one of them does. */
    method PublishRecords(id: Imei, records: seq<AvlRecord>) returns (ok: bool)
      modifies this
      ensures var ps := Publishes(world, old(log), id, vehicleId, records);
              Contents() == old(Contents()).(log := old(log) + ps) && ok == AllOk(ps)
    {
      var before := log;
      ok := true;
      for i := 0 to |records|
        invariant log == before + Publishes(world, before, id, vehicleId, records[..i])
        invariant ok == AllOk(Publishes(world, before, id, vehicleId, records[..i]))
        invariant Contents() == old(Contents()).(log := log)
      {
        PublishesSnoc(world, before, id, vehicleId, records, i);
        var published := world.publish(log, records[i]);
        log := log + [Publish(id, vehicleId, records[i], published)];
        ok := ok && published;
      }
      assert records[..|records|] == records;
    }
  }

  lemma PublishesSnoc(w: World, log: seq<Effect>, imei: Imei, vehicle: Option<string>, records: seq<AvlRecord>, i: nat)
    requires i < |records|
    ensures var before := Publishes(w, log, imei, vehicle, records[..i]);
            var last := Publish(imei, vehicle, records[i], w.publish(log + before, records[i]));
            var ps := Publishes(w, log, imei, vehicle, records[..i + 1]);
            ps == before + [last] && AllOk(ps) == (AllOk(before) && last.ok)
  {
    assert records[..i + 1][..i] == records[..i];
    var before := Publishes(w, log, imei, vehicle, records[..i]);
    var last := Publish(imei, vehicle, records[i], w.publish(log + before, records[i]));
    var ps := before + [last];
    assert Publishes(w, log, imei, vehicle, records[..i + 1]) == ps;
    assert AllOk(ps) ==> AllOk(before) && last.ok by {
      if AllOk(ps) {
        assert ps[i] == last;
        forall k | 0 <= k < i ensures before[k].Publish? && before[k].ok {
          assert ps[k] == before[k];
        }
      }
    }
  }

  lemma DeliverProgress(w: World, c: Conn, parsed: Parsed<AvlPacket>, length: nat)
    requires 0 < length <= |c.buffer|
    ensures var d := Deliver(w, c, parsed, length);
            |d.buffer| < |c.buffer| && d.ready == c.ready
  {
  }

  /** The record count that a packet declares is the number of its records. */
  lemma RecordCount(w: World, bytes: seq<byte>)
    requires ReadsTheCodec(w)
    ensures var parsed := w.packet(bytes);
            parsed.Done? ==> parsed.value.recordCount == |parsed.value.records|
  {
  }
}
