/**
 * Whose records they are when runs overlap. The IMEI of a connection is set before its look-up and the vehicle after
 * it, and both are read again whenever something is handed to a topic.
 */
module Labels {
  import opened Options
  import opened Bytes
  import opened Avl
  import opened AvlParse
  import opened Handshake
  import opened Framing
  import opened Connection
  import opened Interleaving

  /** The stream starts with the handshake of `imei`. */
  ghost predicate StartsWith(k: Config, carved: seq<Token>, imei: Imei) {
    carved != [] && carved[0].Hello? && k.hello(carved[0].bytes).Done? && k.hello(carved[0].bytes).value == imei
  }

  /** Everything is handed over under the IMEI and the vehicle of one look-up. */
  ghost predicate AllUnder(offered: seq<Offer>, l: Lookup) {
    forall o :: o in offered ==> o.imei == l.imei && o.vehicle == l.vehicle
  }

  /** Before the connection is ready: at most the look-up of the stream's handshake is in flight. */
  ghost predicate LookingUp(k: Config, s: State) {
    && s.lookups == [] && s.offered == [] && |s.runs| <= 1
    && (s.runs != [] ==> s.runs[0].Resolving? && s.imei == Some(s.runs[0].imei) && StartsWith(k, s.carved, s.runs[0].imei))
    && (s.runs == [] && s.carved != [] ==> s.destroyed)
  }

  /** From then on: there was one look-up, for the IMEI of the stream, and all is labelled with it. */
  ghost predicate LookedUp(k: Config, s: State) {
    && |s.lookups| == 1
    && var l := s.lookups[0];
       && StartsWith(k, s.carved, l.imei) && s.imei == Some(l.imei) && s.vehicle == l.vehicle && AllUnder(s.offered, l)
       && forall r :: r in s.runs ==> !r.Resolving? && (r.CrashPublishing? ==> r.imei == l.imei)
  }

  ghost predicate Labelled(k: Config, s: State) {
    if s.ready then LookedUp(k, s) else LookingUp(k, s)
  }

  lemma CarveLabelled(k: Config, s: State, t: Token)
    requires LookedUp(k, s)
    ensures LookedUp(k, Carve(s, t))
  {
    assert (s.carved + [t])[0] == s.carved[0];
  }

  lemma BeginLabelled(k: Config, s: State, parsed: Parsed<AvlPacket>)
    requires LookedUp(k, s)
    ensures LookedUp(k, Begin(k, s, parsed))
  {
  }

  lemma {:induction false} LoopLabelled(k: Config, s: State)
    requires LookedUp(k, s)
    ensures LookedUp(k, Loop(k, s))
    decreases |s.buffer|
  {
    NextSound(true, s.buffer);
    match Next(true, s.buffer)
    case Take(Packet(bytes)) =>
      CarveLabelled(k, s, Packet(bytes));
      BeginLabelled(k, Carve(s, Packet(bytes)), k.packet(bytes));
    case Take(Ping) =>
      CarveLabelled(k, s, Ping);
      LoopLabelled(k, Carve(s, Ping));
    case _ =>
  }

  lemma LoopStaysReady(k: Config, s: State)
    ensures Loop(k, s).ready == s.ready
  {
    LoopKeeps(k, s);
  }

  lemma GreetLabelled(k: Config, s: State, bytes: seq<byte>)
    requires !s.ready && LookingUp(k, s) && s.runs == [] && s.carved == []
    ensures Labelled(k, Interleaving.Greet(s, bytes, k.hello(bytes)))
  {
  }

  lemma StepLabelled(k: Config, s: State, e: Event)
    requires Labelled(k, s) && Enabled(s, e) && !Misread(s, e)
    ensures Labelled(k, Interleaving.Step(k, s, e))
  {
    match e
    case Data(chunk) =>
      var c := s.(buffer := s.buffer + chunk, received := s.received + chunk);
      if c.ready {
        LoopLabelled(k, c);
        LoopStaysReady(k, c);
      } else {
        match Next(false, c.buffer)
        case Take(Hello(bytes)) => GreetLabelled(k, c, bytes);
        case _ =>
      }
    case ResolveDone(i, resolution) => ResolveDoneLabelled(k, s, i, resolution);
    case CrashDone(i, _) => CrashDoneLabelled(k, s, i);
    case PublishDone(i, ok) => PublishDoneLabelled(k, s, i, ok);
    case Closed =>
  }

  lemma ResolveDoneLabelled(k: Config, s: State, i: nat, resolution: Resolution)
    requires Labelled(k, s) && i < |s.runs| && s.runs[i].Resolving?
    ensures Labelled(k, Interleaving.Step(k, s, ResolveDone(i, resolution)))
  {
    assert s.runs[i] in s.runs;
    assert Without(s.runs, i) == [];
    if resolution.Resolved? {
      LoopLabelled(k, Found(s, i, resolution.vehicleId));
      LoopStaysReady(k, Found(s, i, resolution.vehicleId));
    }
  }

  lemma CrashDoneLabelled(k: Config, s: State, i: nat)
    requires Labelled(k, s) && i < |s.runs| && s.runs[i].CrashPublishing?
    ensures Labelled(k, Interleaving.Step(k, s, CrashDone(i, true)))
  {
    assert s.runs[i] in s.runs;
  }

  lemma PublishDoneLabelled(k: Config, s: State, i: nat, ok: bool)
    requires Labelled(k, s) && i < |s.runs| && s.runs[i].Publishing?
    ensures Labelled(k, Interleaving.Step(k, s, PublishDone(i, ok)))
  {
    var rs := s.runs[i].packet.records;
    assert s.runs[i] in s.runs;
    assert forall r :: r in Without(s.runs, i) ==> r in s.runs;
    PublishDoneStep(k, s, i, ok);
    if ok {
      LoopLabelled(k, Published(s, i, rs));
      LoopStaysReady(k, Published(s, i, rs));
    }
  }

  lemma {:induction false} RunLabelled(k: Config, s: State, events: seq<Event>)
    requires Labelled(k, s) && Possible(k, s, events) && NeverMisread(k, s, events)
    ensures Labelled(k, Interleaving.Run(k, s, events))
    decreases |events|
  {
    if events != [] {
      StepLabelled(k, s, events[0]);
      RunLabelled(k, Interleaving.Step(k, s, events[0]), events[1..]);
    }
  }

  /**
   * If no chunk was misread during the look-up, then in every reachable state all that was handed to the topics is
   * under the IMEI the stream starts with and the vehicle that its look-up, the only one, found.
   */
  lemma RecordsKeepTheirDevice(k: Config, events: seq<Event>, o: Offer)
    requires Possible(k, START, events) && NeverMisread(k, START, events) && o in Interleaving.Run(k, START, events).offered
    ensures var s := Interleaving.Run(k, START, events);
            StartsWith(k, s.carved, o.imei) && s.lookups == [Lookup(o.imei, o.vehicle)]
  {
    RunLabelled(k, START, events);
  }

  // ----- Two look-ups that cross -----

  /** A device says one IMEI and, before the answer, another; the second look-up ends first. */
  function Crossed(a: Imei, b: Imei, first: Resolution, second: Resolution, x: seq<byte>): seq<Event> {
    [Data(EncodeHandshake(a))] + ([Data(EncodeHandshake(b))]
    + ([ResolveDone(1, second)] + ([ResolveDone(0, first)] + [Data(x)])))
  }

  lemma FoundIdle(k: Config, s: State, i: nat, vehicleId: Option<string>, pending: Option<string>)
    requires i < |s.runs| && s.runs[i].Resolving? && s.buffer == []
    ensures Interleaving.Step(k, s, ResolveDone(i, Resolved(vehicleId, pending))) == Found(s, i, vehicleId)
  {
  }

  /**
   * The records that follow are handed over under the second IMEI and the vehicle of the first: a pair that a look-up
   * found if and only if the two IMEIs or the two vehicles are the same.
   */
  lemma CrossedLookUpsMislabel(k: Config, a: Imei, b: Imei, first: Resolution, second: Resolution, x: seq<byte>, p: AvlPacket, n: nat)
    requires ReadsHandshakes(k) && ValidImei(a) && ValidImei(b) && first.Resolved? && second.Resolved? && !k.crashTopic
    requires Next(true, x) == Take(Packet(x)) && k.packet(x) == Done(p, n)
    ensures var events := Crossed(a, b, first, second, x);
            && Possible(k, START, events)
            && var s := Interleaving.Run(k, START, events);
               && !s.destroyed && s.offered == [Records(b, first.vehicleId, p.records)]
               && s.lookups == [Lookup(b, second.vehicleId), Lookup(a, first.vehicleId)]
               && (Lookup(b, first.vehicleId) in s.lookups <==> a == b || first.vehicleId == second.vehicleId)
  {
    var s1 := Interleaving.Step(k, START, Data(EncodeHandshake(a)));
    HandshakeStep(k, START, a);
    var s2 := Interleaving.Step(k, s1, Data(EncodeHandshake(b)));
    HandshakeStep(k, s1, b);
    assert s2.runs == [Resolving(a), Resolving(b)];
    var s3 := Interleaving.Step(k, s2, ResolveDone(1, second));
    FoundIdle(k, s2, 1, second.vehicleId, second.pendingDeviceId);
    assert s3.runs == [Resolving(a)];
    var s4 := Interleaving.Step(k, s3, ResolveDone(0, first));
    FoundIdle(k, s3, 0, first.vehicleId, first.pendingDeviceId);
    assert s4.runs == [] && s4.imei == Some(b);
    PacketArrives(k, s4, x, p, n);
    OneStep(k, s4, Data(x));
    Prepend(k, s3, ResolveDone(0, first), [Data(x)]);
    Prepend(k, s2, ResolveDone(1, second), [ResolveDone(0, first)] + [Data(x)]);
    Prepend(k, s1, Data(EncodeHandshake(b)), [ResolveDone(1, second)] + ([ResolveDone(0, first)] + [Data(x)]));
    Prepend(k, START, Data(EncodeHandshake(a)),
            [Data(EncodeHandshake(b))] + ([ResolveDone(1, second)] + ([ResolveDone(0, first)] + [Data(x)])));
  }
}
