/**
 * What a connection does, message by message. Each message taken from the stream has its answer, said here on the
 * effects and the records alone, and the log is these answers one after the other.
 */
module Answers {
  import opened Options
  import opened Bytes
  import opened Avl
  import opened AvlParse
  import opened Framing
  import opened Connection

  /** Under which names a connection publishes. */
  datatype Label = Label(imei: Option<Imei>, vehicleId: Option<string>, pendingDeviceId: Option<string>)

  function LabelOf(c: Conn): Label {
    Label(c.imei, c.vehicleId, c.pendingDeviceId)
  }

  // ----- The answers -----

  /** A panic record of the crash event. */
  predicate HasCrash(p: AvlPacket) {
    exists i :: 0 <= i < |p.records| && p.records[i].priority == 2 && p.records[i].io.eventIoId == 247
  }

  /** How many effects come before the publications: the crash topic, if there is one, gets the packet first. */
  function Before(w: World, p: AvlPacket): nat {
    if w.crashTopic && HasCrash(p) then 1 else 0
  }

  /** From `at` on, `answer` offers each record to the topic, in order, and reports how that went. */
  ghost predicate Offers(w: World, l: Label, log: seq<Effect>, records: seq<AvlRecord>, answer: seq<Effect>, at: nat) {
    && at + |records| <= |answer| && l.imei.Some?
    && forall i :: 0 <= i < |records| ==>
         answer[at + i] == Publish(l.imei.value, l.vehicleId, records[i], w.publish(log + answer[..at + i], records[i]))
  }

  /** The packet to the crash topic, its records to the other, and the count if all of them got there. */
  ghost predicate PacketAnswer(w: World, l: Label, log: seq<Effect>, p: AvlPacket, answer: seq<Effect>) {
    var at, n := Before(w, p), |p.records|;
    && Offers(w, l, log, p.records, answer, at)
    && (at == 1 ==> answer[0] == CrashTrace(l.imei.value, l.vehicleId, p))
    && answer[at + n..] == (if forall i :: at <= i < at + n ==> answer[i].Publish? && answer[i].ok then [AvlAck(n)]
                            else [AvlAck(0), Destroy])
  }

  /** The answer to a message, when `log` was done before it. */
  ghost predicate Answer(w: World, l: Label, log: seq<Effect>, t: Token, answer: seq<Effect>) {
    match t
    case Ping => answer == []
    case Hello(bytes) =>
      (match w.hello(bytes)
       case Fail(_) => answer == [ImeiAck(false), Destroy]
       case Done(imei, _) =>
         l.imei == Some(imei) &&
         match w.resolve(log, imei)
         case ResolveFailed => answer == [ImeiAck(false), Destroy]
         case Resolved(vehicleId, pending) =>
           answer == [ImeiAck(true)] && l.vehicleId == vehicleId && l.pendingDeviceId == pending)
    case Packet(bytes) =>
      match w.packet(bytes)
      case Fail(_) => answer == [AvlAck(0), Destroy]
      case Done(p, _) => PacketAnswer(w, l, log, p, answer)
  }

  function Flat(answers: seq<seq<Effect>>): seq<Effect> {
    if answers == [] then [] else answers[0] + Flat(answers[1..])
  }

  /** Each message has its answer, and only the last can close the connection. */
  ghost predicate Conversation(w: World, l: Label, log: seq<Effect>, ts: seq<Token>, answers: seq<seq<Effect>>) {
    && |answers| == |ts|
    && forall i :: 0 <= i < |ts| ==>
         && Answer(w, l, log + Flat(answers[..i]), ts[i], answers[i])
         && (Destroy in answers[i] ==> i == |ts| - 1)
  }

  ghost predicate Closes(answers: seq<seq<Effect>>) {
    answers != [] && Destroy in answers[|answers| - 1]
  }

  // ----- One message -----

  lemma {:induction false} PublishesOffer(w: World, log: seq<Effect>, imei: Imei, vehicle: Option<string>, records: seq<AvlRecord>)
    ensures var ps := Publishes(w, log, imei, vehicle, records);
            forall i :: 0 <= i < |records| ==> ps[i] == Publish(imei, vehicle, records[i], w.publish(log + ps[..i], records[i]))
    decreases |records|
  {
    if records != [] {
      var n := |records| - 1;
      PublishesOffer(w, log, imei, vehicle, records[..n]);
      var ps, before := Publishes(w, log, imei, vehicle, records), Publishes(w, log, imei, vehicle, records[..n]);
      assert ps[..n] == before;
      forall i | 0 <= i < n
        ensures ps[i] == Publish(imei, vehicle, records[i], w.publish(log + ps[..i], records[i]))
      {
        assert ps[..i] == before[..i];
      }
    }
  }

  lemma CrashIsLiteral(p: AvlPacket)
    ensures IsCrashTracePacket(p) <==> HasCrash(p)
  {
  }

  /** What lies at `i` of three pieces. */
  lemma Pieces<T>(a: seq<T>, b: seq<T>, c: seq<T>, i: nat)
    requires i < |b|
    ensures (a + b + c)[|a| + i] == b[i] && (a + b + c)[..|a| + i] == a + b[..i]
    ensures (a + b + c)[|a| + |b|..] == c
  {
    assert a + b + c == a + (b + c);
  }

  lemma LastPiece<T>(a: seq<T>, b: seq<T>, c: seq<T>)
    ensures |a + b + c| == |a| + |b| + |c| && (a + b + c)[|a| + |b|..] == c
  {
  }

  /** What a packet hands over: itself to the crash topic, if it is to go there, and its records in order. */
  ghost predicate HandsOver(w: World, l: Label, log: seq<Effect>, p: AvlPacket, crash: seq<Effect>, ps: seq<Effect>) {
    && l.imei.Some? && |ps| == |p.records|
    && crash == (if Before(w, p) == 1 then [CrashTrace(l.imei.value, l.vehicleId, p)] else [])
    && forall i :: 0 <= i < |ps| ==>
         ps[i] == Publish(l.imei.value, l.vehicleId, p.records[i], w.publish(log + crash + ps[..i], p.records[i]))
  }

  lemma PublishesAreOffers(w: World, l: Label, log: seq<Effect>, p: AvlPacket, crash: seq<Effect>, ps: seq<Effect>, end: seq<Effect>)
    requires HandsOver(w, l, log, p, crash, ps)
    ensures Offers(w, l, log, p.records, crash + ps + end, |crash|)
  {
    var answer, rs := crash + ps + end, p.records;
    LastPiece(crash, ps, end);
    forall i | 0 <= i < |rs|
      ensures answer[|crash| + i] == Publish(l.imei.value, l.vehicleId, rs[i], w.publish(log + answer[..|crash| + i], rs[i]))
    {
      Pieces(crash, ps, end, i);
      assert log + crash + ps[..i] == log + (crash + ps[..i]);
    }
  }

  lemma AllOkInside(crash: seq<Effect>, ps: seq<Effect>, end: seq<Effect>)
    ensures var answer := crash + ps + end;
            AllOk(ps) <==> forall i :: |crash| <= i < |crash| + |ps| ==> answer[i].Publish? && answer[i].ok
  {
    var answer := crash + ps + end;
    forall i | 0 <= i < |ps|
      ensures answer[|crash| + i] == ps[i]
    {
      Pieces(crash, ps, end, i);
    }
    assert forall i :: |crash| <= i < |crash| + |ps| ==> answer[i] == ps[i - |crash|];
  }

  lemma PacketAnswered(w: World, l: Label, log: seq<Effect>, p: AvlPacket, crash: seq<Effect>, ps: seq<Effect>, end: seq<Effect>)
    requires l.imei.Some? && |ps| == |p.records|
    requires crash == if Before(w, p) == 1 then [CrashTrace(l.imei.value, l.vehicleId, p)] else []
    requires Offers(w, l, log, p.records, crash + ps + end, |crash|)
    requires end == if AllOk(ps) then [AvlAck(|ps|)] else [AvlAck(0), Destroy]
    ensures PacketAnswer(w, l, log, p, crash + ps + end)
  {
    AllOkInside(crash, ps, end);
    LastPiece(crash, ps, end);
  }

  lemma PublicationsHandOver(w: World, c: Conn, p: AvlPacket)
    requires c.imei.Some?
    ensures var (crash, ps) := Publications(w, c, p);
            HandsOver(w, LabelOf(c), c.log, p, crash, ps)
  {
    var (crash, ps) := Publications(w, c, p);
    CrashIsLiteral(p);
    PublishesOffer(w, c.log + crash, c.imei.value, c.vehicleId, p.records);
  }

  lemma HandOverAnswers(w: World, l: Label, log: seq<Effect>, p: AvlPacket, crash: seq<Effect>, ps: seq<Effect>, end: seq<Effect>)
    requires HandsOver(w, l, log, p, crash, ps)
    requires end == if AllOk(ps) then [AvlAck(|ps|)] else [AvlAck(0), Destroy]
    ensures PacketAnswer(w, l, log, p, crash + ps + end)
    ensures Destroy in crash + ps + end <==> Destroy in end
  {
    PublishesAreOffers(w, l, log, p, crash, ps, end);
    PacketAnswered(w, l, log, p, crash, ps, end);
    NoDestroy(w, l, log, p, crash, ps);
    DestroyInside(crash, ps, end);
  }

  lemma NoDestroy(w: World, l: Label, log: seq<Effect>, p: AvlPacket, crash: seq<Effect>, ps: seq<Effect>)
    requires HandsOver(w, l, log, p, crash, ps)
    ensures forall e :: e in crash + ps ==> e != Destroy
  {
    assert forall i :: 0 <= i < |ps| ==> ps[i].Publish?;
  }

  lemma ForwardAnswers(w: World, c: Conn, p: AvlPacket) returns (answer: seq<Effect>)
    requires c.imei.Some? && !c.destroyed
    ensures Forward(w, c, p).log == c.log + answer && PacketAnswer(w, LabelOf(c), c.log, p, answer)
    ensures Forward(w, c, p).destroyed <==> Destroy in answer
  {
    var (crash, ps) := Publications(w, c, p);
    var end := if AllOk(ps) then [AvlAck(|ps|)] else [AvlAck(0), Destroy];
    PublicationsHandOver(w, c, p);
    HandOverAnswers(w, LabelOf(c), c.log, p, crash, ps, end);
    ForwardLog(w, c, p, crash, ps, end);
    answer := crash + ps + end;
  }

  lemma ForwardLog(w: World, c: Conn, p: AvlPacket, crash: seq<Effect>, ps: seq<Effect>, end: seq<Effect>)
    requires (crash, ps) == Publications(w, c, p) && !c.destroyed
    requires end == if AllOk(ps) then [AvlAck(|ps|)] else [AvlAck(0), Destroy]
    ensures Forward(w, c, p).log == c.log + (crash + ps + end) && (Forward(w, c, p).destroyed <==> Destroy in end)
  {
    var log := c.log + (crash + ps);
    assert log + [AvlAck(0)] + [Destroy] == log + [AvlAck(0), Destroy];
    assert log + end == c.log + (crash + ps + end);
  }

  lemma DestroyInside(crash: seq<Effect>, ps: seq<Effect>, end: seq<Effect>)
    requires forall e :: e in crash + ps ==> e != Destroy
    ensures Destroy in crash + ps + end <==> Destroy in end
  {
  }

  /** A connection that is open and, if it is ready, has its IMEI. */
  ghost predicate Open(c: Conn) {
    !c.destroyed && (c.ready ==> c.imei.Some?)
  }

  /** A message leaves the buffer, and the names stay once the connection is ready. */
  ghost predicate Moved(c: Conn, t: Token, d: Conn) {
    && (c.ready ==> d.ready && LabelOf(d) == LabelOf(c))
    && (!d.destroyed ==> d.ready && Open(d) && d.buffer == Drop(c.buffer, |Wire(t)|))
  }

  lemma StepAnswers(w: World, c: Conn) returns (answer: seq<Effect>)
    requires Open(c) && Next(c.ready, c.buffer).Take?
    ensures var (t, d) := (Next(c.ready, c.buffer).token, Step(w, c));
            && d.log == c.log + answer && Answer(w, LabelOf(d), c.log, t, answer)
            && (d.destroyed <==> Destroy in answer) && Moved(c, t, d)
  {
    NextSound(c.ready, c.buffer);
    match Next(c.ready, c.buffer).token
    case Hello(bytes) =>
      StepGreets(w, c, bytes);
      answer := GreetAnswers(w, c, bytes);
    case Ping =>
      answer := [];
      assert c.log + [] == c.log;
    case Packet(bytes) =>
      StepTakes(w, c, bytes);
      answer := DeliverAnswers(w, c, bytes, w.packet(bytes));
  }

  lemma GreetAnswers(w: World, c: Conn, bytes: seq<byte>) returns (answer: seq<Effect>)
    requires Open(c) && !c.ready
    ensures var d := Greet(w, c, w.hello(bytes), |bytes|);
            && d.log == c.log + answer && Answer(w, LabelOf(d), c.log, Hello(bytes), answer)
            && (d.destroyed <==> Destroy in answer) && Moved(c, Hello(bytes), d)
  {
    var d := Greet(w, c, w.hello(bytes), |bytes|);
    answer := if d.destroyed then [ImeiAck(false), Destroy] else [ImeiAck(true)];
    assert c.log + [ImeiAck(false)] + [Destroy] == c.log + [ImeiAck(false), Destroy];
  }

  lemma DeliverAnswers(w: World, c: Conn, bytes: seq<byte>, parsed: Parsed<AvlPacket>) returns (answer: seq<Effect>)
    requires Open(c) && c.ready && parsed == w.packet(bytes)
    ensures var d := Deliver(w, c, parsed, |bytes|);
            && d.log == c.log + answer && Answer(w, LabelOf(d), c.log, Packet(bytes), answer)
            && (d.destroyed <==> Destroy in answer) && Moved(c, Packet(bytes), d)
  {
    match parsed
    case Fail(_) =>
      answer := [AvlAck(0), Destroy];
      assert c.log + [AvlAck(0)] + [Destroy] == c.log + [AvlAck(0), Destroy];
    case Done(p, _) =>
      var c1 := c.(buffer := Drop(c.buffer, |bytes|), recordsReceived := c.recordsReceived + |p.records|);
      answer := ForwardAnswers(w, c1, p);
      ForwardKeeps(w, c1, p);
  }

  lemma ForwardKeeps(w: World, c: Conn, p: AvlPacket)
    ensures var d := Forward(w, c, p);
            d.ready == c.ready && LabelOf(d) == LabelOf(c) && d.buffer == c.buffer
  {
  }

  // ----- The whole stream -----

  /** The messages a run takes from the buffer. */
  function Taken(w: World, c: Conn): seq<Token>
    decreases Size(c)
  {
    if Idle(c) then []
    else
      StepProgress(w, c);
      (match Next(c.ready, c.buffer) case Take(t) => [t] case _ => []) + Taken(w, Step(w, c))
  }

  lemma ConversationCons(
    w: World, l: Label, log: seq<Effect>, t: Token, answer: seq<Effect>, ts: seq<Token>, answers: seq<seq<Effect>>)
    requires Answer(w, l, log, t, answer) && Conversation(w, l, log + answer, ts, answers)
    requires Destroy in answer ==> ts == []
    ensures Conversation(w, l, log, [t] + ts, [answer] + answers)
    ensures Flat([answer] + answers) == answer + Flat(answers)
  {
    var all := [answer] + answers;
    assert all[1..] == answers;
    forall i | 0 <= i < |all|
      ensures Answer(w, l, log + Flat(all[..i]), ([t] + ts)[i], all[i])
      ensures Destroy in all[i] ==> i == |all| - 1
    {
      if i == 0 {
        assert log + [] == log;
      } else {
        FlatPrefix(log, answer, answers, i - 1);
        assert all[i] == answers[i - 1] && ([t] + ts)[i] == ts[i - 1];
      }
    }
  }

  lemma FlatPrefix(log: seq<Effect>, answer: seq<Effect>, answers: seq<seq<Effect>>, n: nat)
    requires n <= |answers|
    ensures log + Flat(([answer] + answers)[..n + 1]) == log + answer + Flat(answers[..n])
  {
    var all := ([answer] + answers)[..n + 1];
    assert all[0] == answer && all[1..] == answers[..n];
    assert log + (answer + Flat(answers[..n])) == log + answer + Flat(answers[..n]);
  }

  /** How a run ends: closed by its last answer, by bytes that start no packet, or waiting for more. */
  ghost predicate Ends(c: Conn, d: Conn, ts: seq<Token>, answers: seq<seq<Effect>>, end: seq<Effect>) {
    && ts <= Tokens(c.ready, c.buffer)
    && if Closes(answers) then d.destroyed && end == []
       else
         && ts == Tokens(c.ready, c.buffer) && d.buffer == Drop(c.buffer, |Wires(ts)|)
         && (d.destroyed <==> Next(d.ready, d.buffer).Reject?) && end == if d.destroyed then [Destroy] else []
  }

  lemma RunStops(w: World, c: Conn)
    requires Open(c) && !Next(c.ready, c.buffer).Take?
    ensures var (d, end) := (Run(w, c), if Next(c.ready, c.buffer).Reject? then [Destroy] else []);
            Taken(w, c) == [] && d.log == c.log + end && Ends(c, d, [], [], end)
            && (c.ready ==> d.ready && LabelOf(d) == LabelOf(c))
  {
    assert c.log + [] == c.log && Wires([]) == [] && Drop(c.buffer, 0) == c.buffer;
    if Next(c.ready, c.buffer).Reject? {
      RunTo(w, c, Close(c, []));
      StepProgress(w, c);
      assert Taken(w, c) == [] + [];
    }
  }

  lemma TakenCons(w: World, c: Conn)
    requires !c.destroyed && Next(c.ready, c.buffer).Take?
    ensures Taken(w, c) == [Next(c.ready, c.buffer).token] + Taken(w, Step(w, c)) && Run(w, c) == Run(w, Step(w, c))
  {
    StepProgress(w, c);
  }

  lemma EndsCons(c: Conn, c': Conn, d: Conn, t: Token, ts: seq<Token>, answer: seq<Effect>, answers: seq<seq<Effect>>, end: seq<Effect>)
    requires Next(c.ready, c.buffer) == Take(t) && Moved(c, t, c') && !c'.destroyed && Destroy !in answer
    requires Ends(c', d, ts, answers, end)
    ensures Ends(c, d, [t] + ts, [answer] + answers, end)
  {
    TokensCons(c.ready, c.buffer, t);
    ClosesCons(answer, answers);
    assert ([t] + ts)[1..] == ts && Wires([t] + ts) == Wire(t) + Wires(ts);
    if !Closes(answers) {
      WiresFit(true, c'.buffer);
      DropTwice(c.buffer, |Wire(t)|, |Wires(ts)|);
    }
  }

  lemma TokensCons(ready: bool, buf: seq<byte>, t: Token)
    requires Next(ready, buf) == Take(t)
    ensures Tokens(ready, buf) == [t] + Tokens(true, Drop(buf, |Wire(t)|)) && |Wire(t)| <= |buf|
  {
    NextSound(ready, buf);
  }

  lemma ClosesCons(answer: seq<Effect>, answers: seq<seq<Effect>>)
    requires Destroy !in answer
    ensures Closes([answer] + answers) <==> Closes(answers)
  {
  }

  lemma DropTwice(buf: seq<byte>, n: nat, m: nat)
    requires n + m <= |buf|
    ensures Drop(Drop(buf, n), m) == Drop(buf, n + m)
  {
  }

  lemma {:induction false} WiresFit(ready: bool, buf: seq<byte>)
    ensures |Wires(Tokens(ready, buf))| <= |buf|
    decreases |buf|
  {
    NextSound(ready, buf);
    match Next(ready, buf)
    case Take(t) =>
      WiresFit(true, buf[|Wire(t)|..]);
      assert ([t] + Tokens(true, buf[|Wire(t)|..]))[1..] == Tokens(true, buf[|Wire(t)|..]);
    case _ =>
  }

  lemma EndsClosed(c: Conn, d: Conn, t: Token, answer: seq<Effect>)
    requires Next(c.ready, c.buffer) == Take(t) && d.destroyed && Destroy in answer
    ensures Ends(c, d, [t], [answer], [])
  {
    NextSound(c.ready, c.buffer);
  }

  lemma {:induction false} RunConverses(w: World, c: Conn) returns (answers: seq<seq<Effect>>, end: seq<Effect>)
    requires Open(c)
    ensures var (d, ts) := (Run(w, c), Taken(w, c));
            && d.log == c.log + Flat(answers) + end && Conversation(w, LabelOf(d), c.log, ts, answers)
            && Ends(c, d, ts, answers, end) && (c.ready ==> d.ready && LabelOf(d) == LabelOf(c))
    decreases Size(c)
  {
    if !Next(c.ready, c.buffer).Take? {
      answers, end := [], if Next(c.ready, c.buffer).Reject? then [Destroy] else [];
      RunStops(w, c);
      assert c.log + [] == c.log;
    } else {
      var t := Next(c.ready, c.buffer).token;
      StepProgress(w, c);
      TakenCons(w, c);
      var answer := StepAnswers(w, c);
      answers, end := RunAfter(w, c, Step(w, c), t, answer);
    }
  }

  lemma {:induction false} RunAfter(w: World, c: Conn, c': Conn, t: Token, answer: seq<Effect>)
    returns (answers: seq<seq<Effect>>, end: seq<Effect>)
    requires Open(c) && Next(c.ready, c.buffer) == Take(t) && Size(c') < Size(c)
    requires c'.log == c.log + answer && Answer(w, LabelOf(c'), c.log, t, answer)
    requires (c'.destroyed <==> Destroy in answer) && Moved(c, t, c')
    ensures var (d, ts) := (Run(w, c'), [t] + Taken(w, c'));
            && d.log == c.log + Flat(answers) + end && Conversation(w, LabelOf(d), c.log, ts, answers)
            && Ends(c, d, ts, answers, end) && (c.ready ==> d.ready && LabelOf(d) == LabelOf(c))
    decreases Size(c), 0
  {
    if c'.destroyed {
      answers, end := [answer], [];
      ConversationCons(w, LabelOf(c'), c.log, t, answer, [], []);
      EndsClosed(c, c', t, answer);
      assert [t] + [] == [t] && [answer] + [] == [answer] && answer + [] == answer && c.log + answer + [] == c.log + answer;
    } else {
      var more;
      more, end := RunConverses(w, c');
      answers := [answer] + more;
      ConversationCons(w, LabelOf(Run(w, c')), c.log, t, answer, Taken(w, c'), more);
      EndsCons(c, c', Run(w, c'), t, Taken(w, c'), answer, more, end);
      Associate(c.log, answer, Flat(more), end);
    }
  }

  lemma Associate<T>(a: seq<T>, b: seq<T>, c: seq<T>, d: seq<T>)
    ensures a + b + c + d == a + (b + c) + d
  {
  }

  /**
   * Whatever bytes arrive, in whatever chunks: the log is the answers to the messages of the stream, one after the
   * other and in order, up to the first that closes the connection; and if none does, to all of them, and the
   * connection is closed exactly if the bytes that follow start no packet.
   */
  lemma EveryMessageIsAnswered(w: World, chunks: seq<seq<byte>>)
    returns (ts: seq<Token>, answers: seq<seq<Effect>>, end: seq<Effect>)
    ensures var (d, bytes) := (ReceiveAll(w, FRESH, chunks), Concat(chunks));
            && d.log == Flat(answers) + end && Conversation(w, LabelOf(d), [], ts, answers)
            && ts <= Tokens(false, bytes)
            && if Closes(answers) then d.destroyed && end == []
               else
                 && ts == Tokens(false, bytes)
                 && (d.destroyed <==> Next(d.ready, Drop(bytes, |Wires(ts)|)).Reject?)
                 && end == if d.destroyed then [Destroy] else []
  {
    var c := More(FRESH, Concat(chunks));
    ReceiveAllAtOnce(w, FRESH, chunks);
    assert c.buffer == Concat(chunks);
    ts := Taken(w, c);
    answers, end := RunConverses(w, c);
    SettledKeeps(ReceiveAll(w, FRESH, chunks), Run(w, c));
    assert [] + Flat(answers) == Flat(answers);
  }

  lemma SettledKeeps(c: Conn, d: Conn)
    requires Settled(c) == Settled(d)
    ensures c.log == d.log && c.destroyed == d.destroyed && c.ready == d.ready && LabelOf(c) == LabelOf(d)
    ensures !c.destroyed ==> c.buffer == d.buffer
  {
  }
}
