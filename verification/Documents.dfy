/**
 * The worker that decodes transport documents: many deliveries of the same document may run at once, every call
 * to the database may fail before or after it takes effect, and people and a clean-up job write the same row.
 */
module Documents {
  import opened Options
  import opened Retention

  datatype Status = Pendiente | Procesando | Decodificado | Fallido | IngresoManual

  datatype Row = Row(status: Status, fechaEmision: Option<Date>, retentionUntil: Option<Date>, createdAt: Date)

  /** What became of a write: done, refused, or done but reported as an error. */
  datatype Write = Done | NotApplied | AppliedButFailed

  /** Where a run that took the claim is. */
  datatype Stage = Loading | Downloading | Ingesting | Persisting(fechaEmision: Option<Date>) | Marking | Recovering

  datatype Decision = Ack | Nack

  /** A correction by hand between its read and its write: the date given, and the term to set, if any. */
  datatype Manual = Manual(fechaEmision: Option<Date>, retentionUntil: Option<Date>)

  datatype System = System(row: Row, runs: seq<Stage>, manuals: seq<Manual>, decisions: seq<Decision>)

  datatype Event =
    | Deliver(write: Write)
    | Advance(run: nat)
    | Ingested(run: nat, decoded: bool, fechaEmision: Option<Date>)
    | Throw(run: nat)
    | WriteResult(run: nat, write: Write)
    | Recover(run: nat, write: Write)
    | Crash(run: nat)
    | ReleaseAbandoned
    | ManualRead(fechaEmision: Option<Date>)
    | ManualWrite(manual: nat, write: Write)

  // ----- The updates -----

  predicate Claimable(r: Row) {
    r.status == Pendiente || r.status == Fallido
  }

  function Claimed(r: Row): Row {
    if Claimable(r) then r.(status := Procesando) else r
  }

  /** `CASE WHEN fecha_emision IS NULL`: the anchor is written once. */
  function Persisted(r: Row, fechaEmision: Option<Date>): Row {
    if r.fechaEmision.None? then
      r.(status := Decodificado, fechaEmision := fechaEmision,
         retentionUntil := Some(Retention.RetentionUntil(fechaEmision, r.createdAt)))
    else r.(status := Decodificado)
  }

  function Failed(r: Row): Row {
    r.(status := Fallido)
  }

  function After(r: Row, w: Write, updated: Row): Row {
    if w == NotApplied then r else updated
  }

  /** What a correction will write, from the row as it is when it is read. */
  function ManualOf(r: Row, fechaEmision: Option<Date>): Manual {
    if fechaEmision.Some? then Manual(fechaEmision, Some(Retention.RetentionUntil(fechaEmision, r.createdAt)))
    else if r.fechaEmision.None? && r.retentionUntil.None? then Manual(None, Some(Retention.RetentionUntil(None, r.createdAt)))
    else Manual(None, None)
  }

  function Corrected(r: Row, m: Manual): Row {
    r.(status := IngresoManual,
       fechaEmision := if m.fechaEmision.Some? then m.fechaEmision else r.fechaEmision,
       retentionUntil := if m.retentionUntil.Some? then m.retentionUntil else r.retentionUntil)
  }

  // ----- The steps -----

  predicate Enabled(s: System, e: Event) {
    match e
    case Advance(i) => i < |s.runs| && (s.runs[i].Loading? || s.runs[i].Downloading?)
    case Ingested(i, _, _) => i < |s.runs| && s.runs[i].Ingesting?
    case Throw(i) => i < |s.runs| && (s.runs[i].Loading? || s.runs[i].Downloading? || s.runs[i].Ingesting?)
    case WriteResult(i, _) => i < |s.runs| && (s.runs[i].Persisting? || s.runs[i].Marking?)
    case Recover(i, _) => i < |s.runs| && s.runs[i].Recovering?
    case Crash(i) => i < |s.runs|
    case ManualWrite(j, _) => j < |s.manuals|
    case _ => true
  }

  function Without<T>(xs: seq<T>, i: nat): seq<T>
    requires i < |xs|
  {
    xs[..i] + xs[i + 1..]
  }

  function Ended(s: System, i: nat, d: Decision): System
    requires i < |s.runs|
  {
    s.(runs := Without(s.runs, i), decisions := s.decisions + [d])
  }

  function Step(s: System, e: Event): System
    requires Enabled(s, e)
  {
    match e
    case Deliver(w) =>
      var c := s.(row := After(s.row, w, Claimed(s.row)));
      if w != Done then c.(decisions := c.decisions + [Nack])
      else if Claimable(s.row) then c.(runs := c.runs + [Loading])
      else c.(decisions := c.decisions + [Ack])
    case Advance(i) => s.(runs := s.runs[i := if s.runs[i].Loading? then Downloading else Ingesting])
    case Ingested(i, decoded, fecha) => s.(runs := s.runs[i := if decoded then Persisting(fecha) else Marking])
    case Throw(i) => s.(runs := s.runs[i := Recovering])
    case WriteResult(i, w) =>
      var updated := if s.runs[i].Persisting? then Persisted(s.row, s.runs[i].fechaEmision) else Failed(s.row);
      var c := s.(row := After(s.row, w, updated));
      if w == Done then Ended(c, i, Ack) else c.(runs := c.runs[i := Recovering])
    case Recover(i, w) => Ended(s.(row := After(s.row, w, Failed(s.row))), i, Nack)
    case Crash(i) => s.(runs := Without(s.runs, i))
    case ReleaseAbandoned => if s.row.status == Procesando then s.(row := Failed(s.row)) else s
    case ManualRead(fecha) => s.(manuals := s.manuals + [ManualOf(s.row, fecha)])
    case ManualWrite(j, w) =>
      s.(row := After(s.row, w, Corrected(s.row, s.manuals[j])), manuals := Without(s.manuals, j))
  }

  ghost predicate Possible(s: System, events: seq<Event>)
    decreases |events|
  {
    events == [] || (Enabled(s, events[0]) && Possible(Step(s, events[0]), events[1..]))
  }

  function Run(s: System, events: seq<Event>): System
    requires Possible(s, events)
    decreases |events|
  {
    if events == [] then s else Run(Step(s, events[0]), events[1..])
  }

  function Uploaded(createdAt: Date): System {
    System(Row(Pendiente, None, None, createdAt), [], [], [])
  }

  // ----- The anchor of the retention -----

  /** A step by a person: the only kind that may move an anchor. */
  predicate MovesAnchor(s: System, e: Event)
    requires Enabled(s, e)
  {
    e.ManualWrite? && e.write != NotApplied && (s.manuals[e.manual].fechaEmision.Some? || s.manuals[e.manual].retentionUntil.Some?)
  }

  /** Once a row has an issue date, no worker, redelivery, failure nor clean-up changes the date or the term. */
  lemma WorkersKeepTheAnchor(s: System, e: Event)
    requires Enabled(s, e) && s.row.fechaEmision.Some? && !MovesAnchor(s, e)
    ensures Step(s, e).row.fechaEmision == s.row.fechaEmision && Step(s, e).row.retentionUntil == s.row.retentionUntil
  {
  }

  ghost predicate OnlyWorkers(events: seq<Event>) {
    forall e :: e in events ==> !e.ManualWrite?
  }

  lemma {:induction false} AnchorIsWrittenOnce(s: System, events: seq<Event>)
    requires Possible(s, events) && s.row.fechaEmision.Some? && OnlyWorkers(events)
    ensures var r := Run(s, events).row;
            r.fechaEmision == s.row.fechaEmision && r.retentionUntil == s.row.retentionUntil
    decreases |events|
  {
    if events != [] {
      assert events[0] in events;
      WorkersKeepTheAnchor(s, events[0]);
      AnchorIsWrittenOnce(Step(s, events[0]), events[1..]);
    }
  }

  /** An anchored row is kept for the term its issue date asks for. */
  ghost predicate Anchored(r: Row) {
    r.fechaEmision.Some? ==> r.retentionUntil == Some(Retention.RetentionUntil(r.fechaEmision, r.createdAt))
  }

  /** A correction without a date, read before the row was anchored and written after it. */
  predicate Stale(s: System, e: Event) {
    && e.ManualWrite? && e.manual < |s.manuals| && e.write != NotApplied
    && s.manuals[e.manual].fechaEmision.None? && s.manuals[e.manual].retentionUntil.Some? && s.row.fechaEmision.Some?
  }

  ghost predicate NeverStale(s: System, events: seq<Event>)
    requires Possible(s, events)
    decreases |events|
  {
    events == [] || (!Stale(s, events[0]) && NeverStale(Step(s, events[0]), events[1..]))
  }

  ghost predicate Retained(s: System) {
    && Anchored(s.row)
    && forall m :: m in s.manuals ==>
         && (m.fechaEmision.Some? ==> m.retentionUntil == Some(Retention.RetentionUntil(m.fechaEmision, s.row.createdAt)))
         && (m.fechaEmision.None? && m.retentionUntil.Some? ==> m.retentionUntil == Some(Retention.RetentionUntil(None, s.row.createdAt)))
  }

  /** A correction sets the term of an anchored row right unless it is stale and the two terms differ. */
  lemma StepRetained(s: System, e: Event)
    requires Retained(s) && Enabled(s, e)
    ensures Retained(Step(s, e)) <==>
            !(Stale(s, e) && Retention.RetentionUntil(s.row.fechaEmision, s.row.createdAt) != Retention.RetentionUntil(None, s.row.createdAt))
  {
    var t := Step(s, e);
    if e.ManualWrite? {
      assert s.manuals[e.manual] in s.manuals;
      assert forall m :: m in t.manuals ==> m in s.manuals;
    }
  }

  lemma {:induction false} TermFollowsTheIssueDate(s: System, events: seq<Event>)
    requires Retained(s) && Possible(s, events) && NeverStale(s, events)
    ensures Anchored(Run(s, events).row)
    decreases |events|
  {
    if events != [] {
      StepRetained(s, events[0]);
      TermFollowsTheIssueDate(Step(s, events[0]), events[1..]);
    }
  }

  /** A worker decodes the document while a correction without a date is between its read and its write. */
  function Race(issue: Date): seq<Event> {
    [Deliver(Done)] + ([Advance(0)] + ([Advance(0)] + ([Ingested(0, true, Some(issue))]
    + ([ManualRead(None)] + ([WriteResult(0, Done)] + [ManualWrite(0, Done)])))))
  }

  /** The race that breaks it: the row ends up anchored, with the term of a row that is not. */
  lemma StaleCorrectionBreaksTheTerm(upload: Date, issue: Date)
    ensures Possible(Uploaded(upload), Race(issue))
    ensures var r := Run(Uploaded(upload), Race(issue)).row;
            r.fechaEmision == Some(issue) && r.retentionUntil == Some(Retention.RetentionUntil(None, upload))
  {
    var s0 := Uploaded(upload);
    var s1 := Step(s0, Deliver(Done));
    assert s1 == System(Row(Procesando, None, None, upload), [Loading], [], []);
    var s2 := Step(s1, Advance(0));
    assert s2.runs == [Downloading];
    var s3 := Step(s2, Advance(0));
    assert s3.runs == [Ingesting];
    var s4 := Step(s3, Ingested(0, true, Some(issue)));
    assert s4.runs == [Persisting(Some(issue))];
    RaceEnds(s4, issue);
    var end := [ManualRead(None)] + ([WriteResult(0, Done)] + [ManualWrite(0, Done)]);
    Prepend(s3, Ingested(0, true, Some(issue)), end);
    Prepend(s2, Advance(0), [Ingested(0, true, Some(issue))] + end);
    Prepend(s1, Advance(0), [Advance(0)] + ([Ingested(0, true, Some(issue))] + end));
    Prepend(s0, Deliver(Done), [Advance(0)] + ([Advance(0)] + ([Ingested(0, true, Some(issue))] + end)));
  }

  lemma RaceEnds(s: System, issue: Date)
    requires s.row.fechaEmision.None? && s.row.retentionUntil.None? && s.runs == [Persisting(Some(issue))] && s.manuals == []
    ensures var end := [ManualRead(None)] + ([WriteResult(0, Done)] + [ManualWrite(0, Done)]);
            && Possible(s, end)
            && var r := Run(s, end).row;
               r.fechaEmision == Some(issue) && r.retentionUntil == Some(Retention.RetentionUntil(None, s.row.createdAt))
  {
    var s1 := Step(s, ManualRead(None));
    assert s1.manuals == [ManualOf(s.row, None)];
    var s2 := Step(s1, WriteResult(0, Done));
    assert s2.row.fechaEmision == Some(issue) && s2.manuals == s1.manuals;
    Last(s2, ManualWrite(0, Done));
    Prepend(s1, WriteResult(0, Done), [ManualWrite(0, Done)]);
    Prepend(s, ManualRead(None), [WriteResult(0, Done)] + [ManualWrite(0, Done)]);
  }

  lemma Prepend(s: System, e: Event, rest: seq<Event>)
    requires Enabled(s, e) && Possible(Step(s, e), rest)
    ensures Possible(s, [e] + rest) && Run(s, [e] + rest) == Run(Step(s, e), rest)
  {
    assert ([e] + rest)[1..] == rest;
  }

  lemma Last(s: System, e: Event)
    requires Enabled(s, e)
    ensures Possible(s, [e]) && Run(s, [e]) == Step(s, e)
  {
    assert [e][1..] == [];
  }

  // ----- One holder at a time -----

  /** At most one run holds the claim, and while one does the row cannot be claimed. */
  ghost predicate Exclusive(s: System) {
    |s.runs| <= 1 && (s.runs != [] ==> !Claimable(s.row))
  }

  /** The row is given back while a run holds it: by the clean-up, or by a failure mark that reports an error. */
  predicate GivesAway(s: System, e: Event)
    requires Enabled(s, e)
  {
    || (e.ReleaseAbandoned? && s.row.status == Procesando && s.runs != [])
    || (e.WriteResult? && s.runs[e.run].Marking? && e.write == AppliedButFailed)
  }

  ghost predicate NeverGivenAway(s: System, events: seq<Event>)
    requires Possible(s, events)
    decreases |events|
  {
    events == [] || (!GivesAway(s, events[0]) && NeverGivenAway(Step(s, events[0]), events[1..]))
  }

  /** Every step keeps the claim exclusive if and only if it does not give the row away. */
  lemma StepExclusive(s: System, e: Event)
    requires Exclusive(s) && Enabled(s, e)
    ensures Exclusive(Step(s, e)) <==> !GivesAway(s, e)
  {
  }

  lemma {:induction false} ClaimIsExclusive(s: System, events: seq<Event>)
    requires Exclusive(s) && Possible(s, events) && NeverGivenAway(s, events)
    ensures Exclusive(Run(s, events))
    decreases |events|
  {
    if events != [] {
      StepExclusive(s, events[0]);
      ClaimIsExclusive(Step(s, events[0]), events[1..]);
    }
  }

  /** A row given away has two holders as soon as the message is delivered again. */
  lemma GivenAwayIsSharedNext(s: System, e: Event)
    requires Exclusive(s) && Enabled(s, e) && GivesAway(s, e)
    ensures |Step(Step(s, e), Deliver(Done)).runs| == 2
  {
  }

  // ----- No row stays claimed by nobody -----

  ghost predicate Stuck(s: System) {
    s.row.status == Procesando && s.runs == []
  }

  /** What leaves a row claimed: a lost answer to the claim, a recovery that is not written, or a dead worker. */
  predicate Abandons(s: System, e: Event)
    requires Enabled(s, e)
  {
    || (e.Deliver? && e.write == AppliedButFailed && Claimable(s.row) && s.runs == [])
    || (e.Recover? && e.write == NotApplied && s.row.status == Procesando && |s.runs| == 1)
    || (e.Crash? && s.row.status == Procesando && |s.runs| == 1)
  }

  /** A step leaves a row stuck if and only if it is one of those. */
  lemma StepStuck(s: System, e: Event)
    requires Enabled(s, e) && !Stuck(s)
    ensures Stuck(Step(s, e)) <==> Abandons(s, e)
  {
  }

  ghost predicate NeverAbandoned(s: System, events: seq<Event>)
    requires Possible(s, events)
    decreases |events|
  {
    events == [] || (!Abandons(s, events[0]) && NeverAbandoned(Step(s, events[0]), events[1..]))
  }

  lemma {:induction false} NeverStuck(s: System, events: seq<Event>)
    requires !Stuck(s) && Possible(s, events) && NeverAbandoned(s, events)
    ensures !Stuck(Run(s, events))
    decreases |events|
  {
    if events != [] {
      StepStuck(s, events[0]);
      NeverStuck(Step(s, events[0]), events[1..]);
    }
  }

  /**
   * In every run in which nobody abandons the row: when no worker has it, the next delivery takes the claim, unless
   * the document was decoded or entered by hand.
   */
  lemma FreeForTheNextDelivery(createdAt: Date, events: seq<Event>)
    requires Possible(Uploaded(createdAt), events) && NeverAbandoned(Uploaded(createdAt), events)
    ensures var s := Run(Uploaded(createdAt), events);
            s.runs == [] ==>
              if s.row.status == Decodificado || s.row.status == IngresoManual then Step(s, Deliver(Done)).row == s.row
              else Step(s, Deliver(Done)).runs == [Loading] && Step(s, Deliver(Done)).row.status == Procesando
  {
    NeverStuck(Uploaded(createdAt), events);
  }

  /** After a recovery that took effect the message is delivered again and the next delivery takes the claim. */
  lemma RecoveryIsReclaimed(s: System, i: nat, w: Write)
    requires Enabled(s, Recover(i, w)) && w != NotApplied
    ensures var t := Step(s, Recover(i, w));
            var u := Step(t, Deliver(Done));
            && t.decisions == s.decisions + [Nack] && u.decisions == t.decisions
            && u.runs == Without(s.runs, i) + [Loading] && u.row == t.row.(status := Procesando)
  {
  }

  /**
   * A stuck row stays stuck however often its message is delivered: each delivery is skipped and acknowledged,
   * until the clean-up or a person writes the row.
   */
  lemma {:induction false} RedeliveryDoesNotRecover(s: System, writes: seq<Write>)
    requires Stuck(s)
    ensures var events := Deliveries(writes);
            Possible(s, events) && Stuck(Run(s, events)) && Run(s, events).row == s.row
    decreases |writes|
  {
    if writes != [] {
      var t := Step(s, Deliver(writes[0]));
      RedeliveryDoesNotRecover(t, writes[1..]);
      Prepend(s, Deliver(writes[0]), Deliveries(writes[1..]));
    }
  }

  /** The clean-up recovers it: the next delivery takes the claim. */
  lemma CleanUpRecovers(s: System)
    requires Stuck(s)
    ensures var t := Step(s, ReleaseAbandoned);
            var u := Step(t, Deliver(Done));
            && t.row == s.row.(status := Fallido) && t.decisions == s.decisions
            && u.runs == [Loading] && u.row == s.row && u.decisions == s.decisions
  {
  }

  function Deliveries(writes: seq<Write>): seq<Event> {
    if writes == [] then [] else [Deliver(writes[0])] + Deliveries(writes[1..])
  }

  // ----- Corrections by hand -----

  /**
   * A correction that nothing comes between: the row is entered by hand, with the date given and its term, or with the
   * date it had and a term if it had neither.
   */
  lemma CorrectionLands(s: System, fecha: Option<Date>)
    ensures var r, t := s.row, Step(s, ManualRead(fecha));
            && Enabled(t, ManualWrite(|s.manuals|, Done))
            && Step(t, ManualWrite(|s.manuals|, Done)) == s.(row := Row(
                 IngresoManual,
                 if fecha.Some? then fecha else r.fechaEmision,
                 if fecha.Some? || (r.fechaEmision.None? && r.retentionUntil.None?) then Some(RetentionUntil(fecha, r.createdAt))
                 else r.retentionUntil,
                 r.createdAt))
  {
    var n := |s.manuals|;
    assert Without(s.manuals + [ManualOf(s.row, fecha)], n) == s.manuals;
  }

  /** A row entered by hand stays so under any step but the write of a worker that still holds a claim. */
  lemma StepKeepsTheCorrection(s: System, e: Event)
    requires s.row.status == IngresoManual && Enabled(s, e)
    ensures Step(s, e).row.status == IngresoManual <==> !((e.WriteResult? || e.Recover?) && e.write != NotApplied)
    ensures s.runs == [] ==> Step(s, e).runs == []
  {
  }

  lemma {:induction false} RunKeepsTheCorrection(s: System, events: seq<Event>)
    requires s.row.status == IngresoManual && s.runs == [] && Possible(s, events)
    ensures Run(s, events).row.status == IngresoManual
    decreases |events|
  {
    if events != [] {
      StepKeepsTheCorrection(s, events[0]);
      RunKeepsTheCorrection(Step(s, events[0]), events[1..]);
    }
  }

  /** How a worker that fails gives the row back: it recovers from where it is. */
  function Fails(stage: Stage): seq<Event> {
    match stage
    case Recovering => [Recover(0, Done)]
    case Persisting(_) => [WriteResult(0, NotApplied)] + [Recover(0, Done)]
    case Marking => [WriteResult(0, NotApplied)] + [Recover(0, Done)]
    case _ => [Throw(0)] + [Recover(0, Done)]
  }

  lemma FailureOverwrites(s: System)
    requires s.runs != []
    ensures Possible(s, Fails(s.runs[0])) && Run(s, Fails(s.runs[0])).row.status == Fallido
  {
    if s.runs[0].Recovering? {
      Last(s, Recover(0, Done));
    } else {
      var e := if s.runs[0].Persisting? || s.runs[0].Marking? then WriteResult(0, NotApplied) else Throw(0);
      var t := Step(s, e);
      assert t.runs[0] == Recovering;
      Last(t, Recover(0, Done));
      Prepend(s, e, [Recover(0, Done)]);
    }
  }

  /**
   * A correction by hand survives whatever comes if and only if no worker holds the row when it is written: one that
   * does and fails leaves the row as failed, for the next delivery to claim.
   */
  lemma CorrectionSurvivesIff(s: System)
    requires s.row.status == IngresoManual
    ensures s.runs == [] <==> forall events :: Possible(s, events) ==> Run(s, events).row.status == IngresoManual
  {
    if s.runs == [] {
      forall events | Possible(s, events)
        ensures Run(s, events).row.status == IngresoManual
      {
        RunKeepsTheCorrection(s, events);
      }
    } else {
      FailureOverwrites(s);
      assert Possible(s, Fails(s.runs[0])) && Run(s, Fails(s.runs[0])).row.status != IngresoManual;
    }
  }
}
