/** The document worker as it runs: conditional updates of a row, ordered effects, and a recovery on any error. */
module DocumentWorker {
  import opened Options
  import opened Retention
  import opened Documents

  datatype Ingestion = IngestThrows | Decoded(fechaEmision: Option<Date>) | Illegible

  /** How each call of one run goes. */
  datatype Calls = Calls(claim: Write, load: bool, download: bool, ingest: Ingestion, result: Write, recovery: Write)

  datatype Outcome = OutDecodificado | OutFallido | OutSkipped | Thrown

  class DocumentStore {
    var row: Row

    constructor (createdAt: Date)
      ensures row == Uploaded(createdAt).row
    {
      row := Row(Pendiente, None, None, createdAt);
    }

    /** None when the call throws. */
    method ClaimForProcessing(w: Write) returns (claimed: Option<bool>)
      modifies this
      ensures row == After(old(row), w, Claimed(old(row)))
      ensures claimed == if w == Done then Some(Claimable(old(row))) else None
    {
      if w == NotApplied {
        return None;
      }
      var rows := 0;
      if row.status == Pendiente || row.status == Fallido {
        row := row.(status := Procesando);
        rows := 1;
      }
      claimed := if w == Done then Some(rows > 0) else None;
    }

    method PersistDecoded(fechaEmision: Option<Date>, w: Write) returns (ok: bool)
      modifies this
      ensures row == After(old(row), w, Persisted(old(row), fechaEmision)) && ok == (w == Done)
    {
      if w != NotApplied {
        var anchored := row.fechaEmision.Some?;
        var retentionUntil := RetentionUntil(fechaEmision, row.createdAt);
        row := row.(status := Decodificado,
                    fechaEmision := if anchored then row.fechaEmision else fechaEmision,
                    retentionUntil := if anchored then row.retentionUntil else Some(retentionUntil));
      }
      ok := w == Done;
    }

    method MarkFailed(w: Write) returns (ok: bool)
      modifies this
      ensures row == After(old(row), w, Failed(old(row))) && ok == (w == Done)
    {
      if w != NotApplied {
        row := row.(status := Fallido);
      }
      ok := w == Done;
    }
  }

  /** The work of a run that holds the claim; Thrown when any of its calls throws. */
  function Worked(r: Row, c: Calls): (Row, Outcome) {
    if !c.load || !c.download then (r, Thrown)
    else
      match c.ingest
      case IngestThrows => (r, Thrown)
      case Decoded(fecha) => (After(r, c.result, Persisted(r, fecha)), if c.result == Done then OutDecodificado else Thrown)
      case Illegible => (After(r, c.result, Failed(r)), if c.result == Done then OutFallido else Thrown)
  }

  /** A delivery that no other run interrupts. */
  function Processed(r: Row, c: Calls): (Row, Outcome) {
    var claimed := After(r, c.claim, Claimed(r));
    if c.claim != Done then (claimed, Thrown)
    else if !Claimable(r) then (claimed, OutSkipped)
    else
      var (worked, outcome) := Worked(claimed, c);
      if outcome == Thrown then (After(worked, c.recovery, Failed(worked)), Thrown) else (worked, outcome)
  }

  /** A row whose document was decoded: the first issue date stays, with the term it gave. */
  function Read(r: Row, fecha: Option<Date>): Row {
    if r.fechaEmision.Some? then r.(status := Decodificado)
    else Row(Decodificado, fecha, Some(RetentionUntil(fecha, r.createdAt)), r.createdAt)
  }

  /** What the work leaves when it throws, before the recovery: a write that was made but reported as failed stays. */
  function Halfway(r: Row, c: Calls): Row {
    if !c.load || !c.download || c.ingest.IngestThrows? || c.result == NotApplied then r.(status := Procesando)
    else if c.ingest.Decoded? then Read(r, c.ingest.fechaEmision)
    else r.(status := Fallido)
  }

  /** The row and the outcome of a delivery, for each way its calls can go. */
  lemma DeliveryInWords(r: Row, c: Calls)
    ensures var free, worked := r.status == Pendiente || r.status == Fallido, c.load && c.download && c.result == Done;
            Processed(r, c) ==
              if c.claim == NotApplied then (r, Thrown)
              else if c.claim == AppliedButFailed then (if free then r.(status := Procesando) else r, Thrown)
              else if !free then (r, OutSkipped)
              else if worked && c.ingest.Decoded? then (Read(r, c.ingest.fechaEmision), OutDecodificado)
              else if worked && c.ingest.Illegible? then (r.(status := Fallido), OutFallido)
              else (if c.recovery == NotApplied then Halfway(r, c) else Halfway(r, c).(status := Fallido), Thrown)
  {
  }

  method Work(store: DocumentStore, c: Calls) returns (outcome: Outcome)
    modifies store
    ensures (store.row, outcome) == Worked(old(store.row), c)
  {
    if !c.load || !c.download || c.ingest.IngestThrows? {
      return Thrown;
    }
    if c.ingest.Decoded? {
      var ok := store.PersistDecoded(c.ingest.fechaEmision, c.result);
      outcome := if ok then OutDecodificado else Thrown;
    } else {
      var ok := store.MarkFailed(c.result);
      outcome := if ok then OutFallido else Thrown;
    }
  }

  method ProcessDocumentUploaded(store: DocumentStore, c: Calls) returns (outcome: Outcome)
    modifies store
    ensures (store.row, outcome) == Processed(old(store.row), c)
  {
    var claimed := store.ClaimForProcessing(c.claim);
    if claimed.None? {
      return Thrown;
    }
    if !claimed.value {
      return OutSkipped;
    }
    outcome := Work(store, c);
    if outcome == Thrown {
      var _ := store.MarkFailed(c.recovery);
    }
  }

  /** A well-formed message: acknowledged unless processing it threw. */
  method HandleDocumentUploaded(store: DocumentStore, c: Calls) returns (d: Decision)
    modifies store
    ensures store.row == Processed(old(store.row), c).0
    ensures d == if Processed(old(store.row), c).1 == Thrown then Nack else Ack
  {
    var outcome := ProcessDocumentUploaded(store, c);
    d := if outcome == Thrown then Nack else Ack;
  }

  // ----- A delivery is a run of the steps -----

  /** The steps that a run with the claim takes. */
  function Steps(c: Calls): seq<Event> {
    if !c.load then [Throw(0)] + [Recover(0, c.recovery)]
    else if !c.download then [Advance(0)] + ([Throw(0)] + [Recover(0, c.recovery)])
    else [Advance(0)] + ([Advance(0)] + Finish(c))
  }

  function Finish(c: Calls): seq<Event> {
    if c.ingest.IngestThrows? then [Throw(0)] + [Recover(0, c.recovery)]
    else
      [Ingested(0, c.ingest.Decoded?, if c.ingest.Decoded? then c.ingest.fechaEmision else None)]
      + ([WriteResult(0, c.result)] + (if c.result == Done then [] else [Recover(0, c.recovery)]))
  }

  ghost predicate EndsAs(s: System, events: seq<Event>, row: Row, d: Decision) {
    Possible(s, events) && Run(s, events) == System(row, [], s.manuals, s.decisions + [d])
  }

  lemma EndsLater(s: System, e: Event, rest: seq<Event>, row: Row, d: Decision)
    requires Enabled(s, e) && EndsAs(Step(s, e), rest, row, d)
    requires Step(s, e).manuals == s.manuals && Step(s, e).decisions == s.decisions
    ensures EndsAs(s, [e] + rest, row, d)
  {
    Prepend(s, e, rest);
  }

  lemma EndsNow(s: System, e: Event, d: Decision)
    requires Enabled(s, e) && Step(s, e).runs == [] && Step(s, e).manuals == s.manuals
    requires Step(s, e).decisions == s.decisions + [d]
    ensures EndsAs(s, [e], Step(s, e).row, d)
  {
    Last(s, e);
  }

  lemma Recovers(s: System, w: Write)
    requires s.runs == [Recovering]
    ensures EndsAs(s, [Recover(0, w)], After(s.row, w, Failed(s.row)), Nack)
  {
    EndsNow(s, Recover(0, w), Nack);
  }

  lemma ThrowsAndRecovers(s: System, w: Write)
    requires s.runs == [Loading] || s.runs == [Downloading] || s.runs == [Ingesting]
    ensures EndsAs(s, [Throw(0)] + [Recover(0, w)], After(s.row, w, Failed(s.row)), Nack)
  {
    Recovers(Step(s, Throw(0)), w);
    EndsLater(s, Throw(0), [Recover(0, w)], After(s.row, w, Failed(s.row)), Nack);
  }

  function DecisionOf(o: Outcome): Decision {
    if o == Thrown then Nack else Ack
  }

  function WorkedThenRecovered(r: Row, c: Calls): (Row, Decision) {
    var (worked, outcome) := Worked(r, c);
    (if outcome == Thrown then After(worked, c.recovery, Failed(worked)) else worked, DecisionOf(outcome))
  }

  lemma WritesAndEnds(s: System, c: Calls)
    requires if c.ingest.Decoded? then s.runs == [Persisting(c.ingest.fechaEmision)] else c.ingest.Illegible? && s.runs == [Marking]
    requires c.load && c.download
    ensures EndsAs(s, [WriteResult(0, c.result)] + (if c.result == Done then [] else [Recover(0, c.recovery)]),
                   WorkedThenRecovered(s.row, c).0, WorkedThenRecovered(s.row, c).1)
  {
    var e := WriteResult(0, c.result);
    if c.result == Done {
      EndsNow(s, e, Ack);
      assert [e] + [] == [e];
    } else {
      Recovers(Step(s, e), c.recovery);
      EndsLater(s, e, [Recover(0, c.recovery)], WorkedThenRecovered(s.row, c).0, Nack);
    }
  }

  lemma Finishes(s: System, c: Calls)
    requires s.runs == [Ingesting] && c.load && c.download
    ensures EndsAs(s, Finish(c), WorkedThenRecovered(s.row, c).0, WorkedThenRecovered(s.row, c).1)
  {
    if c.ingest.IngestThrows? {
      ThrowsAndRecovers(s, c.recovery);
    } else {
      var e := Ingested(0, c.ingest.Decoded?, if c.ingest.Decoded? then c.ingest.fechaEmision else None);
      WritesAndEnds(Step(s, e), c);
      EndsLater(s, e, [WriteResult(0, c.result)] + (if c.result == Done then [] else [Recover(0, c.recovery)]),
                WorkedThenRecovered(s.row, c).0, WorkedThenRecovered(s.row, c).1);
    }
  }

  lemma WorkSteps(s: System, c: Calls)
    requires s.runs == [Loading]
    ensures EndsAs(s, Steps(c), WorkedThenRecovered(s.row, c).0, WorkedThenRecovered(s.row, c).1)
  {
    var row, d := WorkedThenRecovered(s.row, c).0, WorkedThenRecovered(s.row, c).1;
    var s1 := Step(s, Advance(0));
    if !c.load {
      ThrowsAndRecovers(s, c.recovery);
    } else if !c.download {
      ThrowsAndRecovers(s1, c.recovery);
      EndsLater(s, Advance(0), [Throw(0)] + [Recover(0, c.recovery)], row, d);
    } else {
      var s2 := Step(s1, Advance(0));
      Finishes(s2, c);
      EndsLater(s1, Advance(0), Finish(c), row, d);
      EndsLater(s, Advance(0), [Advance(0)] + Finish(c), row, d);
    }
  }

  /** A delivery that nothing interrupts is one of the interleavings: it ends with the row and decision of the method. */
  lemma DeliveryIsARun(r: Row, c: Calls)
    ensures var s := System(r, [], [], []);
            var events := [Deliver(c.claim)] + (if c.claim == Done && Claimable(r) then Steps(c) else []);
            EndsAs(s, events, Processed(r, c).0, if Processed(r, c).1 == Thrown then Nack else Ack)
  {
    var s := System(r, [], [], []);
    var e := Deliver(c.claim);
    if c.claim == Done && Claimable(r) {
      WorkSteps(Step(s, e), c);
      EndsLater(s, e, Steps(c), Processed(r, c).0, DecisionOf(Processed(r, c).1));
    } else {
      EndsNow(s, e, DecisionOf(Processed(r, c).1));
      assert [e] + [] == [e];
    }
  }
}
