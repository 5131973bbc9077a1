/** The crash trace on the two sides of the wire: what the gateway would extract, and what the processor does. */
module WireTrace {
  import opened Options
  import opened Avl
  import opened Wire
  import opened Connection
  import opened CrashTrace

  const AXES := {AXIS_X, AXIS_Y, AXIS_Z}

  function Traveller(x: Text): AvlRecord -> AvlRecord {
    r => Travelled(x, r)
  }

  function EntryTraveller(x: Text): IoEntry -> IoEntry {
    e => TravelledEntry(x, e)
  }

  // ----- One record -----

  /** The last entry of an axis that is a number or of variable length. */
  function LastOn(entries: seq<IoEntry>, id: int): Option<IoEntry> {
    if entries == [] then None
    else
      var last := entries[|entries| - 1];
      if last.id == id && (IsNumber(last.value) || last.byteSize == NX) then Some(last) else LastOn(entries[..|entries| - 1], id)
  }

  /** The reading an entry of variable length has once its bytes went through base64. */
  function ReadingAfter(x: Text, e: IoEntry): Reading {
    ToSignedInt16(TravelledEntry(x, e).value)
  }

  /**
   * A record that gives the same to the trace on both sides: its entries of variable length are all on an axis, and
   * either some axis has neither a number nor one of them, or each axis whose last is one of them has a number that
   * it reads as.
   */
  ghost predicate Unharmed(x: Text, r: AvlRecord) {
    VariableOnAxes(r) && SameReadings(x, r.io.entries)
  }

  ghost predicate VariableOnAxes(r: AvlRecord) {
    forall e :: e in r.io.entries && e.byteSize == NX ==> e.id in AXES
  }

  ghost predicate SameReadings(x: Text, entries: seq<IoEntry>) {
    || (exists id :: id in AXES && LastOn(entries, id).None?)
    || (forall id :: id in AXES && LastOn(entries, id).Some? && LastOn(entries, id).value.byteSize == NX ==>
          Axis(entries, id) == Some(ReadingAfter(x, LastOn(entries, id).value)))
  }

  lemma {:induction false} AxisTravels(x: Text, entries: seq<IoEntry>, id: int, ext: bool)
    requires forall e :: e in entries ==> ValidEntry(e, ext)
    ensures match LastOn(entries, id)
            case None => Axis(entries, id).None? && Axis(Map(EntryTraveller(x), entries), id).None?
            case Some(e) =>
              && Axis(Map(EntryTraveller(x), entries), id) == Some(ReadingAfter(x, e))
              && (e.byteSize != NX ==> Axis(entries, id) == Some(ReadingAfter(x, e)))
    decreases |entries|
  {
    if entries != [] {
      var init, last := entries[..|entries| - 1], entries[|entries| - 1];
      var travelled := Map(EntryTraveller(x), entries);
      assert last in entries;
      EntryTrip(x, last, ext);
      AxisTravels(x, init, id, ext);
      assert travelled[..|travelled| - 1] == Map(EntryTraveller(x), init);
    }
  }

  lemma AccelTravels(x: Text, r: AvlRecord, ext: bool, t: int)
    requires ValidRecord(r, ext)
    ensures |Accel(r, t)| <= |Accel(Travelled(x, r), t)|
    ensures Accel(Travelled(x, r), t) == Accel(r, t) <==> SameReadings(x, r.io.entries)
  {
    var es := r.io.entries;
    var after := Map(EntryTraveller(x), es);
    forall id | id in AXES
      ensures Axis(es, id).Some? ==> Axis(after, id).Some?
      ensures LastOn(es, id).Some? <==> Axis(after, id).Some?
      ensures LastOn(es, id).Some? ==>
                (Axis(after, id) == Axis(es, id) <==>
                 (LastOn(es, id).value.byteSize == NX ==> Axis(es, id) == Some(ReadingAfter(x, LastOn(es, id).value))))
    {
      AxisTravels(x, es, id, ext);
    }
    SampleTravels(t, id requires id in AXES => Axis(es, id), id requires id in AXES => Axis(after, id));
  }

  lemma SampleTravels(t: int, a: int --> Option<Reading>, b: int --> Option<Reading>)
    requires forall id :: id in AXES ==> a.requires(id) && b.requires(id) && (a(id).Some? ==> b(id).Some?)
    ensures var (s, u) := (Sample(t, a(AXIS_X), a(AXIS_Y), a(AXIS_Z)), Sample(t, b(AXIS_X), b(AXIS_Y), b(AXIS_Z)));
            && |s| <= |u|
            && (u == s <==> (exists id :: id in AXES && b(id).None?) || (forall id :: id in AXES ==> b(id) == a(id)))
  {
    assert AXIS_X in AXES && AXIS_Y in AXES && AXIS_Z in AXES;
  }

  lemma {:induction false} NotAccelTravels(x: Text, entries: seq<IoEntry>)
    ensures NotAccel(Map(EntryTraveller(x), entries)) == Map(EntryTraveller(x), NotAccel(entries))
    decreases |entries|
  {
    if entries != [] {
      var f := EntryTraveller(x);
      var init, last := entries[..|entries| - 1], entries[|entries| - 1];
      NotAccelTravels(x, init);
      assert entries == init + [last];
      MapSnoc(f, init, last);
      MapSnoc(f, NotAccel(init), last);
      NotAccelSnoc(Map(f, init), f(last));
      NotAccelSnoc(init, last);
    }
  }

  lemma NotAccelSnoc(entries: seq<IoEntry>, e: IoEntry)
    ensures NotAccel(entries + [e]) == if e.id in AXES then NotAccel(entries) else NotAccel(entries) + [e]
  {
    assert (entries + [e])[..|entries|] == entries;
  }

  lemma {:induction false} NotAccelMembers(entries: seq<IoEntry>)
    ensures forall e :: e in NotAccel(entries) <==> e in entries && e.id !in AXES
    decreases |entries|
  {
    if entries != [] {
      NotAccelMembers(entries[..|entries| - 1]);
      assert entries == entries[..|entries| - 1] + [entries[|entries| - 1]];
    }
  }

  lemma SnapshotTravels(x: Text, r: AvlRecord, ext: bool, t: int)
    requires ValidRecord(r, ext)
    ensures |Snapshot(r, t)| == |Snapshot(Travelled(x, r), t)|
    ensures Snapshot(Travelled(x, r), t) == Snapshot(r, t) <==> VariableOnAxes(r)
  {
    var f, es := EntryTraveller(x), r.io.entries;
    NotAccelTravels(x, es);
    NotAccelMembers(es);
    assert Travelled(x, r).io.entries == Map(f, es);
    forall e | e in es
      ensures f(e) == e <==> e.byteSize != NX
    {
      EntryTrip(x, e, ext);
    }
    MapSame(f, NotAccel(es));
  }

  // ----- All the records -----

  lemma {:induction false} InsertTravels(x: Text, r: AvlRecord, rs: seq<AvlRecord>)
    ensures Insert(Travelled(x, r), Map(Traveller(x), rs)) == Map(Traveller(x), Insert(r, rs))
    decreases |rs|
  {
    var f := Traveller(x);
    if rs != [] && r.timestampMs >= rs[0].timestampMs {
      InsertTravels(x, r, rs[1..]);
      assert Map(f, rs)[1..] == Map(f, rs[1..]);
      MapCons(f, rs[0], Insert(r, rs[1..]));
    } else {
      MapCons(f, r, rs);
    }
  }

  lemma {:induction false} SortedTravels(x: Text, rs: seq<AvlRecord>)
    ensures Sorted(Map(Traveller(x), rs)) == Map(Traveller(x), Sorted(rs))
    decreases |rs|
  {
    if rs != [] {
      var init := rs[..|rs| - 1];
      SortedTravels(x, init);
      assert Map(Traveller(x), rs)[..|rs| - 1] == Map(Traveller(x), init);
      InsertTravels(x, rs[|rs| - 1], Sorted(init));
    }
  }

  lemma {:induction false} ImpactTravels(x: Text, rs: seq<AvlRecord>)
    ensures Impact(Map(Traveller(x), rs)) == Impact(rs)
    decreases |rs|
  {
    if rs != [] {
      ImpactTravels(x, rs[1..]);
      assert Map(Traveller(x), rs)[1..] == Map(Traveller(x), rs[1..]);
    }
  }

  /** Two records of one instant, the second of which gives no fewer samples. */
  ghost predicate GivesNoLess<T>(r: AvlRecord, s: AvlRecord, impact: int, take: (AvlRecord, int) -> seq<T>) {
    s.timestampMs == r.timestampMs && |take(r, r.timestampMs - impact)| <= |take(s, r.timestampMs - impact)|
  }

  ghost predicate GivesTheSame<T>(r: AvlRecord, s: AvlRecord, impact: int, take: (AvlRecord, int) -> seq<T>) {
    take(s, r.timestampMs - impact) == take(r, r.timestampMs - impact)
  }

  ghost predicate AllGiveTheSame<T>(rs: seq<AvlRecord>, ss: seq<AvlRecord>, impact: int, take: (AvlRecord, int) -> seq<T>)
    requires |rs| == |ss|
  {
    forall i :: 0 <= i < |rs| ==> GivesTheSame(rs[i], ss[i], impact, take)
  }

  /** A list of samples that only grows stays the same only if each record gives the same. */
  lemma {:induction false} CollectGrows<T>(rs: seq<AvlRecord>, ss: seq<AvlRecord>, impact: int, take: (AvlRecord, int) -> seq<T>)
    requires |rs| == |ss| && forall i :: 0 <= i < |rs| ==> GivesNoLess(rs[i], ss[i], impact, take)
    ensures |Collect(rs, impact, take)| <= |Collect(ss, impact, take)|
    ensures Collect(ss, impact, take) == Collect(rs, impact, take) <==> AllGiveTheSame(rs, ss, impact, take)
    decreases |rs|
  {
    if rs != [] {
      var n := |rs| - 1;
      var t := rs[n].timestampMs - impact;
      assert GivesNoLess(rs[n], ss[n], impact, take);
      CollectGrows(rs[..n], ss[..n], impact, take);
      AllOfSnoc(rs, ss, impact, take);
      Longer(Collect(rs[..n], impact, take), take(rs[n], t), Collect(ss[..n], impact, take), take(ss[n], t),
             AllGiveTheSame(rs[..n], ss[..n], impact, take), GivesTheSame(rs[n], ss[n], impact, take));
    }
  }

  lemma AllOfSnoc<T>(rs: seq<AvlRecord>, ss: seq<AvlRecord>, impact: int, take: (AvlRecord, int) -> seq<T>)
    requires rs != [] && |rs| == |ss|
    ensures var n := |rs| - 1;
            AllGiveTheSame(rs, ss, impact, take) <==>
              AllGiveTheSame(rs[..n], ss[..n], impact, take) && GivesTheSame(rs[n], ss[n], impact, take)
  {
    var n := |rs| - 1;
    assert forall i :: 0 <= i < n ==> rs[..n][i] == rs[i] && ss[..n][i] == ss[i];
  }

  lemma Longer<T>(a: seq<T>, b: seq<T>, c: seq<T>, d: seq<T>, sameFirst: bool, sameLast: bool)
    requires |a| <= |c| && |b| <= |d| && (c == a <==> sameFirst) && (d == b <==> sameLast)
    ensures |a + b| <= |c + d| && (c + d == a + b <==> sameFirst && sameLast)
  {
    if c + d == a + b {
      assert |c| == |a|;
      assert c == (c + d)[..|c|] && d == (c + d)[|c|..];
      assert a == (a + b)[..|a|] && b == (a + b)[|a|..];
    }
  }

  /**
   * The processor extracts the trace the gateway would have if and only if every record of the crash packet is
   * unharmed: a packet without entries of variable length always has the same trace on both sides.
   */
  lemma TraceSurvives(x: Text, p: AvlPacket)
    requires ValidPacket(p)
    ensures var q := Deserialize(x, Serialize(x, p));
            && q.Some?
            && (TraceIn(q.value) == TraceIn(p) <==> (IsCrashTracePacket(p) ==> forall r :: r in p.records ==> Unharmed(x, r)))
  {
    WireTrip(x, p);
    ImpactTravels(x, p.records);
    ImpactIff(p.records);
    if IsCrashTracePacket(p) {
      TraceOfTravels(x, p.records, Impact(p.records).value, p.codecId == CODEC_8E);
    }
  }

  lemma AccelListTravels(x: Text, rs: seq<AvlRecord>, impact: int, ext: bool)
    requires forall r :: r in rs ==> ValidRecord(r, ext)
    ensures Collect(Map(Traveller(x), rs), impact, Accel) == Collect(rs, impact, Accel)
       <==> forall r :: r in rs ==> SameReadings(x, r.io.entries)
  {
    var ss := Map(Traveller(x), rs);
    forall i | 0 <= i < |rs|
      ensures GivesNoLess(rs[i], ss[i], impact, Accel)
      ensures GivesTheSame(rs[i], ss[i], impact, Accel) <==> SameReadings(x, rs[i].io.entries)
    {
      AccelTravels(x, rs[i], ext, rs[i].timestampMs - impact);
    }
    CollectGrows(rs, ss, impact, Accel);
  }

  lemma SnapshotListTravels(x: Text, rs: seq<AvlRecord>, impact: int, ext: bool)
    requires forall r :: r in rs ==> ValidRecord(r, ext)
    ensures Collect(Map(Traveller(x), rs), impact, Snapshot) == Collect(rs, impact, Snapshot)
       <==> forall r :: r in rs ==> VariableOnAxes(r)
  {
    var ss := Map(Traveller(x), rs);
    forall i | 0 <= i < |rs|
      ensures GivesNoLess(rs[i], ss[i], impact, Snapshot)
      ensures GivesTheSame(rs[i], ss[i], impact, Snapshot) <==> VariableOnAxes(rs[i])
    {
      SnapshotTravels(x, rs[i], ext, rs[i].timestampMs - impact);
    }
    CollectGrows(rs, ss, impact, Snapshot);
  }

  lemma GnssListTravels(x: Text, rs: seq<AvlRecord>, impact: int)
    ensures Collect(Map(Traveller(x), rs), impact, Gnss) == Collect(rs, impact, Gnss)
  {
    CollectGrows(rs, Map(Traveller(x), rs), impact, Gnss);
  }

  lemma TraceOfTravels(x: Text, rs: seq<AvlRecord>, impact: int, ext: bool)
    requires forall r :: r in rs ==> ValidRecord(r, ext)
    ensures TraceOf(Map(Traveller(x), rs), impact) == TraceOf(rs, impact) <==> forall r :: r in rs ==> Unharmed(x, r)
  {
    var sorted := Sorted(rs);
    SortedTravels(x, rs);
    SortedIsStableSort(rs);
    SameMembers(sorted, rs);
    AccelListTravels(x, sorted, impact, ext);
    SnapshotListTravels(x, sorted, impact, ext);
    GnssListTravels(x, sorted, impact);
    TraceParts(x, rs, impact);
  }

  lemma TraceParts(x: Text, rs: seq<AvlRecord>, impact: int)
    requires Sorted(Map(Traveller(x), rs)) == Map(Traveller(x), Sorted(rs))
    requires Collect(Map(Traveller(x), Sorted(rs)), impact, Gnss) == Collect(Sorted(rs), impact, Gnss)
    ensures TraceOf(Map(Traveller(x), rs), impact) == TraceOf(rs, impact)
       <==> && Collect(Map(Traveller(x), Sorted(rs)), impact, Accel) == Collect(Sorted(rs), impact, Accel)
            && Collect(Map(Traveller(x), Sorted(rs)), impact, Snapshot) == Collect(Sorted(rs), impact, Snapshot)
  {
    var sorted := Sorted(rs);
    assert Duration(Map(Traveller(x), sorted)) == Duration(sorted);
  }

  /** What the gateway and the processor extract from a packet without entries of variable length. */
  lemma SameTraceWithoutNX(x: Text, p: AvlPacket)
    requires ValidPacket(p) && forall r :: r in p.records ==> !HasNX(r)
    ensures var q := Deserialize(x, Serialize(x, p));
            q.Some? && TraceIn(q.value) == TraceIn(p)
  {
    WireRoundTrip(x, p);
  }
}
