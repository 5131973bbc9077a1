/** The forensic trace of a crash, taken from the packet the device sends around the impact. */
module CrashTrace {
  import opened Options
  import opened Avl
  import opened Connection

  /** A coordinate: a JavaScript number, which need not be one. */
  datatype Reading = Mg(mg: int) | NaN

  datatype AccelSample = AccelSample(tMsOffset: int, xMg: Reading, yMg: Reading, zMg: Reading)

  datatype GnssSample = GnssSample(tMsOffset: int, gps: GpsElement)

  datatype IoSnapshot = IoSnapshot(tMsOffset: int, entries: seq<IoEntry>)

  /** `peakSqMg` is the square of the peak, in mG: the root is taken when it is reported. */
  datatype Trace = Trace(crashTimestampMs: int, peakSqMg: int, durationMs: int,
                         accelerometer: seq<AccelSample>, gnss: seq<GnssSample>, io: seq<IoSnapshot>)

  const AXIS_X := 17
  const AXIS_Y := 18
  const AXIS_Z := 19

  predicate IsCrash(r: AvlRecord) {
    r.priority == 2 && r.io.eventIoId == CRASH_EVENT_AVL_ID
  }

  // ----- Chronological order -----

  function Insert(r: AvlRecord, rs: seq<AvlRecord>): seq<AvlRecord> {
    if rs == [] || r.timestampMs < rs[0].timestampMs then [r] + rs else [rs[0]] + Insert(r, rs[1..])
  }

  /** The stable sort by timestamp. */
  function Sorted(rs: seq<AvlRecord>): seq<AvlRecord> {
    if rs == [] then [] else Insert(rs[|rs| - 1], Sorted(rs[..|rs| - 1]))
  }

  ghost predicate InOrder(rs: seq<AvlRecord>) {
    forall i, j :: 0 <= i < j < |rs| ==> rs[i].timestampMs <= rs[j].timestampMs
  }

  /** The records of one instant, in order. */
  function At(rs: seq<AvlRecord>, t: int): seq<AvlRecord> {
    if rs == [] then [] else (if rs[0].timestampMs == t then [rs[0]] else []) + At(rs[1..], t)
  }

  lemma AtCons(r: AvlRecord, rs: seq<AvlRecord>, t: int)
    ensures At([r] + rs, t) == (if r.timestampMs == t then [r] else []) + At(rs, t)
  {
    assert ([r] + rs)[1..] == rs;
  }

  lemma {:induction false} InsertMembers(r: AvlRecord, rs: seq<AvlRecord>)
    ensures multiset(Insert(r, rs)) == multiset(rs) + multiset{r}
    ensures forall x :: x in Insert(r, rs) ==> x == r || x in rs
    decreases |rs|
  {
    if rs != [] && r.timestampMs >= rs[0].timestampMs {
      InsertMembers(r, rs[1..]);
      assert rs == [rs[0]] + rs[1..];
    }
  }

  lemma InOrderCons(r: AvlRecord, rs: seq<AvlRecord>)
    requires InOrder(rs) && forall x :: x in rs ==> r.timestampMs <= x.timestampMs
    ensures InOrder([r] + rs)
  {
  }

  lemma InOrderHead(rs: seq<AvlRecord>)
    requires InOrder(rs) && rs != []
    ensures InOrder(rs[1..]) && forall x :: x in rs ==> rs[0].timestampMs <= x.timestampMs
  {
  }

  lemma {:induction false} InsertSorts(r: AvlRecord, rs: seq<AvlRecord>)
    requires InOrder(rs)
    ensures InOrder(Insert(r, rs))
    decreases |rs|
  {
    if rs != [] {
      InOrderHead(rs);
      if r.timestampMs < rs[0].timestampMs {
        InOrderCons(r, rs);
      } else {
        InsertSorts(r, rs[1..]);
        InsertMembers(r, rs[1..]);
        InOrderCons(rs[0], Insert(r, rs[1..]));
      }
    }
  }

  /** An inserted record goes after those of its own instant. */
  lemma {:induction false} InsertIsStable(r: AvlRecord, rs: seq<AvlRecord>, t: int)
    requires InOrder(rs)
    ensures At(Insert(r, rs), t) == At(rs, t) + (if r.timestampMs == t then [r] else [])
    decreases |rs|
  {
    if rs == [] {
      AtCons(r, [], t);
      assert [r] + [] == [r];
    } else if r.timestampMs < rs[0].timestampMs {
      AtCons(r, rs, t);
      if r.timestampMs == t {
        NoneAt(rs, t);
      }
    } else {
      InsertIsStable(r, rs[1..], t);
      AtCons(rs[0], Insert(r, rs[1..]), t);
      Associate(if rs[0].timestampMs == t then [rs[0]] else [], At(rs[1..], t), if r.timestampMs == t then [r] else []);
    }
  }

  lemma Associate<T>(a: seq<T>, b: seq<T>, c: seq<T>)
    ensures a + b + c == a + (b + c)
  {
  }

  lemma {:induction false} NoneAt(rs: seq<AvlRecord>, t: int)
    requires forall i :: 0 <= i < |rs| ==> rs[i].timestampMs > t
    ensures At(rs, t) == []
  {
    if rs != [] {
      NoneAt(rs[1..], t);
    }
  }

  lemma {:induction false} AtSnoc(rs: seq<AvlRecord>, r: AvlRecord, t: int)
    ensures At(rs + [r], t) == At(rs, t) + (if r.timestampMs == t then [r] else [])
    decreases |rs|
  {
    if rs == [] {
      AtCons(r, [], t);
      assert [] + [r] == [r] + [];
    } else {
      AtSnoc(rs[1..], r, t);
      AtCons(rs[0], rs[1..] + [r], t);
      AtCons(rs[0], rs[1..], t);
      assert rs + [r] == [rs[0]] + (rs[1..] + [r]) && rs == [rs[0]] + rs[1..];
    }
  }

  /** The same records, in time order, those of one instant in the order they came. */
  lemma {:induction false} SortedIsStableSort(rs: seq<AvlRecord>)
    ensures InOrder(Sorted(rs)) && multiset(Sorted(rs)) == multiset(rs)
    ensures forall t :: At(Sorted(rs), t) == At(rs, t)
    decreases |rs|
  {
    if rs != [] {
      var init, last := rs[..|rs| - 1], rs[|rs| - 1];
      SortedIsStableSort(init);
      InsertSorts(last, Sorted(init));
      InsertMembers(last, Sorted(init));
      assert rs == init + [last];
      forall t
        ensures At(Sorted(rs), t) == At(rs, t)
      {
        InsertIsStable(last, Sorted(init), t);
        AtSnoc(init, last, t);
      }
    }
  }

  // ----- Samples -----

  /** `typeof value === 'number'`. */
  predicate IsNumber(v: IoValue) {
    v.Number? || v.NotANumber?
  }

  function ToSignedInt16(v: IoValue): Reading {
    match v
    case Number(n) => Mg(if n > 0x7fff then n - 0x1_0000 else n)
    case _ => NaN
  }

  /** The two's complement of 16 bits: the same number modulo 65536, between -32768 and 32767. */
  lemma SignedInt16(n: int)
    requires 0 <= n < 0x1_0000
    ensures var r := ToSignedInt16(Number(n));
            r.Mg? && -32768 <= r.mg <= 32767 && (r.mg == n || r.mg == n - 65536)
  {
  }

  /** The last number among the entries with an id. */
  function Axis(entries: seq<IoEntry>, id: int): Option<Reading> {
    if entries == [] then None
    else
      var last := entries[|entries| - 1];
      if IsNumber(last.value) && last.id == id then Some(ToSignedInt16(last.value)) else Axis(entries[..|entries| - 1], id)
  }

  /** A sample, if the three axes are there. */
  function Sample(t: int, x: Option<Reading>, y: Option<Reading>, z: Option<Reading>): seq<AccelSample> {
    if x.Some? && y.Some? && z.Some? then [AccelSample(t, x.value, y.value, z.value)] else []
  }

  function Accel(r: AvlRecord, t: int): seq<AccelSample> {
    Sample(t, Axis(r.io.entries, AXIS_X), Axis(r.io.entries, AXIS_Y), Axis(r.io.entries, AXIS_Z))
  }

  function Gnss(r: AvlRecord, t: int): seq<GnssSample> {
    if r.gps.satellites > 0 then [GnssSample(t, r.gps)] else []
  }

  function NotAccel(entries: seq<IoEntry>): seq<IoEntry> {
    if entries == [] then []
    else
      var last := entries[|entries| - 1];
      NotAccel(entries[..|entries| - 1]) + (if last.id in {AXIS_X, AXIS_Y, AXIS_Z} then [] else [last])
  }

  function Snapshot(r: AvlRecord, t: int): seq<IoSnapshot> {
    if NotAccel(r.io.entries) != [] then [IoSnapshot(t, NotAccel(r.io.entries))] else []
  }

  /** What `take` makes of each record, with its offset from the impact. */
  function Collect<T>(rs: seq<AvlRecord>, impact: int, take: (AvlRecord, int) -> seq<T>): seq<T> {
    if rs == [] then []
    else Collect(rs[..|rs| - 1], impact, take) + take(rs[|rs| - 1], rs[|rs| - 1].timestampMs - impact)
  }

  lemma CollectNext<T>(rs: seq<AvlRecord>, i: nat, impact: int, take: (AvlRecord, int) -> seq<T>)
    requires i < |rs|
    ensures Collect(rs[..i + 1], impact, take) == Collect(rs[..i], impact, take) + take(rs[i], rs[i].timestampMs - impact)
  {
    assert rs[..i + 1][..i] == rs[..i];
  }

  function Square(s: AccelSample): Option<int> {
    match (s.xMg, s.yMg, s.zMg)
    case (Mg(x), Mg(y), Mg(z)) => Some(x * x + y * y + z * z)
    case _ => None
  }

  function PeakSq(samples: seq<AccelSample>): int {
    if samples == [] then 0
    else
      var before, last := PeakSq(samples[..|samples| - 1]), Square(samples[|samples| - 1]);
      if last.Some? && last.value > before then last.value else before
  }

  function Duration(sorted: seq<AvlRecord>): int {
    if sorted == [] then 0 else sorted[|sorted| - 1].timestampMs - sorted[0].timestampMs
  }

  /** The instant of the first crash record, in the order of the packet. */
  function Impact(rs: seq<AvlRecord>): Option<int> {
    if rs == [] then None else if IsCrash(rs[0]) then Some(rs[0].timestampMs) else Impact(rs[1..])
  }

  function TraceOf(rs: seq<AvlRecord>, impact: int): Trace {
    var sorted := Sorted(rs);
    var accelerometer := Collect(sorted, impact, Accel);
    Trace(impact, PeakSq(accelerometer), Duration(sorted), accelerometer, Collect(sorted, impact, Gnss), Collect(sorted, impact, Snapshot))
  }

  function TraceIn(p: AvlPacket): Option<Trace> {
    match Impact(p.records) case None => None case Some(impact) => Some(TraceOf(p.records, impact))
  }

  method ExtractCrashTrace(p: AvlPacket) returns (t: Option<Trace>)
    ensures t == TraceIn(p)
    ensures t.Some? <==> IsCrashTracePacket(p)
  {
    ImpactIff(p.records);
    if !IsCrashTracePacket(p) {
      return None;
    }
    var crash := FindCrash(p.records);
    var sorted := Sorted(p.records);
    var accelerometer, gnss, io := [], [], [];
    for i := 0 to |sorted|
      invariant accelerometer == Collect(sorted[..i], crash, Accel)
      invariant gnss == Collect(sorted[..i], crash, Gnss)
      invariant io == Collect(sorted[..i], crash, Snapshot)
    {
      CollectNext(sorted, i, crash, Accel);
      CollectNext(sorted, i, crash, Gnss);
      CollectNext(sorted, i, crash, Snapshot);
      var r := sorted[i];
      var tMsOffset := r.timestampMs - crash;
      var sample := TryExtractAccelSample(r, tMsOffset);
      accelerometer := accelerometer + sample;
      gnss := gnss + Gnss(r, tMsOffset);
      io := io + Snapshot(r, tMsOffset);
    }
    assert sorted[..|sorted|] == sorted;
    var peak := ComputePeak(accelerometer);
    t := Some(Trace(crash, peak, Duration(sorted), accelerometer, gnss, io));
  }

  lemma {:induction false} ImpactIff(rs: seq<AvlRecord>)
    ensures Impact(rs).Some? <==> exists r :: r in rs && IsCrash(r)
  {
    if rs != [] {
      ImpactIff(rs[1..]);
      assert rs == [rs[0]] + rs[1..];
    }
  }

  method FindCrash(rs: seq<AvlRecord>) returns (impact: int)
    requires Impact(rs).Some?
    ensures Impact(rs) == Some(impact)
  {
    var i := 0;
    while !IsCrash(rs[i])
      invariant i < |rs| && Impact(rs[i..]) == Impact(rs)
      decreases |rs| - i
    {
      assert rs[i..][1..] == rs[i + 1..];
      i := i + 1;
    }
    impact := rs[i].timestampMs;
  }

  method TryExtractAccelSample(r: AvlRecord, t: int) returns (sample: seq<AccelSample>)
    ensures sample == Accel(r, t)
  {
    var x, y, z := None, None, None;
    for i := 0 to |r.io.entries|
      invariant x == Axis(r.io.entries[..i], AXIS_X)
      invariant y == Axis(r.io.entries[..i], AXIS_Y)
      invariant z == Axis(r.io.entries[..i], AXIS_Z)
    {
      assert r.io.entries[..i + 1][..i] == r.io.entries[..i];
      var e := r.io.entries[i];
      if IsNumber(e.value) {
        var signed := ToSignedInt16(e.value);
        if e.id == AXIS_X {
          x := Some(signed);
        } else if e.id == AXIS_Y {
          y := Some(signed);
        } else if e.id == AXIS_Z {
          z := Some(signed);
        }
      }
    }
    assert r.io.entries[..|r.io.entries|] == r.io.entries;
    sample := if x.Some? && y.Some? && z.Some? then [AccelSample(t, x.value, y.value, z.value)] else [];
  }

  method ComputePeak(samples: seq<AccelSample>) returns (peakSqMg: int)
    ensures peakSqMg == PeakSq(samples)
  {
    peakSqMg := 0;
    for i := 0 to |samples|
      invariant peakSqMg == PeakSq(samples[..i])
    {
      assert samples[..i + 1][..i] == samples[..i];
      var sq := Square(samples[i]);
      if sq.Some? && sq.value > peakSqMg {
        peakSqMg := sq.value;
      }
    }
    assert samples[..|samples|] == samples;
  }

  // ----- What a trace says -----

  /** The peak bounds every sample whose coordinates are numbers and, unless there is none, is reached by one. */
  lemma {:induction false} PeakIsTheMaximum(samples: seq<AccelSample>)
    ensures forall s :: s in samples && Square(s).Some? ==> Square(s).value <= PeakSq(samples)
    ensures PeakSq(samples) == 0 || exists s :: s in samples && Square(s) == Some(PeakSq(samples))
    decreases |samples|
  {
    if samples != [] {
      PeakIsTheMaximum(samples[..|samples| - 1]);
      assert samples == samples[..|samples| - 1] + [samples[|samples| - 1]];
    }
  }

  /** The duration is the greatest distance between two records, whatever their order in the packet. */
  lemma DurationIsTheSpan(rs: seq<AvlRecord>)
    ensures forall r, s :: r in rs && s in rs ==> s.timestampMs - r.timestampMs <= Duration(Sorted(rs))
    ensures rs != [] ==> exists r, s :: r in rs && s in rs && s.timestampMs - r.timestampMs == Duration(Sorted(rs))
  {
    SortedIsStableSort(rs);
    SameMembers(Sorted(rs), rs);
    SpanOfOrdered(Sorted(rs));
    if rs != [] {
      assert |Sorted(rs)| == |multiset(Sorted(rs))| == |rs|;
      var r, s := Sorted(rs)[0], Sorted(rs)[|Sorted(rs)| - 1];
      assert r in rs && s in rs && s.timestampMs - r.timestampMs == Duration(Sorted(rs));
    }
  }

  lemma SpanOfOrdered(rs: seq<AvlRecord>)
    requires InOrder(rs)
    ensures forall r, s :: r in rs && s in rs ==> s.timestampMs - r.timestampMs <= Duration(rs)
  {
    forall r, s | r in rs && s in rs
      ensures s.timestampMs - r.timestampMs <= Duration(rs)
    {
      var i :| 0 <= i < |rs| && rs[i] == r;
      var j :| 0 <= j < |rs| && rs[j] == s;
      assert rs[0].timestampMs <= rs[i].timestampMs && rs[j].timestampMs <= rs[|rs| - 1].timestampMs;
    }
  }

  lemma SameMembers(a: seq<AvlRecord>, b: seq<AvlRecord>)
    requires multiset(a) == multiset(b)
    ensures forall r :: r in a <==> r in b
  {
    forall r
      ensures r in a <==> r in b
    {
      assert r in a <==> r in multiset(a);
      assert r in b <==> r in multiset(b);
    }
  }

  /** Each item comes from a record and carries its distance to the impact. */
  ghost predicate Dated<T(!new)>(take: (AvlRecord, int) -> seq<T>, offset: T -> int) {
    forall r, t, x :: x in take(r, t) ==> offset(x) == t
  }

  ghost predicate NotBefore<T>(items: seq<T>, offset: T -> int) {
    forall i, j :: 0 <= i < j < |items| ==> offset(items[i]) <= offset(items[j])
  }

  lemma {:induction false} CollectInOrder<T(!new)>(rs: seq<AvlRecord>, impact: int, take: (AvlRecord, int) -> seq<T>, offset: T -> int)
    requires InOrder(rs) && Dated(take, offset)
    ensures var items := Collect(rs, impact, take);
            && NotBefore(items, offset)
            && forall x :: x in items ==> rs != [] && offset(x) <= rs[|rs| - 1].timestampMs - impact
    decreases |rs|
  {
    if rs != [] {
      var init, last := rs[..|rs| - 1], rs[|rs| - 1];
      var t := last.timestampMs - impact;
      CollectInOrder(init, impact, take, offset);
      var before := Collect(init, impact, take);
      var items := before + take(last, t);
      forall i | 0 <= i < |items|
        ensures offset(items[i]) <= t && (i >= |before| ==> offset(items[i]) == t)
      {
        if i < |before| {
          assert items[i] in before;
        } else {
          assert items[i] in take(last, t);
        }
      }
    }
  }

  lemma {:induction false} CollectMembers<T(!new)>(rs: seq<AvlRecord>, impact: int, take: (AvlRecord, int) -> seq<T>, x: T)
    ensures x in Collect(rs, impact, take) <==> exists r :: r in rs && x in take(r, r.timestampMs - impact)
    decreases |rs|
  {
    if rs != [] {
      var init, last := rs[..|rs| - 1], rs[|rs| - 1];
      CollectMembers(init, impact, take, x);
      assert rs == init + [last];
    }
  }

  function AccelTime(s: AccelSample): int { s.tMsOffset }
  function GnssTime(s: GnssSample): int { s.tMsOffset }
  function IoTime(s: IoSnapshot): int { s.tMsOffset }

  /** The three lists of a trace are in time order. */
  lemma TraceInOrder(rs: seq<AvlRecord>, impact: int)
    ensures var t := TraceOf(rs, impact);
            NotBefore(t.accelerometer, AccelTime) && NotBefore(t.gnss, GnssTime) && NotBefore(t.io, IoTime)
  {
    SortedIsStableSort(rs);
    SamplesAreDated();
    CollectInOrder(Sorted(rs), impact, Accel, AccelTime);
    CollectInOrder(Sorted(rs), impact, Gnss, GnssTime);
    CollectInOrder(Sorted(rs), impact, Snapshot, IoTime);
  }

  lemma SamplesAreDated()
    ensures Dated(Accel, AccelTime) && Dated(Gnss, GnssTime) && Dated(Snapshot, IoTime)
  {
  }

  /** The samples of a trace are exactly those the records of the packet give, whatever the order of the packet. */
  lemma TraceIsComplete(rs: seq<AvlRecord>, impact: int, a: AccelSample, g: GnssSample, s: IoSnapshot)
    ensures var t := TraceOf(rs, impact);
            && (a in t.accelerometer <==> exists r :: r in rs && a in Accel(r, r.timestampMs - impact))
            && (g in t.gnss <==> exists r :: r in rs && g in Gnss(r, r.timestampMs - impact))
            && (s in t.io <==> exists r :: r in rs && s in Snapshot(r, r.timestampMs - impact))
  {
    SortedIsStableSort(rs);
    SameMembers(Sorted(rs), rs);
    CollectMembers(Sorted(rs), impact, Accel, a);
    CollectMembers(Sorted(rs), impact, Gnss, g);
    CollectMembers(Sorted(rs), impact, Snapshot, s);
  }

  // ----- The same in numbers -----

  /** The last number among the entries with this id, as a two's complement of 16 bits. */
  ghost predicate Reads(entries: seq<IoEntry>, id: int, reading: Reading) {
    exists i ::
      && 0 <= i < |entries| && entries[i].id == id
      && (match entries[i].value
          case Number(n) => reading == Mg(if n < 0x8000 then n else n - 0x1_0000)
          case NotANumber => reading == NaN
          case _ => false)
      && NoneAfter(entries, id, i)
  }

  ghost predicate NoneAfter(entries: seq<IoEntry>, id: int, i: int) {
    forall j :: 0 <= j < |entries| && i < j && entries[j].id == id ==> entries[j].value.BigInt? || entries[j].value.Buffer?
  }

  lemma {:induction false} AxisReads(entries: seq<IoEntry>, id: int, reading: Reading)
    ensures Axis(entries, id) == Some(reading) <==> Reads(entries, id, reading)
    decreases |entries|
  {
    if entries != [] {
      var init, n := entries[..|entries| - 1], |entries| - 1;
      AxisReads(init, id, reading);
      if entries[n].id == id && IsNumber(entries[n].value) {
        LastReads(entries, id, reading);
      } else {
        ReadsSnoc(init, entries[n], id, reading);
        assert entries == init + [entries[n]];
      }
    }
  }

  lemma LastReads(entries: seq<IoEntry>, id: int, reading: Reading)
    requires entries != [] && entries[|entries| - 1].id == id && IsNumber(entries[|entries| - 1].value)
    ensures Reads(entries, id, reading) <==> reading == ToSignedInt16(entries[|entries| - 1].value)
  {
    var n := |entries| - 1;
    assert NoneAfter(entries, id, n);
    if Reads(entries, id, reading) {
      var i :| 0 <= i < |entries| && entries[i].id == id && NoneAfter(entries, id, i)
        && (match entries[i].value
            case Number(n) => reading == Mg(if n < 0x8000 then n else n - 0x1_0000)
            case NotANumber => reading == NaN
            case _ => false);
      assert i == n;
    }
  }

  lemma ReadsSnoc(entries: seq<IoEntry>, e: IoEntry, id: int, reading: Reading)
    requires e.id != id || !IsNumber(e.value)
    ensures Reads(entries + [e], id, reading) <==> Reads(entries, id, reading)
  {
    var all := entries + [e];
    forall i | 0 <= i < |entries|
      ensures NoneAfter(all, id, i) <==> NoneAfter(entries, id, i)
    {
      assert forall j :: 0 <= j < |entries| ==> all[j] == entries[j];
    }
  }

  /** The entries that are on no axis. */
  function Others(entries: seq<IoEntry>): seq<IoEntry> {
    if entries == [] then []
    else (if 17 <= entries[0].id <= 19 then [] else [entries[0]]) + Others(entries[1..])
  }

  lemma {:induction false} OthersSnoc(entries: seq<IoEntry>, e: IoEntry)
    ensures Others(entries + [e]) == Others(entries) + (if 17 <= e.id <= 19 then [] else [e])
    decreases |entries|
  {
    if entries == [] {
      assert [] + [e] == [e] && [e][1..] == [];
    } else {
      assert (entries + [e])[1..] == entries[1..] + [e];
      OthersSnoc(entries[1..], e);
      AssociateEntries(if 17 <= entries[0].id <= 19 then [] else [entries[0]], Others(entries[1..]),
                       if 17 <= e.id <= 19 then [] else [e]);
    }
  }

  lemma AssociateEntries(a: seq<IoEntry>, b: seq<IoEntry>, c: seq<IoEntry>)
    ensures a + (b + c) == a + b + c
  {
  }

  lemma {:induction false} NotAccelIsOthers(entries: seq<IoEntry>)
    ensures NotAccel(entries) == Others(entries)
    decreases |entries|
  {
    if entries != [] {
      var init, last := entries[..|entries| - 1], entries[|entries| - 1];
      NotAccelIsOthers(init);
      OthersSnoc(init, last);
      assert entries == init + [last];
    }
  }

  /** A record gives a sample if it has a number on each of the axes 17, 18 and 19. */
  ghost predicate GivesSample(r: AvlRecord, t: int, a: AccelSample) {
    && a.tMsOffset == t
    && Reads(r.io.entries, 17, a.xMg) && Reads(r.io.entries, 18, a.yMg) && Reads(r.io.entries, 19, a.zMg)
  }

  /** A fix if a satellite was seen. */
  ghost predicate GivesFix(r: AvlRecord, t: int, g: GnssSample) {
    g.tMsOffset == t && g.gps == r.gps && r.gps.satellites >= 1
  }

  /** A snapshot if it has entries on no axis. */
  ghost predicate GivesSnapshot(r: AvlRecord, t: int, s: IoSnapshot) {
    s.tMsOffset == t && s.entries == Others(r.io.entries) != []
  }

  lemma RecordInNumbers(r: AvlRecord, t: int, a: AccelSample, g: GnssSample, s: IoSnapshot)
    ensures a in Accel(r, t) <==> GivesSample(r, t, a)
    ensures g in Gnss(r, t) <==> GivesFix(r, t, g)
    ensures s in Snapshot(r, t) <==> GivesSnapshot(r, t, s)
    ensures |Accel(r, t)| <= 1 && |Gnss(r, t)| <= 1 && |Snapshot(r, t)| <= 1
  {
    AxisReads(r.io.entries, 17, a.xMg);
    AxisReads(r.io.entries, 18, a.yMg);
    AxisReads(r.io.entries, 19, a.zMg);
    NotAccelIsOthers(r.io.entries);
  }

  /** The three lists of a trace, from the records of the packet, each item dated from the impact. */
  lemma TraceInNumbers(rs: seq<AvlRecord>, impact: int, a: AccelSample, g: GnssSample, s: IoSnapshot)
    ensures var t := TraceOf(rs, impact);
            && (a in t.accelerometer <==> exists r :: r in rs && GivesSample(r, r.timestampMs - impact, a))
            && (g in t.gnss <==> exists r :: r in rs && GivesFix(r, r.timestampMs - impact, g))
            && (s in t.io <==> exists r :: r in rs && GivesSnapshot(r, r.timestampMs - impact, s))
  {
    TraceIsComplete(rs, impact, a, g, s);
    forall r, t
      ensures a in Accel(r, t) <==> GivesSample(r, t, a)
      ensures g in Gnss(r, t) <==> GivesFix(r, t, g)
      ensures s in Snapshot(r, t) <==> GivesSnapshot(r, t, s)
    {
      RecordInNumbers(r, t, a, g, s);
    }
  }

  /** How many items the records give. */
  function Given<T>(rs: seq<AvlRecord>, impact: int, take: (AvlRecord, int) -> seq<T>): nat {
    if rs == [] then 0 else |take(rs[0], rs[0].timestampMs - impact)| + Given(rs[1..], impact, take)
  }

  lemma GivenCons<T>(r: AvlRecord, rs: seq<AvlRecord>, impact: int, take: (AvlRecord, int) -> seq<T>)
    ensures Given([r] + rs, impact, take) == |take(r, r.timestampMs - impact)| + Given(rs, impact, take)
  {
    assert ([r] + rs)[1..] == rs;
  }

  lemma {:induction false} GivenSnoc<T>(rs: seq<AvlRecord>, r: AvlRecord, impact: int, take: (AvlRecord, int) -> seq<T>)
    ensures Given(rs + [r], impact, take) == Given(rs, impact, take) + |take(r, r.timestampMs - impact)|
    decreases |rs|
  {
    if rs == [] {
      GivenCons(r, [], impact, take);
      assert [] + [r] == [r] + [];
    } else {
      assert rs + [r] == [rs[0]] + (rs[1..] + [r]);
      GivenSnoc(rs[1..], r, impact, take);
      GivenCons(rs[0], rs[1..] + [r], impact, take);
    }
  }

  lemma {:induction false} GivenInserted<T>(r: AvlRecord, rs: seq<AvlRecord>, impact: int, take: (AvlRecord, int) -> seq<T>)
    ensures Given(Insert(r, rs), impact, take) == |take(r, r.timestampMs - impact)| + Given(rs, impact, take)
    decreases |rs|
  {
    if rs == [] || r.timestampMs < rs[0].timestampMs {
      GivenCons(r, rs, impact, take);
    } else {
      GivenInserted(r, rs[1..], impact, take);
      GivenCons(rs[0], Insert(r, rs[1..]), impact, take);
    }
  }

  /** The lists hold as many items as the records of the packet give, whatever their order. */
  lemma {:induction false} CollectedIsGiven<T>(rs: seq<AvlRecord>, impact: int, take: (AvlRecord, int) -> seq<T>)
    ensures |Collect(rs, impact, take)| == Given(rs, impact, take) == Given(Sorted(rs), impact, take)
    decreases |rs|
  {
    if rs != [] {
      var init, last := rs[..|rs| - 1], rs[|rs| - 1];
      CollectedIsGiven(init, impact, take);
      GivenSnoc(init, last, impact, take);
      GivenInserted(last, Sorted(init), impact, take);
      assert rs == init + [last];
    }
  }

  /** The first crash record of a packet. */
  ghost predicate FirstCrash(rs: seq<AvlRecord>, i: nat) {
    && i < |rs| && rs[i].priority == 2 && rs[i].io.eventIoId == 247
    && forall j :: 0 <= j < i ==> !(rs[j].priority == 2 && rs[j].io.eventIoId == 247)
  }

  lemma {:induction false} ImpactIsFirst(rs: seq<AvlRecord>)
    ensures Impact(rs).None? ==> forall r :: r in rs ==> !(r.priority == 2 && r.io.eventIoId == 247)
    ensures Impact(rs).Some? ==> exists i: nat :: FirstCrash(rs, i) && rs[i].timestampMs == Impact(rs).value
  {
    if rs != [] {
      if IsCrash(rs[0]) {
        assert FirstCrash(rs, 0);
      } else {
        ImpactIsFirst(rs[1..]);
        assert rs == [rs[0]] + rs[1..];
        if Impact(rs).Some? {
          var i: nat :| FirstCrash(rs[1..], i) && rs[1..][i].timestampMs == Impact(rs).value;
          assert FirstCrash(rs, i + 1);
        }
      }
    }
  }

  /** The peak is the largest sum of three squares among the samples whose coordinates are numbers, or 0 if there is none. */
  ghost predicate IsPeak(samples: seq<AccelSample>, peakSq: int) {
    && (forall t, x, y, z :: AccelSample(t, Mg(x), Mg(y), Mg(z)) in samples ==> x * x + y * y + z * z <= peakSq)
    && (peakSq == 0 || exists t, x, y, z :: AccelSample(t, Mg(x), Mg(y), Mg(z)) in samples && x * x + y * y + z * z == peakSq)
  }

  lemma PeakInNumbers(samples: seq<AccelSample>)
    ensures IsPeak(samples, PeakSq(samples))
  {
    PeakIsTheMaximum(samples);
    forall t, x, y, z | AccelSample(t, Mg(x), Mg(y), Mg(z)) in samples
      ensures x * x + y * y + z * z <= PeakSq(samples)
    {
      assert Square(AccelSample(t, Mg(x), Mg(y), Mg(z))) == Some(x * x + y * y + z * z);
    }
    if PeakSq(samples) != 0 {
      var s :| s in samples && Square(s) == Some(PeakSq(samples));
      assert s == AccelSample(s.tMsOffset, Mg(s.xMg.mg), Mg(s.yMg.mg), Mg(s.zMg.mg));
    }
  }

  /**
   * The rest of a trace: there is one exactly for a packet with a crash record, its instant is the first one's, its
   * duration the greatest distance of two records, its peak that of its samples, and its lists are as long as what the records give.
   */
  lemma WhatATraceSays(p: AvlPacket)
    ensures match TraceIn(p)
            case None => forall r :: r in p.records ==> !(r.priority == 2 && r.io.eventIoId == 247)
            case Some(t) =>
              && (exists i: nat :: FirstCrash(p.records, i) && p.records[i].timestampMs == t.crashTimestampMs)
              && (forall r, s :: r in p.records && s in p.records ==> s.timestampMs - r.timestampMs <= t.durationMs)
              && (exists r, s :: r in p.records && s in p.records && s.timestampMs - r.timestampMs == t.durationMs)
              && IsPeak(t.accelerometer, t.peakSqMg)
              && |t.accelerometer| == Given(p.records, t.crashTimestampMs, Accel)
              && |t.gnss| == Given(p.records, t.crashTimestampMs, Gnss) && |t.io| == Given(p.records, t.crashTimestampMs, Snapshot)
  {
    ImpactIsFirst(p.records);
    if Impact(p.records).Some? {
      var impact := Impact(p.records).value;
      DurationIsTheSpan(p.records);
      PeakInNumbers(Collect(Sorted(p.records), impact, Accel));
      CollectedIsGiven(p.records, impact, Accel);
      CollectedIsGiven(Sorted(p.records), impact, Accel);
      CollectedIsGiven(p.records, impact, Gnss);
      CollectedIsGiven(Sorted(p.records), impact, Gnss);
      CollectedIsGiven(p.records, impact, Snapshot);
      CollectedIsGiven(Sorted(p.records), impact, Snapshot);
    }
  }
}
