/** The JSON form in which packets travel from the gateway to the processor. */
module Wire {
  import opened Options
  import opened Bytes
  import opened Avl

  // ----- Decimal numbers -----

  function Decimal(n: nat): (s: string)
    ensures s != []
  {
    if n < 10 then [DigitChar(n)] else Decimal(n / 10) + [DigitChar(n % 10)]
  }

  function DigitChar(d: int): char
    requires 0 <= d < 10
  {
    '0' + d as char
  }

  /** None where `BigInt(s)` throws; a decimal with a sign, a prefix or spaces does not occur here. */
  function ParseDecimal(s: string): Option<nat> {
    if s == [] then Some(0)
    else
      var before, c := ParseDecimal(s[..|s| - 1]), s[|s| - 1];
      if before.None? || !('0' <= c <= '9') then None else Some(before.value * 10 + (c as int - '0' as int))
  }

  lemma {:induction false} DecimalRoundTrip(n: nat)
    ensures ParseDecimal(Decimal(n)) == Some(n)
  {
    var s := Decimal(n);
    if n < 10 {
      assert s[..0] == [];
    } else {
      DecimalRoundTrip(n / 10);
      assert s[..|s| - 1] == Decimal(n / 10);
    }
  }

  // ----- Packets -----

  /** JSON has no form for a number that is none: it becomes null, which the processor's schema refuses. */
  datatype WireValue = Num(n: int) | Str(s: string) | Null

  datatype WireEntry = WireEntry(id: int, value: WireValue, byteSize: ByteSize)

  datatype WireRecord = WireRecord(timestampMs: string, priority: int, gps: GpsElement, eventIoId: int, totalIo: int, entries: seq<WireEntry>)

  datatype WirePacket = WirePacket(codecId: int, recordCount: int, records: seq<WireRecord>)

  /** What the two sides share: how bytes are written in base64, and the number JavaScript reads in a string, if any. */
  datatype Text = Text(base64: seq<byte> -> string, number: string -> Option<int>)

  /** `map` over an array. */
  function Map<A, B>(f: A -> B, xs: seq<A>): (r: seq<B>)
    ensures |r| == |xs| && forall i :: 0 <= i < |xs| ==> r[i] == f(xs[i])
  {
    if xs == [] then [] else Map(f, xs[..|xs| - 1]) + [f(xs[|xs| - 1])]
  }

  function BigIntText(n: int): string {
    if n >= 0 then Decimal(n) else "-" + Decimal(-n)
  }

  function SerializeValue(x: Text, v: IoValue): WireValue {
    match v
    case BigInt(n) => Str(BigIntText(n))
    case Buffer(data) => Str(x.base64(data))
    case Number(n) => Num(n)
    case NotANumber => Null
  }

  function SerializeEntry(x: Text, e: IoEntry): WireEntry {
    WireEntry(e.id, SerializeValue(x, e.value), e.byteSize)
  }

  function SerializeRecord(x: Text, r: AvlRecord): WireRecord {
    WireRecord(BigIntText(r.timestampMs), r.priority, r.gps, r.io.eventIoId, r.io.totalIo, Map(e => SerializeEntry(x, e), r.io.entries))
  }

  function Serialize(x: Text, p: AvlPacket): WirePacket {
    WirePacket(p.codecId, p.recordCount, Map(r => SerializeRecord(x, r), p.records))
  }

  /** What reading a number as JavaScript does makes of a string. */
  function NumberIn(x: Text, s: string): IoValue {
    match x.number(s)
    case Some(n) => Number(n)
    case None => NotANumber
  }

  /** None where the processor throws. */
  function DeserializeValue(x: Text, v: WireValue, size: ByteSize): Option<IoValue> {
    match v
    case Num(n) => Some(Number(n))
    case Null => None
    case Str(s) =>
      if size != B8 then Some(NumberIn(x, s))
      else match ParseDecimal(s) case Some(n) => Some(BigInt(n)) case None => None
  }

  function DeserializeEntry(x: Text, e: WireEntry): Option<IoEntry> {
    match DeserializeValue(x, e.value, e.byteSize)
    case Some(v) => Some(IoEntry(e.id, v, e.byteSize))
    case None => None
  }

  /** The results of a function that may throw. */
  function Traverse<A, B>(f: A -> Option<B>, xs: seq<A>): Option<seq<B>> {
    if xs == [] then Some([])
    else
      var before, last := Traverse(f, xs[..|xs| - 1]), f(xs[|xs| - 1]);
      if before.Some? && last.Some? then Some(before.value + [last.value]) else None
  }

  function DeserializeRecord(x: Text, r: WireRecord): Option<AvlRecord> {
    var timestampMs, entries := ParseDecimal(r.timestampMs), Traverse(e => DeserializeEntry(x, e), r.entries);
    if timestampMs.None? || entries.None? then None
    else Some(AvlRecord(timestampMs.value, r.priority, r.gps, IoSection(r.eventIoId, r.totalIo, entries.value)))
  }

  function Deserialize(x: Text, p: WirePacket): Option<AvlPacket> {
    match Traverse(r => DeserializeRecord(x, r), p.records)
    case Some(records) => Some(AvlPacket(p.codecId, p.recordCount, records))
    case None => None
  }

  // ----- The form -----

  /** Decimal digits, without leading zeros. */
  lemma {:induction false} DecimalForm(n: nat)
    ensures forall i :: 0 <= i < |Decimal(n)| ==> '0' <= Decimal(n)[i] <= '9'
    ensures Decimal(n)[0] == '0' <==> n == 0
  {
    if n >= 10 {
      DecimalForm(n / 10);
    }
  }

  /** An entry in its wire form: numbers as they are, 64-bit values in decimal and bytes in base64, both as strings. */
  ghost predicate EntryForm(x: Text, w: WireEntry, e: IoEntry) {
    && w.id == e.id && w.byteSize == e.byteSize
    && match e.value
       case Number(n) => w.value == Num(n)
       case BigInt(n) => w.value == Str(if n < 0 then ['-'] + Decimal(-n) else Decimal(n))
       case Buffer(data) => w.value == Str(x.base64(data))
       case NotANumber => w.value == Null
  }

  /** A packet and its wire form have the same fields, and their records and entries in the same order. */
  lemma SerializedForm(x: Text, p: AvlPacket)
    ensures var w := Serialize(x, p);
            && w.codecId == p.codecId && w.recordCount == p.recordCount && |w.records| == |p.records|
            && forall i :: 0 <= i < |p.records| ==>
                 var (v, r) := (w.records[i], p.records[i]);
                 && (r.timestampMs >= 0 ==> v.timestampMs == Decimal(r.timestampMs))
                 && v.priority == r.priority && v.gps == r.gps && v.eventIoId == r.io.eventIoId && v.totalIo == r.io.totalIo
                 && |v.entries| == |r.io.entries|
                 && forall j :: 0 <= j < |r.io.entries| ==> EntryForm(x, v.entries[j], r.io.entries[j])
  {
  }

  // ----- What the trip changes -----

  /** A value of variable length comes out as the number its base64 reads as. */
  function TravelledEntry(x: Text, e: IoEntry): IoEntry {
    if e.byteSize == NX && e.value.Buffer? then e.(value := NumberIn(x, x.base64(e.value.data))) else e
  }

  function Travelled(x: Text, r: AvlRecord): AvlRecord {
    r.(io := r.io.(entries := Map(e => TravelledEntry(x, e), r.io.entries)))
  }

  lemma EntryTrip(x: Text, e: IoEntry, ext: bool)
    requires ValidEntry(e, ext)
    ensures DeserializeEntry(x, SerializeEntry(x, e)) == Some(TravelledEntry(x, e))
    ensures TravelledEntry(x, e) == e <==> e.byteSize != NX
  {
    if e.byteSize == B8 {
      DecimalRoundTrip(e.value.big);
    }
  }

  /** If each of `xs` comes out as `h` says, so do all of them. */
  lemma {:induction false} TraverseMap<A, B, C>(f: A -> B, g: B -> Option<C>, h: A -> C, xs: seq<A>)
    requires forall a :: a in xs ==> g(f(a)) == Some(h(a))
    ensures Traverse(g, Map(f, xs)) == Some(Map(h, xs))
  {
    if xs != [] {
      TraverseMap(f, g, h, xs[..|xs| - 1]);
      assert Map(f, xs)[..|xs| - 1] == Map(f, xs[..|xs| - 1]);
    }
  }

  lemma RecordTrip(x: Text, r: AvlRecord, ext: bool)
    requires ValidRecord(r, ext)
    ensures DeserializeRecord(x, SerializeRecord(x, r)) == Some(Travelled(x, r))
  {
    DecimalRoundTrip(r.timestampMs);
    forall e | e in r.io.entries
      ensures DeserializeEntry(x, SerializeEntry(x, e)) == Some(TravelledEntry(x, e))
    {
      EntryTrip(x, e, ext);
    }
    TraverseMap(e => SerializeEntry(x, e), e => DeserializeEntry(x, e), e => TravelledEntry(x, e), r.io.entries);
  }

  /** No packet the parser accepts makes the processor throw, and only its values of variable length change. */
  lemma WireTrip(x: Text, p: AvlPacket)
    requires ValidPacket(p)
    ensures Deserialize(x, Serialize(x, p)) == Some(p.(records := Map(r => Travelled(x, r), p.records)))
  {
    forall r | r in p.records
      ensures DeserializeRecord(x, SerializeRecord(x, r)) == Some(Travelled(x, r))
    {
      RecordTrip(x, r, p.codecId == CODEC_8E);
    }
    TraverseMap(r => SerializeRecord(x, r), r => DeserializeRecord(x, r), r => Travelled(x, r), p.records);
  }

  predicate HasNX(r: AvlRecord) {
    exists e :: e in r.io.entries && e.byteSize == NX
  }

  lemma MapSnoc<A, B>(f: A -> B, xs: seq<A>, a: A)
    ensures Map(f, xs + [a]) == Map(f, xs) + [f(a)]
  {
    assert (xs + [a])[..|xs|] == xs;
  }

  lemma MapCons<A, B>(f: A -> B, a: A, xs: seq<A>)
    ensures Map(f, [a] + xs) == [f(a)] + Map(f, xs)
  {
  }

  lemma MapSame<A>(f: A -> A, xs: seq<A>)
    ensures Map(f, xs) == xs <==> forall a :: a in xs ==> f(a) == a
  {
  }

  lemma TravelledSame(x: Text, r: AvlRecord, ext: bool)
    requires ValidRecord(r, ext)
    ensures Travelled(x, r) == r <==> !HasNX(r)
  {
    forall e | e in r.io.entries
      ensures TravelledEntry(x, e) == e <==> e.byteSize != NX
    {
      EntryTrip(x, e, ext);
    }
    MapSame(e => TravelledEntry(x, e), r.io.entries);
  }

  /** A packet the parser accepts survives the trip if and only if it has no entry of variable length. */
  lemma WireRoundTrip(x: Text, p: AvlPacket)
    requires ValidPacket(p)
    ensures Deserialize(x, Serialize(x, p)) == Some(p) <==> forall r :: r in p.records ==> !HasNX(r)
  {
    WireTrip(x, p);
    var travel := r => Travelled(x, r);
    forall r | r in p.records
      ensures travel(r) == r <==> !HasNX(r)
    {
      TravelledSame(x, r, p.codecId == CODEC_8E);
    }
    MapSame(travel, p.records);
  }
}
