/** The packets of the simulated device: an encoder written apart from the parser. */
module Simulator {
  import opened Options
  import opened Bytes
  import opened Crc16Ibm
  import opened Avl
  import opened AvlParse
  import opened AvlExact

  datatype Opts = Opts(timestampMs: int, latitude: real, longitude: real, altitudeM: int, angleDeg: real,
                       speedKmh: real, satellites: int, temperatureC: real)

  /** `Math.round`. */
  function Round(x: real): int {
    (x + 0.5).Floor
  }

  /** JavaScript's `%`: the remainder has the sign of the dividend. */
  function Rem(a: int, b: int): int
    requires b > 0
  {
    if a >= 0 then a % b else -((-a) % b)
  }

  function Positive(n: int): int {
    if n < 0 then 0 else n
  }

  /** Tenths of a degree as a two's complement of 16 bits. */
  function DallasRaw(temperatureC: real): int {
    var deci := Round(temperatureC * 10.0);
    if deci < 0 then deci + 0x1_0000 else deci
  }

  datatype Io = Io(id: int, value: int)

  function OneByteIos(o: Opts): seq<Io> {
    [Io(239, 1), Io(240, if o.speedKmh > 0.0 then 1 else 0), Io(200, 0), Io(21, 4), Io(69, 1), Io(80, 0)]
  }

  function TwoByteIos(o: Opts): seq<Io> {
    [Io(181, 18), Io(182, 12), Io(66, 12500), Io(67, 4100), Io(68, 150), Io(24, Positive(Round(o.speedKmh))), Io(72, DallasRaw(o.temperatureC))]
  }

  function Entries(ios: seq<Io>, size: ByteSize): (es: seq<IoEntry>)
    ensures |es| == |ios|
  {
    seq(|ios|, i requires 0 <= i < |ios| => IoEntry(ios[i].id, Number(ios[i].value), size))
  }

  function GpsOf(o: Opts): GpsElement {
    GpsElement(Round(o.longitude * 10000000.0), Round(o.latitude * 10000000.0), o.altitudeM, Rem(Round(o.angleDeg), 360),
               o.satellites, Positive(Round(o.speedKmh)))
  }

  function IosOf(o: Opts): seq<IoEntry> {
    Entries(OneByteIos(o), B1) + Entries(TwoByteIos(o), B2)
  }

  /** The packet meant: one record, with its thirteen IO entries. */
  function PacketOf(o: Opts): AvlPacket {
    AvlPacket(CODEC_8, 1, [AvlRecord(o.timestampMs, 1, GpsOf(o), IoSection(0, 13, IosOf(o)))])
  }

  // ----- What the packet says -----

  /** The nearest integer, halves up. */
  lemma RoundIsNearest(x: real)
    ensures Round(x) as real - 0.5 <= x < Round(x) as real + 0.5
  {
  }

  /** The remainder of a division towards zero: a multiple of `b` away, less than it, and of the same sign. */
  lemma RemIsTruncated(a: int, b: int) returns (q: int)
    requires b > 0
    ensures a == q * b + Rem(a, b) && -b < Rem(a, b) < b
    ensures (a >= 0 ==> Rem(a, b) >= 0) && (a <= 0 ==> Rem(a, b) <= 0)
  {
    q := if a >= 0 then a / b else -((-a) / b);
  }

  /** The position is the options', in the units of the wire. */
  ghost predicate Positions(o: Opts, g: GpsElement) {
    && g.longitude == Round(o.longitude * 10_000_000.0) && g.latitude == Round(o.latitude * 10_000_000.0)
    && g.altitude == o.altitudeM && g.angle == Rem(Round(o.angleDeg), 360) && g.satellites == o.satellites
    && g.speedKmh == (if Round(o.speedKmh) > 0 then Round(o.speedKmh) else 0)
  }

  /** Six entries of one byte and seven of two: ignition, movement, speed, temperature and constants. */
  ghost predicate Elements(o: Opts, es: seq<IoEntry>) {
    var speed, deci := Round(o.speedKmh), Round(o.temperatureC * 10.0);
    && |es| == 13
    && es[0] == IoEntry(239, Number(1), B1) && es[1] == IoEntry(240, Number(if o.speedKmh > 0.0 then 1 else 0), B1)
    && es[2] == IoEntry(200, Number(0), B1) && es[3] == IoEntry(21, Number(4), B1)
    && es[4] == IoEntry(69, Number(1), B1) && es[5] == IoEntry(80, Number(0), B1)
    && es[6] == IoEntry(181, Number(18), B2) && es[7] == IoEntry(182, Number(12), B2)
    && es[8] == IoEntry(66, Number(12500), B2) && es[9] == IoEntry(67, Number(4100), B2) && es[10] == IoEntry(68, Number(150), B2)
    && es[11] == IoEntry(24, Number(if speed > 0 then speed else 0), B2)
    && es[12] == IoEntry(72, Number(if deci >= 0 then deci else deci + 65536), B2)
  }

  /** The packet of the simulated device, field by field. */
  lemma MeansTheOptions(o: Opts)
    ensures var p := PacketOf(o);
            && p.codecId == 8 && p.recordCount == |p.records| == 1
            && var r := p.records[0];
               && r.timestampMs == o.timestampMs && r.priority == 1 && Positions(o, r.gps)
               && r.io.eventIoId == 0 && r.io.totalIo == 13 && Elements(o, r.io.entries)
  {
  }

  /** The values a Buffer can be given: otherwise a write throws a RangeError. */
  predicate InRange(o: Opts) {
    Fits(o.timestampMs, 8) && ValidGps(GpsOf(o)) && Fits(DallasRaw(o.temperatureC), 2)
  }

  // ----- The encoder -----

  /** Identifier and value of each entry, one after the other. */
  method WriteIos(ios: seq<Io>, size: ByteSize) returns (s: Option<seq<byte>>)
    requires size == B1 || size == B2
    ensures s.Some? <==> forall io :: io in ios ==> Fits(io.value, Width(size))
    ensures s.Some? ==> s.value == EncodeList(EntryEncoder(false), Entries(ios, size))
  {
    var bytes := [];
    for i := 0 to |ios|
      invariant bytes == EncodeList(EntryEncoder(false), Entries(ios[..i], size))
      invariant forall k :: 0 <= k < i ==> Fits(ios[k].value, Width(size))
    {
      var io := ios[i];
      if !Fits(io.value, Width(size)) {
        assert io in ios;
        return None;
      }
      EncodeListSnoc(EntryEncoder(false), Entries(ios[..i], size), IoEntry(io.id, Number(io.value), size));
      assert Entries(ios[..i + 1], size) == Entries(ios[..i], size) + [IoEntry(io.id, Number(io.value), size)];
      bytes := bytes + (ToBE(io.id, 1) + ToBE(io.value, Width(size)));
    }
    assert ios[..|ios|] == ios;
    s := Some(bytes);
  }

  lemma {:induction false} EncodeListSnoc<T>(encode: T -> seq<byte>, xs: seq<T>, x: T)
    ensures EncodeList(encode, xs + [x]) == EncodeList(encode, xs) + encode(x)
    decreases |xs|
  {
    if xs == [] {
      assert [] + [x] == [x] && [x][1..] == [];
      assert encode(x) + [] == encode(x);
    } else {
      assert (xs + [x])[0] == xs[0] && (xs + [x])[1..] == xs[1..] + [x];
      EncodeListSnoc(encode, xs[1..], x);
      assert encode(xs[0]) + (EncodeList(encode, xs[1..]) + encode(x)) == encode(xs[0]) + EncodeList(encode, xs[1..]) + encode(x);
    }
  }

  /** The groups of the IO section: six entries of one byte, seven of two, and two empty groups. */
  lemma GroupsOf(a: seq<IoEntry>, b: seq<IoEntry>)
    requires (forall e :: e in a ==> e.byteSize == B1) && forall e :: e in b ==> e.byteSize == B2
    ensures EncodeGroups(GroupEncoder(false), a + b, [B1, B2, B4, B8])
         == EncodeGroup(a, false) + (EncodeGroup(b, false) + (EncodeGroup([], false) + EncodeGroup([], false)))
    ensures a + b == ByGroup(a + b, [B1, B2, B4, B8])
  {
    var g, es := GroupEncoder(false), a + b;
    PickGroup(a, b, B1);
    PickGroup(a, b, B2);
    PickGroup(a, b, B4);
    PickGroup(a, b, B8);
    FirstOfGroups(g, es, B8, []);
    FirstOfGroups(g, es, B4, [B8]);
    FirstOfGroups(g, es, B2, [B4, B8]);
    FirstOfGroups(g, es, B1, [B2, B4, B8]);
    assert g([]) + [] == g([]);
    assert ByGroup(es, []) == [] && EncodeGroups(g, es, []) == [];
    assert b + [] == b && [] + ByGroup(es, []) == [];
  }

  lemma FirstOfGroups(g: seq<IoEntry> -> seq<byte>, es: seq<IoEntry>, size: ByteSize, sizes: seq<ByteSize>)
    ensures EncodeGroups(g, es, [size] + sizes) == g(OfSize(es, size)) + EncodeGroups(g, es, sizes)
    ensures ByGroup(es, [size] + sizes) == OfSize(es, size) + ByGroup(es, sizes)
  {
    assert ([size] + sizes)[1..] == sizes;
  }

  lemma PickGroup(a: seq<IoEntry>, b: seq<IoEntry>, size: ByteSize)
    requires (forall e :: e in a ==> e.byteSize == B1) && forall e :: e in b ==> e.byteSize == B2
    ensures OfSize(a + b, size) == if size == B1 then a else if size == B2 then b else []
  {
    OfSizeConcat(a, b, size);
    OfSizeUniform(a, B1, size);
    OfSizeUniform(b, B2, size);
  }

  /** The packet fits the format exactly when no write throws. */
  lemma InRangeIffValid(o: Opts)
    ensures ValidPacket(PacketOf(o)) <==> InRange(o)
  {
    var p := PacketOf(o);
    var r := p.records[0];
    assert r in p.records && forall x :: x in p.records ==> x == r;
    Pow256Values();
    GroupsOf(Entries(OneByteIos(o), B1), Entries(TwoByteIos(o), B2));
    if ValidGps(GpsOf(o)) {
      IosValid(o);
    }
  }

  lemma IosValid(o: Opts)
    requires ValidGps(GpsOf(o))
    ensures (forall e :: e in IosOf(o) ==> ValidEntry(e, false)) <==> Fits(DallasRaw(o.temperatureC), 2)
  {
    Pow256Values();
    var es := IosOf(o);
    assert es[12] == IoEntry(72, Number(DallasRaw(o.temperatureC)), B2);
    if Fits(DallasRaw(o.temperatureC), 2) {
      forall i | 0 <= i < |es|
        ensures ValidEntry(es[i], false)
      {
        if i < 6 {
          assert es[i] == Entries(OneByteIos(o), B1)[i];
        } else {
          assert es[i] == Entries(TwoByteIos(o), B2)[i - 6];
        }
      }
    } else {
      assert es[12] in es;
    }
  }

  /** The IO section: event, total, and the groups of one, two, four and eight bytes. */
  method WriteIo(o: Opts) returns (s: Option<seq<byte>>)
    requires ValidGps(GpsOf(o))
    ensures s.Some? <==> Fits(DallasRaw(o.temperatureC), 2)
    ensures s.Some? ==> s.value == EncodeIo(PacketOf(o).records[0].io, false)
  {
    OneByteInRange(o);
    TwoByteInRange(o);
    var n1 := WriteIos(OneByteIos(o), B1);
    var n2 := WriteIos(TwoByteIos(o), B2);
    if n2.None? {
      return None;
    }
    var g1, g2, empty := ToBE(6, 1) + n1.value, ToBE(7, 1) + n2.value, ToBE(0, 1) + [];
    IoOf(o, g1, g2, empty);
    s := Some(ToBE(0, 1) + (ToBE(13, 1) + (g1 + (g2 + (empty + empty)))));
  }

  lemma IoOf(o: Opts, g1: seq<byte>, g2: seq<byte>, empty: seq<byte>)
    requires g1 == EncodeGroup(Entries(OneByteIos(o), B1), false) && g2 == EncodeGroup(Entries(TwoByteIos(o), B2), false)
    requires empty == EncodeGroup([], false)
    ensures EncodeIo(PacketOf(o).records[0].io, false) == ToBE(0, 1) + (ToBE(13, 1) + (g1 + (g2 + (empty + empty))))
  {
    GroupsOf(Entries(OneByteIos(o), B1), Entries(TwoByteIos(o), B2));
    assert Sizes(false) == [B1, B2, B4, B8];
  }

  /** Longitude, latitude, altitude, angle, satellites and speed, at their offsets in a block of 15 bytes. */
  method WriteGps(o: Opts) returns (s: seq<byte>)
    ensures s == EncodeGps(GpsOf(o))
  {
    s := seq(15, _ => 0);
    s := WriteAt(s, 0, ToBE(Round(o.longitude * 10000000.0), 4));
    s := WriteAt(s, 4, ToBE(Round(o.latitude * 10000000.0), 4));
    s := WriteAt(s, 8, ToBE(o.altitudeM, 2));
    s := WriteAt(s, 10, ToBE(Rem(Round(o.angleDeg), 360), 2));
    s := WriteAt(s, 12, ToBE(o.satellites, 1));
    s := WriteAt(s, 13, ToBE(Positive(Round(o.speedKmh)), 2));
  }

  function WriteAt(s: seq<byte>, offset: nat, bytes: seq<byte>): (r: seq<byte>)
    requires offset + |bytes| <= |s|
    ensures |r| == |s|
  {
    s[..offset] + bytes + s[offset + |bytes|..]
  }

  /** The record of a packet: timestamp, priority, position, and IO entries. */
  method WriteRecord(o: Opts) returns (s: Option<seq<byte>>)
    ensures s.Some? <==> InRange(o)
    ensures s.Some? ==> s.value == EncodeRecord(PacketOf(o).records[0], false)
  {
    if !Fits(o.timestampMs, 8) || !ValidGps(GpsOf(o)) {
      return None;
    }
    var io := WriteIo(o);
    if io.None? {
      return None;
    }
    var gps := WriteGps(o);
    s := Some(ToBE(o.timestampMs, 8) + (ToBE(1, 1) + (gps + io.value)));
  }

  lemma OneByteInRange(o: Opts)
    ensures forall io :: io in OneByteIos(o) ==> Fits(io.value, 1)
  {
    Pow256Values();
  }

  lemma TwoByteInRange(o: Opts)
    requires ValidGps(GpsOf(o))
    ensures (forall io :: io in TwoByteIos(o) ==> Fits(io.value, 2)) <==> Fits(DallasRaw(o.temperatureC), 2)
  {
    Pow256Values();
    assert TwoByteIos(o)[6] in TwoByteIos(o);
  }

  /** The whole packet; None where a write throws. */
  method BuildAvlPacket(table: array<bv16>, o: Opts) returns (s: Option<seq<byte>>)
    requires IsTable(table)
    ensures s.Some? <==> InRange(o)
    ensures s.Some? ==> s.value == EncodePacket(PacketOf(o))
  {
    var record := WriteRecord(o);
    if record.None? {
      return None;
    }
    OneRecord(o);
    var data := ToBE(CODEC_8, 1) + (ToBE(1, 1) + ((record.value + []) + ToBE(1, 1)));
    var crc := TableCrc(table, data, 0, |data|);
    assert data[0..|data|] == data;
    var frame := WriteFrame(data, crc as int);
    s := Some(frame);
  }

  /** Preamble, length, data field and checksum. */
  method WriteFrame(data: seq<byte>, crc: int) returns (s: seq<byte>)
    ensures s == FrameOf(data, crc, [])
  {
    s := ToBE(0, 4) + (ToBE(|data| + 0, 4) + (data + (ToBE(0, 2) + (ToBE(crc, 2) + []))));
  }

  lemma OneRecord(o: Opts)
    ensures EncodeData(PacketOf(o))
         == ToBE(CODEC_8, 1) + (ToBE(1, 1) + ((EncodeRecord(PacketOf(o).records[0], false) + []) + ToBE(1, 1)))
  {
    var p := PacketOf(o);
    var encode := RecordEncoder()(p.codecId == CODEC_8E);
    assert p.records[1..] == [] && EncodeList(encode, []) == [];
    assert EncodeList(encode, p.records) == encode(p.records[0]) + [];
    assert encode(p.records[0]) == EncodeRecord(p.records[0], false);
  }

  /** The gateway's parser reads back, to the last byte, exactly what the simulated device meant to send. */
  lemma SimulatorIsUnderstood(o: Opts)
    requires InRange(o)
    ensures ParsePacket(EncodePacket(PacketOf(o))) == Done(PacketOf(o), |EncodePacket(PacketOf(o))|)
  {
    InRangeIffValid(o);
    DataIsShort(o);
    RoundTrip(PacketOf(o));
  }

  lemma IoLength(o: Opts)
    ensures |EncodeIo(PacketOf(o).records[0].io, false)| == 39
  {
    var a, b := Entries(OneByteIos(o), B1), Entries(TwoByteIos(o), B2);
    GroupsOf(a, b);
    EntriesLength(a, B1);
    EntriesLength(b, B2);
    assert |EncodeGroup(a, false)| == 13 && |EncodeGroup(b, false)| == 22 && |EncodeGroup([], false)| == 1;
    assert Sizes(false) == [B1, B2, B4, B8];
  }

  lemma DataIsShort(o: Opts)
    ensures Fits(|EncodeData(PacketOf(o))|, 4)
  {
    Pow256Values();
    OneRecord(o);
    IoLength(o);
    assert |EncodeRecord(PacketOf(o).records[0], false)| == 63;
  }

  lemma {:induction false} EntriesLength(es: seq<IoEntry>, size: ByteSize)
    requires forall e :: e in es ==> e.byteSize == size && e.value.Number?
    ensures |EncodeList(EntryEncoder(false), es)| == |es| * (1 + Width(size))
    decreases |es|
  {
    if es != [] {
      EntriesLength(es[1..], size);
      assert es[0] in es;
    }
  }
}
