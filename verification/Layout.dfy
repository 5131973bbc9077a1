/**
 * The wire format of Codec 8 and Codec 8 Extended, field by field and in numbers: a second description of it, which
 * shares no definition with the encoder and the parser but big-endian integers and the checksum.
 */
module Layout {
  import opened Bytes
  import opened Crc16Ibm
  import opened Avl
  import opened AvlParse
  import opened AvlExact

  // ----- Integers -----

  /** Two's complement, of 2 and of 4 bytes. */
  lemma TwosComplement(u: int)
    ensures 0 <= u < 0x1_0000 ==> Signed(u, 2) == if u < 0x8000 then u else u - 0x1_0000
    ensures 0 <= u < 0x1_0000_0000 ==> Signed(u, 4) == if u < 0x8000_0000 then u else u - 0x1_0000_0000
  {
    Pow256Values();
  }

  // ----- Ranges -----

  function Rank(size: ByteSize): nat {
    match size
    case B1 => 0
    case B2 => 1
    case B4 => 2
    case B8 => 3
    case NX => 4
  }

  predicate ValueInRange(e: IoEntry) {
    match e.byteSize
    case B1 => e.value.Number? && 0 <= e.value.n < 0x100
    case B2 => e.value.Number? && 0 <= e.value.n < 0x1_0000
    case B4 => e.value.Number? && 0 <= e.value.n < 0x1_0000_0000
    case B8 => e.value.BigInt? && 0 <= e.value.big < 0x1_0000_0000_0000_0000
    case NX => e.value.Buffer? && |e.value.data| < 0x1_0000
  }

  /** The groups come in the order 1, 2, 4, 8 and variable. */
  predicate InGroupOrder(es: seq<IoEntry>) {
    forall i, j :: 0 <= i < j < |es| ==> Rank(es[i].byteSize) <= Rank(es[j].byteSize)
  }

  predicate IoInRange(io: IoSection, ext: bool) {
    var limit := if ext then 0x1_0000 else 0x100;
    && 0 <= io.eventIoId < limit && io.totalIo == |io.entries| < limit && InGroupOrder(io.entries)
    && forall e :: e in io.entries ==> 0 <= e.id < limit && ValueInRange(e) && (e.byteSize == NX ==> ext)
  }

  predicate GpsInRange(g: GpsElement) {
    && -0x8000_0000 <= g.longitude < 0x8000_0000 && -0x8000_0000 <= g.latitude < 0x8000_0000
    && -0x8000 <= g.altitude < 0x8000 && 0 <= g.angle < 0x1_0000 && 0 <= g.satellites < 0x100 && 0 <= g.speedKmh < 0x1_0000
  }

  predicate RecordInRange(r: AvlRecord, ext: bool) {
    && 0 <= r.timestampMs < 0x1_0000_0000_0000_0000 && 0 <= r.priority <= 2
    && GpsInRange(r.gps) && IoInRange(r.io, ext)
  }

  predicate InRange(p: AvlPacket) {
    && (p.codecId == 0x08 || p.codecId == 0x8e) && p.recordCount == |p.records| < 0x100
    && forall r :: r in p.records ==> RecordInRange(r, p.codecId == 0x8e)
  }

  // ----- Bytes -----

  function Count(es: seq<IoEntry>, size: ByteSize): nat {
    if es == [] then 0 else (if es[0].byteSize == size then 1 else 0) + Count(es[1..], size)
  }

  function ValueBytes(e: IoEntry): seq<byte> {
    match e.value
    case Number(n) => ToBE(n, if e.byteSize == B1 then 1 else if e.byteSize == B2 then 2 else 4)
    case BigInt(n) => ToBE(n, 8)
    case Buffer(data) => ToBE(|data|, 2) + data
    case NotANumber => []
  }

  /** The entries of a group, with ids of `ids` bytes. */
  function Entries(es: seq<IoEntry>, size: ByteSize, ids: nat): seq<byte> {
    if es == [] then []
    else (if es[0].byteSize == size then ToBE(es[0].id, ids) + ValueBytes(es[0]) else []) + Entries(es[1..], size, ids)
  }

  /** Codec 8: ids and counts of one byte. */
  function Io8(io: IoSection): seq<byte> {
    var es := io.entries;
    ToBE(io.eventIoId, 1) + (ToBE(io.totalIo, 1)
    + ((ToBE(Count(es, B1), 1) + Entries(es, B1, 1)) + ((ToBE(Count(es, B2), 1) + Entries(es, B2, 1))
    + ((ToBE(Count(es, B4), 1) + Entries(es, B4, 1)) + (ToBE(Count(es, B8), 1) + Entries(es, B8, 1))))))
  }

  /** Codec 8 Extended: ids and counts of two bytes, and a fifth group. */
  function Io8E(io: IoSection): seq<byte> {
    var es := io.entries;
    ToBE(io.eventIoId, 2) + (ToBE(io.totalIo, 2)
    + ((ToBE(Count(es, B1), 2) + Entries(es, B1, 2)) + ((ToBE(Count(es, B2), 2) + Entries(es, B2, 2))
    + ((ToBE(Count(es, B4), 2) + Entries(es, B4, 2)) + ((ToBE(Count(es, B8), 2) + Entries(es, B8, 2))
    + (ToBE(Count(es, NX), 2) + Entries(es, NX, 2)))))))
  }

  /** Longitude at 0, latitude at 4, altitude at 8, angle at 10, satellites at 12, speed at 13. */
  ghost predicate GpsAt(s: seq<byte>, g: GpsElement) {
    && |s| == 15
    && s[0..4] == ToBE(g.longitude, 4) && s[4..8] == ToBE(g.latitude, 4) && s[8..10] == ToBE(g.altitude, 2)
    && s[10..12] == ToBE(g.angle, 2) && s[12] == g.satellites && s[13..15] == ToBE(g.speedKmh, 2)
  }

  function Gps(g: GpsElement): seq<byte> {
    ToBE(g.longitude, 4) + (ToBE(g.latitude, 4) + (ToBE(g.altitude, 2) + (ToBE(g.angle, 2)
    + (ToBE(g.satellites, 1) + ToBE(g.speedKmh, 2)))))
  }

  lemma GpsOffsets(g: GpsElement)
    requires GpsInRange(g)
    ensures GpsAt(Gps(g), g)
  {
    assert ToBE(g.satellites, 1)[0] == Digit(g.satellites, 0) == g.satellites;
  }

  function Record(r: AvlRecord, ext: bool): seq<byte> {
    ToBE(r.timestampMs, 8) + (ToBE(r.priority, 1) + (Gps(r.gps) + (if ext then Io8E(r.io) else Io8(r.io))))
  }

  function Records(rs: seq<AvlRecord>, ext: bool): seq<byte> {
    if rs == [] then [] else Record(rs[0], ext) + Records(rs[1..], ext)
  }

  function Data(p: AvlPacket): seq<byte> {
    ToBE(p.codecId, 1) + (ToBE(|p.records|, 1) + (Records(p.records, p.codecId == 0x8e) + ToBE(|p.records|, 1)))
  }

  /** Four zero bytes, the length of the data, the data, two zero bytes and the checksum. */
  function Packet(p: AvlPacket): seq<byte> {
    [0, 0, 0, 0] + (ToBE(|Data(p)|, 4) + (Data(p) + ([0, 0] + ToBE(Crc16(Data(p)) as int, 2))))
  }

  // ----- The two descriptions agree -----

  lemma {:induction false} OfSizeBytes(es: seq<IoEntry>, size: ByteSize, ext: bool)
    requires forall e :: e in es ==> ValueInRange(e)
    ensures |OfSize(es, size)| == Count(es, size)
    ensures EncodeList(EntryEncoder(ext), OfSize(es, size)) == Entries(es, size, if ext then 2 else 1)
    decreases |es|
  {
    if es != [] {
      assert es[0] in es;
      OfSizeBytes(es[1..], size, ext);
      if es[0].byteSize == size {
        var rest := OfSize(es[1..], size);
        assert ([es[0]] + rest)[1..] == rest;
      } else {
        assert [] + Entries(es[1..], size, if ext then 2 else 1) == Entries(es[1..], size, if ext then 2 else 1);
      }
    }
  }

  lemma GroupBytes(es: seq<IoEntry>, size: ByteSize, ext: bool)
    requires forall e :: e in es ==> ValueInRange(e)
    ensures var ids := if ext then 2 else 1;
            GroupEncoder(ext)(OfSize(es, size)) == ToBE(Count(es, size), ids) + Entries(es, size, ids)
  {
    OfSizeBytes(es, size, ext);
  }

  lemma EncodeGroupsOf(encode: seq<IoEntry> -> seq<byte>, es: seq<IoEntry>, sizes: seq<ByteSize>)
    requires sizes != []
    ensures EncodeGroups(encode, es, sizes) == encode(OfSize(es, sizes[0])) + EncodeGroups(encode, es, sizes[1..])
  {
  }

  lemma FourGroups(encode: seq<IoEntry> -> seq<byte>, es: seq<IoEntry>, last: seq<ByteSize>)
    ensures EncodeGroups(encode, es, [B1, B2, B4, B8] + last)
         == encode(OfSize(es, B1)) + (encode(OfSize(es, B2)) + (encode(OfSize(es, B4)) + (encode(OfSize(es, B8))
            + EncodeGroups(encode, es, last))))
  {
    assert ([B1, B2, B4, B8] + last)[1..] == [B2, B4, B8] + last && ([B2, B4, B8] + last)[1..] == [B4, B8] + last;
    assert ([B4, B8] + last)[1..] == [B8] + last && ([B8] + last)[1..] == last;
    EncodeGroupsOf(encode, es, [B1, B2, B4, B8] + last);
    EncodeGroupsOf(encode, es, [B2, B4, B8] + last);
    EncodeGroupsOf(encode, es, [B4, B8] + last);
    EncodeGroupsOf(encode, es, [B8] + last);
  }

  lemma IoBytes(io: IoSection, ext: bool)
    requires forall e :: e in io.entries ==> ValueInRange(e)
    ensures EncodeIo(io, ext) == if ext then Io8E(io) else Io8(io)
  {
    var es, encode := io.entries, GroupEncoder(ext);
    GroupBytes(es, B1, ext);
    GroupBytes(es, B2, ext);
    GroupBytes(es, B4, ext);
    GroupBytes(es, B8, ext);
    if ext {
      GroupBytes(es, NX, ext);
      FourGroups(encode, es, [NX]);
      assert [B1, B2, B4, B8] + [NX] == Sizes(true) && [NX][1..] == [];
      EncodeGroupsOf(encode, es, [NX]);
      assert encode(OfSize(es, NX)) + [] == encode(OfSize(es, NX));
    } else {
      FourGroups(encode, es, []);
      assert [B1, B2, B4, B8] + [] == Sizes(false);
      assert encode(OfSize(es, B8)) + [] == encode(OfSize(es, B8));
    }
  }

  lemma RecordBytes(r: AvlRecord, ext: bool)
    requires RecordInRange(r, ext)
    ensures EncodeRecord(r, ext) == Record(r, ext)
  {
    IoBytes(r.io, ext);
  }

  lemma {:induction false} RecordsBytes(rs: seq<AvlRecord>, ext: bool)
    requires forall r :: r in rs ==> RecordInRange(r, ext)
    ensures EncodeList(RecordEncoder()(ext), rs) == Records(rs, ext)
    decreases |rs|
  {
    if rs != [] {
      assert rs[0] in rs;
      RecordBytes(rs[0], ext);
      RecordsBytes(rs[1..], ext);
    }
  }

  lemma DataBytes(p: AvlPacket)
    requires InRange(p)
    ensures EncodeData(p) == Data(p)
  {
    RecordsBytes(p.records, p.codecId == 0x8e);
  }

  lemma PacketBytes(p: AvlPacket)
    requires InRange(p)
    ensures EncodePacket(p) == Packet(p)
  {
    DataBytes(p);
    FrameBytes(Data(p), Crc16(Data(p)) as int);
  }

  lemma FrameBytes(data: seq<byte>, crc: int)
    ensures FrameOf(data, crc, []) == [0, 0, 0, 0] + (ToBE(|data|, 4) + (data + ([0, 0] + ToBE(crc, 2))))
  {
    Zeros();
    assert ToBE(crc, 2) + [] == ToBE(crc, 2);
  }

  lemma Zeros()
    ensures ToBE(0, 4) == [0, 0, 0, 0] && ToBE(0, 2) == [0, 0]
  {
    assert Digit(0, 0) == 0 && Digit(0, 1) == 0 && Digit(0, 2) == Digit(0, 1) && Digit(0, 3) == Digit(0, 2);
  }

  // ----- So do their ranges -----

  lemma OfSizeOfCons(e: IoEntry, rest: seq<IoEntry>, size: ByteSize)
    ensures OfSize([e] + rest, size) == (if e.byteSize == size then [e] else []) + OfSize(rest, size)
  {
    assert ([e] + rest)[1..] == rest;
  }

  lemma {:induction false} NoneOfSize(es: seq<IoEntry>, size: ByteSize)
    requires forall i :: 0 <= i < |es| ==> es[i].byteSize != size
    ensures OfSize(es, size) == []
  {
    if es != [] {
      NoneOfSize(es[1..], size);
    }
  }

  lemma {:induction false} ByGroupSkips(e: IoEntry, rest: seq<IoEntry>, sizes: seq<ByteSize>)
    requires e.byteSize !in sizes
    ensures ByGroup([e] + rest, sizes) == ByGroup(rest, sizes)
    decreases |sizes|
  {
    if sizes != [] {
      OfSizeOfCons(e, rest, sizes[0]);
      ByGroupSkips(e, rest, sizes[1..]);
    }
  }

  /** An entry that no other goes before stays in front. */
  lemma {:induction false} ByGroupCons(e: IoEntry, rest: seq<IoEntry>, sizes: seq<ByteSize>)
    requires e.byteSize in sizes && Increasing(sizes)
    requires forall i :: 0 <= i < |rest| ==> Rank(e.byteSize) <= Rank(rest[i].byteSize)
    ensures ByGroup([e] + rest, sizes) == [e] + ByGroup(rest, sizes)
    decreases |sizes|
  {
    OfSizeOfCons(e, rest, sizes[0]);
    if e.byteSize == sizes[0] {
      ByGroupSkips(e, rest, sizes[1..]);
      Associate([e], OfSize(rest, sizes[0]), ByGroup(rest, sizes[1..]));
    } else {
      LaterSize(e.byteSize, sizes);
      NoneOfSize(rest, sizes[0]);
      ByGroupCons(e, rest, sizes[1..]);
      assert [] + OfSize(rest, sizes[0]) == [] && [] + ByGroup([e] + rest, sizes[1..]) == ByGroup([e] + rest, sizes[1..]);
      assert [] + ByGroup(rest, sizes[1..]) == ByGroup(rest, sizes[1..]);
    }
  }

  lemma Associate<T>(a: seq<T>, b: seq<T>, c: seq<T>)
    ensures a + b + c == a + (b + c)
  {
  }

  lemma LaterSize(size: ByteSize, sizes: seq<ByteSize>)
    requires size in sizes && Increasing(sizes) && size != sizes[0]
    ensures size in sizes[1..] && Rank(sizes[0]) < Rank(size) && Increasing(sizes[1..])
  {
  }

  predicate Increasing(sizes: seq<ByteSize>) {
    forall i, j :: 0 <= i < j < |sizes| ==> Rank(sizes[i]) < Rank(sizes[j])
  }

  lemma {:induction false} OrderedIsByGroup(es: seq<IoEntry>, sizes: seq<ByteSize>)
    requires InGroupOrder(es) && Increasing(sizes) && forall e :: e in es ==> e.byteSize in sizes
    ensures ByGroup(es, sizes) == es
    decreases |es|
  {
    if es == [] {
      EmptyByGroup(sizes);
    } else {
      assert es == [es[0]] + es[1..] && es[0] in es;
      OrderedIsByGroup(es[1..], sizes);
      ByGroupCons(es[0], es[1..], sizes);
    }
  }

  lemma {:induction false} EmptyByGroup(sizes: seq<ByteSize>)
    ensures ByGroup([], sizes) == []
    decreases |sizes|
  {
    if sizes != [] {
      EmptyByGroup(sizes[1..]);
    }
  }

  lemma {:induction false} ByGroupIsOrdered(es: seq<IoEntry>, sizes: seq<ByteSize>)
    requires Increasing(sizes)
    ensures InGroupOrder(ByGroup(es, sizes)) && forall e :: e in ByGroup(es, sizes) ==> e.byteSize in sizes
    decreases |sizes|
  {
    if sizes != [] {
      ByGroupIsOrdered(es, sizes[1..]);
      OfSizeMembers(es, sizes[0]);
      var g, rest := OfSize(es, sizes[0]), ByGroup(es, sizes[1..]);
      var all: seq<IoEntry> := g + rest;
      forall i, j | 0 <= i < j < |all|
        ensures Rank(all[i].byteSize) <= Rank(all[j].byteSize)
      {
        if i < |g| {
          assert all[i] in g;
          if j < |g| {
            assert all[j] in g;
          } else {
            assert all[j] in rest;
          }
        }
      }
    }
  }

  lemma EntryRange(e: IoEntry, ext: bool)
    ensures ValidEntry(e, ext) <==> 0 <= e.id < (if ext then 0x1_0000 else 0x100) && ValueInRange(e)
  {
    Pow256Values();
  }

  lemma EntriesRange(es: seq<IoEntry>, ext: bool)
    ensures (forall e :: e in es ==> ValidEntry(e, ext))
       <==> forall e :: e in es ==> 0 <= e.id < (if ext then 0x1_0000 else 0x100) && ValueInRange(e)
  {
    forall e | e in es
      ensures ValidEntry(e, ext) <==> 0 <= e.id < (if ext then 0x1_0000 else 0x100) && ValueInRange(e)
    {
      EntryRange(e, ext);
    }
  }

  lemma OrderRange(es: seq<IoEntry>, ext: bool)
    ensures es == ByGroup(es, Sizes(ext)) <==> InGroupOrder(es) && forall e :: e in es ==> e.byteSize == NX ==> ext
  {
    ByGroupIsOrdered(es, Sizes(ext));
    if InGroupOrder(es) && forall e :: e in es ==> e.byteSize == NX ==> ext {
      assert forall e :: e in es ==> e.byteSize in Sizes(ext);
      OrderedIsByGroup(es, Sizes(ext));
    }
  }

  lemma IoRange(io: IoSection, ext: bool)
    ensures ValidIo(io, ext) <==> IoInRange(io, ext)
  {
    Pow256Values();
    EntriesRange(io.entries, ext);
    OrderRange(io.entries, ext);
  }

  lemma RecordRange(r: AvlRecord, ext: bool)
    ensures ValidRecord(r, ext) <==> RecordInRange(r, ext)
  {
    Pow256Values();
    IoRange(r.io, ext);
  }

  lemma PacketRange(p: AvlPacket)
    ensures ValidPacket(p) <==> InRange(p)
  {
    Pow256Values();
    forall r | r in p.records
      ensures ValidRecord(r, p.codecId == 0x8e) <==> RecordInRange(r, p.codecId == 0x8e)
    {
      RecordRange(r, p.codecId == 0x8e);
    }
  }

  /**
   * What the parser reads to the last byte, for every byte string: exactly the packets in range, laid out as above.
   */
  lemma ReadsExactlyTheLayout(buf: seq<byte>, p: AvlPacket)
    ensures ParsePacket(buf) == Done(p, |buf|) <==> InRange(p) && |Data(p)| < 0x1_0000_0000 && buf == Packet(p)
  {
    Pow256Values();
    PacketRange(p);
    if InRange(p) {
      PacketBytes(p);
      DataBytes(p);
    }
    if ParsePacket(buf) == Done(p, |buf|) {
      ReEncode(buf, p, |buf|);
      PacketSound(buf, p, |buf|);
    }
    if InRange(p) && |Data(p)| < 0x1_0000_0000 && buf == Packet(p) {
      RoundTrip(p);
    }
  }

  lemma EmptyIoBytes()
    ensures Io8E(IoSection(0, 0, [])) == [0, 0, 0, 0, 0, 0, 0, 0, 0, 0, 0, 0, 0, 0]
  {
    Zeros();
    var zero: seq<byte> := [0, 0];
    assert zero + [] == zero;
    assert Io8E(IoSection(0, 0, [])) == zero + (zero + (zero + (zero + (zero + (zero + zero)))));
  }

  /** The IO section of a Codec 8E record without elements: seven fields of two bytes. */
  lemma EmptyIo8E()
    ensures ParseIo([0, 0, 0, 0, 0, 0, 0, 0, 0, 0, 0, 0, 0, 0], 0, true) == Done(IoSection(0, 0, []), 14)
  {
    var io, buf := IoSection(0, 0, []), Io8E(IoSection(0, 0, []));
    IoRange(io, true);
    IoBytes(io, true);
    EmptyIoBytes();
    IoExact(buf, 0, true, io, 14);
  }
}
