/** The AVL packets of Teltonika Codec 8 and Codec 8 Extended, and their layout on the wire. */
module Avl {
  import opened Bytes
  import opened Crc16Ibm

  /** The group an IO entry belongs to: values of 1, 2, 4 or 8 bytes, or of variable length (8E only). */
  datatype ByteSize = B1 | B2 | B4 | B8 | NX

  /** No parser returns `NotANumber`: only the JSON form makes it, from a value of variable length. */
  datatype IoValue = Number(n: int) | BigInt(big: int) | Buffer(data: seq<byte>) | NotANumber

  datatype IoEntry = IoEntry(id: int, value: IoValue, byteSize: ByteSize)

  datatype IoSection = IoSection(eventIoId: int, totalIo: int, entries: seq<IoEntry>)

  /** Coordinates are the raw int32, in units of 1e-7 degrees. */
  datatype GpsElement = GpsElement(longitude: int, latitude: int, altitude: int, angle: int, satellites: int, speedKmh: int)

  datatype AvlRecord = AvlRecord(timestampMs: int, priority: int, gps: GpsElement, io: IoSection)

  datatype AvlPacket = AvlPacket(codecId: int, recordCount: int, records: seq<AvlRecord>)

  const CODEC_8 := 0x08
  const CODEC_8E := 0x8e

  function Width(size: ByteSize): nat {
    match size
    case B1 => 1
    case B2 => 2
    case B4 => 4
    case B8 => 8
    case NX => 0
  }

  /** IO ids and counts take one byte in Codec 8 and two in Codec 8E. */
  function IdWidth(ext: bool): nat {
    if ext then 2 else 1
  }

  /** The groups of an IO section, in wire order. */
  function Sizes(ext: bool): seq<ByteSize> {
    if ext then [B1, B2, B4, B8, NX] else [B1, B2, B4, B8]
  }

  // ----- Packets whose fields fit the wire format -----

  predicate ValidValue(v: IoValue, size: ByteSize) {
    match size
    case NX => v.Buffer? && Fits(|v.data|, 2)
    case B8 => v.BigInt? && Fits(v.big, 8)
    case _ => v.Number? && Fits(v.n, Width(size))
  }

  predicate ValidEntry(e: IoEntry, ext: bool) {
    Fits(e.id, IdWidth(ext)) && ValidValue(e.value, e.byteSize)
  }

  /** The entries of one group, in order. */
  function OfSize(es: seq<IoEntry>, size: ByteSize): seq<IoEntry> {
    if es == [] then []
    else if es[0].byteSize == size then [es[0]] + OfSize(es[1..], size)
    else OfSize(es[1..], size)
  }

  /** The entries sorted by group, in the order of `sizes`. */
  function ByGroup(es: seq<IoEntry>, sizes: seq<ByteSize>): seq<IoEntry>
    decreases |sizes|, |es|
  {
    if sizes == [] then [] else OfSize(es, sizes[0]) + ByGroup(es, sizes[1..])
  }

  predicate ValidIo(io: IoSection, ext: bool) {
    && Fits(io.eventIoId, IdWidth(ext))
    && Fits(io.totalIo, IdWidth(ext))
    && io.totalIo == |io.entries|
    && io.entries == ByGroup(io.entries, Sizes(ext))
    && forall e :: e in io.entries ==> ValidEntry(e, ext)
  }

  predicate ValidGps(g: GpsElement) {
    && FitsSigned(g.longitude, 4)
    && FitsSigned(g.latitude, 4)
    && FitsSigned(g.altitude, 2)
    && Fits(g.angle, 2)
    && Fits(g.satellites, 1)
    && Fits(g.speedKmh, 2)
  }

  predicate ValidRecord(r: AvlRecord, ext: bool) {
    && Fits(r.timestampMs, 8)
    && r.priority in {0, 1, 2}
    && ValidGps(r.gps)
    && ValidIo(r.io, ext)
  }

  predicate ValidPacket(p: AvlPacket) {
    && p.codecId in {CODEC_8, CODEC_8E}
    && p.recordCount == |p.records|
    && Fits(p.recordCount, 1)
    && forall r :: r in p.records ==> ValidRecord(r, p.codecId == CODEC_8E)
  }

  // ----- The encoding -----

  /** The encodings of `xs`, one after the other. */
  function EncodeList<T>(encode: T -> seq<byte>, xs: seq<T>): seq<byte> {
    if xs == [] then [] else encode(xs[0]) + EncodeList(encode, xs[1..])
  }

  function EncodeValue(v: IoValue, size: ByteSize): seq<byte> {
    match v
    case Number(n) => ToBE(n, Width(size))
    case BigInt(n) => ToBE(n, Width(size))
    case Buffer(data) => ToBE(|data|, 2) + data
    case NotANumber => []
  }

  function EncodeEntry(e: IoEntry, ext: bool): seq<byte> {
    ToBE(e.id, IdWidth(ext)) + EncodeValue(e.value, e.byteSize)
  }

  function EntryEncoder(ext: bool): IoEntry -> seq<byte> {
    e => EncodeEntry(e, ext)
  }

  /** A group is its count and its entries. */
  function EncodeGroup(es: seq<IoEntry>, ext: bool): seq<byte> {
    ToBE(|es|, IdWidth(ext)) + EncodeList(EntryEncoder(ext), es)
  }

  function GroupEncoder(ext: bool): seq<IoEntry> -> seq<byte> {
    g => EncodeGroup(g, ext)
  }

  /** One group for each of `sizes`, in that order. */
  function EncodeGroups(encode: seq<IoEntry> -> seq<byte>, es: seq<IoEntry>, sizes: seq<ByteSize>): seq<byte>
    decreases |sizes|, |es|
  {
    if sizes == [] then [] else encode(OfSize(es, sizes[0])) + EncodeGroups(encode, es, sizes[1..])
  }

  function EncodeIo(io: IoSection, ext: bool): seq<byte> {
    ToBE(io.eventIoId, IdWidth(ext)) + (ToBE(io.totalIo, IdWidth(ext)) + EncodeGroups(GroupEncoder(ext), io.entries, Sizes(ext)))
  }

  function EncodeGps(g: GpsElement): (s: seq<byte>)
    ensures |s| == 15
  {
    ToBE(g.longitude, 4) + (ToBE(g.latitude, 4) + (ToBE(g.altitude, 2)
    + (ToBE(g.angle, 2) + (ToBE(g.satellites, 1) + ToBE(g.speedKmh, 2)))))
  }

  function EncodeRecord(r: AvlRecord, ext: bool): seq<byte> {
    ToBE(r.timestampMs, 8) + (ToBE(r.priority, 1) + (EncodeGps(r.gps) + EncodeIo(r.io, ext)))
  }

  function RecordEncoder(): bool -> AvlRecord -> seq<byte> {
    ext => r => EncodeRecord(r, ext)
  }

  /** From the codec id to the second record count, when `encode` gives the encoding of a record. */
  function DataWith(encode: bool -> AvlRecord -> seq<byte>, p: AvlPacket): seq<byte> {
    ToBE(p.codecId, 1) + (ToBE(p.recordCount, 1)
    + (EncodeList(encode(p.codecId == CODEC_8E), p.records) + ToBE(p.recordCount, 1)))
  }

  /** The data field, which the CRC covers. */
  function EncodeData(p: AvlPacket): seq<byte> {
    DataWith(RecordEncoder(), p)
  }

  /**
   * A data field and a checksum in a frame, whose length field also covers `tail`: bytes after the checksum
   * that no field accounts for. The checksum takes the low half of four bytes.
   */
  function FrameOf(data: seq<byte>, crc: int, tail: seq<byte>): seq<byte> {
    ToBE(0, 4) + (ToBE(|data| + |tail|, 4) + (data + (ToBE(0, 2) + (ToBE(crc, 2) + tail))))
  }

  function Frame(p: AvlPacket, tail: seq<byte>): seq<byte> {
    FrameOf(EncodeData(p), Crc16(EncodeData(p)) as int, tail)
  }

  /** The wire form of a packet: preamble, length, data field and CRC. */
  function EncodePacket(p: AvlPacket): seq<byte> {
    Frame(p, [])
  }
}
