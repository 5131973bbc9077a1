/** Reading AVL packets: what the parser accepts and what it returns, position by position. */
module AvlParse {
  import opened Bytes
  import opened Crc16Ibm
  import opened Avl

  /** The errors of the codec: a CodecParseError with what its message reports, or a CodecCrcError. */
  datatype CodecError =
    | Underrun(needed: nat, remaining: int, offset: int)
    | PacketTooShort(length: int)
    | BadPreamble(preamble: int)
    | AbsurdDataLength(dataLength: int)
    | SizeMismatch(dataLength: int, bufferLength: nat)
    | UnsupportedCodec(codecId: int, offset: int)
    | BadPriority(priority: int, offset: int)
    | IoCountMismatch(declared: int, parsed: nat, offset: int)
    | RecordCountMismatch(first: int, second: int, offset: int)
    | CrcHighNotZero(crcHi: int, offset: int)
    | CrcMismatch(expected: int, actual: int)
    | ImeiLengthOutOfRange(length: int)
    | ImeiNotNumeric

  /** A value and the position after it, or the error thrown. */
  datatype Parsed<+T> = Done(value: T, next: nat) | Fail(error: CodecError)

  function ReadBytes(buf: seq<byte>, pos: nat, n: nat): (r: Parsed<seq<byte>>)
  {
    if pos + n > |buf| then Fail(Underrun(n, |buf| - pos, pos)) else Done(buf[pos..pos + n], pos + n)
  }

  function ReadUInt(buf: seq<byte>, pos: nat, n: nat): (r: Parsed<int>)
    ensures r.Done? ==> r.value >= 0
  {
    match ReadBytes(buf, pos, n)
    case Fail(error) => Fail(error)
    case Done(s, next) => Done(BE(s), next)
  }

  function ReadInt(buf: seq<byte>, pos: nat, n: nat): (r: Parsed<int>)
  {
    match ReadBytes(buf, pos, n)
    case Fail(error) => Fail(error)
    case Done(s, next) => Done(Signed(BE(s), n), next)
  }

  /** `count` items, one after the other. */
  function ParseList<T>(item: nat -> Parsed<T>, pos: nat, count: nat): (r: Parsed<seq<T>>)
    ensures r.Done? ==> |r.value| == count
    decreases count
  {
    if count == 0 then Done([], pos)
    else
      match item(pos)
      case Fail(error) => Fail(error)
      case Done(x, p) =>
      match ParseList(item, p, count - 1)
      case Fail(error) => Fail(error)
      case Done(xs, next) => Done([x] + xs, next)
  }

  function ParseValue(buf: seq<byte>, pos: nat, size: ByteSize): Parsed<IoValue>
  {
    if size == NX then
      match ReadUInt(buf, pos, 2)
      case Fail(error) => Fail(error)
      case Done(length, p) =>
      match ReadBytes(buf, p, length)
      case Fail(error) => Fail(error)
      case Done(data, next) => Done(Buffer(data), next)
    else
      match ReadUInt(buf, pos, Width(size))
      case Fail(error) => Fail(error)
      case Done(n, next) => Done(if size == B8 then BigInt(n) else Number(n), next)
  }

  function ParseEntry(buf: seq<byte>, pos: nat, ext: bool, size: ByteSize): Parsed<IoEntry>
  {
    match ReadUInt(buf, pos, IdWidth(ext))
    case Fail(error) => Fail(error)
    case Done(id, p) =>
    match ParseValue(buf, p, size)
    case Fail(error) => Fail(error)
    case Done(value, next) => Done(IoEntry(id, value, size), next)
  }

  function EntryParser(buf: seq<byte>, ext: bool, size: ByteSize): nat -> Parsed<IoEntry> {
    (pos: nat) => ParseEntry(buf, pos, ext, size)
  }

  function ParseGroup(buf: seq<byte>, pos: nat, ext: bool, size: ByteSize): Parsed<seq<IoEntry>>
  {
    match ReadUInt(buf, pos, IdWidth(ext))
    case Fail(error) => Fail(error)
    case Done(count, p) => ParseList(EntryParser(buf, ext, size), p, count)
  }

  function GroupParser(buf: seq<byte>, ext: bool): ByteSize -> nat -> Parsed<seq<IoEntry>> {
    size => (pos: nat) => ParseGroup(buf, pos, ext, size)
  }

  /** One group for each of `sizes`, in that order. */
  function ParseGroups(group: ByteSize -> nat -> Parsed<seq<IoEntry>>, pos: nat, sizes: seq<ByteSize>): Parsed<seq<IoEntry>>
    decreases |sizes|, pos
  {
    if sizes == [] then Done([], pos)
    else
      match group(sizes[0])(pos)
      case Fail(error) => Fail(error)
      case Done(g, p) =>
      match ParseGroups(group, p, sizes[1..])
      case Fail(error) => Fail(error)
      case Done(rest, next) => Done(g + rest, next)
  }

  function ParseIo(buf: seq<byte>, pos: nat, ext: bool): Parsed<IoSection>
  {
    match ReadUInt(buf, pos, IdWidth(ext))
    case Fail(error) => Fail(error)
    case Done(eventIoId, p) =>
    match ReadUInt(buf, p, IdWidth(ext))
    case Fail(error) => Fail(error)
    case Done(totalIo, q) =>
    match ParseGroups(GroupParser(buf, ext), q, Sizes(ext))
    case Fail(error) => Fail(error)
    case Done(es, next) =>
    if |es| != totalIo then Fail(IoCountMismatch(totalIo, |es|, next))
    else Done(IoSection(eventIoId, totalIo, es), next)
  }

  function ParseGps(buf: seq<byte>, pos: nat): Parsed<GpsElement>
  {
    match ReadInt(buf, pos, 4)
    case Fail(error) => Fail(error)
    case Done(longitude, p1) =>
    match ReadInt(buf, p1, 4)
    case Fail(error) => Fail(error)
    case Done(latitude, p2) =>
    match ReadInt(buf, p2, 2)
    case Fail(error) => Fail(error)
    case Done(altitude, p3) =>
    match ReadUInt(buf, p3, 2)
    case Fail(error) => Fail(error)
    case Done(angle, p4) =>
    match ReadUInt(buf, p4, 1)
    case Fail(error) => Fail(error)
    case Done(satellites, p5) =>
    match ReadUInt(buf, p5, 2)
    case Fail(error) => Fail(error)
    case Done(speedKmh, p6) => Done(GpsElement(longitude, latitude, altitude, angle, satellites, speedKmh), p6)
  }

  function ParseRecord(buf: seq<byte>, pos: nat, ext: bool): Parsed<AvlRecord>
  {
    match ReadUInt(buf, pos, 8)
    case Fail(error) => Fail(error)
    case Done(timestampMs, p1) =>
    match ReadUInt(buf, p1, 1)
    case Fail(error) => Fail(error)
    case Done(priority, p2) =>
    if priority !in {0, 1, 2} then Fail(BadPriority(priority, p2 - 1))
    else
      match ParseGps(buf, p2)
      case Fail(error) => Fail(error)
      case Done(gps, p3) =>
      match ParseIo(buf, p3, ext)
      case Fail(error) => Fail(error)
      case Done(io, next) => Done(AvlRecord(timestampMs, priority, gps, io), next)
  }

  function RecordParser(buf: seq<byte>): bool -> nat -> Parsed<AvlRecord> {
    ext => (pos: nat) => ParseRecord(buf, pos, ext)
  }

  /** From the codec id to the second record count, when `record` reads a record. */
  function ParseDataWith(record: bool -> nat -> Parsed<AvlRecord>, buf: seq<byte>, pos: nat): Parsed<AvlPacket>
  {
    match ReadUInt(buf, pos, 1)
    case Fail(error) => Fail(error)
    case Done(codecId, p1) =>
    if codecId !in {CODEC_8, CODEC_8E} then Fail(UnsupportedCodec(codecId, pos))
    else
      match ReadUInt(buf, p1, 1)
      case Fail(error) => Fail(error)
      case Done(count, p2) =>
      match ParseList(record(codecId == CODEC_8E), p2, count)
      case Fail(error) => Fail(error)
      case Done(records, p3) =>
      match ReadUInt(buf, p3, 1)
      case Fail(error) => Fail(error)
      case Done(count2, p4) =>
      if count2 != count then Fail(RecordCountMismatch(count, count2, p4 - 1))
      else Done(AvlPacket(codecId, count, records), p4)
  }

  function ParseData(buf: seq<byte>, pos: nat): Parsed<AvlPacket> {
    ParseDataWith(RecordParser(buf), buf, pos)
  }

  /** The checksum, in the low half of its four bytes. */
  function ParseCrc(buf: seq<byte>, pos: nat): Parsed<int>
  {
    match ReadUInt(buf, pos, 2)
    case Fail(error) => Fail(error)
    case Done(crcHi, p1) =>
    match ReadUInt(buf, p1, 2)
    case Fail(error) => Fail(error)
    case Done(crcLo, p2) =>
    if crcHi != 0 then Fail(CrcHighNotZero(crcHi, p2 - 4)) else Done(crcLo, p2)
  }

  /** What a frame holds before the checksum is compared with the data field, which ends at `dataEnd`. */
  datatype Unchecked = Unchecked(packet: AvlPacket, dataEnd: nat, crc: int)

  function ParseFrame(buf: seq<byte>): Parsed<Unchecked>
  {
    if |buf| < 12 then Fail(PacketTooShort(|buf|))
    else
      match ReadUInt(buf, 0, 4)
      case Fail(error) => Fail(error)
      case Done(preamble, p1) =>
      if preamble != 0 then Fail(BadPreamble(preamble))
      else
        match ReadUInt(buf, p1, 4)
        case Fail(error) => Fail(error)
        case Done(dataLength, p2) =>
        if dataLength < 3 then Fail(AbsurdDataLength(dataLength))
        else if 8 + dataLength + 4 != |buf| then Fail(SizeMismatch(dataLength, |buf|))
        else
          match ParseData(buf, p2)
          case Fail(error) => Fail(error)
          case Done(packet, dataEnd) =>
          match ParseCrc(buf, dataEnd)
          case Fail(error) => Fail(error)
          case Done(crc, next) => Done(Unchecked(packet, dataEnd, crc), next)
  }

  /** `buf.subarray(from, to)`. */
  function Slice(buf: seq<byte>, from: nat, to: nat): seq<byte> {
    if from <= to <= |buf| then buf[from..to] else if from <= |buf| < to then buf[from..] else []
  }

  /** The comparison of the checksum with the data field. */
  function Checked(buf: seq<byte>, parsed: Parsed<Unchecked>): Parsed<AvlPacket>
  {
    match parsed
    case Fail(error) => Fail(error)
    case Done(frame, next) =>
    var actual := Crc16(Slice(buf, 8, frame.dataEnd)) as int;
    if frame.crc != actual then Fail(CrcMismatch(frame.crc, actual)) else Done(frame.packet, next)
  }

  /** `parseAvlPacket`: the packet and the position the cursor stops at, which nothing compares with the end. */
  function ParsePacket(buf: seq<byte>): Parsed<AvlPacket> {
    Checked(buf, ParseFrame(buf))
  }
}
