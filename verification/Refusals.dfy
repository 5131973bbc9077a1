/** What packets are refused for. Each damage, wherever it is in a packet, has its own error, with where it is. */
module Refusals {
  import opened Bytes
  import opened Crc16Ibm
  import opened Avl
  import opened AvlParse
  import opened AvlExact
  import opened AvlReader
  import opened Layout

  // ----- Numbers -----

  function Number2(buf: seq<byte>, at: nat): int
    requires at + 2 <= |buf|
  {
    0x100 * buf[at] as int + buf[at + 1] as int
  }

  function Number4(buf: seq<byte>, at: nat): int
    requires at + 4 <= |buf|
  {
    0x100_0000 * buf[at] as int + 0x1_0000 * buf[at + 1] as int + 0x100 * buf[at + 2] as int + buf[at + 3] as int
  }

  lemma Reads1(buf: seq<byte>, at: nat)
    requires at < |buf|
    ensures ReadUInt(buf, at, 1) == Done(buf[at] as int, at + 1)
  {
    assert buf[at..at + 1] == [buf[at]];
    BigEndian(buf[at], 0, 0, 0);
  }

  lemma Reads2(buf: seq<byte>, at: nat)
    requires at + 2 <= |buf|
    ensures ReadUInt(buf, at, 2) == Done(Number2(buf, at), at + 2)
  {
    assert buf[at..at + 2] == [buf[at], buf[at + 1]];
    BigEndian(buf[at], buf[at + 1], 0, 0);
  }

  lemma Reads4(buf: seq<byte>, at: nat)
    requires at + 4 <= |buf|
    ensures ReadUInt(buf, at, 4) == Done(Number4(buf, at), at + 4)
  {
    assert buf[at..at + 4] == [buf[at], buf[at + 1], buf[at + 2], buf[at + 3]];
    BigEndian(buf[at], buf[at + 1], buf[at + 2], buf[at + 3]);
  }

  // ----- The header -----

  /** Four zero bytes and a length that is the rest, but for the four bytes of the checksum. */
  predicate Opens(buf: seq<byte>) {
    |buf| >= 15 && Number4(buf, 0) == 0 && Number4(buf, 4) == |buf| - 12
  }

  /** A header is refused for the first of four reasons, and its data is read if and only if there is none. */
  lemma HeaderRefusals(buf: seq<byte>)
    ensures |buf| < 12 ==> ParsePacket(buf) == Fail(PacketTooShort(|buf|))
    ensures |buf| >= 12 && !Opens(buf) ==>
              ParsePacket(buf) == Fail(
                if Number4(buf, 0) != 0 then BadPreamble(Number4(buf, 0))
                else if Number4(buf, 4) < 3 then AbsurdDataLength(Number4(buf, 4))
                else SizeMismatch(Number4(buf, 4), |buf|))
    ensures Opens(buf) && ParseData(buf, 8).Fail? ==> ParsePacket(buf) == Fail(ParseData(buf, 8).error)
  {
    if |buf| >= 12 {
      Reads4(buf, 0);
      Reads4(buf, 4);
    }
  }

  // ----- The data -----

  /** The frame opens, and its data begins with these records, up to `next`; `count` are announced. */
  ghost predicate Begins(buf: seq<byte>, rs: seq<AvlRecord>, next: nat) {
    && Opens(buf) && buf[8] in {0x08, 0x8e}
    && (forall r :: r in rs ==> RecordInRange(r, buf[8] == 0x8e))
    && Spans(buf, 10, Records(rs, buf[8] == 0x8e), next)
  }

  lemma CodecRefused(buf: seq<byte>)
    requires Opens(buf) && buf[8] !in {0x08, 0x8e}
    ensures ParsePacket(buf) == Fail(UnsupportedCodec(buf[8] as int, 8))
  {
    Reads1(buf, 8);
    HeaderRefusals(buf);
  }

  lemma RecordsRead(buf: seq<byte>, rs: seq<AvlRecord>, next: nat)
    requires Begins(buf, rs, next)
    ensures ParseList(RecordParser(buf)(buf[8] == 0x8e), 10, |rs|) == Done(rs, next)
  {
    var ext := buf[8] == 0x8e;
    RecordParserExact(buf, ext);
    RecordsBytes(rs, ext);
    forall r | r in rs
      ensures ValidRecord(r, ext)
    {
      RecordRange(r, ext);
    }
    assert All(rs, ValidRecordIn()(ext));
    ListExact(buf, RecordParser(buf)(ext), RecordEncoder()(ext), ValidRecordIn()(ext), 10, rs, next);
  }

  /** A record that is refused after these makes the packet refused for the same reason. */
  lemma RecordRefused(buf: seq<byte>, rs: seq<AvlRecord>, p: nat, error: CodecError)
    requires Begins(buf, rs, p) && |rs| < buf[9] as int && ParseRecord(buf, p, buf[8] == 0x8e) == Fail(error)
    ensures ParsePacket(buf) == Fail(error)
  {
    RecordsRead(buf, rs, p);
    ListStops(RecordParser(buf)(buf[8] == 0x8e), 10, rs, p, buf[9] as int);
    Reads1(buf, 8);
    Reads1(buf, 9);
    HeaderRefusals(buf);
  }

  /** A priority over 2, in any record. */
  lemma PriorityRefused(buf: seq<byte>, rs: seq<AvlRecord>, p: nat)
    requires Begins(buf, rs, p) && |rs| < buf[9] as int && p + 8 < |buf| && buf[p + 8] > 2
    ensures ParsePacket(buf) == Fail(BadPriority(buf[p + 8] as int, p + 8))
  {
    Reads1(buf, p + 8);
    RecordRefused(buf, rs, p, BadPriority(buf[p + 8] as int, p + 8));
  }

  lemma IoRefused(buf: seq<byte>, pos: nat, ext: bool, io: IoSection, total: int, next: nat)
    requires IoInRange(io, ext) && 0 <= total < (if ext then 0x1_0000 else 0x100) && total != |io.entries|
    requires Spans(buf, pos, EncodeIo(io.(totalIo := total), ext), next)
    ensures ParseIo(buf, pos, ext) == Fail(IoCountMismatch(total, |io.entries|, next))
  {
    var w := IdWidth(ext);
    var event, declared, groups := ToBE(io.eventIoId, w), ToBE(total, w), EncodeGroups(GroupEncoder(ext), io.entries, Sizes(ext));
    Pow256Values();
    IoRange(io, ext);
    ValidIoGroups(io, ext);
    SpansConcat(buf, pos, event, declared + groups, next);
    SpansConcat(buf, pos + w, declared, groups, next);
    UIntExact(buf, pos, w, io.eventIoId, pos + w);
    UIntExact(buf, pos + w, w, total, pos + w + w);
    GroupsFromIo(buf, pos + w + w, ext, io.entries, next);
  }

  /** A total that is not the number of IO elements, in any record. */
  lemma TotalRefused(buf: seq<byte>, rs: seq<AvlRecord>, p: nat, r: AvlRecord, total: int, next: nat)
    requires Begins(buf, rs, p) && |rs| < buf[9] as int && RecordInRange(r, buf[8] == 0x8e)
    requires 0 <= total < (if buf[8] == 0x8e then 0x1_0000 else 0x100) && total != |r.io.entries|
    requires Spans(buf, p, Record(r.(io := r.io.(totalIo := total)), buf[8] == 0x8e), next)
    ensures ParsePacket(buf) == Fail(IoCountMismatch(total, |r.io.entries|, next))
  {
    var ext, declared := buf[8] == 0x8e, r.(io := r.io.(totalIo := total));
    IoBytes(declared.io, ext);
    RecordSpans(buf, p, ext, declared, next);
    RecordRange(r, ext);
    TimestampAndPriorityExact(buf, p, r.timestampMs, r.priority);
    GpsExact(buf, p + 9, r.gps, p + 24);
    IoRefused(buf, p + 24, ext, r.io, total, next);
    RecordRefused(buf, rs, p, IoCountMismatch(total, |r.io.entries|, next));
  }

  /** A second count that is not the first. */
  lemma CountRefused(buf: seq<byte>, rs: seq<AvlRecord>, p: nat)
    requires Begins(buf, rs, p) && |rs| == buf[9] as int && p < |buf| && buf[p] != buf[9]
    ensures ParsePacket(buf) == Fail(RecordCountMismatch(buf[9] as int, buf[p] as int, p))
  {
    RecordsRead(buf, rs, p);
    Reads1(buf, 8);
    Reads1(buf, 9);
    Reads1(buf, p);
    HeaderRefusals(buf);
  }

  // ----- The checksum -----

  lemma CrcReads(buf: seq<byte>, end: nat)
    requires end + 4 <= |buf|
    ensures ParseCrc(buf, end) == if Number2(buf, end) != 0 then Fail(CrcHighNotZero(Number2(buf, end), end))
                                  else Done(Number2(buf, end + 2), end + 4)
  {
    Reads2(buf, end);
    Reads2(buf, end + 2);
  }

  /** A frame that opens is its data and its checksum. */
  lemma FrameReads(buf: seq<byte>)
    requires Opens(buf)
    ensures ParseFrame(buf) == match ParseData(buf, 8)
                               case Fail(error) => Fail(error)
                               case Done(p, end) =>
                                 match ParseCrc(buf, end)
                                 case Fail(error) => Fail(error)
                                 case Done(crc, next) => Done(Unchecked(p, end, crc), next)
  {
    Reads4(buf, 0);
    Reads4(buf, 4);
  }

  /** After good data: an upper half of the checksum that is not zero, and then a lower one that is not the data's. */
  lemma ChecksumRefused(buf: seq<byte>, p: AvlPacket, end: nat)
    requires Opens(buf) && Layout.InRange(p) && Spans(buf, 8, Data(p), end) && end + 4 <= |buf|
    ensures Number2(buf, end) != 0 ==> ParsePacket(buf) == Fail(CrcHighNotZero(Number2(buf, end), end))
    ensures Number2(buf, end) == 0 && Number2(buf, end + 2) != Crc16(Data(p)) as int ==>
              ParsePacket(buf) == Fail(CrcMismatch(Number2(buf, end + 2), Crc16(Data(p)) as int))
  {
    PacketRange(p);
    DataBytes(p);
    DataExact(buf, 8, p, end);
    SpansSlice(buf, 8, Data(p), end);
    FrameReads(buf);
    CrcReads(buf, end);
  }

  // ----- Reads past the end -----

  /** What a read that fails for want of bytes reports: where it was, what was left there, and that it needed more. */
  ghost predicate Honest<T>(buf: seq<byte>, parsed: Parsed<T>) {
    match parsed
    case Done(_, next) => next <= |buf|
    case Fail(Underrun(needed, remaining, offset)) => 0 <= offset <= |buf| && remaining == |buf| - offset < needed
    case _ => true
  }

  lemma {:induction false} ListHonest<T>(buf: seq<byte>, item: nat -> Parsed<T>, pos: nat, count: nat)
    requires pos <= |buf| && forall p: nat :: p <= |buf| ==> Honest(buf, item(p))
    ensures Honest(buf, ParseList(item, pos, count))
    decreases count
  {
    if count > 0 && item(pos).Done? {
      assert Honest(buf, item(pos));
      ListHonest(buf, item, item(pos).next, count - 1);
    }
  }

  lemma EntryHonest(buf: seq<byte>, pos: nat, ext: bool, size: ByteSize)
    requires pos <= |buf|
    ensures Honest(buf, ParseEntry(buf, pos, ext, size))
  {
  }

  lemma GroupHonest(buf: seq<byte>, pos: nat, ext: bool, size: ByteSize)
    requires pos <= |buf|
    ensures Honest(buf, ParseGroup(buf, pos, ext, size))
  {
    var item := EntryParser(buf, ext, size);
    forall p: nat | p <= |buf|
      ensures Honest(buf, item(p))
    {
      EntryHonest(buf, p, ext, size);
    }
    match ReadUInt(buf, pos, IdWidth(ext))
    case Fail(_) =>
    case Done(count, p) => ListHonest(buf, item, p, count);
  }

  lemma {:induction false} GroupsHonest(buf: seq<byte>, pos: nat, ext: bool, sizes: seq<ByteSize>)
    requires pos <= |buf|
    ensures Honest(buf, ParseGroups(GroupParser(buf, ext), pos, sizes))
    decreases |sizes|
  {
    if sizes != [] {
      GroupHonest(buf, pos, ext, sizes[0]);
      match ParseGroup(buf, pos, ext, sizes[0])
      case Fail(_) =>
      case Done(_, p) => GroupsHonest(buf, p, ext, sizes[1..]);
    }
  }

  lemma IoHonest(buf: seq<byte>, pos: nat, ext: bool)
    requires pos <= |buf|
    ensures Honest(buf, ParseIo(buf, pos, ext))
  {
    var w := IdWidth(ext);
    if pos + w + w <= |buf| {
      GroupsHonest(buf, pos + w + w, ext, Sizes(ext));
    }
  }

  lemma GpsHonest(buf: seq<byte>, pos: nat)
    requires pos <= |buf|
    ensures Honest(buf, ParseGps(buf, pos))
  {
  }

  lemma RecordHonest(buf: seq<byte>, pos: nat, ext: bool)
    requires pos <= |buf|
    ensures Honest(buf, ParseRecord(buf, pos, ext))
  {
    if pos + 9 <= |buf| {
      GpsHonest(buf, pos + 9);
      match ParseGps(buf, pos + 9)
      case Fail(_) =>
      case Done(_, p) => IoHonest(buf, p, ext);
    }
  }

  lemma DataHonest(buf: seq<byte>, pos: nat)
    requires pos <= |buf|
    ensures Honest(buf, ParseData(buf, pos))
  {
    if pos + 2 <= |buf| {
      forall ext, p: nat | p <= |buf|
        ensures Honest(buf, RecordParser(buf)(ext)(p))
      {
        RecordHonest(buf, p, ext);
      }
      Reads1(buf, pos);
      Reads1(buf, pos + 1);
      ListHonest(buf, RecordParser(buf)(buf[pos] as int == CODEC_8E), pos + 2, buf[pos + 1] as int);
    }
  }

  lemma CrcHonest(buf: seq<byte>, end: nat)
    requires end <= |buf|
    ensures Honest(buf, ParseCrc(buf, end))
  {
  }

  lemma FrameHonest(buf: seq<byte>)
    requires Opens(buf)
    ensures Honest(buf, ParseFrame(buf))
  {
    DataHonest(buf, 8);
    FrameReads(buf);
    match ParseData(buf, 8)
    case Fail(_) =>
    case Done(_, end) => CrcHonest(buf, end);
  }

  lemma CheckedHonest(buf: seq<byte>, parsed: Parsed<Unchecked>)
    requires Honest(buf, parsed)
    ensures Honest(buf, Checked(buf, parsed))
  {
  }

  /** Every error about missing bytes is true of the bytes, however deep in the packet the read was. */
  lemma UnderrunsAreTrue(buf: seq<byte>, needed: nat, remaining: int, offset: int)
    requires ParsePacket(buf) == Fail(Underrun(needed, remaining, offset))
    ensures 0 <= offset <= |buf| && remaining == |buf| - offset < needed
  {
    if Opens(buf) {
      FrameHonest(buf);
      CheckedHonest(buf, ParseFrame(buf));
    } else {
      HeaderRefusals(buf);
    }
  }
}
