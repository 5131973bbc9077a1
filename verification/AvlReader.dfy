/** The codec as it runs: a cursor over a buffer, and loops that advance it. */
module AvlReader {
  import opened Bytes
  import opened Crc16Ibm
  import opened Avl
  import opened AvlParse
  import opened AvlExact

  /** What a call that may throw gives back. */
  datatype Result<+T> = Ok(value: T) | Err(error: CodecError) {
    predicate IsFailure() { Err? }
    function PropagateFailure<U>(): Result<U>
      requires IsFailure()
    {
      Err(error)
    }
    function Extract(): T
      requires !IsFailure()
    {
      value
    }
  }

  /** A read from a cursor gave what `p` says and left the cursor where `p` says. */
  ghost predicate Follows<T>(r: Result<T>, offset: nat, p: Parsed<T>) {
    match p
    case Done(value, next) => r == Ok(value) && offset == next
    case Fail(error) => r == Err(error)
  }

  class BufferReader {
    const buf: seq<byte>
    var offset: nat

    constructor (buf: seq<byte>)
      ensures this.buf == buf && offset == 0
    {
      this.buf := buf;
      offset := 0;
    }

    function Remaining(): int
      reads this
    {
      |buf| - offset
    }

    method Ensure(n: nat) returns (r: Result<()>)
      ensures r == if offset + n > |buf| then Err(Underrun(n, Remaining(), offset)) else Ok(())
    {
      if offset + n > |buf| {
        return Err(Underrun(n, Remaining(), offset));
      }
      r := Ok(());
    }

    method ReadUInt(n: nat) returns (r: Result<int>)
      modifies this
      ensures Follows(r, offset, AvlParse.ReadUInt(buf, old(offset), n))
    {
      var _ :- Ensure(n);
      r := Ok(BE(buf[offset..offset + n]));
      offset := offset + n;
    }

    method ReadInt(n: nat) returns (r: Result<int>)
      modifies this
      ensures Follows(r, offset, AvlParse.ReadInt(buf, old(offset), n))
    {
      var _ :- Ensure(n);
      r := Ok(Signed(BE(buf[offset..offset + n]), n));
      offset := offset + n;
    }

    method ReadBytes(n: nat) returns (r: Result<seq<byte>>)
      modifies this
      ensures Follows(r, offset, AvlParse.ReadBytes(buf, old(offset), n))
    {
      var _ :- Ensure(n);
      r := Ok(buf[offset..offset + n]);
      offset := offset + n;
    }
  }

  // ----- Lists read by a loop -----

  lemma {:induction false} ListSnoc<T>(item: nat -> Parsed<T>, pos: nat, xs: seq<T>, p: nat)
    requires ParseList(item, pos, |xs|) == Done(xs, p) && item(p).Done?
    ensures ParseList(item, pos, |xs| + 1) == Done(xs + [item(p).value], item(p).next)
    decreases |xs|
  {
    if xs == [] {
      assert ParseList(item, item(p).next, 0) == Done([], item(p).next);
      assert xs + [item(p).value] == [item(p).value] + [];
    } else {
      ListSnoc(item, item(pos).next, xs[1..], p);
      assert xs + [item(p).value] == [xs[0]] + (xs[1..] + [item(p).value]);
    }
  }

  lemma {:induction false} ListStops<T>(item: nat -> Parsed<T>, pos: nat, xs: seq<T>, p: nat, count: nat)
    requires ParseList(item, pos, |xs|) == Done(xs, p) && item(p).Fail? && |xs| < count
    ensures ParseList(item, pos, count) == Fail(item(p).error)
    decreases |xs|
  {
    if xs != [] {
      ListStops(item, item(pos).next, xs[1..], p, count - 1);
    }
  }

  // ----- The parts of a packet -----

  method ReadEntry(r: BufferReader, ext: bool, size: ByteSize) returns (e: Result<IoEntry>)
    modifies r
    ensures Follows(e, r.offset, ParseEntry(r.buf, old(r.offset), ext, size))
  {
    var id :- r.ReadUInt(IdWidth(ext));
    if size == NX {
      var length :- r.ReadUInt(2);
      var data :- r.ReadBytes(length);
      e := Ok(IoEntry(id, Buffer(data), size));
    } else {
      var n :- r.ReadUInt(Width(size));
      e := Ok(IoEntry(id, if size == B8 then BigInt(n) else Number(n), size));
    }
  }

  /** One counted group, read after the entries read before it. */
  method ReadGroup(r: BufferReader, ext: bool, size: ByteSize, before: seq<IoEntry>) returns (entries: Result<seq<IoEntry>>)
    modifies r
    ensures var g := GroupParser(r.buf, ext)(size)(old(r.offset));
            Follows(entries, r.offset, if g.Done? then Done(before + g.value, g.next) else Fail(g.error))
  {
    ghost var start := r.offset;
    var count :- r.ReadUInt(IdWidth(ext));
    ghost var item, first := EntryParser(r.buf, ext, size), r.offset;
    assert ParseGroup(r.buf, start, ext, size) == ParseList(item, first, count);
    var g := [];
    for i := 0 to count
      invariant |g| == i && ParseList(item, first, i) == Done(g, r.offset)
    {
      ghost var p := r.offset;
      var e := ReadEntry(r, ext, size);
      if e.Err? {
        ListStops(item, first, g, p, count);
        return Err(e.error);
      }
      ListSnoc(item, first, g, p);
      g := g + [e.value];
    }
    entries := Ok(before + g);
  }

  lemma {:induction false} GroupsSnoc(group: ByteSize -> nat -> Parsed<seq<IoEntry>>, pos: nat, sizes: seq<ByteSize>, k: nat)
    requires k < |sizes| && ParseGroups(group, pos, sizes[..k]).Done?
    ensures var done := ParseGroups(group, pos, sizes[..k]);
            var g := group(sizes[k])(done.next);
            && (g.Done? ==> ParseGroups(group, pos, sizes[..k + 1]) == Done(done.value + g.value, g.next))
            && (g.Fail? ==> ParseGroups(group, pos, sizes) == Fail(g.error))
    decreases k
  {
    if k == 0 {
      assert sizes[..1] == [sizes[0]] && sizes[..1][1..] == [];
      var g := group(sizes[0])(pos);
      if g.Done? {
        assert ParseGroups(group, g.next, []) == Done([], g.next);
        assert [] + g.value == g.value + [];
      }
    } else {
      var g0 := group(sizes[0])(pos);
      assert sizes[..k][1..] == sizes[1..][..k - 1] && sizes[..k + 1][1..] == sizes[1..][..k];
      GroupsSnoc(group, g0.next, sizes[1..], k - 1);
      var rest := ParseGroups(group, g0.next, sizes[1..][..k - 1]);
      var g := group(sizes[k])(rest.next);
      if g.Done? {
        assert g0.value + (rest.value + g.value) == g0.value + rest.value + g.value;
      }
    }
  }

  method ReadIo(r: BufferReader, ext: bool) returns (io: Result<IoSection>)
    modifies r
    ensures Follows(io, r.offset, ParseIo(r.buf, old(r.offset), ext))
  {
    var eventIoId :- r.ReadUInt(IdWidth(ext));
    var totalIo :- r.ReadUInt(IdWidth(ext));
    ghost var group, start := GroupParser(r.buf, ext), r.offset;
    var sizes, entries := Sizes(ext), [];
    for k := 0 to |sizes|
      invariant ParseGroups(group, start, sizes[..k]) == Done(entries, r.offset)
    {
      GroupsSnoc(group, start, sizes, k);
      entries :- ReadGroup(r, ext, sizes[k], entries);
    }
    assert sizes[..|sizes|] == sizes;
    if |entries| != totalIo {
      return Err(IoCountMismatch(totalIo, |entries|, r.offset));
    }
    io := Ok(IoSection(eventIoId, totalIo, entries));
  }

  method ReadGps(r: BufferReader) returns (g: Result<GpsElement>)
    modifies r
    ensures Follows(g, r.offset, ParseGps(r.buf, old(r.offset)))
  {
    var longitude :- r.ReadInt(4);
    var latitude :- r.ReadInt(4);
    var altitude :- r.ReadInt(2);
    var angle :- r.ReadUInt(2);
    var satellites :- r.ReadUInt(1);
    var speedKmh :- r.ReadUInt(2);
    g := Ok(GpsElement(longitude, latitude, altitude, angle, satellites, speedKmh));
  }

  method ReadRecord(r: BufferReader, ext: bool) returns (rec: Result<AvlRecord>)
    modifies r
    ensures Follows(rec, r.offset, ParseRecord(r.buf, old(r.offset), ext))
  {
    var timestampMs :- r.ReadUInt(8);
    var priority :- r.ReadUInt(1);
    if priority != 0 && priority != 1 && priority != 2 {
      return Err(BadPriority(priority, r.offset - 1));
    }
    var gps :- ReadGps(r);
    var io :- ReadIo(r, ext);
    rec := Ok(AvlRecord(timestampMs, priority, gps, io));
  }

  /** `item` reads records. */
  ghost predicate ReadsRecords(item: nat -> Parsed<AvlRecord>, buf: seq<byte>, ext: bool) {
    forall pos: nat {:trigger ParseRecord(buf, pos, ext)} :: item(pos) == ParseRecord(buf, pos, ext)
  }

  method NextRecord(r: BufferReader, ext: bool, ghost item: nat -> Parsed<AvlRecord>) returns (rec: Result<AvlRecord>)
    requires ReadsRecords(item, r.buf, ext)
    modifies r
    ensures Follows(rec, r.offset, item(old(r.offset)))
  {
    rec := ReadRecord(r, ext);
  }

  method ReadRecords(r: BufferReader, ext: bool, count: nat, ghost item: nat -> Parsed<AvlRecord>)
    returns (records: Result<seq<AvlRecord>>)
    requires ReadsRecords(item, r.buf, ext)
    modifies r
    ensures Follows(records, r.offset, ParseList(item, old(r.offset), count))
  {
    ghost var first := r.offset;
    var rs := [];
    for i := 0 to count
      invariant |rs| == i && ParseList(item, first, i) == Done(rs, r.offset)
    {
      ghost var p := r.offset;
      var rec := NextRecord(r, ext, item);
      if rec.Err? {
        ListStops(item, first, rs, p, count);
        return Err(rec.error);
      }
      ListSnoc(item, first, rs, p);
      rs := rs + [rec.value];
    }
    records := Ok(rs);
  }

  method ReadData(r: BufferReader) returns (p: Result<AvlPacket>)
    modifies r
    ensures Follows(p, r.offset, ParseDataWith(RecordParser(r.buf), r.buf, old(r.offset)))
  {
    var start := r.offset;
    var codecId :- r.ReadUInt(1);
    if codecId != CODEC_8 && codecId != CODEC_8E {
      return Err(UnsupportedCodec(codecId, start));
    }
    var recordCount :- r.ReadUInt(1);
    var records :- ReadRecords(r, codecId == CODEC_8E, recordCount, RecordParser(r.buf)(codecId == CODEC_8E));
    var recordCount2 :- r.ReadUInt(1);
    if recordCount2 != recordCount {
      return Err(RecordCountMismatch(recordCount, recordCount2, r.offset - 1));
    }
    p := Ok(AvlPacket(codecId, recordCount, records));
  }

  /** The body of `parseAvlPacket` up to the comparison of checksums. */
  method ReadFrame(buf: seq<byte>) returns (f: Result<Unchecked>)
    ensures f == match ParseFrame(buf) case Done(frame, _) => Ok(frame) case Fail(error) => Err(error)
  {
    if |buf| < 12 {
      return Err(PacketTooShort(|buf|));
    }
    var r := new BufferReader(buf);
    // Twelve bytes are there: neither of these two reads fails.
    var preamble := r.ReadUInt(4);
    if preamble.value != 0 {
      return Err(BadPreamble(preamble.value));
    }
    var dataLength := r.ReadUInt(4);
    if dataLength.value < 3 {
      return Err(AbsurdDataLength(dataLength.value));
    }
    if 8 + dataLength.value + 4 != |buf| {
      return Err(SizeMismatch(dataLength.value, |buf|));
    }
    var packet :- ReadData(r);
    var dataEnd := r.offset;
    var crcHi :- r.ReadUInt(2);
    var crcLo :- r.ReadUInt(2);
    if crcHi != 0 {
      return Err(CrcHighNotZero(crcHi, r.offset - 4));
    }
    f := Ok(Unchecked(packet, dataEnd, crcLo));
  }

  /** `parseAvlPacket`, with the CRC table filled when the module loads. */
  method ParseAvlPacket(table: array<bv16>, buf: seq<byte>) returns (p: Result<AvlPacket>)
    requires IsTable(table)
    ensures p == match ParsePacket(buf) case Done(packet, _) => Ok(packet) case Fail(error) => Err(error)
  {
    var frame :- ReadFrame(buf);
    FrameSound(buf, frame, ParseFrame(buf).next);
    var actual := TableCrc(table, buf, 8, frame.dataEnd);
    if frame.crc != actual as int {
      return Err(CrcMismatch(frame.crc, actual as int));
    }
    p := Ok(frame.packet);
  }
}
