/**
 * The parser accepts exactly the encodings of valid packets. Every part of a packet has one lemma, in both
 * directions: reading at `pos` returns `v` and stops at `next` if and only if `v` is valid and its encoding
 * fills the buffer from `pos` to `next`.
 */
module AvlExact {
  import opened Bytes
  import opened ShiftRegister
  import opened Crc16Ibm
  import opened Avl
  import opened AvlParse

  // ----- Integers, byte strings and lists -----

  lemma BytesExact(buf: seq<byte>, pos: nat, s: seq<byte>, next: nat)
    ensures ReadBytes(buf, pos, |s|) == Done(s, next) <==> Spans(buf, pos, s, next)
  {
    SpansSlice(buf, pos, s, next);
  }

  lemma UIntExact(buf: seq<byte>, pos: nat, n: nat, v: int, next: nat)
    ensures ReadUInt(buf, pos, n) == Done(v, next) <==> Fits(v, n) && Spans(buf, pos, ToBE(v, n), next)
  {
    SpansSlice(buf, pos, ToBE(v, n), next);
    if ReadUInt(buf, pos, n) == Done(v, next) {
      var s := buf[pos..pos + n];
      ToBEBE(s);
      BEFits(s);
      assert v == BE(s);
    } else if Fits(v, n) && Spans(buf, pos, ToBE(v, n), next) {
      BEToBE(v, n);
    }
  }

  lemma IntExact(buf: seq<byte>, pos: nat, n: nat, v: int, next: nat)
    ensures ReadInt(buf, pos, n) == Done(v, next) <==> FitsSigned(v, n) && Spans(buf, pos, ToBE(v, n), next)
  {
    SpansSlice(buf, pos, ToBE(v, n), next);
    if pos + n <= |buf| {
      SignedBytes(buf[pos..pos + n], v);
    }
  }

  ghost predicate ExactAt<T>(buf: seq<byte>, item: nat -> Parsed<T>, encode: T -> seq<byte>, valid: T -> bool,
                             pos: nat, x: T, next: nat) {
    item(pos) == Done(x, next) <==> valid(x) && Spans(buf, pos, encode(x), next)
  }

  /** `item` reads exactly the encodings of valid values. */
  ghost predicate Exact<T(!new)>(buf: seq<byte>, item: nat -> Parsed<T>, encode: T -> seq<byte>, valid: T -> bool) {
    forall pos: nat, x: T, next: nat :: ExactAt(buf, item, encode, valid, pos, x, next)
  }

  ghost predicate All<T(!new)>(xs: seq<T>, valid: T -> bool) {
    forall x :: x in xs ==> valid(x)
  }

  lemma AllCons<T(!new)>(x: T, xs: seq<T>, valid: T -> bool)
    ensures All([x] + xs, valid) <==> valid(x) && All(xs, valid)
  {
    assert x in [x] + xs;
    assert forall y :: y in xs ==> y in [x] + xs;
  }

  lemma {:induction false} ListExact<T(!new)>(buf: seq<byte>, item: nat -> Parsed<T>, encode: T -> seq<byte>, valid: T -> bool,
                                        pos: nat, xs: seq<T>, next: nat)
    requires Exact(buf, item, encode, valid)
    requires pos <= |buf|
    ensures ParseList(item, pos, |xs|) == Done(xs, next) <==> All(xs, valid) && Spans(buf, pos, EncodeList(encode, xs), next)
    decreases |xs|
  {
    if xs != [] {
      var x, rest, mid := xs[0], xs[1..], pos + |encode(xs[0])|;
      assert xs == [x] + rest;
      AllCons(x, rest, valid);
      SpansConcat(buf, pos, encode(x), EncodeList(encode, rest), next);
      assert ExactAt(buf, item, encode, valid, pos, x, mid);
      if mid <= |buf| {
        ListExact(buf, item, encode, valid, mid, rest, next);
      }
      if ParseList(item, pos, |xs|) == Done(xs, next) {
        assert item(pos).Done? && item(pos).value == x;
        assert ExactAt(buf, item, encode, valid, pos, x, item(pos).next);
      }
    }
  }

  // ----- IO entries -----

  lemma ValueExact(buf: seq<byte>, pos: nat, size: ByteSize, v: IoValue, next: nat)
    ensures ParseValue(buf, pos, size) == Done(v, next) <==> ValidValue(v, size) && Spans(buf, pos, EncodeValue(v, size), next)
  {
    match v
    case Buffer(data) =>
      UIntExact(buf, pos, 2, |data|, pos + 2);
      BytesExact(buf, pos + 2, data, next);
      SpansConcat(buf, pos, ToBE(|data|, 2), data, next);
    case Number(n) => UIntExact(buf, pos, Width(size), n, next);
    case BigInt(n) => UIntExact(buf, pos, Width(size), n, next);
    case NotANumber =>
  }

  lemma EntryExact(buf: seq<byte>, pos: nat, ext: bool, size: ByteSize, e: IoEntry, next: nat)
    ensures ParseEntry(buf, pos, ext, size) == Done(e, next)
       <==> e.byteSize == size && ValidEntry(e, ext) && Spans(buf, pos, EncodeEntry(e, ext), next)
  {
    var w := IdWidth(ext);
    UIntExact(buf, pos, w, e.id, pos + w);
    ValueExact(buf, pos + w, size, e.value, next);
    SpansConcat(buf, pos, ToBE(e.id, w), EncodeValue(e.value, e.byteSize), next);
  }

  function ValidIn(ext: bool, size: ByteSize): IoEntry -> bool {
    (e: IoEntry) => e.byteSize == size && ValidEntry(e, ext)
  }

  lemma EntriesExact(buf: seq<byte>, ext: bool, size: ByteSize)
    ensures Exact(buf, EntryParser(buf, ext, size), EntryEncoder(ext), ValidIn(ext, size))
  {
    forall pos: nat, e: IoEntry, next: nat
      ensures ExactAt(buf, EntryParser(buf, ext, size), EntryEncoder(ext), ValidIn(ext, size), pos, e, next)
    {
      EntryExact(buf, pos, ext, size, e, next);
    }
  }

  ghost function ValidGroup(ext: bool): ByteSize -> seq<IoEntry> -> bool {
    size => (g: seq<IoEntry>) => ValidGroupOf(g, ext, size)
  }

  ghost predicate ValidGroupOf(g: seq<IoEntry>, ext: bool, size: ByteSize) {
    Fits(|g|, IdWidth(ext)) && All(g, ValidIn(ext, size))
  }

  lemma GroupExact(buf: seq<byte>, pos: nat, ext: bool, size: ByteSize, g: seq<IoEntry>, next: nat)
    ensures ParseGroup(buf, pos, ext, size) == Done(g, next)
       <==> ValidGroupOf(g, ext, size) && Spans(buf, pos, EncodeGroup(g, ext), next)
  {
    var w := IdWidth(ext);
    UIntExact(buf, pos, w, |g|, pos + w);
    SpansConcat(buf, pos, ToBE(|g|, w), EncodeList(EntryEncoder(ext), g), next);
    if pos + w <= |buf| {
      EntriesExact(buf, ext, size);
      ListExact(buf, EntryParser(buf, ext, size), EntryEncoder(ext), ValidIn(ext, size), pos + w, g, next);
    }
  }

  lemma GroupParserExact(buf: seq<byte>, ext: bool, size: ByteSize)
    ensures Exact(buf, GroupParser(buf, ext)(size), GroupEncoder(ext), ValidGroup(ext)(size))
  {
    forall pos: nat, g: seq<IoEntry>, next: nat
      ensures ExactAt(buf, GroupParser(buf, ext)(size), GroupEncoder(ext), ValidGroup(ext)(size), pos, g, next)
    {
      GroupExact(buf, pos, ext, size, g, next);
    }
  }

  // ----- Groups: the entries come out sorted by group -----

  /** `es` is made of one valid group for each of `sizes`, in that order. */
  ghost predicate ValidGroups(es: seq<IoEntry>, valid: ByteSize -> seq<IoEntry> -> bool, sizes: seq<ByteSize>) {
    && es == ByGroup(es, sizes)
    && forall size :: size in sizes ==> valid(size)(OfSize(es, size))
  }

  /** A valid group of a size has entries of that size only. */
  ghost predicate Sorting(valid: ByteSize -> seq<IoEntry> -> bool) {
    forall size: ByteSize, g: seq<IoEntry>, e: IoEntry :: valid(size)(g) && e in g ==> e.byteSize == size
  }

  ghost predicate Distinct(sizes: seq<ByteSize>) {
    forall i, j :: 0 <= i < j < |sizes| ==> sizes[i] != sizes[j]
  }

  lemma OfSizeStep(e: IoEntry, es: seq<IoEntry>, size: ByteSize)
    ensures OfSize([e] + es, size) == (if e.byteSize == size then [e] else []) + OfSize(es, size)
  {
    assert ([e] + es)[1..] == es;
  }

  lemma {:induction false} OfSizeMembers(es: seq<IoEntry>, size: ByteSize)
    ensures |OfSize(es, size)| <= |es|
    ensures forall e :: e in OfSize(es, size) <==> e in es && e.byteSize == size
  {
    if es != [] {
      OfSizeMembers(es[1..], size);
    }
  }

  lemma {:induction false} OfSizeConcat(a: seq<IoEntry>, b: seq<IoEntry>, size: ByteSize)
    ensures OfSize(a + b, size) == OfSize(a, size) + OfSize(b, size)
  {
    if a == [] {
      assert a + b == b;
    } else {
      OfSizeConcat(a[1..], b, size);
      OfSizeStep(a[0], a[1..] + b, size);
      OfSizeStep(a[0], a[1..], size);
      assert a == [a[0]] + a[1..] && a + b == [a[0]] + (a[1..] + b);
    }
  }

  lemma {:induction false} OfSizeUniform(es: seq<IoEntry>, own: ByteSize, size: ByteSize)
    requires forall e :: e in es ==> e.byteSize == own
    ensures OfSize(es, size) == if size == own then es else []
  {
    if es != [] {
      OfSizeUniform(es[1..], own, size);
    }
  }

  lemma {:induction false} OfSizeNone(es: seq<IoEntry>, size: ByteSize)
    requires forall e :: e in es ==> e.byteSize != size
    ensures OfSize(es, size) == []
  {
    if es != [] {
      OfSizeNone(es[1..], size);
    }
  }

  lemma {:induction false} ByGroupSizes(es: seq<IoEntry>, sizes: seq<ByteSize>)
    ensures forall e :: e in ByGroup(es, sizes) ==> e.byteSize in sizes && e in es
    decreases |sizes|
  {
    if sizes != [] {
      OfSizeMembers(es, sizes[0]);
      ByGroupSizes(es, sizes[1..]);
    }
  }

  /** Sorting by group, and encoding, look at the entries of the listed groups only. */
  lemma {:induction false} GroupsDependOnOfSize(a: seq<IoEntry>, b: seq<IoEntry>, encode: seq<IoEntry> -> seq<byte>, sizes: seq<ByteSize>)
    requires forall size :: size in sizes ==> OfSize(a, size) == OfSize(b, size)
    ensures ByGroup(a, sizes) == ByGroup(b, sizes) && EncodeGroups(encode, a, sizes) == EncodeGroups(encode, b, sizes)
    decreases |sizes|
  {
    if sizes != [] {
      assert sizes[0] in sizes;
      GroupsDependOnOfSize(a, b, encode, sizes[1..]);
    }
  }

  lemma OfSizeCons(g: seq<IoEntry>, rest: seq<IoEntry>, sizes: seq<ByteSize>)
    requires sizes != [] && Distinct(sizes)
    requires forall e :: e in g ==> e.byteSize == sizes[0]
    requires forall e :: e in rest ==> e.byteSize in sizes[1..]
    ensures OfSize(g + rest, sizes[0]) == g
    ensures forall size :: size in sizes[1..] ==> OfSize(g + rest, size) == OfSize(rest, size)
  {
    OfSizeConcat(g, rest, sizes[0]);
    OfSizeUniform(g, sizes[0], sizes[0]);
    OfSizeNone(rest, sizes[0]);
    forall size | size in sizes[1..]
      ensures OfSize(g + rest, size) == OfSize(rest, size)
    {
      OfSizeConcat(g, rest, size);
      OfSizeUniform(g, sizes[0], size);
    }
  }

  /** A group in front of the groups that follow it. */
  lemma GroupsCons(g: seq<IoEntry>, rest: seq<IoEntry>, encode: seq<IoEntry> -> seq<byte>,
                   valid: ByteSize -> seq<IoEntry> -> bool, sizes: seq<ByteSize>)
    requires sizes != [] && Distinct(sizes) && Sorting(valid)
    requires valid(sizes[0])(g) && ValidGroups(rest, valid, sizes[1..])
    ensures ValidGroups(g + rest, valid, sizes)
    ensures EncodeGroups(encode, g + rest, sizes) == encode(g) + EncodeGroups(encode, rest, sizes[1..])
  {
    ByGroupSizes(rest, sizes[1..]);
    OfSizeCons(g, rest, sizes);
    GroupsDependOnOfSize(g + rest, rest, encode, sizes[1..]);
    forall size | size in sizes
      ensures valid(size)(OfSize(g + rest, size))
    {
      assert size == sizes[0] || size in sizes[1..];
    }
  }

  lemma GroupsUncons(es: seq<IoEntry>, valid: ByteSize -> seq<IoEntry> -> bool, sizes: seq<ByteSize>)
    requires sizes != [] && Distinct(sizes) && ValidGroups(es, valid, sizes)
    ensures var g, rest := OfSize(es, sizes[0]), ByGroup(es, sizes[1..]);
            es == g + rest && valid(sizes[0])(g) && ValidGroups(rest, valid, sizes[1..])
  {
    var g, rest := OfSize(es, sizes[0]), ByGroup(es, sizes[1..]);
    ByGroupSizes(es, sizes[1..]);
    OfSizeMembers(es, sizes[0]);
    assert sizes[0] in sizes;
    OfSizeCons(g, rest, sizes);
    GroupsDependOnOfSize(es, rest, g => [], sizes[1..]);
    forall size | size in sizes[1..]
      ensures valid(size)(OfSize(rest, size))
    {
      assert size in sizes;
    }
  }

  lemma {:induction false} GroupsExact(buf: seq<byte>, group: ByteSize -> nat -> Parsed<seq<IoEntry>>, encode: seq<IoEntry> -> seq<byte>,
                                       valid: ByteSize -> seq<IoEntry> -> bool, pos: nat, sizes: seq<ByteSize>, es: seq<IoEntry>, next: nat)
    requires Sorting(valid) && forall size :: Exact(buf, group(size), encode, valid(size))
    requires Distinct(sizes) && pos <= |buf|
    ensures ParseGroups(group, pos, sizes) == Done(es, next)
       <==> ValidGroups(es, valid, sizes) && Spans(buf, pos, EncodeGroups(encode, es, sizes), next)
    decreases |sizes|
  {
    if sizes != [] {
      if ParseGroups(group, pos, sizes) == Done(es, next) {
        var g, mid := group(sizes[0])(pos).value, group(sizes[0])(pos).next;
        assert ExactAt(buf, group(sizes[0]), encode, valid(sizes[0]), pos, g, mid);
        var rest := ParseGroups(group, mid, sizes[1..]).value;
        GroupsExact(buf, group, encode, valid, mid, sizes[1..], rest, next);
        GroupsCons(g, rest, encode, valid, sizes);
        SpansConcat(buf, pos, encode(g), EncodeGroups(encode, rest, sizes[1..]), next);
      }
      if ValidGroups(es, valid, sizes) && Spans(buf, pos, EncodeGroups(encode, es, sizes), next) {
        var g, rest := OfSize(es, sizes[0]), ByGroup(es, sizes[1..]);
        var mid := pos + |encode(g)|;
        GroupsUncons(es, valid, sizes);
        GroupsCons(g, rest, encode, valid, sizes);
        SpansConcat(buf, pos, encode(g), EncodeGroups(encode, rest, sizes[1..]), next);
        assert ExactAt(buf, group(sizes[0]), encode, valid(sizes[0]), pos, g, mid);
        GroupsExact(buf, group, encode, valid, mid, sizes[1..], rest, next);
      }
    }
  }

  // ----- IO sections -----

  lemma SizesDistinct(ext: bool)
    ensures Distinct(Sizes(ext))
  {
  }

  /** In an IO section whose total fits, each group's count fits too. */
  lemma ValidIoGroups(io: IoSection, ext: bool)
    ensures ValidIo(io, ext)
       <==> && Fits(io.eventIoId, IdWidth(ext)) && Fits(io.totalIo, IdWidth(ext)) && io.totalIo == |io.entries|
            && ValidGroups(io.entries, ValidGroup(ext), Sizes(ext))
  {
    var es := io.entries;
    if ValidIo(io, ext) {
      forall size | size in Sizes(ext)
        ensures ValidGroup(ext)(size)(OfSize(es, size))
      {
        OfSizeMembers(es, size);
      }
    }
    if ValidGroups(es, ValidGroup(ext), Sizes(ext)) {
      ByGroupSizes(es, Sizes(ext));
      forall e | e in es
        ensures ValidEntry(e, ext)
      {
        OfSizeMembers(es, e.byteSize);
        assert ValidGroup(ext)(e.byteSize)(OfSize(es, e.byteSize));
      }
    }
  }

  lemma GroupsFromIo(buf: seq<byte>, pos: nat, ext: bool, es: seq<IoEntry>, next: nat)
    requires pos <= |buf|
    ensures ParseGroups(GroupParser(buf, ext), pos, Sizes(ext)) == Done(es, next)
       <==> ValidGroups(es, ValidGroup(ext), Sizes(ext)) && Spans(buf, pos, EncodeGroups(GroupEncoder(ext), es, Sizes(ext)), next)
  {
    forall size
      ensures Exact(buf, GroupParser(buf, ext)(size), GroupEncoder(ext), ValidGroup(ext)(size))
    {
      GroupParserExact(buf, ext, size);
    }
    SizesDistinct(ext);
    GroupsExact(buf, GroupParser(buf, ext), GroupEncoder(ext), ValidGroup(ext), pos, Sizes(ext), es, next);
  }

  lemma IoExact(buf: seq<byte>, pos: nat, ext: bool, io: IoSection, next: nat)
    ensures ParseIo(buf, pos, ext) == Done(io, next) <==> ValidIo(io, ext) && Spans(buf, pos, EncodeIo(io, ext), next)
  {
    var w := IdWidth(ext);
    var event, total, groups := ToBE(io.eventIoId, w), ToBE(io.totalIo, w), EncodeGroups(GroupEncoder(ext), io.entries, Sizes(ext));
    ValidIoGroups(io, ext);
    SpansConcat(buf, pos, event, total + groups, next);
    SpansConcat(buf, pos + w, total, groups, next);
    UIntExact(buf, pos, w, io.eventIoId, pos + w);
    UIntExact(buf, pos + w, w, io.totalIo, pos + w + w);
    if pos + w + w <= |buf| {
      GroupsFromIo(buf, pos + w + w, ext, io.entries, next);
    }
  }

  // ----- GPS elements and records -----

  lemma GpsExact(buf: seq<byte>, pos: nat, g: GpsElement, next: nat)
    ensures ParseGps(buf, pos) == Done(g, next) <==> ValidGps(g) && Spans(buf, pos, EncodeGps(g), next)
  {
    var lon, lat, alt := ToBE(g.longitude, 4), ToBE(g.latitude, 4), ToBE(g.altitude, 2);
    var angle, sats, speed := ToBE(g.angle, 2), ToBE(g.satellites, 1), ToBE(g.speedKmh, 2);
    SpansConcat(buf, pos, lon, lat + (alt + (angle + (sats + speed))), next);
    SpansConcat(buf, pos + 4, lat, alt + (angle + (sats + speed)), next);
    SpansConcat(buf, pos + 8, alt, angle + (sats + speed), next);
    SpansConcat(buf, pos + 10, angle, sats + speed, next);
    SpansConcat(buf, pos + 12, sats, speed, next);
    IntExact(buf, pos, 4, g.longitude, pos + 4);
    IntExact(buf, pos + 4, 4, g.latitude, pos + 8);
    IntExact(buf, pos + 8, 2, g.altitude, pos + 10);
    UIntExact(buf, pos + 10, 2, g.angle, pos + 12);
    UIntExact(buf, pos + 12, 1, g.satellites, pos + 13);
    UIntExact(buf, pos + 13, 2, g.speedKmh, next);
  }

  lemma RecordSpans(buf: seq<byte>, pos: nat, ext: bool, r: AvlRecord, next: nat)
    ensures Spans(buf, pos, EncodeRecord(r, ext), next)
       <==> && Spans(buf, pos, ToBE(r.timestampMs, 8), pos + 8) && Spans(buf, pos + 8, ToBE(r.priority, 1), pos + 9)
            && Spans(buf, pos + 9, EncodeGps(r.gps), pos + 24) && Spans(buf, pos + 24, EncodeIo(r.io, ext), next)
  {
    var ts, priority, gps, io := ToBE(r.timestampMs, 8), ToBE(r.priority, 1), EncodeGps(r.gps), EncodeIo(r.io, ext);
    SpansConcat(buf, pos, ts, priority + (gps + io), next);
    SpansConcat(buf, pos + 8, priority, gps + io, next);
    SpansConcat(buf, pos + 9, gps, io, next);
  }

  lemma RecordExact(buf: seq<byte>, pos: nat, ext: bool, r: AvlRecord, next: nat)
    ensures ParseRecord(buf, pos, ext) == Done(r, next) <==> ValidRecord(r, ext) && Spans(buf, pos, EncodeRecord(r, ext), next)
  {
    ReadRecord(buf, pos, ext, r, next);
    RecordSpans(buf, pos, ext, r, next);
    TimestampAndPriorityExact(buf, pos, r.timestampMs, r.priority);
    GpsExact(buf, pos + 9, r.gps, pos + 24);
    IoExact(buf, pos + 24, ext, r.io, next);
  }

  lemma ReadRecord(buf: seq<byte>, pos: nat, ext: bool, r: AvlRecord, next: nat)
    ensures ParseRecord(buf, pos, ext) == Done(r, next)
       <==> && ReadUInt(buf, pos, 8) == Done(r.timestampMs, pos + 8) && ReadUInt(buf, pos + 8, 1) == Done(r.priority, pos + 9)
            && r.priority in {0, 1, 2}
            && ParseGps(buf, pos + 9) == Done(r.gps, pos + 24) && ParseIo(buf, pos + 24, ext) == Done(r.io, next)
  {
  }

  lemma TimestampAndPriorityExact(buf: seq<byte>, pos: nat, timestampMs: int, priority: int)
    ensures && ReadUInt(buf, pos, 8) == Done(timestampMs, pos + 8) && ReadUInt(buf, pos + 8, 1) == Done(priority, pos + 9)
            && priority in {0, 1, 2}
       <==> && Fits(timestampMs, 8) && priority in {0, 1, 2}
            && Spans(buf, pos, ToBE(timestampMs, 8), pos + 8) && Spans(buf, pos + 8, ToBE(priority, 1), pos + 9)
  {
    UIntExact(buf, pos, 8, timestampMs, pos + 8);
    UIntExact(buf, pos + 8, 1, priority, pos + 9);
    Pow256Values();
  }

  function ValidRecordIn(): bool -> AvlRecord -> bool {
    ext => r => ValidRecord(r, ext)
  }

  lemma RecordParserExact(buf: seq<byte>, ext: bool)
    ensures Exact(buf, RecordParser(buf)(ext), RecordEncoder()(ext), ValidRecordIn()(ext))
  {
    forall pos: nat, r: AvlRecord, next: nat
      ensures ExactAt(buf, RecordParser(buf)(ext), RecordEncoder()(ext), ValidRecordIn()(ext), pos, r, next)
    {
      RecordExact(buf, pos, ext, r, next);
    }
  }

  // ----- The data field -----

  ghost function RecordBytes(encode: bool -> AvlRecord -> seq<byte>, p: AvlPacket): seq<byte> {
    EncodeList(encode(p.codecId == CODEC_8E), p.records)
  }

  lemma DataSpans(buf: seq<byte>, encode: bool -> AvlRecord -> seq<byte>, pos: nat, p: AvlPacket, next: nat)
    ensures Spans(buf, pos, DataWith(encode, p), next)
       <==> && Spans(buf, pos, ToBE(p.codecId, 1), pos + 1) && Spans(buf, pos + 1, ToBE(p.recordCount, 1), pos + 2)
            && Spans(buf, pos + 2, RecordBytes(encode, p), pos + 2 + |RecordBytes(encode, p)|)
            && Spans(buf, pos + 2 + |RecordBytes(encode, p)|, ToBE(p.recordCount, 1), next)
  {
    var codec, count := ToBE(p.codecId, 1), ToBE(p.recordCount, 1);
    var records := RecordBytes(encode, p);
    SpansConcat(buf, pos, codec, count + (records + count), next);
    SpansConcat(buf, pos + 1, count, records + count, next);
    SpansConcat(buf, pos + 2, records, count, next);
  }

  lemma ReadData(record: bool -> nat -> Parsed<AvlRecord>, buf: seq<byte>, pos: nat, p: AvlPacket, end: nat, next: nat)
    requires var records := ParseList(record(p.codecId == CODEC_8E), pos + 2, |p.records|);
             records.Done? && records.value == p.records ==> records.next == end
    ensures ParseDataWith(record, buf, pos) == Done(p, next)
       <==> && ReadUInt(buf, pos, 1) == Done(p.codecId, pos + 1) && ReadUInt(buf, pos + 1, 1) == Done(|p.records|, pos + 2)
            && p.codecId in {CODEC_8, CODEC_8E} && p.recordCount == |p.records|
            && ParseList(record(p.codecId == CODEC_8E), pos + 2, |p.records|) == Done(p.records, end)
            && ReadUInt(buf, end, 1) == Done(|p.records|, next)
  {
  }

  lemma CodecAndCountExact(buf: seq<byte>, pos: nat, codecId: int, count: nat)
    ensures && ReadUInt(buf, pos, 1) == Done(codecId, pos + 1) && ReadUInt(buf, pos + 1, 1) == Done(count, pos + 2)
            && codecId in {CODEC_8, CODEC_8E}
       <==> && codecId in {CODEC_8, CODEC_8E} && Fits(count, 1)
            && Spans(buf, pos, ToBE(codecId, 1), pos + 1) && Spans(buf, pos + 1, ToBE(count, 1), pos + 2)
  {
    Pow256Values();
    UIntExact(buf, pos, 1, codecId, pos + 1);
    UIntExact(buf, pos + 1, 1, count, pos + 2);
  }

  lemma DataWithExact(buf: seq<byte>, record: bool -> nat -> Parsed<AvlRecord>, encode: bool -> AvlRecord -> seq<byte>,
                      valid: bool -> AvlRecord -> bool, pos: nat, p: AvlPacket, next: nat)
    requires Exact(buf, record(p.codecId == CODEC_8E), encode(p.codecId == CODEC_8E), valid(p.codecId == CODEC_8E))
    ensures ParseDataWith(record, buf, pos) == Done(p, next)
       <==> && p.codecId in {CODEC_8, CODEC_8E} && p.recordCount == |p.records| && Fits(p.recordCount, 1)
            && All(p.records, valid(p.codecId == CODEC_8E)) && Spans(buf, pos, DataWith(encode, p), next)
  {
    var ext := p.codecId == CODEC_8E;
    var end := pos + 2 + |RecordBytes(encode, p)|;
    if pos + 2 <= |buf| {
      var records := ParseList(record(ext), pos + 2, |p.records|);
      ListExact(buf, record(ext), encode(ext), valid(ext), pos + 2, p.records, end);
      ListExact(buf, record(ext), encode(ext), valid(ext), pos + 2, p.records, if records.Done? then records.next else end);
      ReadData(record, buf, pos, p, end, next);
    }
    DataSpans(buf, encode, pos, p, next);
    CodecAndCountExact(buf, pos, p.codecId, |p.records|);
    UIntExact(buf, end, 1, |p.records|, next);
  }

  lemma DataExact(buf: seq<byte>, pos: nat, p: AvlPacket, next: nat)
    ensures ParseData(buf, pos) == Done(p, next) <==> ValidPacket(p) && Spans(buf, pos, EncodeData(p), next)
  {
    var ext := p.codecId == CODEC_8E;
    RecordParserExact(buf, ext);
    DataWithExact(buf, RecordParser(buf), RecordEncoder(), ValidRecordIn(), pos, p, next);
    assert All(p.records, ValidRecordIn()(ext)) <==> forall r :: r in p.records ==> ValidRecord(r, ext);
  }

  // ----- The frame -----

  lemma CrcExact(buf: seq<byte>, pos: nat, crc: int, next: nat)
    ensures ParseCrc(buf, pos) == Done(crc, next)
       <==> Fits(crc, 2) && Spans(buf, pos, ToBE(0, 2), pos + 2) && Spans(buf, pos + 2, ToBE(crc, 2), next)
  {
    Pow256Values();
    UIntExact(buf, pos, 2, 0, pos + 2);
    UIntExact(buf, pos + 2, 2, crc, next);
  }

  lemma ReadFrame(buf: seq<byte>, f: Unchecked, next: nat)
    ensures ParseFrame(buf) == Done(f, next)
       <==> && |buf| >= 15 && ReadUInt(buf, 0, 4) == Done(0, 4) && ReadUInt(buf, 4, 4) == Done(|buf| - 12, 8)
            && ParseData(buf, 8) == Done(f.packet, f.dataEnd) && ParseCrc(buf, f.dataEnd) == Done(f.crc, next)
  {
  }

  lemma HeaderExact(buf: seq<byte>, length: int)
    ensures ReadUInt(buf, 0, 4) == Done(0, 4) && ReadUInt(buf, 4, 4) == Done(length, 8)
       <==> Fits(length, 4) && Spans(buf, 0, ToBE(0, 4), 4) && Spans(buf, 4, ToBE(length, 4), 8)
  {
    Pow256Values();
    UIntExact(buf, 0, 4, 0, 4);
    UIntExact(buf, 4, 4, length, 8);
  }

  lemma FrameOfSpans(buf: seq<byte>, data: seq<byte>, crc: int, tail: seq<byte>)
    ensures buf == FrameOf(data, crc, tail)
       <==> && Spans(buf, 0, ToBE(0, 4), 4) && Spans(buf, 4, ToBE(|data| + |tail|, 4), 8) && Spans(buf, 8, data, 8 + |data|)
            && Spans(buf, 8 + |data|, ToBE(0, 2), 10 + |data|) && Spans(buf, 10 + |data|, ToBE(crc, 2), 12 + |data|)
            && Spans(buf, 12 + |data|, tail, |buf|)
  {
    var a, b, d, e, end := ToBE(0, 4), ToBE(|data| + |tail|, 4), ToBE(0, 2), ToBE(crc, 2), 8 + |data|;
    SpansConcat(buf, 0, a, b + (data + (d + (e + tail))), |buf|);
    SpansConcat(buf, 4, b, data + (d + (e + tail)), |buf|);
    SpansConcat(buf, 8, data, d + (e + tail), |buf|);
    SpansConcat(buf, end, d, e + tail, |buf|);
    SpansConcat(buf, end + 2, e, tail, |buf|);
    SpansSlice(buf, 0, FrameOf(data, crc, tail), |buf|);
    assert buf[0..|buf|] == buf;
  }

  lemma DataLength(p: AvlPacket)
    ensures |EncodeData(p)| >= 3
  {
  }

  /** `buf` frames a valid packet with that checksum, right or wrong, and that tail. */
  ghost predicate IsFrame(buf: seq<byte>, p: AvlPacket, crc: int, tail: seq<byte>) {
    ValidPacket(p) && Fits(|EncodeData(p)| + |tail|, 4) && Fits(crc, 2) && buf == FrameOf(EncodeData(p), crc, tail)
  }

  lemma FrameSound(buf: seq<byte>, f: Unchecked, next: nat)
    requires ParseFrame(buf) == Done(f, next)
    ensures f.dataEnd == 8 + |EncodeData(f.packet)| && next == f.dataEnd + 4 <= |buf|
    ensures IsFrame(buf, f.packet, f.crc, buf[next..])
  {
    ReadFrame(buf, f, next);
    HeaderExact(buf, |buf| - 12);
    DataExact(buf, 8, f.packet, f.dataEnd);
    CrcExact(buf, f.dataEnd, f.crc, next);
    TailSpans(buf, EncodeData(f.packet), f.crc);
  }

  lemma TailSpans(buf: seq<byte>, data: seq<byte>, crc: int)
    requires Spans(buf, 0, ToBE(0, 4), 4) && Spans(buf, 4, ToBE(|buf| - 12, 4), 8) && Spans(buf, 8, data, 8 + |data|)
    requires Spans(buf, 8 + |data|, ToBE(0, 2), 10 + |data|) && Spans(buf, 10 + |data|, ToBE(crc, 2), 12 + |data|)
    ensures buf == FrameOf(data, crc, buf[12 + |data|..])
  {
    assert |buf| - 12 == |data| + |buf[12 + |data|..]|;
    SpansSlice(buf, 12 + |data|, buf[12 + |data|..], |buf|);
    FrameOfSpans(buf, data, crc, buf[12 + |data|..]);
  }

  lemma FrameParts(buf: seq<byte>, data: seq<byte>, crc: int, tail: seq<byte>)
    requires buf == FrameOf(data, crc, tail) && Fits(|data| + |tail|, 4) && Fits(crc, 2)
    ensures var end := 8 + |data|;
            && |buf| == 12 + |data| + |tail| && ReadUInt(buf, 0, 4) == Done(0, 4) && ReadUInt(buf, 4, 4) == Done(|buf| - 12, 8)
            && Spans(buf, 8, data, end) && ParseCrc(buf, end) == Done(crc, end + 4) && Slice(buf, 8, end) == data
  {
    var end := 8 + |data|;
    FrameOfLength(data, crc, tail);
    assert |buf| - 12 == |data| + |tail|;
    FrameOfSpans(buf, data, crc, tail);
    SpansSlice(buf, 8, data, end);
    HeaderExact(buf, |buf| - 12);
    CrcExact(buf, end, crc, end + 4);
  }

  lemma FrameComplete(buf: seq<byte>, p: AvlPacket, crc: int, tail: seq<byte>)
    requires IsFrame(buf, p, crc, tail)
    ensures var end := 8 + |EncodeData(p)|;
            ParseFrame(buf) == Done(Unchecked(p, end, crc), end + 4) && Slice(buf, 8, end) == EncodeData(p)
  {
    var end := 8 + |EncodeData(p)|;
    FrameParts(buf, EncodeData(p), crc, tail);
    DataLength(p);
    DataExact(buf, 8, p, end);
    ReadFrame(buf, Unchecked(p, end, crc), end + 4);
  }

  /** The frame a packet was read from. */
  lemma PacketSound(buf: seq<byte>, p: AvlPacket, next: nat)
    ensures ParsePacket(buf) == Done(p, next)
        ==> next == 12 + |EncodeData(p)| <= |buf| && IsFrame(buf, p, Crc16(EncodeData(p)) as int, buf[next..])
  {
    if ParsePacket(buf) == Done(p, next) {
      var f := ParseFrame(buf).value;
      FrameSound(buf, f, next);
      FrameComplete(buf, p, f.crc, buf[next..]);
    }
  }

  lemma PacketComplete(buf: seq<byte>, p: AvlPacket, tail: seq<byte>)
    requires IsFrame(buf, p, Crc16(EncodeData(p)) as int, tail)
    ensures ParsePacket(buf) == Done(p, 12 + |EncodeData(p)|)
  {
    var data, end := EncodeData(p), 8 + |EncodeData(p)|;
    FrameComplete(buf, p, Crc16(data) as int, tail);
    CheckedFrame(buf, Unchecked(p, end, Crc16(data) as int), end + 4, data);
  }

  lemma CheckedFrame(buf: seq<byte>, f: Unchecked, next: nat, data: seq<byte>)
    requires Slice(buf, 8, f.dataEnd) == data && f.crc == Crc16(data) as int
    ensures Checked(buf, Done(f, next)) == Done(f.packet, next)
  {
  }

  /** `buf` frames a valid packet with its CRC. */
  ghost predicate Frames(buf: seq<byte>, p: AvlPacket, tail: seq<byte>) {
    IsFrame(buf, p, Crc16(EncodeData(p)) as int, tail)
  }

  /**
   * What the parser accepts, for every byte string: the frames of the valid packets, followed or not by bytes
   * that the length field covers and nothing reads.
   */
  lemma ParsesExactlyTheFrames(buf: seq<byte>, p: AvlPacket, next: nat)
    ensures ParsePacket(buf) == Done(p, next) <==> next == 12 + |EncodeData(p)| && exists tail :: Frames(buf, p, tail)
  {
    if ParsePacket(buf) == Done(p, next) {
      PacketSound(buf, p, next);
      assert Frames(buf, p, buf[next..]);
    } else if exists tail :: Frames(buf, p, tail) {
      var tail :| Frames(buf, p, tail);
      PacketComplete(buf, p, tail);
    }
  }

  lemma CrcFits(data: seq<byte>)
    ensures Fits(Crc16(data) as int, 2)
  {
    Pow256Values();
  }

  lemma FrameOfLength(data: seq<byte>, crc: int, tail: seq<byte>)
    ensures |FrameOf(data, crc, tail)| == 12 + |data| + |tail|
  {
  }

  /** Every frame is read, as its packet, up to its tail. */
  lemma FrameRead(p: AvlPacket, tail: seq<byte>)
    requires ValidPacket(p) && Fits(|EncodeData(p)| + |tail|, 4)
    ensures ParsePacket(Frame(p, tail)) == Done(p, |Frame(p, tail)| - |tail|)
  {
    CrcFits(EncodeData(p));
    FrameOfLength(EncodeData(p), Crc16(EncodeData(p)) as int, tail);
    PacketComplete(Frame(p, tail), p, tail);
  }

  /** Decoding undoes encoding. */
  lemma RoundTrip(p: AvlPacket)
    requires ValidPacket(p) && Fits(|EncodeData(p)|, 4)
    ensures ParsePacket(EncodePacket(p)) == Done(p, |EncodePacket(p)|)
  {
    FrameRead(p, []);
  }

  /** Encoding undoes decoding if and only if the parser stopped at the end of the buffer. */
  lemma ReEncode(buf: seq<byte>, p: AvlPacket, next: nat)
    ensures ParsePacket(buf) == Done(p, next) ==> (EncodePacket(p) == buf <==> next == |buf|)
  {
    PacketSound(buf, p, next);
    FrameOfLength(EncodeData(p), Crc16(EncodeData(p)) as int, []);
    if next == |buf| {
      assert buf[next..] == [];
    }
  }

  /** The packet of no records, with a byte after its CRC, is accepted although its encoding is another one. */
  lemma TrailingByteAccepted(b: byte)
    ensures var p := AvlPacket(CODEC_8, 0, []);
            ParsePacket(Frame(p, [b])) == Done(p, |Frame(p, [b])| - 1) && EncodePacket(p) != Frame(p, [b])
  {
    var p := AvlPacket(CODEC_8, 0, []);
    EmptyPacket();
    FrameRead(p, [b]);
    ReEncode(Frame(p, [b]), p, |Frame(p, [b])| - 1);
  }

  lemma EmptyPacket()
    ensures ValidPacket(AvlPacket(CODEC_8, 0, [])) && |EncodeData(AvlPacket(CODEC_8, 0, []))| == 3 && Fits(4, 4)
  {
    Pow256Values();
  }

  /** Two packets never share an encoding. */
  lemma EncodingInjective(p: AvlPacket, q: AvlPacket)
    requires ValidPacket(p) && ValidPacket(q) && Fits(|EncodeData(p)|, 4)
    ensures EncodePacket(p) == EncodePacket(q) ==> p == q
  {
    if EncodePacket(p) == EncodePacket(q) {
      FrameOfLength(EncodeData(p), Crc16(EncodeData(p)) as int, []);
      FrameOfLength(EncodeData(q), Crc16(EncodeData(q)) as int, []);
      RoundTrip(p);
      RoundTrip(q);
    }
  }

  /** Where the data field and the checksum lie in a frame without a tail. */
  lemma FrameEnds(buf: seq<byte>, data: seq<byte>, crc: int)
    requires buf == FrameOf(data, crc, []) && Fits(crc, 2)
    ensures |buf| == 12 + |data| && buf[8..|buf| - 4] == data && BE(buf[|buf| - 2..]) == crc
  {
    FrameOfSpans(buf, data, crc, []);
    SpansSlice(buf, 8, data, 8 + |data|);
    SpansSlice(buf, 10 + |data|, ToBE(crc, 2), 12 + |data|);
    BEToBE(crc, 2);
    assert buf[|buf| - 2..] == ToBE(crc, 2);
  }

  /** Frames that agree outside two neighbouring bytes of the data field carry the same checksum. */
  lemma FramesDiffer(good: seq<byte>, bad: seq<byte>, x: seq<byte>, crc: int, y: seq<byte>, crc': int, k: nat)
    requires good == FrameOf(x, crc, []) && bad == FrameOf(y, crc', []) && Fits(crc, 2) && Fits(crc', 2)
    requires |bad| == |good| && bad != good && DataErrors(good, bad, k)
    ensures crc == crc' && x != y && SameOutside(x, y, if k >= 8 then k - 8 else 0, 2)
  {
    FrameEnds(good, x, crc);
    FrameEnds(bad, y, crc');
    assert good[|good| - 2..] == bad[|bad| - 2..];
    assert forall i :: 0 <= i < |x| ==> x[i] == good[8 + i] && y[i] == bad[8 + i];
  }

  /** `bad` differs from `good` in at most the two bytes from `k` on, inside the data field. */
  ghost predicate DataErrors(good: seq<byte>, bad: seq<byte>, k: nat) {
    && |bad| == |good|
    && forall i :: 0 <= i < |good| && !(8 <= i < |good| - 4 && k <= i < k + 2) ==> good[i] == bad[i]
  }

  lemma CrcsDiffer(x: seq<byte>, y: seq<byte>, k: nat)
    requires SameOutside(x, y, k, 2) && x != y
    ensures Crc16(x) as int != Crc16(y) as int
  {
    Crc16DetectsBursts(x, y, k);
    if Crc16(x) as int == Crc16(y) as int {
      AsIntInjective(Crc16(x), Crc16(y));
    }
  }

  /**
   * A frame that was read to its end, with one or two neighbouring bytes of its data field changed, is never
   * read to its end again: the CRC does not match, or the parser fails or stops before.
   */
  lemma CorruptionDetected(good: seq<byte>, bad: seq<byte>, k: nat)
    requires bad != good && DataErrors(good, bad, k)
    ensures ReadToTheEnd(good) ==> !ReadToTheEnd(bad)
  {
    if ReadToTheEnd(good) && ReadToTheEnd(bad) {
      var p, q := ParsePacket(good).value, ParsePacket(bad).value;
      ReEncode(good, p, |good|);
      ReEncode(bad, q, |bad|);
      var x, y := EncodeData(p), EncodeData(q);
      CrcFits(x);
      CrcFits(y);
      FramesDiffer(good, bad, x, Crc16(x) as int, y, Crc16(y) as int, k);
      CrcsDiffer(x, y, if k >= 8 then k - 8 else 0);
    }
  }

  ghost predicate ReadToTheEnd(buf: seq<byte>) {
    ParsePacket(buf).Done? && ParsePacket(buf).next == |buf|
  }
}
