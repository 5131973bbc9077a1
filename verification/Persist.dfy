/** The telemetry table: one row for each device and instant. */
module Persist {
  import opened Options
  import opened Avl
  import opened Connection

  /** A record on its way from the gateway; no vehicle if the gateway knew none for the device. */
  datatype Message = Message(imei: Imei, vehicleId: Option<string>, record: AvlRecord)

  datatype Key = Key(imei: Imei, timestampMs: int)

  datatype Row = Row(vehicleId: string, key: Key, priority: int, gps: GpsElement, eventIoId: int, ioData: map<int, IoValue>)

  datatype PersistResult = PersistResult(inserted: bool, isFirstPointForVehicle: bool) | Threw

  /** The largest instant a JavaScript Date holds; later ones make `toISOString` throw. */
  const MAX_DATE_MS := 8_640_000_000_000_000

  function KeyOf(m: Message): Key {
    Key(m.imei, m.record.timestampMs)
  }

  /** The vehicle of a message: its own, or the one the IMEI is registered for. */
  function VehicleOf(m: Message, vehicles: map<Imei, string>): Option<string> {
    if m.vehicleId.Some? && m.vehicleId.value != "" then m.vehicleId
    else if m.imei in vehicles && vehicles[m.imei] != "" then Some(vehicles[m.imei])
    else None
  }

  /** The last entry with an id wins. */
  function IoData(entries: seq<IoEntry>): map<int, IoValue> {
    if entries == [] then map[]
    else IoData(entries[..|entries| - 1])[entries[|entries| - 1].id := entries[|entries| - 1].value]
  }

  function RowOf(m: Message, vehicle: string): Row {
    Row(vehicle, KeyOf(m), m.record.priority, m.record.gps, m.record.io.eventIoId, IoData(m.record.io.entries))
  }

  predicate HasKey(rows: seq<Row>, key: Key) {
    exists i :: 0 <= i < |rows| && rows[i].key == key
  }

  predicate HasVehicle(rows: seq<Row>, vehicle: string) {
    exists i :: 0 <= i < |rows| && rows[i].vehicleId == vehicle
  }

  /** What the table holds after a message was handled without an error of the database. */
  function After(rows: seq<Row>, vehicles: map<Imei, string>, m: Message): seq<Row> {
    match VehicleOf(m, vehicles)
    case None => rows
    case Some(vehicle) =>
      if m.record.timestampMs > MAX_DATE_MS || HasKey(rows, KeyOf(m)) then rows else rows + [RowOf(m, vehicle)]
  }

  ghost predicate UniqueKeys(rows: seq<Row>) {
    forall i, j :: 0 <= i < j < |rows| ==> rows[i].key != rows[j].key
  }

  class Database {
    const vehicles: map<Imei, string>
    var rows: seq<Row>

    constructor (vehicles: map<Imei, string>)
      ensures rows == [] && this.vehicles == vehicles
    {
      this.vehicles := vehicles;
      rows := [];
    }

    /** `INSERT … ON CONFLICT DO NOTHING RETURNING id`. */
    method Insert(row: Row) returns (inserted: bool)
      modifies this
      ensures inserted == !HasKey(old(rows), row.key)
      ensures rows == if inserted then old(rows) + [row] else old(rows)
    {
      for i := 0 to |rows|
        invariant rows == old(rows)
        invariant forall k :: 0 <= k < i ==> rows[k].key != row.key
      {
        if rows[i].key == row.key {
          return false;
        }
      }
      rows := rows + [row];
      inserted := true;
    }

    /** `SELECT … WHERE vehiculo_id = … LIMIT 2`: how many rows come back. */
    method CountUpToTwo(vehicle: string) returns (n: nat)
      ensures n == if Occurrences(rows, vehicle) < 2 then Occurrences(rows, vehicle) else 2
    {
      n := 0;
      var i := 0;
      while i < |rows| && n < 2
        invariant i <= |rows| && n <= 2 && n == Occurrences(rows[..i], vehicle)
      {
        OccurrencesSnoc(rows[..i], rows[i], vehicle);
        assert rows[..i + 1] == rows[..i] + [rows[i]];
        if rows[i].vehicleId == vehicle {
          n := n + 1;
        }
        i := i + 1;
      }
      OccurrencesConcat(rows[..i], rows[i..], vehicle);
      assert rows == rows[..i] + rows[i..];
    }

    method PersistRecord(m: Message) returns (r: PersistResult)
      modifies this
      ensures rows == After(old(rows), vehicles, m)
      ensures r.Threw? <==> VehicleOf(m, vehicles).Some? && m.record.timestampMs > MAX_DATE_MS
      ensures !r.Threw? ==> r.inserted == (rows != old(rows))
      ensures !r.Threw? ==> (r.isFirstPointForVehicle <==> r.inserted && !HasVehicle(old(rows), VehicleOf(m, vehicles).value))
    {
      var vehicle := m.vehicleId;
      if vehicle.None? || vehicle.value == "" {
        vehicle := if m.imei in vehicles then Some(vehicles[m.imei]) else None;
        if vehicle.None? || vehicle.value == "" {
          return PersistResult(false, false);
        }
      }
      var ioData := FillIoData(m.record.io.entries);
      if m.record.timestampMs > MAX_DATE_MS {
        return Threw;
      }
      var inserted := Insert(Row(vehicle.value, KeyOf(m), m.record.priority, m.record.gps, m.record.io.eventIoId, ioData));
      if !inserted {
        return PersistResult(false, false);
      }
      OccurrencesSnoc(old(rows), RowOf(m, vehicle.value), vehicle.value);
      OccurrencesPositive(old(rows), vehicle.value);
      var count := CountUpToTwo(vehicle.value);
      r := PersistResult(true, count == 1);
    }

    method FillIoData(entries: seq<IoEntry>) returns (ioData: map<int, IoValue>)
      ensures ioData == IoData(entries)
    {
      ioData := map[];
      for i := 0 to |entries|
        invariant ioData == IoData(entries[..i])
      {
        assert entries[..i + 1][..i] == entries[..i];
        ioData := ioData[entries[i].id := entries[i].value];
      }
      assert entries[..|entries|] == entries;
    }
  }

  function Occurrences(rows: seq<Row>, vehicle: string): nat {
    if rows == [] then 0
    else Occurrences(rows[..|rows| - 1], vehicle) + (if rows[|rows| - 1].vehicleId == vehicle then 1 else 0)
  }

  lemma OccurrencesSnoc(rows: seq<Row>, row: Row, vehicle: string)
    ensures Occurrences(rows + [row], vehicle) == Occurrences(rows, vehicle) + (if row.vehicleId == vehicle then 1 else 0)
  {
    assert (rows + [row])[..|rows|] == rows;
  }

  lemma {:induction false} OccurrencesConcat(a: seq<Row>, b: seq<Row>, vehicle: string)
    ensures Occurrences(a + b, vehicle) == Occurrences(a, vehicle) + Occurrences(b, vehicle)
    decreases |b|
  {
    if b == [] {
      assert a + b == a;
    } else {
      var n := |b| - 1;
      OccurrencesConcat(a, b[..n], vehicle);
      assert (a + b)[..|a + b| - 1] == a + b[..n];
    }
  }

  lemma {:induction false} OccurrencesPositive(rows: seq<Row>, vehicle: string)
    ensures Occurrences(rows, vehicle) == 0 <==> !HasVehicle(rows, vehicle)
    decreases |rows|
  {
    if rows != [] {
      var n := |rows| - 1;
      OccurrencesPositive(rows[..n], vehicle);
      assert forall i :: 0 <= i < n ==> rows[..n][i] == rows[i];
    }
  }

  // ----- What a row holds -----

  /** The vehicle of a row: the message's own if it has one, and the one the IMEI is registered for otherwise. */
  ghost predicate VehicleColumn(row: Row, m: Message, vehicles: map<Imei, string>) {
    && row.vehicleId != ""
    && if m.vehicleId.Some? && m.vehicleId.value != "" then row.vehicleId == m.vehicleId.value
       else m.imei in vehicles && row.vehicleId == vehicles[m.imei]
  }

  ghost predicate HasId(entries: seq<IoEntry>, id: int) {
    exists i :: 0 <= i < |entries| && entries[i].id == id
  }

  /** No later entry has the id of the one at `i`. */
  ghost predicate IsLast(entries: seq<IoEntry>, i: nat)
    requires i < |entries|
  {
    forall j :: i < j < |entries| ==> entries[j].id != entries[i].id
  }

  /** The IO data: the ids of the entries, each with the value of the last entry that has it. */
  ghost predicate IoColumn(ioData: map<int, IoValue>, entries: seq<IoEntry>) {
    && (forall id :: id in ioData <==> HasId(entries, id))
    && forall i: nat :: i < |entries| && IsLast(entries, i) ==>
         entries[i].id in ioData && ioData[entries[i].id] == entries[i].value
  }

  /** A row holds a message, column by column. */
  ghost predicate Columns(row: Row, m: Message, vehicles: map<Imei, string>) {
    && row.key.imei == m.imei && row.key.timestampMs == m.record.timestampMs
    && row.priority == m.record.priority && row.gps == m.record.gps && row.eventIoId == m.record.io.eventIoId
    && IoColumn(row.ioData, m.record.io.entries) && VehicleColumn(row, m, vehicles)
  }

  lemma HasIdSnoc(entries: seq<IoEntry>, e: IoEntry, id: int)
    ensures HasId(entries + [e], id) <==> HasId(entries, id) || e.id == id
  {
    var all := entries + [e];
    if HasId(entries, id) {
      var i :| 0 <= i < |entries| && entries[i].id == id;
      assert all[i].id == id;
    }
    assert all[|entries|] == e;
  }

  lemma IsLastSnoc(entries: seq<IoEntry>, e: IoEntry, i: nat)
    requires i < |entries| && IsLast(entries + [e], i)
    ensures IsLast(entries, i) && entries[i].id != e.id
  {
    var all := entries + [e];
    assert all[|entries|] == e && all[i] == entries[i];
    assert forall j :: i < j < |entries| ==> all[j] == entries[j];
  }

  lemma {:induction false} IoDataColumn(entries: seq<IoEntry>)
    ensures IoColumn(IoData(entries), entries)
    decreases |entries|
  {
    if entries != [] {
      var init, last := entries[..|entries| - 1], entries[|entries| - 1];
      var data := IoData(entries);
      IoDataColumn(init);
      assert entries == init + [last];
      forall id
        ensures id in data <==> HasId(entries, id)
      {
        HasIdSnoc(init, last, id);
      }
      forall i: nat | i < |entries| && IsLast(entries, i)
        ensures entries[i].id in data && data[entries[i].id] == entries[i].value
      {
        if i < |init| {
          IsLastSnoc(init, last, i);
        }
      }
    }
  }

  lemma RowColumns(m: Message, vehicles: map<Imei, string>)
    requires VehicleOf(m, vehicles).Some?
    ensures Columns(RowOf(m, VehicleOf(m, vehicles).value), m, vehicles)
  {
    IoDataColumn(m.record.io.entries);
  }

  /** The vehicle of a message is known: it carries one, or its IMEI is registered for one. */
  ghost predicate VehicleKnown(m: Message, vehicles: map<Imei, string>) {
    (m.vehicleId.Some? && m.vehicleId.value != "") || (m.imei in vehicles && vehicles[m.imei] != "")
  }

  /**
   * What handling a message does: a row with its columns is added if its vehicle is known, its instant is a Date, and
   * there is none for its device and instant; nothing otherwise.
   */
  lemma HandlingStores(rows: seq<Row>, vehicles: map<Imei, string>, m: Message)
    ensures var unseen := forall i :: 0 <= i < |rows| ==> rows[i].key != Key(m.imei, m.record.timestampMs);
            var after := After(rows, vehicles, m);
            if VehicleKnown(m, vehicles) && m.record.timestampMs <= 8_640_000_000_000_000 && unseen then
              |after| == |rows| + 1 && after[..|rows|] == rows && Columns(after[|rows|], m, vehicles)
            else after == rows
  {
    if VehicleOf(m, vehicles).Some? {
      RowColumns(m, vehicles);
    }
  }

  /** No message makes a second row for a key, nor changes or removes a row. */
  lemma AfterKeepsRows(rows: seq<Row>, vehicles: map<Imei, string>, m: Message)
    requires UniqueKeys(rows)
    ensures UniqueKeys(After(rows, vehicles, m)) && rows <= After(rows, vehicles, m)
  {
  }

  /** Handling a message again changes nothing, even if vehicles were registered or removed in between. */
  lemma RedeliveryIsIdempotent(rows: seq<Row>, before: map<Imei, string>, m: Message, now: map<Imei, string>)
    requires VehicleOf(m, before).Some?
    ensures After(After(rows, before, m), now, m) == After(rows, before, m)
  {
    var r := After(rows, before, m);
    if r != rows {
      assert r[|rows|].key == KeyOf(m);
    }
  }
}
