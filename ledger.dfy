/**
 * The attendance table: append-only rows written by insert_record and read by query_records.
 * The database is a sequence of rows in insertion order; timestamps are integers.
 */
module Ledger {
  import opened Options

  /** One row of the `attendance` table. `slot` is `None` where the row holds SQL NULL. */
  datatype Record = Record(
    id: nat,
    studentName: string,
    roll: string,
    slot: Option<string>,
    timestamp: int,
    deviceCid: string,
    ip: string,
    userAgent: string)

  /** Whether query_records(slot) returns row `x`: every row when `slot` is falsy, else the rows of that slot. */
  predicate Selects(slot: Option<string>, x: Record) {
    !Truthy(slot) || x.slot == slot
  }

  /** `WHERE slot=?`: the rows whose slot equals `s`, in table order. */
  function SlotFilter(rs: seq<Record>, s: string): (r: seq<Record>)
    ensures forall x :: multiset(r)[x] == if x.slot == Some(s) then multiset(rs)[x] else 0
  {
    if rs == [] then []
    else
      assert rs == [rs[0]] + rs[1..];
      (if rs[0].slot == Some(s) then [rs[0]] else []) + SlotFilter(rs[1..], s)
  }

  /** `ORDER BY timestamp DESC`: no row is older than a row after it. */
  predicate NewestFirst(rs: seq<Record>) {
    forall i, j :: 0 <= i < j < |rs| ==> rs[i].timestamp >= rs[j].timestamp
  }

  /** Puts `x` into a newest-first sequence, before the first row that is not newer than it. */
  function InsertByTime(x: Record, rs: seq<Record>): (r: seq<Record>)
    requires NewestFirst(rs)
    ensures NewestFirst(r)
    ensures multiset(r) == multiset(rs) + multiset{x}
    ensures |r| == |rs| + 1
    ensures r[0] == x || (rs != [] && r[0] == rs[0])
  {
    if rs == [] || x.timestamp >= rs[0].timestamp then [x] + rs
    else
      assert rs == [rs[0]] + rs[1..];
      var tail := InsertByTime(x, rs[1..]);
      assert tail[0].timestamp <= rs[0].timestamp;
      [rs[0]] + tail
  }

  /** The rows newest first. The order among rows with equal timestamps is this model's choice. */
  function SortNewestFirst(rs: seq<Record>): (r: seq<Record>)
    ensures NewestFirst(r)
    ensures multiset(r) == multiset(rs)
    ensures |r| == |rs|
  {
    if rs == [] then []
    else
      assert rs == [rs[0]] + rs[1..];
      InsertByTime(rs[0], SortNewestFirst(rs[1..]))
  }

  /**
   * query_records(slot): the rows of `slot` when `slot` is truthy, every row when it is `None`
   * or `''`, newest first; each row as often as the table holds it.
   */
  function QueryRecords(records: seq<Record>, slot: Option<string>): (r: seq<Record>)
    ensures NewestFirst(r)
    ensures forall x :: multiset(r)[x] == if Selects(slot, x) then multiset(records)[x] else 0
    ensures forall x :: x in r <==> x in records && Selects(slot, x)
  {
    var r := SortNewestFirst(if Truthy(slot) then SlotFilter(records, slot.value) else records);
    assert forall x :: x in r <==> multiset(r)[x] > 0;
    assert forall x :: x in records <==> multiset(records)[x] > 0;
    r
  }

  /** `df[df['device_cid'] == cid]` is not empty. */
  predicate HasDevice(rs: seq<Record>, cid: string) {
    exists i :: 0 <= i < |rs| && rs[i].deviceCid == cid
  }

  /** Some row that query_records(slot) selects carries device id `cid`. */
  predicate DeviceSeen(records: seq<Record>, slot: Option<string>, cid: string) {
    exists i :: 0 <= i < |records| && Selects(slot, records[i]) && records[i].deviceCid == cid
  }

  /** The duplicate test on the query's result is the test on the table itself. */
  lemma HasDeviceInQuery(records: seq<Record>, slot: Option<string>, cid: string)
    ensures HasDevice(QueryRecords(records, slot), cid) <==> DeviceSeen(records, slot, cid)
  {
    var q := QueryRecords(records, slot);
    if HasDevice(q, cid) {
      var i :| 0 <= i < |q| && q[i].deviceCid == cid;
      assert q[i] in records;
      var j :| 0 <= j < |records| && records[j] == q[i];
      assert Selects(slot, records[j]) && records[j].deviceCid == cid;
    }
    if DeviceSeen(records, slot, cid) {
      var j :| 0 <= j < |records| && Selects(slot, records[j]) && records[j].deviceCid == cid;
      assert records[j] in q;
      var i :| 0 <= i < |q| && q[i] == records[j];
      assert q[i].deviceCid == cid;
    }
  }

  /** A seen device stays seen: rows are only ever appended. */
  lemma DeviceSeenPersists(records: seq<Record>, more: seq<Record>, slot: Option<string>, cid: string)
    requires DeviceSeen(records, slot, cid)
    ensures DeviceSeen(records + more, slot, cid)
  {
    var i :| 0 <= i < |records| && Selects(slot, records[i]) && records[i].deviceCid == cid;
    assert (records + more)[i] == records[i];
  }

  /** A row of another device changes nothing about whether `cid` is seen. */
  lemma DeviceSeenIgnoresOtherDevices(records: seq<Record>, x: Record, slot: Option<string>, cid: string)
    requires x.deviceCid != cid
    ensures DeviceSeen(records + [x], slot, cid) <==> DeviceSeen(records, slot, cid)
  {
    if DeviceSeen(records + [x], slot, cid) {
      var i :| 0 <= i < |records + [x]| && Selects(slot, (records + [x])[i]) && (records + [x])[i].deviceCid == cid;
      assert i < |records| && (records + [x])[i] == records[i];
    }
    if DeviceSeen(records, slot, cid) {
      DeviceSeenPersists(records, [x], slot, cid);
    }
  }

  /** No two rows share both their slot and their device id. */
  predicate OneRecordPerDevice(rs: seq<Record>) {
    forall i, j :: 0 <= i < j < |rs| && rs[i].slot == rs[j].slot ==> rs[i].deviceCid != rs[j].deviceCid
  }

  /** Appending a row whose device is not seen under its own slot keeps one row per (slot, device id). */
  lemma AppendUnseenKeepsOneRecordPerDevice(records: seq<Record>, x: Record)
    requires OneRecordPerDevice(records)
    requires !DeviceSeen(records, x.slot, x.deviceCid)
    ensures OneRecordPerDevice(records + [x])
  {
    var rs := records + [x];
    forall i, j | 0 <= i < j < |rs| && rs[i].slot == rs[j].slot
      ensures rs[i].deviceCid != rs[j].deviceCid
    {
      if j == |records| {
        assert rs[i] == records[i] && Selects(x.slot, records[i]);
      } else {
        assert rs[i] == records[i] && rs[j] == records[j];
      }
    }
  }

  /** AUTOINCREMENT with no deletions: the rows carry the ids 1, 2, 3, ... in table order. */
  predicate NumberedFromOne(rs: seq<Record>) {
    forall i :: 0 <= i < |rs| ==> rs[i].id == i + 1
  }

  /** Numbered rows have pairwise different ids, and the next id is used by none of them. */
  lemma NumberedIdsAreUnique(rs: seq<Record>)
    requires NumberedFromOne(rs)
    ensures forall i, j :: 0 <= i < j < |rs| ==> rs[i].id != rs[j].id
    ensures forall i :: 0 <= i < |rs| ==> rs[i].id != |rs| + 1
  {
    forall i, j | 0 <= i < j < |rs| ensures rs[i].id != rs[j].id {
      assert rs[i].id == i + 1 && rs[j].id == j + 1;
    }
  }

  /** The `attendance` table. Its AUTOINCREMENT ids count the rows from 1, as no row is ever deleted. */
  class AttendanceTable {
    var records: seq<Record>

    ghost predicate Valid()
      reads this
    {
      NumberedFromOne(records)
    }

    /** init_db on a fresh database: an empty table. */
    constructor ()
      ensures Valid() && records == []
    {
      records := [];
    }

    /** insert_record: appends one row stamped `now`, with the next id; nothing else changes. */
    method Insert(studentName: string, roll: string, slot: Option<string>, deviceCid: string,
                  ip: string, userAgent: string, now: int)
      requires Valid()
      modifies this
      ensures Valid()
      ensures records == old(records) + [Record(|old(records)| + 1, studentName, roll, slot, now, deviceCid, ip, userAgent)]
      ensures forall i :: 0 <= i < |old(records)| ==> old(records)[i].id != |old(records)| + 1
    {
      NumberedIdsAreUnique(records);
      records := records + [Record(|records| + 1, studentName, roll, slot, now, deviceCid, ip, userAgent)];
    }
  }
}
