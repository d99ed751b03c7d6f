/** The `time_trials` table (src/db/tt/tt_entry.rs). The table is a sequence
    of rows in storage order; every query returns its rows in that order. The
    database keeps the row ids unique and at most one row per
    (user, car, stage) triple. */
module TtEntry {
  import opened Common

  datatype TimeTrialEntry = TimeTrialEntry(
    id: Uuid,
    userId: Int32,
    carId: Uuid,
    stageId: Uuid,
    ttVersion: Int32,
    totalTicks: Int32,
    createdAt: Option<Timestamp>)

  /** The (user, car, stage) triple a row is kept for. */
  datatype Triple = Triple(userId: Int32, carId: Uuid, stageId: Uuid)

  function TripleOf(e: TimeTrialEntry): Triple {
    Triple(e.userId, e.carId, e.stageId)
  }

  // ---------------------------------------------------------------------------
  // The table's invariant
  // ---------------------------------------------------------------------------

  ghost predicate UniqueIds(rows: seq<TimeTrialEntry>) {
    forall i, j :: 0 <= i < j < |rows| ==> rows[i].id != rows[j].id
  }

  ghost predicate UniqueTriples(rows: seq<TimeTrialEntry>) {
    forall i, j :: 0 <= i < j < |rows| ==> TripleOf(rows[i]) != TripleOf(rows[j])
  }

  /** The primary key and the unique (user_id, car_id, stage_id) constraint. */
  ghost predicate TableInvariant(rows: seq<TimeTrialEntry>) {
    UniqueIds(rows) && UniqueTriples(rows)
  }

  /** No row has this id: a freshly generated id satisfies it. */
  predicate IdFree(rows: seq<TimeTrialEntry>, id: Uuid) {
    forall i :: 0 <= i < |rows| ==> rows[i].id != id
  }

  // ---------------------------------------------------------------------------
  // Selection
  // ---------------------------------------------------------------------------

  /** Search keys: each supplied key narrows the result, an omitted one does not. */
  datatype Criteria = Criteria(userId: Option<Int32>, carId: Option<Uuid>, stageId: Option<Uuid>)

  predicate Matches(e: TimeTrialEntry, c: Criteria) {
    && (c.userId.None? || e.userId == c.userId.value)
    && (c.carId.None? || e.carId == c.carId.value)
    && (c.stageId.None? || e.stageId == c.stageId.value)
  }

  /** The rows that satisfy `c`, in their order in `rows`. */
  function SelectMatching(rows: seq<TimeTrialEntry>, c: Criteria): (r: seq<TimeTrialEntry>)
    ensures |r| <= |rows|
    ensures forall e :: e in r <==> e in rows && Matches(e, c)
  {
    if rows == [] then []
    else (if Matches(rows[0], c) then [rows[0]] else []) + SelectMatching(rows[1..], c)
  }

  /** Narrowing a selection by a second criterion is selecting by both. */
  lemma {:induction false} SelectTwice(rows: seq<TimeTrialEntry>, c1: Criteria, c2: Criteria, c: Criteria)
    requires forall e :: Matches(e, c) <==> Matches(e, c1) && Matches(e, c2)
    ensures SelectMatching(SelectMatching(rows, c1), c2) == SelectMatching(rows, c)
  {
    if rows != [] {
      SelectTwice(rows[1..], c1, c2, c);
      var head := if Matches(rows[0], c1) then [rows[0]] else [];
      var s1 := SelectMatching(rows, c1);
      assert s1 == head + SelectMatching(rows[1..], c1);
      if Matches(rows[0], c1) {
        assert s1[0] == rows[0] && s1[1..] == SelectMatching(rows[1..], c1);
      } else {
        assert s1 == SelectMatching(rows[1..], c1);
      }
    }
  }

  /** The position of the row kept for triple `t`, if any (the first one in
      storage order). */
  function TripleIndex(rows: seq<TimeTrialEntry>, t: Triple): (k: Option<nat>)
    ensures k.Some? ==> k.value < |rows| && TripleOf(rows[k.value]) == t
    ensures k.None? ==> forall e :: e in rows ==> TripleOf(e) != t
  {
    if rows == [] then None
    else if TripleOf(rows[0]) == t then Some(0)
    else match TripleIndex(rows[1..], t)
      case None => None
      case Some(k) => Some(k + 1)
  }

  /** The row kept for triple `t`, if any. */
  function RowFor(rows: seq<TimeTrialEntry>, t: Triple): (r: Option<TimeTrialEntry>)
    ensures r.Some? ==> r.value in rows && TripleOf(r.value) == t
    ensures r.None? ==> forall e :: e in rows ==> TripleOf(e) != t
  {
    match TripleIndex(rows, t)
    case None => None
    case Some(k) => Some(rows[k])
  }

  function FullCriteria(t: Triple): Criteria {
    Criteria(Some(t.userId), Some(t.carId), Some(t.stageId))
  }

  lemma UniqueTriplesTail(rows: seq<TimeTrialEntry>)
    requires rows != [] && UniqueTriples(rows)
    ensures UniqueTriples(rows[1..])
    ensures forall e :: e in rows[1..] ==> TripleOf(e) != TripleOf(rows[0])
  {
    forall e | e in rows[1..] ensures TripleOf(e) != TripleOf(rows[0]) {
      var j :| 0 <= j < |rows[1..]| && rows[1..][j] == e;
      assert rows[j + 1] == e;
    }
  }

  /** With the unique triple constraint, a search by all three keys finds
      nothing or exactly the row kept for the triple. */
  lemma {:induction false} SelectFullTriple(rows: seq<TimeTrialEntry>, t: Triple)
    requires UniqueTriples(rows)
    ensures SelectMatching(rows, FullCriteria(t)) ==
      if RowFor(rows, t).None? then [] else [RowFor(rows, t).value]
  {
    if rows != [] {
      UniqueTriplesTail(rows);
      SelectFullTriple(rows[1..], t);
      if TripleOf(rows[0]) == t {
        assert RowFor(rows[1..], t).None?;
      }
    }
  }

  /** With the unique triple constraint, the row kept for a triple is the
      one row of the table that has that triple. */
  lemma RowForExact(rows: seq<TimeTrialEntry>, t: Triple, e: TimeTrialEntry)
    requires UniqueTriples(rows)
    ensures RowFor(rows, t) == Some(e) <==> e in rows && TripleOf(e) == t
  {
    if e in rows && TripleOf(e) == t {
      var j :| 0 <= j < |rows| && rows[j] == e;
      var k := TripleIndex(rows, t).value;
      assert TripleOf(rows[k]) == TripleOf(rows[j]);
    }
  }

  /** Two tables that hold the same rows for a triple keep the same row
      for it. */
  lemma SameRowFor(a: seq<TimeTrialEntry>, b: seq<TimeTrialEntry>, t: Triple)
    requires UniqueTriples(a) && UniqueTriples(b)
    requires forall e :: TripleOf(e) == t ==> (e in a <==> e in b)
    ensures RowFor(a, t) == RowFor(b, t)
  {
    if RowFor(a, t).Some? {
      RowForExact(a, t, RowFor(a, t).value);
      RowForExact(b, t, RowFor(a, t).value);
    } else if RowFor(b, t).Some? {
      RowForExact(b, t, RowFor(b, t).value);
      RowForExact(a, t, RowFor(b, t).value);
    }
  }

  // ---------------------------------------------------------------------------
  // The effect of each statement on the rows
  // ---------------------------------------------------------------------------

  /** `INSERT ... ON CONFLICT (user_id, car_id, stage_id) DO UPDATE SET
      created_at = NOW() RETURNING ...`: the rows afterwards and the row
      returned. */
  function InsertRows(rows: seq<TimeTrialEntry>, t: Triple, version: Int32, ticks: Int32, newId: Uuid, now: Timestamp)
    : (r: (seq<TimeTrialEntry>, TimeTrialEntry))
    ensures TripleOf(r.1) == t && r.1.createdAt == Some(now) && r.1 in r.0
    ensures RowFor(rows, t).None? ==>
      r.0 == rows + [r.1] && r.1.id == newId && r.1.ttVersion == version && r.1.totalTicks == ticks
    ensures RowFor(rows, t).Some? ==>
      |r.0| == |rows| && r.1 == RowFor(rows, t).value.(createdAt := Some(now))
    ensures forall i :: 0 <= i < |rows| && TripleOf(rows[i]) != t ==> r.0[i] == rows[i]
  {
    match TripleIndex(rows, t)
    case None =>
      var e := TimeTrialEntry(newId, t.userId, t.carId, t.stageId, version, ticks, Some(now));
      (rows + [e], e)
    case Some(k) =>
      var e := rows[k].(createdAt := Some(now));
      var after := rows[k := e];
      assert after[k] == e;
      (after, e)
  }

  /** `UPDATE time_trials SET tt_version, total_ticks, created_at = NOW()
      WHERE id = ...`. */
  function UpdateRows(rows: seq<TimeTrialEntry>, id: Uuid, version: Int32, ticks: Int32, now: Timestamp)
    : (r: seq<TimeTrialEntry>)
    ensures |r| == |rows|
    ensures forall i :: 0 <= i < |rows| ==>
      r[i] == if rows[i].id == id then rows[i].(ttVersion := version, totalTicks := ticks, createdAt := Some(now))
              else rows[i]
  {
    seq(|rows|, i requires 0 <= i < |rows| =>
      if rows[i].id == id then rows[i].(ttVersion := version, totalTicks := ticks, createdAt := Some(now))
      else rows[i])
  }

  /** `DELETE FROM time_trials WHERE id = ...`. */
  function DeleteRows(rows: seq<TimeTrialEntry>, id: Uuid): (r: seq<TimeTrialEntry>)
    ensures forall e :: e in r <==> e in rows && e.id != id
    ensures |r| <= |rows|
  {
    if rows == [] then []
    else (if rows[0].id != id then [rows[0]] else []) + DeleteRows(rows[1..], id)
  }

  // ---------------------------------------------------------------------------
  // Each statement keeps the table's invariant
  // ---------------------------------------------------------------------------

  lemma InsertKeepsInvariant(rows: seq<TimeTrialEntry>, t: Triple, version: Int32, ticks: Int32, newId: Uuid, now: Timestamp)
    requires TableInvariant(rows) && IdFree(rows, newId)
    ensures TableInvariant(InsertRows(rows, t, version, ticks, newId, now).0)
  {
    var r := InsertRows(rows, t, version, ticks, newId, now).0;
    if RowFor(rows, t).Some? {
      assert forall i :: 0 <= i < |rows| ==> r[i].id == rows[i].id && TripleOf(r[i]) == TripleOf(rows[i]);
    }
  }

  lemma UpdateKeepsInvariant(rows: seq<TimeTrialEntry>, id: Uuid, version: Int32, ticks: Int32, now: Timestamp)
    requires TableInvariant(rows)
    ensures TableInvariant(UpdateRows(rows, id, version, ticks, now))
  {
    var r := UpdateRows(rows, id, version, ticks, now);
    assert forall i :: 0 <= i < |rows| ==> r[i].id == rows[i].id && TripleOf(r[i]) == TripleOf(rows[i]);
  }

  lemma UniqueIdsTail(rows: seq<TimeTrialEntry>)
    requires rows != [] && UniqueIds(rows)
    ensures UniqueIds(rows[1..])
    ensures forall e :: e in rows[1..] ==> e.id != rows[0].id
  {
    forall e | e in rows[1..] ensures e.id != rows[0].id {
      var j :| 0 <= j < |rows[1..]| && rows[1..][j] == e;
      assert rows[j + 1] == e;
    }
  }

  /** A row whose id and triple are new to a table may be put in front of it. */
  lemma ConsKeepsInvariant(x: TimeTrialEntry, tail: seq<TimeTrialEntry>)
    requires TableInvariant(tail)
    requires forall e :: e in tail ==> e.id != x.id && TripleOf(e) != TripleOf(x)
    ensures TableInvariant([x] + tail)
  {
    var r := [x] + tail;
    forall i, j | 0 <= i < j < |r| ensures r[i].id != r[j].id && TripleOf(r[i]) != TripleOf(r[j]) {
      assert r[j] == tail[j - 1];
      if i > 0 {
        assert r[i] == tail[i - 1];
      }
    }
  }

  /** Deleting keeps the other rows in order, so the invariant carries over. */
  lemma {:induction false} DeleteKeepsInvariant(rows: seq<TimeTrialEntry>, id: Uuid)
    requires TableInvariant(rows)
    ensures TableInvariant(DeleteRows(rows, id))
  {
    if rows != [] {
      UniqueTriplesTail(rows);
      UniqueIdsTail(rows);
      DeleteKeepsInvariant(rows[1..], id);
      var tail := DeleteRows(rows[1..], id);
      if rows[0].id != id {
        ConsKeepsInvariant(rows[0], tail);
        assert DeleteRows(rows, id) == [rows[0]] + tail;
      } else {
        assert DeleteRows(rows, id) == tail;
      }
    }
  }

  /** Under unique ids, deleting an id removes one row when it is stored
      and none otherwise. */
  lemma {:induction false} DeleteCount(rows: seq<TimeTrialEntry>, id: Uuid)
    requires UniqueIds(rows)
    ensures |DeleteRows(rows, id)| == |rows| - (if IdFree(rows, id) then 0 else 1)
  {
    if rows != [] {
      UniqueIdsTail(rows);
      DeleteCount(rows[1..], id);
      if rows[0].id == id {
        assert IdFree(rows[1..], id) by {
          forall i | 0 <= i < |rows[1..]| ensures rows[1..][i].id != id {
            assert rows[1..][i] == rows[i + 1];
          }
        }
      } else {
        assert IdFree(rows, id) <==> IdFree(rows[1..], id) by {
          if IdFree(rows[1..], id) {
            forall i | 0 <= i < |rows| ensures rows[i].id != id {
              if i > 0 { assert rows[i] == rows[1..][i - 1]; }
            }
          }
          if IdFree(rows, id) {
            forall i | 0 <= i < |rows[1..]| ensures rows[1..][i].id != id {
              assert rows[1..][i] == rows[i + 1];
            }
          }
        }
      }
    }
  }

  // ---------------------------------------------------------------------------
  // The table itself
  // ---------------------------------------------------------------------------

  class TimeTrialTable {
    var rows: seq<TimeTrialEntry>

    ghost predicate Valid()
      reads this
    {
      TableInvariant(rows)
    }

    constructor (initial: seq<TimeTrialEntry>)
      requires TableInvariant(initial)
      ensures Valid() && rows == initial
    {
      rows := initial;
    }

    /** `insert`: a new row for a new triple; for a triple already present,
        only its `created_at` is refreshed. Returns the stored row. */
    method Insert(userId: Int32, carId: Uuid, stageId: Uuid, version: Int32, ticks: Int32, newId: Uuid, now: Timestamp)
      returns (e: TimeTrialEntry)
      requires Valid() && IdFree(rows, newId)
      modifies this
      ensures Valid()
      ensures (rows, e) == InsertRows(old(rows), Triple(userId, carId, stageId), version, ticks, newId, now)
    {
      var r := InsertRows(rows, Triple(userId, carId, stageId), version, ticks, newId, now);
      InsertKeepsInvariant(rows, Triple(userId, carId, stageId), version, ticks, newId, now);
      rows, e := r.0, r.1;
    }

    /** `update`: sets version, ticks and `created_at` of the row with id `id`. */
    method Update(id: Uuid, version: Int32, ticks: Int32, now: Timestamp)
      requires Valid()
      modifies this
      ensures Valid()
      ensures rows == UpdateRows(old(rows), id, version, ticks, now)
    {
      UpdateKeepsInvariant(rows, id, version, ticks, now);
      rows := UpdateRows(rows, id, version, ticks, now);
    }

    /** `delete`: removes the row with id `id`. */
    method Delete(id: Uuid)
      requires Valid()
      modifies this
      ensures Valid()
      ensures rows == DeleteRows(old(rows), id)
    {
      DeleteKeepsInvariant(rows, id);
      rows := DeleteRows(rows, id);
    }

    /** `filter_by_user`. */
    function FilterByUser(userId: Int32): (r: seq<TimeTrialEntry>)
      reads this
      ensures forall e :: e in r <==> e in rows && e.userId == userId
    {
      SelectMatching(rows, Criteria(Some(userId), None, None))
    }

    /** `filter_by_car`. */
    function FilterByCar(carId: Uuid): (r: seq<TimeTrialEntry>)
      reads this
      ensures forall e :: e in r <==> e in rows && e.carId == carId
    {
      SelectMatching(rows, Criteria(None, Some(carId), None))
    }

    /** `filter_by_stage`. */
    function FilterByStage(stageId: Uuid): (r: seq<TimeTrialEntry>)
      reads this
      ensures forall e :: e in r <==> e in rows && e.stageId == stageId
    {
      SelectMatching(rows, Criteria(None, None, Some(stageId)))
    }

    /** `filter`: the first supplied key is a query, every later key narrows
        that result in memory; with no key at all the result is empty. */
    method Filter(userId: Option<Int32>, carId: Option<Uuid>, stageId: Option<Uuid>)
      returns (r: seq<TimeTrialEntry>)
      ensures userId.None? && carId.None? && stageId.None? ==> r == []
      ensures !(userId.None? && carId.None? && stageId.None?) ==>
        r == SelectMatching(rows, Criteria(userId, carId, stageId))
      ensures forall e :: e in r ==> e in rows && Matches(e, Criteria(userId, carId, stageId))
    {
      var filtered: Option<seq<TimeTrialEntry>> := None;
      if userId.Some? {
        filtered := Some(FilterByUser(userId.value));
      }
      ghost var sofar := Criteria(userId, None, None);
      if carId.Some? {
        var narrow := Criteria(None, carId, None);
        if filtered.Some? {
          SelectTwice(rows, sofar, narrow, Criteria(userId, carId, None));
          filtered := Some(SelectMatching(filtered.value, narrow));
        } else {
          filtered := Some(FilterByCar(carId.value));
        }
      }
      sofar := Criteria(userId, carId, None);
      if stageId.Some? {
        var narrow := Criteria(None, None, stageId);
        if filtered.Some? {
          SelectTwice(rows, sofar, narrow, Criteria(userId, carId, stageId));
          filtered := Some(SelectMatching(filtered.value, narrow));
        } else {
          filtered := Some(FilterByStage(stageId.value));
        }
      }
      r := if filtered.Some? then filtered.value else [];
    }
  }
}
