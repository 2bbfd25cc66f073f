/** The two lookup tables that the pages build with `forEach` over fetched
    rows: a last-write-wins map keyed by student (`map[r.student_id] = ...`)
    and a per-key row count (`counts[id] = (counts[id] || 0) + 1`), together
    with the repeat-absentee rule shared by the dashboard and the quick
    attendance page. */
module Tally {
  import opened Common

  /** Absence threshold of both the dashboard alert and the quick-entry banner. */
  const RepeatAbsenceThreshold: nat := 3

  /** The map a `forEach` assigning `m[key] = value` leaves behind. */
  function LastWins<V>(rows: seq<(Id, V)>): map<Id, V>
  {
    if rows == [] then map[]
    else LastWins(rows[..|rows| - 1])[rows[|rows| - 1].0 := rows[|rows| - 1].1]
  }

  /** A key is in the map iff some row carries it. */
  lemma {:induction false} LastWinsKeys<V>(rows: seq<(Id, V)>, k: Id)
    ensures k in LastWins(rows) <==> exists i :: 0 <= i < |rows| && rows[i].0 == k
    decreases |rows|
  {
    if rows != [] {
      var init := rows[..|rows| - 1];
      LastWinsKeys(init, k);
      if k in LastWins(init) {
        var i :| 0 <= i < |init| && init[i].0 == k;
        assert rows[i].0 == k;
      }
      if exists i :: 0 <= i < |rows| && rows[i].0 == k {
        var i :| 0 <= i < |rows| && rows[i].0 == k;
        if i < |init| { assert init[i].0 == k; }
      }
    }
  }

  /** The value stored under a key is the one of the LAST row with that key. */
  lemma {:induction false} LastWinsValue<V>(rows: seq<(Id, V)>, i: nat)
    requires i < |rows|
    requires forall j :: i < j < |rows| ==> rows[j].0 != rows[i].0
    ensures rows[i].0 in LastWins(rows) && LastWins(rows)[rows[i].0] == rows[i].1
    decreases |rows|
  {
    if i < |rows| - 1 {
      var init := rows[..|rows| - 1];
      LastWinsValue(init, i);
    }
  }

  /** The `forEach` loop building a last-write-wins lookup. */
  method BuildLastWins<V>(rows: seq<(Id, V)>) returns (m: map<Id, V>)
    ensures m == LastWins(rows)
  {
    m := map[];
    var i := 0;
    while i < |rows|
      invariant 0 <= i <= |rows|
      invariant m == LastWins(rows[..i])
    {
      assert rows[..i + 1][..i] == rows[..i];
      m := m[rows[i].0 := rows[i].1];
      i := i + 1;
    }
    assert rows[..i] == rows;
  }

  /** `counts[id]` after counting every occurrence of `id` in `ids`. */
  function Counts(ids: seq<Id>): map<Id, nat>
  {
    if ids == [] then map[]
    else
      var m := Counts(ids[..|ids| - 1]);
      var x := ids[|ids| - 1];
      m[x := (if x in m then m[x] else 0) + 1]
  }

  /** The count map has exactly the ids that occur, each with its number of rows. */
  lemma {:induction false} CountsSpec(ids: seq<Id>, k: Id)
    ensures k in Counts(ids) <==> k in ids
    ensures k in Counts(ids) ==> Counts(ids)[k] == Count(ids, k)
    decreases |ids|
  {
    if ids != [] {
      var init := ids[..|ids| - 1];
      CountsSpec(init, k);
      assert ids == init + [ids[|ids| - 1]];
    }
  }

  /** The `forEach` loop counting rows per id (`(m[id] || 0) + 1`). */
  method CountRows(ids: seq<Id>) returns (m: map<Id, nat>)
    ensures forall k :: k in m <==> k in ids
    ensures forall k :: k in m ==> m[k] == Count(ids, k)
  {
    m := map[];
    var i := 0;
    while i < |ids|
      invariant 0 <= i <= |ids|
      invariant m == Counts(ids[..i])
    {
      assert ids[..i + 1][..i] == ids[..i];
      m := m[ids[i] := (if ids[i] in m then m[ids[i]] else 0) + 1];
      i := i + 1;
    }
    assert ids[..i] == ids;
    forall k ensures (k in m <==> k in ids) && (k in m ==> m[k] == Count(ids, k)) {
      CountsSpec(ids, k);
    }
  }

  /** Ids with at least `RepeatAbsenceThreshold` rows among the absent-row ids. */
  function RepeatAbsentees(absentIds: seq<Id>): (r: set<Id>)
  {
    set k | k in Counts(absentIds) && Counts(absentIds)[k] >= RepeatAbsenceThreshold
  }

  /** A student is a repeat absentee iff at least three absent rows carry the id. */
  lemma RepeatAbsenteesSpec(absentIds: seq<Id>, k: Id)
    ensures k in RepeatAbsentees(absentIds) <==> Count(absentIds, k) >= RepeatAbsenceThreshold
  {
    CountsSpec(absentIds, k);
  }

  /** Restricting the rows (by any row predicate) can only shrink the repeat-absentee
      set: the quick-entry page's rows for one class and teacher are a subset of the
      dashboard's rows for the month, so every name it flags the dashboard counts. */
  lemma RepeatAbsenteesOfFilter<R>(rows: seq<R>, idOf: R -> Id, keep: R -> bool, k: Id)
    requires k in RepeatAbsentees(Ids(Filter(rows, keep), idOf))
    ensures k in RepeatAbsentees(Ids(rows, idOf))
  {
    RepeatAbsenteesSpec(Ids(Filter(rows, keep), idOf), k);
    CountIdsFilter(rows, idOf, keep, k);
    RepeatAbsenteesSpec(Ids(rows, idOf), k);
  }

  /** The id column of a row sequence (`rows.map(r => r.student_id)`). */
  function Ids<R>(rows: seq<R>, idOf: R -> Id): (r: seq<Id>)
    ensures |r| == |rows|
    ensures forall i :: 0 <= i < |rows| ==> r[i] == idOf(rows[i])
  {
    if rows == [] then [] else Ids(rows[..|rows| - 1], idOf) + [idOf(rows[|rows| - 1])]
  }

  lemma IdsSnoc<R>(rows: seq<R>, x: R, idOf: R -> Id)
    ensures Ids(rows + [x], idOf) == Ids(rows, idOf) + [idOf(x)]
  {
    assert (rows + [x])[..|rows + [x]| - 1] == rows;
  }

  lemma {:induction false} CountIdsFilter<R>(rows: seq<R>, idOf: R -> Id, keep: R -> bool, k: Id)
    ensures Count(Ids(Filter(rows, keep), idOf), k) <= Count(Ids(rows, idOf), k)
    decreases |rows|
  {
    if rows != [] {
      var init := rows[..|rows| - 1];
      var x := rows[|rows| - 1];
      assert rows == init + [x];
      CountIdsFilter(init, idOf, keep, k);
      IdsSnoc(init, x, idOf);
      CountAppend(Ids(init, idOf), [idOf(x)], k);
      if keep(x) {
        assert Filter(rows, keep) == Filter(init, keep) + [x];
        IdsSnoc(Filter(init, keep), x, idOf);
        CountAppend(Ids(Filter(init, keep), idOf), [idOf(x)], k);
      } else {
        assert Filter(rows, keep) == Filter(init, keep);
      }
    }
  }
}
