/** Shared pieces of the class and teacher management pages: the checkbox
    toggle on a list of selected ids, the transform that drops missing
    entries of a nested join, and the replace-all save of the
    `class_teachers` junction rows (delete every row of the edited class or
    teacher, then insert one row per selected id). */
module Selection {
  import opened Common

  function IsNot(id: Id): Id -> bool {
    (x: Id) => x != id
  }

  /** The checkbox handler: a selected id is removed (every copy), an
      unselected one is appended at the end. */
  function Toggle(sel: seq<Id>, id: Id): (r: seq<Id>)
    ensures id in r <==> id !in sel
    ensures forall x :: x != id ==> (x in r <==> x in sel)
    ensures id !in sel ==> r == sel + [id]
    ensures id in sel ==> |r| < |sel|
  {
    if id in sel then
      var r := Filter(sel, IsNot(id));
      FilterDropsSome(sel, IsNot(id), id);
      r
    else sel + [id]
  }

  /** Filtering out an element that occurs shortens the sequence. */
  lemma {:induction false} FilterDropsSome<T>(s: seq<T>, p: T -> bool, x: T)
    requires x in s && !p(x)
    ensures |Filter(s, p)| < |s|
    decreases |s|
  {
    var init := s[..|s| - 1];
    assert s == init + [s[|s| - 1]];
    if s[|s| - 1] != x {
      FilterDropsSome(init, p, x);
    }
  }

  /** Toggling an unselected id twice gives back the original list. */
  lemma ToggleTwice(sel: seq<Id>, id: Id)
    requires id !in sel
    ensures Toggle(Toggle(sel, id), id) == sel
  {
    FilterAppend(sel, [id], IsNot(id));
    FilterAll(sel, IsNot(id));
  }

  /** `.filter(Boolean)` over the nested join: the present entries, in order. */
  function Somes<T>(xs: seq<Option<T>>): (r: seq<T>)
    ensures forall i :: 0 <= i < |r| ==> Some(r[i]) in xs
    ensures forall i :: 0 <= i < |xs| && xs[i].Some? ==> xs[i].value in r
    ensures |r| <= |xs|
  {
    if xs == [] then []
    else
      var init := xs[..|xs| - 1];
      assert xs == init + [xs[|xs| - 1]];
      Somes(init) + (if xs[|xs| - 1].Some? then [xs[|xs| - 1].value] else [])
  }

  /** With no missing entry nothing is dropped. */
  lemma {:induction false} SomesAllPresent<T>(xs: seq<Option<T>>)
    requires forall i :: 0 <= i < |xs| ==> xs[i].Some?
    ensures |Somes(xs)| == |xs|
    ensures forall i :: 0 <= i < |xs| ==> Somes(xs)[i] == xs[i].value
    decreases |xs|
  {
    if xs != [] {
      SomesAllPresent(xs[..|xs| - 1]);
    }
  }

  /** Which side of the junction row the page edits. */
  datatype Side = ByClass | ByTeacher

  datatype Assignment = Assignment(class_id: Id, teacher_id: Id)

  function OwnerOf(side: Side, a: Assignment): Id {
    if side == ByClass then a.class_id else a.teacher_id
  }

  function OtherOf(side: Side, a: Assignment): Id {
    if side == ByClass then a.teacher_id else a.class_id
  }

  predicate OwnedBy(side: Side, owner: Id, a: Assignment) {
    OwnerOf(side, a) == owner
  }

  function Owned(side: Side, owner: Id): Assignment -> bool {
    (a: Assignment) => OwnedBy(side, owner, a)
  }

  function NotOwned(side: Side, owner: Id): Assignment -> bool {
    (a: Assignment) => !OwnedBy(side, owner, a)
  }

  /** `selected.map(id => ({ class_id, teacher_id }))`. */
  function NewAssignments(side: Side, owner: Id, selected: seq<Id>): (r: seq<Assignment>)
    ensures |r| == |selected|
    ensures forall i :: 0 <= i < |r| ==> OwnedBy(side, owner, r[i]) && OtherOf(side, r[i]) == selected[i]
  {
    if selected == [] then []
    else
      var x := selected[|selected| - 1];
      NewAssignments(side, owner, selected[..|selected| - 1])
        + [if side == ByClass then Assignment(owner, x) else Assignment(x, owner)]
  }

  /** The junction table after a save and whether the save succeeded. */
  datatype SaveResult = SaveResult(table: seq<Assignment>, ok: bool)

  /** Delete the owner's rows, then insert the selection when it is not empty.
      A failed delete changes nothing; a failed insert leaves the owner with no
      rows. */
  function ReplaceAssignments(table: seq<Assignment>, side: Side, owner: Id, selected: seq<Id>,
                              deleteFails: bool, insertFails: bool): (r: SaveResult)
    ensures deleteFails ==> r == SaveResult(table, false)
    ensures !deleteFails ==> Filter(r.table, NotOwned(side, owner)) == Filter(table, NotOwned(side, owner))
    ensures !deleteFails && (selected == [] || !insertFails) ==> r.ok && Filter(r.table, Owned(side, owner)) == NewAssignments(side, owner, selected)
    ensures !deleteFails && selected != [] && insertFails ==> !r.ok && Filter(r.table, Owned(side, owner)) == []
  {
    if deleteFails then SaveResult(table, false)
    else
      var kept := Filter(table, NotOwned(side, owner));
      KeptRows(table, side, owner);
      if selected != [] && insertFails then SaveResult(kept, false)
      else
        var added := NewAssignments(side, owner, selected);
        FilterAppend(kept, added, Owned(side, owner));
        FilterAppend(kept, added, NotOwned(side, owner));
        FilterAll(added, Owned(side, owner));
        FilterNone(added, NotOwned(side, owner));
        SaveResult(kept + added, true)
  }

  lemma KeptRows(table: seq<Assignment>, side: Side, owner: Id)
    ensures Filter(Filter(table, NotOwned(side, owner)), Owned(side, owner)) == []
    ensures Filter(Filter(table, NotOwned(side, owner)), NotOwned(side, owner)) == Filter(table, NotOwned(side, owner))
  {
    FilterNone(Filter(table, NotOwned(side, owner)), Owned(side, owner));
    FilterAll(Filter(table, NotOwned(side, owner)), NotOwned(side, owner));
  }

  /** The ids assigned to the owner in a table. */
  function AssignedTo(table: seq<Assignment>, side: Side, owner: Id): set<Id> {
    set a | a in table && OwnedBy(side, owner, a) :: OtherOf(side, a)
  }

  /** After a successful save the owner's assigned ids are exactly the
      selection, and every other owner keeps its rows. */
  lemma SaveMatchesSelection(table: seq<Assignment>, side: Side, owner: Id, selected: seq<Id>, insertFails: bool, other: Id)
    requires selected == [] || !insertFails
    ensures var r := ReplaceAssignments(table, side, owner, selected, false, insertFails);
      r.ok && AssignedTo(r.table, side, owner) == set x | x in selected
    ensures other != owner ==>
      AssignedTo(ReplaceAssignments(table, side, owner, selected, false, insertFails).table, side, other) == AssignedTo(table, side, other)
  {
    var added := NewAssignments(side, owner, selected);
    var kept := Filter(table, NotOwned(side, owner));
    assert ReplaceAssignments(table, side, owner, selected, false, insertFails).table == kept + added;
    AssignedAfterSave(table, side, owner, selected, owner);
    AssignedAfterSave(table, side, owner, selected, other);
  }

  /** After the rows are replaced, `who`'s ids are the selection if `who` is
      the owner and unchanged otherwise. */
  lemma AssignedAfterSave(table: seq<Assignment>, side: Side, owner: Id, selected: seq<Id>, who: Id)
    ensures AssignedTo(Filter(table, NotOwned(side, owner)) + NewAssignments(side, owner, selected), side, who)
      == if who == owner then (set x | x in selected) else AssignedTo(table, side, who)
  {
    var added := NewAssignments(side, owner, selected);
    var kept := Filter(table, NotOwned(side, owner));
    AssignedAppend(kept, added, side, who);
    AssignedNew(side, owner, selected, who);
    AssignedKept(table, side, owner, who);
  }

  lemma AssignedAppend(a: seq<Assignment>, b: seq<Assignment>, side: Side, owner: Id)
    ensures AssignedTo(a + b, side, owner) == AssignedTo(a, side, owner) + AssignedTo(b, side, owner)
  {
  }

  /** The new rows assign the selection to the owner and nothing to anyone else. */
  lemma AssignedNew(side: Side, owner: Id, selected: seq<Id>, who: Id)
    ensures AssignedTo(NewAssignments(side, owner, selected), side, who) == if who == owner then (set x | x in selected) else {}
  {
    var added := NewAssignments(side, owner, selected);
    if who == owner {
      forall x | x in selected ensures x in AssignedTo(added, side, owner) {
        var i :| 0 <= i < |selected| && selected[i] == x;
        assert added[i] in added;
      }
      forall x | x in AssignedTo(added, side, owner) ensures x in selected {
        var a :| a in added && OwnedBy(side, owner, a) && OtherOf(side, a) == x;
        var i :| 0 <= i < |added| && added[i] == a;
      }
    }
  }

  /** Deleting the owner's rows takes away all of the owner's ids and none of
      anyone else's. */
  lemma AssignedKept(table: seq<Assignment>, side: Side, owner: Id, who: Id)
    ensures AssignedTo(Filter(table, NotOwned(side, owner)), side, who) == if who == owner then {} else AssignedTo(table, side, who)
  {
    var kept := Filter(table, NotOwned(side, owner));
    if who != owner {
      forall x | x in AssignedTo(table, side, who) ensures x in AssignedTo(kept, side, who) {
        var a :| a in table && OwnedBy(side, who, a) && OtherOf(side, a) == x;
        var i :| 0 <= i < |table| && table[i] == a;
        assert NotOwned(side, owner)(table[i]);
      }
      forall x | x in AssignedTo(kept, side, who) ensures x in AssignedTo(table, side, who) {
        var a :| a in kept && OwnedBy(side, who, a) && OtherOf(side, a) == x;
        var i :| 0 <= i < |kept| && kept[i] == a;
      }
    }
  }

  /** `if (id)`: an id counts only when present and non-empty. */
  predicate Truthy(id: Option<Id>) {
    id.Some? && id.value != ""
  }

  /** The submit handler: update the existing record (when it has an id) or
      create one (whose new id the backend returns, `None` when creation
      fails), then replace the junction rows. Any failing step stops there. */
  function Submit(table: seq<Assignment>, side: Side, currentId: Option<Id>, selected: seq<Id>,
                  writeFails: bool, createdId: Option<Id>, deleteFails: bool, insertFails: bool): (r: SaveResult)
    ensures Truthy(currentId) && writeFails ==> r == SaveResult(table, false)
    ensures !Truthy(currentId) && createdId.None? ==> r == SaveResult(table, false)
    ensures Truthy(currentId) && !writeFails ==>
      r == ReplaceAssignments(table, side, currentId.value, selected, deleteFails, insertFails)
    ensures !Truthy(currentId) && createdId.Some? ==>
      r == ReplaceAssignments(table, side, createdId.value, selected, deleteFails, insertFails)
  {
    if Truthy(currentId) then
      if writeFails then SaveResult(table, false)
      else ReplaceAssignments(table, side, currentId.value, selected, deleteFails, insertFails)
    else if createdId.None? then SaveResult(table, false)
    else ReplaceAssignments(table, side, createdId.value, selected, deleteFails, insertFails)
  }

  /** `handleDelete`'s guard: the id to delete, nothing without one. */
  function DeleteRequest(id: Option<Id>): (r: Option<Id>)
    ensures r.Some? <==> Truthy(id)
    ensures r.Some? ==> r == id
  {
    if Truthy(id) then id else None
  }
}
