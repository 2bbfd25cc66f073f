/** The class management page: the classes with their teachers read from
    the nested join, the edit form with its teacher checkboxes, and the save
    that replaces the class's `class_teachers` rows. Backend answers are
    parameters; the `classes` table itself is not modelled. */
module ClassesPage {
  import opened Common
  import opened Selection

  datatype TeacherRef = TeacherRef(id: Id, full_name: string)

  /** A `classes` row as the join returns it; an entry is `None` when the
      joined teacher is missing. */
  datatype RawClass = RawClass(id: Id, name: string, class_teachers: seq<Option<TeacherRef>>)

  datatype Class = Class(id: Id, name: string, teachers: seq<TeacherRef>)

  /** `currentClass`: the modal's form. */
  datatype ClassForm = ClassForm(id: Option<Id>, name: string, selected_teachers: Option<seq<Id>>)

  /** The `fetchData` transform: one class per row, in order, with the present
      teachers of its join entries. */
  function TransformClasses(raw: seq<RawClass>): (r: seq<Class>)
    ensures |r| == |raw|
    ensures forall i :: 0 <= i < |r| ==> r[i].id == raw[i].id && r[i].name == raw[i].name
    ensures forall i :: 0 <= i < |r| ==> r[i].teachers == Somes(raw[i].class_teachers)
  {
    seq(|raw|, i requires 0 <= i < |raw| => Class(raw[i].id, raw[i].name, Somes(raw[i].class_teachers)))
  }

  /** A joined teacher appears in the class iff its entry is present. */
  lemma TransformDropsMissing(raw: seq<RawClass>, i: nat, t: TeacherRef)
    requires i < |raw|
    ensures t in TransformClasses(raw)[i].teachers <==> Some(t) in raw[i].class_teachers
  {
    var xs := raw[i].class_teachers;
    var r := Somes(xs);
    if t in r {
      var k :| 0 <= k < |r| && r[k] == t;
    }
    if Some(t) in xs {
      var k :| 0 <= k < |xs| && xs[k] == Some(t);
    }
  }

  function TeacherIds(ts: seq<TeacherRef>): (r: seq<Id>)
    ensures |r| == |ts| && forall i :: 0 <= i < |r| ==> r[i] == ts[i].id
  {
    MapSeq(ts, (t: TeacherRef) => t.id)
  }

  /** `openModal`: editing pre-selects the class's teacher ids in order; a new
      class starts with an empty name and no selection. */
  function OpenModal(item: Option<Class>): (f: ClassForm)
    ensures item.None? ==> f == ClassForm(None, "", Some([]))
    ensures item.Some? ==> f.id == Some(item.value.id) && f.name == item.value.name
    ensures item.Some? ==> f.selected_teachers == Some(TeacherIds(item.value.teachers))
  {
    if item.None? then ClassForm(None, "", Some([]))
    else ClassForm(Some(item.value.id), item.value.name, Some(TeacherIds(item.value.teachers)))
  }

  /** `handleTeacherSelectionChange`: flips one teacher's checkbox and leaves the
      rest of the form as it was. */
  function TeacherSelectionChange(f: ClassForm, teacherId: Id): (g: ClassForm)
    ensures g.id == f.id && g.name == f.name && g.selected_teachers.Some?
    ensures teacherId in g.selected_teachers.value <==> teacherId !in OrEmpty(f.selected_teachers)
    ensures forall x :: x != teacherId ==> (x in g.selected_teachers.value <==> x in OrEmpty(f.selected_teachers))
  {
    f.(selected_teachers := Some(Toggle(OrEmpty(f.selected_teachers), teacherId)))
  }

  /** `handleSubmit`'s effect on `class_teachers`. The junction rows are
      replaced only under a truthy class id: a created class whose returned id
      is empty skips that step and still counts as saved. */
  function SubmitClass(table: seq<Assignment>, f: ClassForm, writeFails: bool, createdId: Option<Id>,
                       deleteFails: bool, insertFails: bool): (r: SaveResult)
    ensures Truthy(f.id) && !writeFails ==>
      r == ReplaceAssignments(table, ByClass, f.id.value, OrEmpty(f.selected_teachers), deleteFails, insertFails)
    ensures !Truthy(f.id) && Truthy(createdId) ==>
      r == ReplaceAssignments(table, ByClass, createdId.value, OrEmpty(f.selected_teachers), deleteFails, insertFails)
    ensures !Truthy(f.id) && createdId == Some("") ==> r == SaveResult(table, true)
    ensures (Truthy(f.id) && writeFails) || (!Truthy(f.id) && createdId.None?) ==> r == SaveResult(table, false)
  {
    if !Truthy(f.id) && createdId == Some("") then SaveResult(table, true)
    else Submit(table, ByClass, f.id, OrEmpty(f.selected_teachers), writeFails, createdId, deleteFails, insertFails)
  }

  /** Opening a class with a non-empty id and saving it unchanged writes back
      exactly its teachers. */
  lemma EditRoundTrip(table: seq<Assignment>, c: Class)
    requires c.id != ""
    ensures var r := SubmitClass(table, OpenModal(Some(c)), false, None, false, false);
      r.ok && AssignedTo(r.table, ByClass, c.id) == set t | t in c.teachers :: t.id
  {
    var ids := TeacherIds(c.teachers);
    var f := OpenModal(Some(c));
    assert Truthy(f.id) && OrEmpty(f.selected_teachers) == ids;
    assert SubmitClass(table, f, false, None, false, false) == ReplaceAssignments(table, ByClass, c.id, ids, false, false);
    SaveMatchesSelection(table, ByClass, c.id, ids, false, c.id);
    TeacherIdsSet(c.teachers);
  }

  lemma TeacherIdsSet(ts: seq<TeacherRef>)
    ensures (set x | x in TeacherIds(ts)) == set t | t in ts :: t.id
  {
    var ids := TeacherIds(ts);
    forall x | x in ids ensures x in (set t | t in ts :: t.id) {
      var i :| 0 <= i < |ids| && ids[i] == x;
      assert ts[i] in ts;
    }
    forall x | x in (set t | t in ts :: t.id) ensures x in ids {
      var t :| t in ts && t.id == x;
      var i :| 0 <= i < |ts| && ts[i] == t;
      assert ids[i] == x;
    }
  }

  /** `handleDelete`: the class id to delete, nothing without one. */
  function DeleteClass(f: ClassForm): (r: Option<Id>)
    ensures r.Some? <==> Truthy(f.id)
    ensures r.Some? ==> r == f.id
  {
    DeleteRequest(f.id)
  }
}
