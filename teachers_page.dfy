/** The teacher management page: the teachers with their classes read from
    the nested join, the edit form (present only while a teacher is being
    added or edited) with its class checkboxes, and the save that replaces
    the teacher's `class_teachers` rows. Backend answers are parameters; the
    `teachers` table itself is not modelled. */
module TeachersPage {
  import opened Common
  import opened Selection

  datatype ClassRef = ClassRef(id: Id, name: string)

  /** A `teachers` row as the join returns it; an entry is `None` when the
      joined class is missing. */
  datatype RawTeacher = RawTeacher(id: Id, full_name: string, phone: string, class_teachers: seq<Option<ClassRef>>)

  datatype Teacher = Teacher(id: Id, full_name: string, phone: string, classes: seq<ClassRef>)

  /** `currentTeacher` when it is set. */
  datatype TeacherForm = TeacherForm(id: Option<Id>, full_name: string, phone: string, selected_classes: Option<seq<Id>>)

  /** The `fetchData` transform: one teacher per row, in order, keeping its
      fields, with the present classes of its join entries. */
  function TransformTeachers(raw: seq<RawTeacher>): (r: seq<Teacher>)
    ensures |r| == |raw|
    ensures forall i :: 0 <= i < |r| ==> r[i].id == raw[i].id && r[i].full_name == raw[i].full_name && r[i].phone == raw[i].phone
    ensures forall i :: 0 <= i < |r| ==> r[i].classes == Somes(raw[i].class_teachers)
  {
    seq(|raw|, i requires 0 <= i < |raw| => Teacher(raw[i].id, raw[i].full_name, raw[i].phone, Somes(raw[i].class_teachers)))
  }

  /** A joined class appears for the teacher iff its entry is present. */
  lemma TransformDropsMissing(raw: seq<RawTeacher>, i: nat, c: ClassRef)
    requires i < |raw|
    ensures c in TransformTeachers(raw)[i].classes <==> Some(c) in raw[i].class_teachers
  {
    var xs := raw[i].class_teachers;
    var r := Somes(xs);
    if c in r {
      var k :| 0 <= k < |r| && r[k] == c;
    }
    if Some(c) in xs {
      var k :| 0 <= k < |xs| && xs[k] == Some(c);
    }
  }

  function ClassIds(cs: seq<ClassRef>): (r: seq<Id>)
    ensures |r| == |cs| && forall i :: 0 <= i < |r| ==> r[i] == cs[i].id
  {
    MapSeq(cs, (c: ClassRef) => c.id)
  }

  /** `openModal`: editing pre-selects the teacher's class ids in order; a new
      teacher starts with empty fields and no selection. */
  function OpenModal(t: Option<Teacher>): (f: TeacherForm)
    ensures t.None? ==> f == TeacherForm(None, "", "", Some([]))
    ensures t.Some? ==> f.id == Some(t.value.id) && f.full_name == t.value.full_name && f.phone == t.value.phone
    ensures t.Some? ==> f.selected_classes == Some(ClassIds(t.value.classes))
  {
    if t.None? then TeacherForm(None, "", "", Some([]))
    else TeacherForm(Some(t.value.id), t.value.full_name, t.value.phone, Some(ClassIds(t.value.classes)))
  }

  /** `handleClassSelectionChange`: nothing without a form; otherwise one class's
      checkbox flips and the rest of the form is kept. */
  function ClassSelectionChange(current: Option<TeacherForm>, classId: Id): (r: Option<TeacherForm>)
    ensures current.None? ==> r.None?
    ensures current.Some? ==> r.Some? && r.value.selected_classes.Some?
    ensures current.Some? ==>
      r.value.id == current.value.id && r.value.full_name == current.value.full_name && r.value.phone == current.value.phone
    ensures current.Some? ==>
      (classId in r.value.selected_classes.value <==> classId !in OrEmpty(current.value.selected_classes))
    ensures current.Some? ==> forall x :: x != classId ==>
      (x in r.value.selected_classes.value <==> x in OrEmpty(current.value.selected_classes))
  {
    if current.None? then None
    else Some(current.value.(selected_classes := Some(Toggle(OrEmpty(current.value.selected_classes), classId))))
  }

  /** `handleSubmit`'s effect on `class_teachers`: nothing without a form. */
  function SubmitTeacher(table: seq<Assignment>, current: Option<TeacherForm>, writeFails: bool, createdId: Option<Id>,
                         deleteFails: bool, insertFails: bool): (r: SaveResult)
    ensures current.None? ==> r == SaveResult(table, false)
    ensures current.Some? && Truthy(current.value.id) && !writeFails ==>
      r == ReplaceAssignments(table, ByTeacher, current.value.id.value, OrEmpty(current.value.selected_classes), deleteFails, insertFails)
    ensures current.Some? && !Truthy(current.value.id) && createdId.Some? ==>
      r == ReplaceAssignments(table, ByTeacher, createdId.value, OrEmpty(current.value.selected_classes), deleteFails, insertFails)
    ensures current.Some? && ((Truthy(current.value.id) && writeFails) || (!Truthy(current.value.id) && createdId.None?)) ==>
      r == SaveResult(table, false)
  {
    if current.None? then SaveResult(table, false)
    else Submit(table, ByTeacher, current.value.id, OrEmpty(current.value.selected_classes), writeFails, createdId, deleteFails, insertFails)
  }

  /** Adding a teacher with a selection assigns exactly the selected classes to
      the new id and leaves every other teacher's classes as they were. */
  lemma NewTeacherAssignments(table: seq<Assignment>, f: TeacherForm, createdId: Id, other: Id)
    requires !Truthy(f.id) && f.selected_classes.Some?
    ensures var r := SubmitTeacher(table, Some(f), false, Some(createdId), false, false);
      r.ok && AssignedTo(r.table, ByTeacher, createdId) == set x | x in f.selected_classes.value
    ensures other != createdId ==>
      AssignedTo(SubmitTeacher(table, Some(f), false, Some(createdId), false, false).table, ByTeacher, other)
      == AssignedTo(table, ByTeacher, other)
  {
    SaveMatchesSelection(table, ByTeacher, createdId, f.selected_classes.value, false, other);
  }

  /** `handleDelete`: the teacher id to delete, nothing without a form or an id. */
  function DeleteTeacher(current: Option<TeacherForm>): (r: Option<Id>)
    ensures r.Some? <==> current.Some? && Truthy(current.value.id)
    ensures r.Some? ==> r == current.value.id
  {
    if current.None? then None else DeleteRequest(current.value.id)
  }
}
