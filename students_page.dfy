/** The student management page: the teachers → classes → students tree
    built from four flat tables, the default teacher tab, the student modal's
    teacher/class pickers, and the normalisation of the saved row. Backend
    answers are parameters. */
module StudentsPage {
  import opened Common
  import opened Selection

  datatype Student = Student(id: Id, full_name: string, parent_name: string, parent_phone: string, class_id: Option<Id>)
  datatype TeacherRow = TeacherRow(id: Id, full_name: string)
  datatype ClassRow = ClassRow(id: Id, name: string)

  /** A class with its students, as the accordion shows it. */
  datatype ClassView = ClassView(id: Id, name: string, students: seq<Student>)
  datatype TeacherView = TeacherView(id: Id, full_name: string, classes: seq<ClassView>)

  predicate InClass(classId: Id, s: Student) {
    s.class_id == Some(classId)
  }

  /** `studentsData.filter(s => s.class_id === c.id)`. */
  function StudentsOf(students: seq<Student>, classId: Id): (r: seq<Student>)
    ensures forall s :: s in r <==> s in students && InClass(classId, s)
  {
    Filter(students, (s: Student) => InClass(classId, s))
  }

  function ViewOf(c: ClassRow, students: seq<Student>): (v: ClassView)
    ensures v.id == c.id && v.name == c.name && v.students == StudentsOf(students, c.id)
  {
    ClassView(c.id, c.name, StudentsOf(students, c.id))
  }

  /** `transformedClasses`: one view per fetched class, in order. */
  function AllClasses(classes: seq<ClassRow>, students: seq<Student>): (r: seq<ClassView>)
    ensures |r| == |classes|
    ensures forall i :: 0 <= i < |r| ==> r[i] == ViewOf(classes[i], students)
  {
    seq(|classes|, i requires 0 <= i < |classes| => ViewOf(classes[i], students))
  }

  /** A student without a class is listed under no class. */
  lemma NoClassNowhere(classes: seq<ClassRow>, students: seq<Student>, s: Student)
    requires s.class_id.None?
    ensures forall v :: v in AllClasses(classes, students) ==> s !in v.students
  {
  }

  /** `assignments.filter(a => a.teacher_id === t.id).map(a => a.class_id)`. */
  function ClassIdsOf(assignments: seq<Assignment>, teacherId: Id): (r: seq<Id>)
    ensures forall c :: c in r <==> Assignment(c, teacherId) in assignments
    decreases |assignments|
  {
    if assignments == [] then []
    else
      var init := assignments[..|assignments| - 1];
      var a := assignments[|assignments| - 1];
      assert assignments == init + [a];
      ClassIdsOf(init, teacherId) + (if a.teacher_id == teacherId then [a.class_id] else [])
  }

  predicate Assigned(assignments: seq<Assignment>, teacherId: Id, c: ClassRow) {
    c.id in ClassIdsOf(assignments, teacherId)
  }

  /** A teacher's classes: the classes with a junction row for the teacher, in
      `classes` order, each with its students. */
  function TeacherClasses(classes: seq<ClassRow>, assignments: seq<Assignment>, students: seq<Student>, teacherId: Id): (r: seq<ClassView>)
    ensures |r| <= |classes|
    ensures forall i :: 0 <= i < |r| ==> ClassRow(r[i].id, r[i].name) in classes && Assignment(r[i].id, teacherId) in assignments
    ensures forall i :: 0 <= i < |r| ==> r[i].students == StudentsOf(students, r[i].id)
  {
    AllClasses(Filter(classes, (c: ClassRow) => Assigned(assignments, teacherId, c)), students)
  }

  /** A class is shown under a teacher iff it was fetched and a junction row
      ties it to the teacher. */
  lemma TeacherClassesSpec(classes: seq<ClassRow>, assignments: seq<Assignment>, students: seq<Student>, teacherId: Id, c: ClassRow)
    ensures ViewOf(c, students) in TeacherClasses(classes, assignments, students, teacherId)
        <== c in classes && Assignment(c.id, teacherId) in assignments
    ensures (exists v :: v in TeacherClasses(classes, assignments, students, teacherId) && v.id == c.id && v.name == c.name)
        ==> c in classes && Assignment(c.id, teacherId) in assignments
  {
    if c in classes && Assignment(c.id, teacherId) in assignments {
      AssignedClassShown(classes, assignments, students, teacherId, c);
    }
  }

  lemma AssignedClassShown(classes: seq<ClassRow>, assignments: seq<Assignment>, students: seq<Student>, teacherId: Id, c: ClassRow)
    requires c in classes && Assignment(c.id, teacherId) in assignments
    ensures ViewOf(c, students) in TeacherClasses(classes, assignments, students, teacherId)
  {
    var kept := Filter(classes, (c: ClassRow) => Assigned(assignments, teacherId, c));
    var r := TeacherClasses(classes, assignments, students, teacherId);
    var i :| 0 <= i < |classes| && classes[i] == c;
    var j :| 0 <= j < |kept| && kept[j] == c;
    assert r[j] == ViewOf(c, students);
  }

  /** `transformedTeachers`: one entry per teacher, in order. */
  function TransformTeachers(teachers: seq<TeacherRow>, classes: seq<ClassRow>, assignments: seq<Assignment>, students: seq<Student>): (r: seq<TeacherView>)
    ensures |r| == |teachers|
    ensures forall i :: 0 <= i < |r| ==> r[i].id == teachers[i].id && r[i].full_name == teachers[i].full_name
    ensures forall i :: 0 <= i < |r| ==> r[i].classes == TeacherClasses(classes, assignments, students, teachers[i].id)
  {
    seq(|teachers|, i requires 0 <= i < |teachers| =>
      TeacherView(teachers[i].id, teachers[i].full_name, TeacherClasses(classes, assignments, students, teachers[i].id)))
  }

  /** The teacher tab after loading: the first teacher when none (or an empty
      id) was selected and there is a teacher; otherwise unchanged. */
  function DefaultTeacher(teachers: seq<TeacherView>, selected: Option<Id>): (r: Option<Id>)
    ensures Truthy(selected) || teachers == [] ==> r == selected
    ensures !Truthy(selected) && teachers != [] ==> r == Some(teachers[0].id)
  {
    if |teachers| > 0 && !Truthy(selected) then Some(teachers[0].id) else selected
  }

  /** The first teacher one of whose classes has the id, if any. */
  function TeacherOfClass(teachers: seq<TeacherView>, classId: Id): (r: Option<nat>)
    ensures r.None? <==> forall i, c :: 0 <= i < |teachers| && c in teachers[i].classes ==> c.id != classId
    ensures r.Some? ==> r.value < |teachers| && exists c :: c in teachers[r.value].classes && c.id == classId
    ensures r.Some? ==> forall i, c :: 0 <= i < r.value && c in teachers[i].classes ==> c.id != classId
    decreases |teachers|
  {
    if teachers == [] then None
    else if exists c :: c in teachers[0].classes && c.id == classId then Some(0)
    else
      var rest := TeacherOfClass(teachers[1..], classId);
      if rest.None? then
        assert forall i, c :: 1 <= i < |teachers| && c in teachers[i].classes ==> c.id != classId by {
          forall i, c | 1 <= i < |teachers| && c in teachers[i].classes ensures c.id != classId {
            assert teachers[1..][i - 1] == teachers[i];
          }
        }
        None
      else
        assert teachers[1..][rest.value] == teachers[rest.value + 1];
        assert forall i, c :: 0 <= i < rest.value + 1 && c in teachers[i].classes ==> c.id != classId by {
          forall i, c | 0 < i < rest.value + 1 && c in teachers[i].classes ensures c.id != classId {
            assert teachers[1..][i - 1] == teachers[i];
          }
        }
        Some(rest.value + 1)
  }

  /** The modal's form: every field may be missing, and `class_id` may hold the
      picker's empty value. */
  datatype StudentForm = StudentForm(id: Option<Id>, full_name: Option<string>, parent_name: Option<string>,
                                     parent_phone: Option<string>, class_id: Option<string>)

  /** The teacher picker when the modal opens: the first teacher teaching the
      student's class; kept as it was when no teacher does; none for a student
      without a class. */
  function ModalTeacher(teachers: seq<TeacherView>, f: StudentForm, previous: Option<Id>): (r: Option<Id>)
    ensures !Truthy(f.class_id) ==> r.None?
    ensures Truthy(f.class_id) && TeacherOfClass(teachers, f.class_id.value).Some? ==>
      r == Some(teachers[TeacherOfClass(teachers, f.class_id.value).value].id)
    ensures Truthy(f.class_id) && TeacherOfClass(teachers, f.class_id.value).None? ==> r == previous
  {
    if !Truthy(f.class_id) then None
    else
      var t := TeacherOfClass(teachers, f.class_id.value);
      if t.Some? then Some(teachers[t.value].id) else previous
  }

  /** `handleTeacherChange`: picking a teacher clears the chosen class. */
  function TeacherChange(f: StudentForm): (g: StudentForm)
    ensures g.class_id == Some("")
    ensures g.id == f.id && g.full_name == f.full_name && g.parent_name == f.parent_name && g.parent_phone == f.parent_phone
  {
    f.(class_id := Some(""))
  }

  /** The row written by `handleSubmit`. */
  datatype SavedStudent = SavedStudent(full_name: Option<string>, parent_name: Option<string>,
                                       parent_phone: Option<string>, class_id: Option<string>)

  /** `value || null`. */
  function OrNull(v: Option<string>): (r: Option<string>)
    ensures r.None? <==> v.None? || v.value == ""
    ensures r.Some? ==> r == v
  {
    if v.Some? && v.value != "" then v else None
  }

  /** `dataToSave`: empty parent fields become null, the empty class choice
      becomes null, the name is passed through. */
  function DataToSave(f: StudentForm): (d: SavedStudent)
    ensures d.full_name == f.full_name
    ensures d.parent_name == OrNull(f.parent_name) && d.parent_phone == OrNull(f.parent_phone)
    ensures d.class_id.None? <==> f.class_id.None? || f.class_id.value == ""
    ensures d.class_id.Some? ==> d.class_id == f.class_id
  {
    SavedStudent(f.full_name, OrNull(f.parent_name), OrNull(f.parent_phone),
                 if f.class_id == Some("") then None else f.class_id)
  }

  /** Changing the teacher and saving without picking a class stores no class. */
  lemma TeacherChangeThenSave(f: StudentForm)
    ensures DataToSave(TeacherChange(f)).class_id.None?
  {
  }

  /** The write `handleSubmit` issues. */
  datatype Write = Update(id: Id, data: SavedStudent) | Insert(data: SavedStudent)

  function SubmitStudent(f: StudentForm): (w: Write)
    ensures w.Update? <==> Truthy(f.id)
    ensures w.Update? ==> w.id == f.id.value
    ensures w.data == DataToSave(f)
  {
    if Truthy(f.id) then Update(f.id.value, DataToSave(f)) else Insert(DataToSave(f))
  }

  /** `handleDelete`: the student id to delete, nothing without one. */
  function DeleteStudent(current: Option<StudentForm>): (r: Option<Id>)
    ensures r.Some? <==> current.Some? && Truthy(current.value.id)
    ensures r.Some? ==> r == current.value.id
  {
    if current.None? then None else DeleteRequest(current.value.id)
  }
}
