/** The shared in-memory store of students, teachers and classes with its
    `loading` and `error` flags. Every action first raises `loading` and
    clears `error`, then applies the backend's outcome: on success the list
    changes (add: the new row; update: merge into the rows with that id;
    delete: drop the rows with that id), on failure `error` holds the message
    and the lists stay as they were. */
module SchoolStore {
  import opened Common

  datatype Student = Student(id: Id, full_name: string, parent_name: string, parent_phone: string, class_id: Option<Id>)
  datatype Teacher = Teacher(id: Id, full_name: string, email: Option<string>, phone: Option<string>,
                             specialization: Option<string>, user_id: Option<string>)
  datatype Class = Class(id: Id, name: string, level: Option<string>, capacity: Option<int>)

  /** A `Partial<Student>`: the fields present are written over the row. */
  datatype StudentPatch = StudentPatch(id: Option<Id>, full_name: Option<string>, parent_name: Option<string>,
                                       parent_phone: Option<string>, class_id: Option<Option<Id>>)
  datatype TeacherPatch = TeacherPatch(id: Option<Id>, full_name: Option<string>, email: Option<Option<string>>,
                                       phone: Option<Option<string>>, specialization: Option<Option<string>>,
                                       user_id: Option<Option<string>>)
  datatype ClassPatch = ClassPatch(id: Option<Id>, name: Option<string>, level: Option<Option<string>>,
                                   capacity: Option<Option<int>>)

  /** The backend's answer to one action: the error message, or success with a value. */
  datatype Outcome<T> = Failure(message: string) | Success(value: T)

  function Or<T>(p: Option<T>, d: T): T {
    if p.Some? then p.value else d
  }

  /** `{ ...s, ...patch }`. */
  function MergeStudent(s: Student, p: StudentPatch): Student {
    Student(Or(p.id, s.id), Or(p.full_name, s.full_name), Or(p.parent_name, s.parent_name),
            Or(p.parent_phone, s.parent_phone), Or(p.class_id, s.class_id))
  }

  function MergeTeacher(t: Teacher, p: TeacherPatch): Teacher {
    Teacher(Or(p.id, t.id), Or(p.full_name, t.full_name), Or(p.email, t.email), Or(p.phone, t.phone),
            Or(p.specialization, t.specialization), Or(p.user_id, t.user_id))
  }

  function MergeClass(c: Class, p: ClassPatch): Class {
    Class(Or(p.id, c.id), Or(p.name, c.name), Or(p.level, c.level), Or(p.capacity, c.capacity))
  }

  /** An empty patch changes nothing; a patch without `id` keeps the row's id. */
  lemma MergeLaws(s: Student, t: Teacher, c: Class)
    ensures MergeStudent(s, StudentPatch(None, None, None, None, None)) == s
    ensures MergeTeacher(t, TeacherPatch(None, None, None, None, None, None)) == t
    ensures MergeClass(c, ClassPatch(None, None, None, None)) == c
    ensures forall p: StudentPatch :: p.id.None? ==> MergeStudent(s, p).id == s.id
  {
  }

  /** `xs.map(x => key(x) === id ? merge(x) : x)`. */
  function UpdateWhere<T>(xs: seq<T>, id: Id, key: T -> Id, merge: T -> T): (r: seq<T>)
    ensures |r| == |xs|
    ensures forall i :: 0 <= i < |xs| && key(xs[i]) == id ==> r[i] == merge(xs[i])
    ensures forall i :: 0 <= i < |xs| && key(xs[i]) != id ==> r[i] == xs[i]
  {
    seq(|xs|, i requires 0 <= i < |xs| => if key(xs[i]) == id then merge(xs[i]) else xs[i])
  }

  /** Updating an id that no row has leaves the list as it was. */
  lemma UpdateAbsent<T>(xs: seq<T>, id: Id, key: T -> Id, merge: T -> T)
    requires forall i :: 0 <= i < |xs| ==> key(xs[i]) != id
    ensures UpdateWhere(xs, id, key, merge) == xs
  {
  }

  function KeyIsNot<T>(id: Id, key: T -> Id): T -> bool {
    (x: T) => key(x) != id
  }

  /** `xs.filter(x => key(x) !== id)`. */
  function RemoveWhere<T>(xs: seq<T>, id: Id, key: T -> Id): (r: seq<T>)
    ensures forall i :: 0 <= i < |r| ==> key(r[i]) != id
    ensures forall x :: x in xs && key(x) != id ==> x in r
    ensures forall x :: x in r ==> x in xs
  {
    Filter(xs, KeyIsNot(id, key))
  }

  /** Deleting drops exactly the rows with the id: the others keep their
      order (the result followed by the dropped rows accounts for the list,
      the kept part being an order-preserving filter), and deleting twice is
      deleting once. */
  lemma RemoveWhereLaws<T>(xs: seq<T>, ys: seq<T>, id: Id, key: T -> Id)
    ensures RemoveWhere(xs + ys, id, key) == RemoveWhere(xs, id, key) + RemoveWhere(ys, id, key)
    ensures |RemoveWhere(xs, id, key)| == |xs| - CountIf(xs, (x: T) => key(x) == id)
    ensures RemoveWhere(RemoveWhere(xs, id, key), id, key) == RemoveWhere(xs, id, key)
  {
    FilterAppend(xs, ys, KeyIsNot(id, key));
    CountIfSplit(xs, (x: T) => key(x) == id, KeyIsNot(id, key));
    FilterAll(RemoveWhere(xs, id, key), KeyIsNot(id, key));
  }

  function StudentKey(s: Student): Id { s.id }
  function TeacherKey(t: Teacher): Id { t.id }
  function ClassKey(c: Class): Id { c.id }

  function MergeStudentWith(p: StudentPatch): Student -> Student { (s: Student) => MergeStudent(s, p) }
  function MergeTeacherWith(p: TeacherPatch): Teacher -> Teacher { (t: Teacher) => MergeTeacher(t, p) }
  function MergeClassWith(p: ClassPatch): Class -> Class { (c: Class) => MergeClass(c, p) }

  class Store {
    var students: seq<Student>
    var teachers: seq<Teacher>
    var classes: seq<Class>
    var loading: bool
    var error: Option<string>

    constructor ()
      ensures students == [] && teachers == [] && classes == [] && !loading && error == None
    {
      students := [];
      teachers := [];
      classes := [];
      loading := false;
      error := None;
    }

    /** The first `set` of every action. */
    method Begin()
      modifies this
      ensures loading && error == None
      ensures students == old(students) && teachers == old(teachers) && classes == old(classes)
    {
      loading := true;
      error := None;
    }

    /** The `catch` branch of every action. */
    method Fail(message: string)
      modifies this
      ensures !loading && error == Some(message)
      ensures students == old(students) && teachers == old(teachers) && classes == old(classes)
    {
      error := Some(message);
      loading := false;
    }

    method FetchStudents(outcome: Outcome<Option<seq<Student>>>)
      modifies this
      ensures !loading
      ensures outcome.Success? ==> students == OrEmpty(outcome.value) && error == None
      ensures outcome.Failure? ==> students == old(students) && error == Some(outcome.message)
      ensures teachers == old(teachers) && classes == old(classes)
    {
      Begin();
      if outcome.Failure? {
        Fail(outcome.message);
        return;
      }
      students := OrEmpty(outcome.value);
      loading := false;
    }

    method FetchTeachers(outcome: Outcome<Option<seq<Teacher>>>)
      modifies this
      ensures !loading
      ensures outcome.Success? ==> teachers == OrEmpty(outcome.value) && error == None
      ensures outcome.Failure? ==> teachers == old(teachers) && error == Some(outcome.message)
      ensures students == old(students) && classes == old(classes)
    {
      Begin();
      if outcome.Failure? {
        Fail(outcome.message);
        return;
      }
      teachers := OrEmpty(outcome.value);
      loading := false;
    }

    method FetchClasses(outcome: Outcome<Option<seq<Class>>>)
      modifies this
      ensures !loading
      ensures outcome.Success? ==> classes == OrEmpty(outcome.value) && error == None
      ensures outcome.Failure? ==> classes == old(classes) && error == Some(outcome.message)
      ensures students == old(students) && teachers == old(teachers)
    {
      Begin();
      if outcome.Failure? {
        Fail(outcome.message);
        return;
      }
      classes := OrEmpty(outcome.value);
      loading := false;
    }

    /** `addStudent`: the inserted row goes FIRST. */
    method AddStudent(outcome: Outcome<Student>) returns (r: Option<Student>)
      modifies this
      ensures !loading
      ensures outcome.Success? ==> students == [outcome.value] + old(students) && error == None && r == Some(outcome.value)
      ensures outcome.Failure? ==> students == old(students) && error == Some(outcome.message) && r == None
      ensures teachers == old(teachers) && classes == old(classes)
    {
      Begin();
      if outcome.Failure? {
        Fail(outcome.message);
        return None;
      }
      students := [outcome.value] + students;
      loading := false;
      return Some(outcome.value);
    }

    /** `addTeacher`: the inserted row goes LAST. */
    method AddTeacher(outcome: Outcome<Teacher>) returns (r: Option<Teacher>)
      modifies this
      ensures !loading
      ensures outcome.Success? ==> teachers == old(teachers) + [outcome.value] && error == None && r == Some(outcome.value)
      ensures outcome.Failure? ==> teachers == old(teachers) && error == Some(outcome.message) && r == None
      ensures students == old(students) && classes == old(classes)
    {
      Begin();
      if outcome.Failure? {
        Fail(outcome.message);
        return None;
      }
      teachers := teachers + [outcome.value];
      loading := false;
      return Some(outcome.value);
    }

    /** `addClass`: the inserted row goes LAST. */
    method AddClass(outcome: Outcome<Class>) returns (r: Option<Class>)
      modifies this
      ensures !loading
      ensures outcome.Success? ==> classes == old(classes) + [outcome.value] && error == None && r == Some(outcome.value)
      ensures outcome.Failure? ==> classes == old(classes) && error == Some(outcome.message) && r == None
      ensures students == old(students) && teachers == old(teachers)
    {
      Begin();
      if outcome.Failure? {
        Fail(outcome.message);
        return None;
      }
      classes := classes + [outcome.value];
      loading := false;
      return Some(outcome.value);
    }

    /** `updateStudent`: `failure` is the update's error message, if any. */
    method UpdateStudent(id: Id, patch: StudentPatch, failure: Option<string>) returns (ok: bool)
      modifies this
      ensures !loading && ok == failure.None?
      ensures ok ==> students == UpdateWhere(old(students), id, StudentKey, MergeStudentWith(patch)) && error == None
      ensures !ok ==> students == old(students) && error == failure
      ensures teachers == old(teachers) && classes == old(classes)
    {
      Begin();
      if failure.Some? {
        Fail(failure.value);
        return false;
      }
      students := UpdateWhere(students, id, StudentKey, MergeStudentWith(patch));
      loading := false;
      return true;
    }

    method UpdateTeacher(id: Id, patch: TeacherPatch, failure: Option<string>) returns (ok: bool)
      modifies this
      ensures !loading && ok == failure.None?
      ensures ok ==> teachers == UpdateWhere(old(teachers), id, TeacherKey, MergeTeacherWith(patch)) && error == None
      ensures !ok ==> teachers == old(teachers) && error == failure
      ensures students == old(students) && classes == old(classes)
    {
      Begin();
      if failure.Some? {
        Fail(failure.value);
        return false;
      }
      teachers := UpdateWhere(teachers, id, TeacherKey, MergeTeacherWith(patch));
      loading := false;
      return true;
    }

    method UpdateClass(id: Id, patch: ClassPatch, failure: Option<string>) returns (ok: bool)
      modifies this
      ensures !loading && ok == failure.None?
      ensures ok ==> classes == UpdateWhere(old(classes), id, ClassKey, MergeClassWith(patch)) && error == None
      ensures !ok ==> classes == old(classes) && error == failure
      ensures students == old(students) && teachers == old(teachers)
    {
      Begin();
      if failure.Some? {
        Fail(failure.value);
        return false;
      }
      classes := UpdateWhere(classes, id, ClassKey, MergeClassWith(patch));
      loading := false;
      return true;
    }

    method DeleteStudent(id: Id, failure: Option<string>) returns (ok: bool)
      modifies this
      ensures !loading && ok == failure.None?
      ensures ok ==> students == RemoveWhere(old(students), id, StudentKey) && error == None
      ensures !ok ==> students == old(students) && error == failure
      ensures teachers == old(teachers) && classes == old(classes)
    {
      Begin();
      if failure.Some? {
        Fail(failure.value);
        return false;
      }
      students := RemoveWhere(students, id, StudentKey);
      loading := false;
      return true;
    }

    method DeleteTeacher(id: Id, failure: Option<string>) returns (ok: bool)
      modifies this
      ensures !loading && ok == failure.None?
      ensures ok ==> teachers == RemoveWhere(old(teachers), id, TeacherKey) && error == None
      ensures !ok ==> teachers == old(teachers) && error == failure
      ensures students == old(students) && classes == old(classes)
    {
      Begin();
      if failure.Some? {
        Fail(failure.value);
        return false;
      }
      teachers := RemoveWhere(teachers, id, TeacherKey);
      loading := false;
      return true;
    }

    method DeleteClass(id: Id, failure: Option<string>) returns (ok: bool)
      modifies this
      ensures !loading && ok == failure.None?
      ensures ok ==> classes == RemoveWhere(old(classes), id, ClassKey) && error == None
      ensures !ok ==> classes == old(classes) && error == failure
      ensures students == old(students) && teachers == old(teachers)
    {
      Begin();
      if failure.Some? {
        Fail(failure.value);
        return false;
      }
      classes := RemoveWhere(classes, id, ClassKey);
      loading := false;
      return true;
    }

    /** `clearError`: only `error` changes. */
    method ClearError()
      modifies this
      ensures error == None && loading == old(loading)
      ensures students == old(students) && teachers == old(teachers) && classes == old(classes)
    {
      error := None;
    }
  }
}
