/** The evaluations page: the class picker's initial value, each student's
    note history grouped from the newest-first evaluation rows, the
    with/without-notes counts, the name filter, and saving a drafted note.
    Backend answers are parameters. */
module Evaluations {
  import opened Common
  import Text

  datatype Student = Student(id: Id, full_name: string)
  datatype ClassRow = ClassRow(id: Id, name: string)

  /** An `evaluations` row; rows arrive newest first. */
  datatype Evaluation = Evaluation(student_id: Id, note: string, created_at: Option<string>)

  /** The row a save inserts. */
  datatype NoteRow = NoteRow(student_id: Id, teacher_id: Option<Id>, note: string)

  /** `fetchInitialData`: the first class becomes the selection, if any. */
  function InitialClass(classes: seq<ClassRow>): (r: Option<Id>)
    ensures r.None? <==> classes == []
    ensures r.Some? ==> r.value == classes[0].id
  {
    if |classes| > 0 then Some(classes[0].id) else None
  }

  function OfStudent(id: Id): Evaluation -> bool {
    (e: Evaluation) => e.student_id == id
  }

  /** `historyMap`: per student, the rows in fetched order. */
  function History(evals: seq<Evaluation>): map<Id, seq<Evaluation>> {
    if evals == [] then map[]
    else
      var h := History(evals[..|evals| - 1]);
      var e := evals[|evals| - 1];
      h[e.student_id := (if e.student_id in h then h[e.student_id] else []) + [e]]
  }

  /** A student has a history iff some row is theirs, and it is exactly their
      rows in fetched (newest-first) order. */
  lemma {:induction false} HistorySpec(evals: seq<Evaluation>, id: Id)
    ensures id in History(evals) <==> exists i :: 0 <= i < |evals| && evals[i].student_id == id
    ensures id in History(evals) ==> History(evals)[id] == Filter(evals, OfStudent(id))
    decreases |evals|
  {
    if evals != [] {
      var init := evals[..|evals| - 1];
      var e := evals[|evals| - 1];
      HistorySpec(init, id);
      assert forall i :: 0 <= i < |init| ==> init[i] == evals[i];
      if e.student_id == id && id !in History(init) {
        FilterNone(init, OfStudent(id));
      }
    }
  }

  /** The `forEach` building `historyMap`. */
  method BuildHistory(evals: seq<Evaluation>) returns (h: map<Id, seq<Evaluation>>)
    ensures h == History(evals)
  {
    h := map[];
    var i := 0;
    while i < |evals|
      invariant 0 <= i <= |evals|
      invariant h == History(evals[..i])
    {
      assert evals[..i + 1][..i] == evals[..i];
      var ev := evals[i];
      if ev.student_id !in h {
        h := h[ev.student_id := []];
      }
      h := h[ev.student_id := h[ev.student_id] + [ev]];
      i := i + 1;
    }
    assert evals[..i] == evals;
  }

  /** The history after a reload: rebuilt when the class has students, kept as
      it was otherwise. */
  function NextHistory(previous: map<Id, seq<Evaluation>>, students: seq<Student>, evals: seq<Evaluation>): (h: map<Id, seq<Evaluation>>)
    ensures students == [] ==> h == previous
    ensures students != [] ==> forall id :: id in h ==> h[id] == Filter(evals, OfStudent(id))
    ensures students != [] ==> forall id :: id in h <==> exists i :: 0 <= i < |evals| && evals[i].student_id == id
  {
    if students == [] then previous
    else
      var h := History(evals);
      forall id ensures id in h <==> exists i :: 0 <= i < |evals| && evals[i].student_id == id {
        HistorySpec(evals, id);
      }
      forall id | id in h ensures h[id] == Filter(evals, OfStudent(id)) {
        HistorySpec(evals, id);
      }
      h
  }

  predicate HasNotes(history: map<Id, seq<Evaluation>>, s: Student) {
    s.id in history && |history[s.id]| > 0
  }

  function WithNotes(history: map<Id, seq<Evaluation>>): Student -> bool {
    (s: Student) => HasNotes(history, s)
  }

  function WithoutNotes(history: map<Id, seq<Evaluation>>): Student -> bool {
    (s: Student) => !HasNotes(history, s)
  }

  /** The stats strip: students with notes and without add up to the class. */
  lemma NoteCountsAddUp(students: seq<Student>, history: map<Id, seq<Evaluation>>)
    ensures CountIf(students, WithNotes(history)) + CountIf(students, WithoutNotes(history)) == |students|
  {
    CountIfSplit(students, WithNotes(history), WithoutNotes(history));
  }

  /** A student has notes in a rebuilt history iff some fetched row is theirs. */
  lemma HasNotesIffRow(evals: seq<Evaluation>, s: Student)
    ensures HasNotes(History(evals), s) <==> exists i :: 0 <= i < |evals| && evals[i].student_id == s.id
  {
    HistorySpec(evals, s.id);
    if s.id in History(evals) {
      var i :| 0 <= i < |evals| && evals[i].student_id == s.id;
      assert evals[i] in History(evals)[s.id];
    }
  }

  /** The history shown under a student: at most the three newest rows. */
  function ShownHistory(history: map<Id, seq<Evaluation>>, id: Id): (r: seq<Evaluation>)
    ensures |r| <= 3
    ensures id !in history ==> r == []
    ensures id in history ==> |r| == (if |history[id]| < 3 then |history[id]| else 3) && r == history[id][..|r|]
  {
    if id in history then Take(history[id], 3) else []
  }

  /** `filteredStudents`: names containing the search term. */
  function FilteredStudents(students: seq<Student>, term: string): (r: seq<Student>)
    ensures forall s :: s in r <==> s in students && Text.NameMatches(s.full_name, term)
  {
    Filter(students, (s: Student) => Text.NameMatches(s.full_name, term))
  }

  /** `handleSaveNote`'s guard and row: nothing for a missing, empty or blank
      draft; otherwise the trimmed draft with the signed-in teacher, if any. */
  function NoteToSave(notes: map<Id, string>, studentId: Id, teacherId: Option<Id>): (r: Option<NoteRow>)
    ensures r.None? <==> studentId !in notes || Text.AllSpace(notes[studentId])
    ensures r.Some? ==> r.value == NoteRow(studentId, teacherId, Text.Trim(notes[studentId]))
    ensures r.Some? ==> r.value.note != "" && Text.Trim(r.value.note) == r.value.note
  {
    if studentId !in notes || notes[studentId] == "" || Text.Trim(notes[studentId]) == "" then None
    else
      Text.TrimIdempotent(notes[studentId]);
      Some(NoteRow(studentId, teacherId, Text.Trim(notes[studentId])))
  }

  /** The drafts after a save: on success only that student's draft is
      cleared; nothing changes when nothing was sent or the insert failed. */
  function DraftsAfterSave(notes: map<Id, string>, studentId: Id, teacherId: Option<Id>, failed: bool): (r: map<Id, string>)
    ensures NoteToSave(notes, studentId, teacherId).None? || failed ==> r == notes
    ensures NoteToSave(notes, studentId, teacherId).Some? && !failed ==> r.Keys == notes.Keys && r[studentId] == ""
    ensures forall id :: id in notes && id != studentId ==> id in r && r[id] == notes[id]
  {
    if NoteToSave(notes, studentId, teacherId).None? || failed then notes
    else notes[studentId := ""]
  }

  /** A cleared draft cannot be saved again. */
  lemma ClearedDraftNotSaved(notes: map<Id, string>, studentId: Id, teacherId: Option<Id>)
    requires NoteToSave(notes, studentId, teacherId).Some?
    ensures NoteToSave(DraftsAfterSave(notes, studentId, teacherId, false), studentId, teacherId).None?
  {
  }
}
