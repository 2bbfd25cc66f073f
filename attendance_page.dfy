/** The attendance page: once teacher, class, month, day and session are
    chosen it loads the class list and the session's recorded statuses, lets
    the user set one student or mark everyone, saves one record per sheet
    entry, and shows live counts. Backend answers are parameters. */
module AttendancePage {
  import opened Common
  import Months
  import Text
  import opened Sheet

  /** The error banner. */
  datatype PageError = StudentsUnavailable | AttendanceUnavailable | SaveFailed(message: string)

  /** `attendanceStats`. */
  datatype PageStats = PageStats(present: nat, absent: nat, unmarked: nat, rate: nat, total: nat)

  /** `generateMonths`: the sixty months September 2025 .. August 2030. */
  method GenerateMonths() returns (months: seq<Months.YearMonth>)
    ensures months == Months.SchoolMonths()
    ensures |months| == 60 && months[0] == Months.SchoolStart && months[59] == Months.SchoolEnd
  {
    months := Months.GenerateSchoolMonths();
  }

  /** `recordsToUpsert`: one record per sheet entry, all for the chosen session. */
  function RecordsFor(attendance: map<Id, AttStatus>, key: SessionKey): set<AttendanceRecord> {
    set k | k in attendance :: AttendanceRecord(k, key, attendance[k])
  }

  /** A record is sent iff it carries the chosen session and a sheet entry; the
      records' student ids are exactly the sheet's ids, one record each; an
      empty sheet sends nothing. */
  lemma RecordsForSpec(attendance: map<Id, AttStatus>, key: SessionKey)
    ensures forall r :: r in RecordsFor(attendance, key) <==>
      r.key == key && r.student_id in attendance && r.status == attendance[r.student_id]
    ensures (set r | r in RecordsFor(attendance, key) :: r.student_id) == attendance.Keys
    ensures forall r, q :: r in RecordsFor(attendance, key) && q in RecordsFor(attendance, key) && r.student_id == q.student_id ==> r == q
    ensures RecordsFor(attendance, key) == {} <==> attendance == map[]
  {
    var recs := RecordsFor(attendance, key);
    forall k | k in attendance ensures k in (set r | r in recs :: r.student_id) {
      assert AttendanceRecord(k, key, attendance[k]) in recs;
    }
    if attendance != map[] {
      var k :| k in attendance;
      assert AttendanceRecord(k, key, attendance[k]) in recs;
    }
  }

  predicate ShownFor(term: string, s: Student) {
    Text.NameMatches(s.full_name, term)
  }

  /** `filteredStudents`: the listed students whose name contains the term,
      ignoring ASCII case, in list order. */
  function FilteredStudents(students: seq<Student>, term: string): (r: seq<Student>)
    ensures forall s :: s in r <==> s in students && ShownFor(term, s)
    ensures term == "" ==> r == students
  {
    var r := Filter(students, (s: Student) => ShownFor(term, s));
    if term == "" then
      FilterEverything(students, term);
      r
    else r
  }

  lemma {:induction false} FilterEverything(students: seq<Student>, term: string)
    requires term == ""
    ensures Filter(students, (s: Student) => ShownFor(term, s)) == students
    decreases |students|
  {
    if students != [] {
      FilterEverything(students[..|students| - 1], term);
      Text.EmptyTermMatches(students[|students| - 1].full_name);
    }
  }

  /** `attendanceStats`: none for an empty class; otherwise the marked counts,
      the unmarked rest, and the present rate over all listed students. */
  function StatsOf(students: seq<Student>, attendance: map<Id, AttStatus>): (r: Option<PageStats>)
    ensures r.None? <==> students == []
    ensures r.Some? ==> r.value.total == |students|
    ensures r.Some? ==> r.value.present == CountIf(students, IsMarked(attendance, Present))
    ensures r.Some? ==> r.value.absent == CountIf(students, IsMarked(attendance, Absent))
    ensures r.Some? ==> r.value.present + r.value.absent + r.value.unmarked == r.value.total
    ensures r.Some? ==> r.value.rate == Percent(r.value.present, r.value.total) && r.value.rate <= 100
  {
    if students == [] then None
    else
      var p := CountIf(students, IsMarked(attendance, Present));
      var a := CountIf(students, IsMarked(attendance, Absent));
      MarkedBound(students, attendance);
      Some(PageStats(p, a, |students| - p - a, Percent(p, |students|), |students|))
  }

  /** Marking everyone present shows a full class at a 100% rate and nobody unmarked. */
  lemma MarkAllPresentStats(students: seq<Student>)
    requires students != []
    ensures var r := StatsOf(students, Uniform(students, Present));
      r.Some? && r.value.present == |students| && r.value.absent == 0 && r.value.unmarked == 0 && r.value.rate == 100
  {
    UniformCounts(students, Present, Absent);
    PercentFull(|students|);
  }

  class AttendancePage {
    /** The complete selection, once all five pickers are set. */
    var key: Option<SessionKey>
    var students: seq<Student>
    var attendance: map<Id, AttStatus>
    var hasExistingData: bool
    var error: Option<PageError>
    /** The success banner. */
    var success: bool

    constructor ()
      ensures key == None && students == [] && attendance == map[] && !hasExistingData && error == None && !success
    {
      key := None;
      students := [];
      attendance := map[];
      hasExistingData := false;
      error := None;
      success := false;
    }

    /** `fetchStudentsAndAttendance` for a complete selection. A failed student
        query leaves an empty list and no sheet; a failed attendance query leaves
        the list and an empty sheet; otherwise the sheet is the last status per
        returned row and it counts as existing iff some row came back. */
    method Load(k: SessionKey, studentsAnswer: Answer<Student>, attendanceAnswer: Answer<SessionRow>)
      modifies this
      ensures key == Some(k) && success == old(success)
      ensures studentsAnswer.Failed? ==> error == Some(StudentsUnavailable) && students == [] && attendance == map[] && !hasExistingData
      ensures studentsAnswer.Rows? ==> students == OrEmpty(studentsAnswer.data)
      ensures studentsAnswer.Rows? && attendanceAnswer.Failed? ==>
                error == Some(AttendanceUnavailable) && attendance == map[] && !hasExistingData
      ensures studentsAnswer.Rows? && attendanceAnswer.Rows? ==>
                error == None && attendance == SheetOf(OrEmpty(attendanceAnswer.data))
                && (hasExistingData <==> |OrEmpty(attendanceAnswer.data)| > 0)
    {
      key := Some(k);
      error := None;
      attendance := map[];
      hasExistingData := false;
      if studentsAnswer.Failed? {
        error := Some(StudentsUnavailable);
        students := [];
      } else {
        students := OrEmpty(studentsAnswer.data);
        if attendanceAnswer.Failed? {
          error := Some(AttendanceUnavailable);
          attendance := map[];
          hasExistingData := false;
        } else {
          var rows := OrEmpty(attendanceAnswer.data);
          hasExistingData := |rows| > 0;
          var m := LoadSheet(rows);
          attendance := m;
        }
      }
    }

    /** `handleStatusChange`: that student's entry only. */
    method SetStatus(studentId: Id, status: AttStatus)
      modifies this
      ensures attendance == old(attendance)[studentId := status]
      ensures key == old(key) && students == old(students) && hasExistingData == old(hasExistingData)
      ensures error == old(error) && success == old(success)
    {
      attendance := attendance[studentId := status];
    }

    /** `markAll`: a fresh sheet of exactly the listed students, all with the status. */
    method MarkAll(status: AttStatus)
      modifies this
      ensures attendance == Uniform(students, status)
      ensures forall k :: k in attendance <==> exists i :: 0 <= i < |students| && students[i].id == k
      ensures key == old(key) && students == old(students) && hasExistingData == old(hasExistingData)
      ensures error == old(error) && success == old(success)
    {
      var m := FillAll(students, status);
      attendance := m;
    }

    /** `handleSave`, reachable once the selection is complete and while the
        session has no recorded rows (the button is disabled otherwise). Sends
        the sheet's records; an empty sheet sends nothing and changes nothing
        but the cleared banners. `saveError` is the upsert's outcome. */
    method Save(saveError: Option<string>) returns (sent: set<AttendanceRecord>)
      modifies this
      ensures old(key).None? || old(hasExistingData) ==> sent == {} && error == old(error) && success == old(success)
      ensures old(key).Some? && !old(hasExistingData) ==> sent == RecordsFor(old(attendance), old(key).value)
      ensures old(key).Some? && !old(hasExistingData) && sent == {} ==> error == None && !success
      ensures old(key).Some? && !old(hasExistingData) && sent != {} && saveError.Some? ==>
                error == Some(SaveFailed(saveError.value)) && !success
      ensures old(key).Some? && !old(hasExistingData) && sent != {} && saveError.None? ==> error == None && success
      ensures key == old(key) && students == old(students) && attendance == old(attendance)
      ensures hasExistingData == old(hasExistingData)
    {
      if key.None? || hasExistingData {
        return {};
      }
      error := None;
      success := false;
      sent := RecordsFor(attendance, key.value);
      if sent == {} {
        return;
      }
      if saveError.Some? {
        error := Some(SaveFailed(saveError.value));
      } else {
        success := true;
      }
    }
  }
}
