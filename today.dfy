/** The teacher's quick attendance page: after a class and a session are
    chosen it lists the class, fills the sheet (the recorded statuses, or
    everyone present), flags the students with three or more absences this
    month, lets the teacher toggle or mark all, and saves one record per
    student. Backend answers are parameters; `ok` is the save's outcome. */
module Today {
  import opened Common
  import opened Tally
  import Months
  import opened Sheet

  datatype TeacherClass = TeacherClass(classId: Id, className: string)

  datatype SheetStats = SheetStats(present: nat, absent: nat, total: nat)

  /** The page's `step`: choosing the class and session, marking the sheet,
      or done after a successful save. */
  datatype Step = Choosing | Marking | Done

  predicate IsFlagged(absentIds: seq<Id>, s: Student) {
    s.id in RepeatAbsentees(absentIds)
  }

  function FlaggedBy(absentIds: seq<Id>): Student -> bool {
    (s: Student) => IsFlagged(absentIds, s)
  }

  function Names(students: seq<Student>): (r: seq<string>)
    ensures |r| == |students| && forall i :: 0 <= i < |r| ==> r[i] == students[i].full_name
  {
    seq(|students|, i requires 0 <= i < |students| => students[i].full_name)
  }

  /** `flaggedNames`: the listed students whose id the absence counts flag, in
      list order. */
  function FlaggedNames(students: seq<Student>, absentIds: seq<Id>): seq<string> {
    Names(Filter(students, FlaggedBy(absentIds)))
  }

  /** The reference rule: three or more absent rows carrying the student's id. */
  function HasThreeAbsences(absentIds: seq<Id>): Student -> bool {
    (s: Student) => Count(absentIds, s.id) >= RepeatAbsenceThreshold
  }

  /** The flagged names are exactly the listed students with three or more
      absent rows, in list order; ids of students not listed never appear. */
  lemma FlaggedNamesSpec(students: seq<Student>, absentIds: seq<Id>)
    ensures FlaggedNames(students, absentIds) == Names(Filter(students, HasThreeAbsences(absentIds)))
  {
    FilterSame(students, FlaggedBy(absentIds), HasThreeAbsences(absentIds), absentIds);
  }

  lemma {:induction false} FilterSame(students: seq<Student>, p: Student -> bool, q: Student -> bool, absentIds: seq<Id>)
    requires p == FlaggedBy(absentIds) && q == HasThreeAbsences(absentIds)
    ensures Filter(students, p) == Filter(students, q)
    decreases |students|
  {
    if students != [] {
      FilterSame(students[..|students| - 1], p, q, absentIds);
      RepeatAbsenteesSpec(absentIds, students[|students| - 1].id);
    }
  }

  /** An absent row of the month as the dashboard reads it. */
  datatype MonthAbsence = MonthAbsence(student_id: Id, class_id: Id, teacher_id: Id)

  function AbsenceId(r: MonthAbsence): Id { r.student_id }

  function OfClassAndTeacher(classId: Id, teacherId: Id): MonthAbsence -> bool {
    (r: MonthAbsence) => r.class_id == classId && r.teacher_id == teacherId
  }

  /** The page reads the month's absent rows of one class and teacher, the
      dashboard all of the month's absent rows, under the same rule: every
      student flagged here is counted by the dashboard. */
  lemma FlaggedCountedByDashboard(monthRows: seq<MonthAbsence>, classId: Id, teacherId: Id, s: Student)
    requires IsFlagged(Ids(Filter(monthRows, OfClassAndTeacher(classId, teacherId)), AbsenceId), s)
    ensures s.id in RepeatAbsentees(Ids(monthRows, AbsenceId))
  {
    RepeatAbsenteesOfFilter(monthRows, AbsenceId, OfClassAndTeacher(classId, teacherId), s.id);
  }

  /** `stats`: marked present, marked absent, and listed students. */
  function StatsOf(students: seq<Student>, attendance: map<Id, AttStatus>): (r: SheetStats)
    ensures r.total == |students|
    ensures r.present + r.absent <= r.total
    ensures r.present == CountIf(students, IsMarked(attendance, Present))
    ensures r.absent == CountIf(students, IsMarked(attendance, Absent))
  {
    var p := CountIf(students, IsMarked(attendance, Present));
    var a := CountIf(students, IsMarked(attendance, Absent));
    MarkedBound(students, attendance);
    SheetStats(p, a, |students|)
  }

  /** `toggle`'s new status: present becomes absent, absent or unmarked becomes present. */
  function Toggled(attendance: map<Id, AttStatus>, id: Id): (s: AttStatus)
    ensures s == Absent <==> (id in attendance && attendance[id] == Present)
  {
    if id in attendance && attendance[id] == Present then Absent else Present
  }

  /** The sheet's save record of a student: unmarked students are saved present. */
  function RecordOf(s: Student, attendance: map<Id, AttStatus>, key: SessionKey): AttendanceRecord {
    AttendanceRecord(s.id, key, if s.id in attendance then attendance[s.id] else Present)
  }

  /** The sheet `loadAttendance` starts from: the recorded statuses when the
      session has rows (and then it is locked), everyone present otherwise. */
  method InitialSheet(students: seq<Student>, existing: Option<seq<SessionRow>>) returns (recorded: bool, m: map<Id, AttStatus>)
    ensures recorded <==> |OrEmpty(existing)| > 0
    ensures recorded ==> m == SheetOf(OrEmpty(existing))
    ensures !recorded ==> m == Uniform(students, Present)
  {
    recorded := existing.Some? && |existing.value| > 0;
    if recorded {
      m := LoadSheet(existing.value);
    } else {
      m := FillAll(students, Present);
    }
  }

  class TodaySheet {
    var teacherId: Option<Id>
    var currentMonthYear: Months.YearMonth
    var currentDay: int
    var selectedClass: Option<TeacherClass>
    var selectedSession: Option<int>
    var students: seq<Student>
    var attendance: map<Id, AttStatus>
    var hasExisting: bool
    var absenteeAlert: seq<string>
    var step: Step

    constructor (teacherId: Option<Id>, today: Months.YearMonth, day: int)
      ensures this.teacherId == teacherId && currentMonthYear == today && currentDay == day
      ensures selectedClass == None && selectedSession == None
      ensures students == [] && attendance == map[] && !hasExisting && absenteeAlert == [] && step == Choosing
    {
      this.teacherId := teacherId;
      currentMonthYear := today;
      currentDay := day;
      selectedClass := None;
      selectedSession := None;
      students := [];
      attendance := map[];
      hasExisting := false;
      absenteeAlert := [];
      step := Choosing;
    }

    /** The done step is only reached by a save, so a finished sheet is
        recorded and read-only. */
    predicate DoneIsRecorded()
      reads this
    {
      step == Done ==> hasExisting
    }

    /** The class and session pickers, shown only in the choosing step. */
    method Choose(cls: TeacherClass, session: int)
      modifies this
      ensures old(step) == Choosing ==> selectedClass == Some(cls) && selectedSession == Some(session)
      ensures old(step) != Choosing ==> selectedClass == old(selectedClass) && selectedSession == old(selectedSession)
      ensures teacherId == old(teacherId) && currentMonthYear == old(currentMonthYear) && currentDay == old(currentDay)
      ensures students == old(students) && attendance == old(attendance) && hasExisting == old(hasExisting)
      ensures absenteeAlert == old(absenteeAlert) && step == old(step)
    {
      if step != Choosing {
        return;
      }
      selectedClass := Some(cls);
      selectedSession := Some(session);
    }

    /** `loadAttendance`: without a teacher nothing happens. Otherwise the sheet
        is the last recorded status per student when the session has rows, and
        everyone present when it has none; the flagged names are refreshed when
        the absence rows came back, and the page moves to the marking step. */
    method LoadAttendance(studs: Option<seq<Student>>, existing: Option<seq<SessionRow>>, absData: Option<seq<Id>>)
      modifies this
      ensures old(teacherId).None? ==> students == old(students) && attendance == old(attendance)
      ensures old(teacherId).None? ==> hasExisting == old(hasExisting) && absenteeAlert == old(absenteeAlert)
      ensures old(teacherId).Some? ==> students == OrEmpty(studs)
      ensures old(teacherId).Some? ==> (hasExisting <==> |OrEmpty(existing)| > 0)
      ensures old(teacherId).Some? && hasExisting ==> attendance == SheetOf(OrEmpty(existing))
      ensures old(teacherId).Some? && !hasExisting ==> attendance == Uniform(students, Present)
      ensures old(teacherId).Some? && absData.Some? ==> absenteeAlert == FlaggedNames(students, absData.value)
      ensures absData.None? ==> absenteeAlert == old(absenteeAlert)
      ensures teacherId == old(teacherId) && currentMonthYear == old(currentMonthYear) && currentDay == old(currentDay)
      ensures old(teacherId).None? ==> step == old(step)
      ensures old(teacherId).Some? ==> step == Marking
      ensures selectedClass == old(selectedClass) && selectedSession == old(selectedSession)
    {
      if teacherId.None? {
        return;
      }
      var studentList := OrEmpty(studs);
      var recorded, m := InitialSheet(studentList, existing);
      students, hasExisting, attendance, step := studentList, recorded, m, Marking;
      if absData.Some? {
        absenteeAlert := FlaggedNames(studentList, absData.value);
      }
    }

    /** The back button of the sheet: the choosing step again with the list
        emptied; the session, the sheet and its lock are kept. */
    method Back()
      modifies this
      ensures old(step) != Choosing ==> step == Choosing && students == []
      ensures old(step) == Choosing ==> step == old(step) && students == old(students)
      ensures teacherId == old(teacherId) && currentMonthYear == old(currentMonthYear) && currentDay == old(currentDay)
      ensures selectedClass == old(selectedClass) && selectedSession == old(selectedSession)
      ensures attendance == old(attendance) && hasExisting == old(hasExisting) && absenteeAlert == old(absenteeAlert)
      ensures DoneIsRecorded()
    {
      if step == Choosing {
        return;
      }
      step := Choosing;
      students := [];
    }

    /** The "another session" button of the done step: the choosing step
        again with no session, no list and no lock; the class is kept. */
    method AnotherSession()
      modifies this
      ensures old(step) == Done ==> step == Choosing && selectedSession == None && students == [] && !hasExisting
      ensures old(step) != Done ==> step == old(step) && selectedSession == old(selectedSession)
      ensures old(step) != Done ==> students == old(students) && hasExisting == old(hasExisting)
      ensures teacherId == old(teacherId) && currentMonthYear == old(currentMonthYear) && currentDay == old(currentDay)
      ensures selectedClass == old(selectedClass) && attendance == old(attendance) && absenteeAlert == old(absenteeAlert)
      ensures old(DoneIsRecorded()) ==> DoneIsRecorded()
    {
      if step != Done {
        return;
      }
      step := Choosing;
      selectedSession := None;
      students := [];
      hasExisting := false;
    }

    /** `toggle`: flips one student, nothing once the session is recorded. */
    method Toggle(id: Id)
      modifies this
      ensures old(hasExisting) ==> attendance == old(attendance)
      ensures !old(hasExisting) ==> attendance == old(attendance)[id := Toggled(old(attendance), id)]
      ensures teacherId == old(teacherId) && currentMonthYear == old(currentMonthYear) && currentDay == old(currentDay)
      ensures selectedClass == old(selectedClass) && selectedSession == old(selectedSession)
      ensures students == old(students) && hasExisting == old(hasExisting)
      ensures absenteeAlert == old(absenteeAlert) && step == old(step)
    {
      if hasExisting {
        return;
      }
      attendance := attendance[id := Toggled(attendance, id)];
    }

    /** `markAll`: every listed student gets the status, nothing once recorded. */
    method MarkAll(status: AttStatus)
      modifies this
      ensures old(hasExisting) ==> attendance == old(attendance)
      ensures !old(hasExisting) ==> attendance == Uniform(students, status)
      ensures teacherId == old(teacherId) && currentMonthYear == old(currentMonthYear) && currentDay == old(currentDay)
      ensures selectedClass == old(selectedClass) && selectedSession == old(selectedSession)
      ensures students == old(students) && hasExisting == old(hasExisting)
      ensures absenteeAlert == old(absenteeAlert) && step == old(step)
    {
      if hasExisting {
        return;
      }
      var m := FillAll(students, status);
      attendance := m;
    }

    /** Whether `handleSave` proceeds: a teacher, a class and a non-zero session,
        and nothing recorded yet. */
    predicate CanSave()
      reads this
    {
      teacherId.Some? && selectedClass.Some? && selectedSession.Some? && selectedSession.value != 0 && !hasExisting
    }

    /** The records `handleSave` sends: one per listed student, in list order. */
    function Records(): (r: seq<AttendanceRecord>)
      requires CanSave()
      reads this
      ensures |r| == |students|
      ensures forall i :: 0 <= i < |r| ==> r[i].student_id == students[i].id
      ensures forall i :: 0 <= i < |r| ==> r[i].key == Key()
      ensures forall i :: 0 <= i < |r| ==> (r[i].status == Absent <==> IsMarked(attendance, Absent)(students[i]))
    {
      var studs, att, key := students, attendance, Key();
      seq(|studs|, i requires 0 <= i < |studs| => RecordOf(studs[i], att, key))
    }

    /** The chosen class, the teacher, today and the chosen session. */
    function Key(): SessionKey
      requires CanSave()
      reads this
    {
      SessionKey(selectedClass.value.classId, teacherId.value, currentMonthYear, currentDay, selectedSession.value)
    }

    /** `handleSave`: refused (`None`) unless `CanSave()`; otherwise sends the
        records, and on success locks the sheet and moves to the done step. */
    method Save(ok: bool) returns (sent: Option<seq<AttendanceRecord>>)
      modifies this
      ensures !old(CanSave()) ==> sent == None && hasExisting == old(hasExisting) && step == old(step)
      ensures old(CanSave()) ==> sent == Some(old(Records()))
      ensures old(CanSave()) && ok ==> hasExisting && step == Done
      ensures old(CanSave()) && !ok ==> hasExisting == old(hasExisting) && step == old(step)
      ensures teacherId == old(teacherId) && currentMonthYear == old(currentMonthYear) && currentDay == old(currentDay)
      ensures selectedClass == old(selectedClass) && selectedSession == old(selectedSession)
      ensures students == old(students) && attendance == old(attendance) && absenteeAlert == old(absenteeAlert)
      ensures old(DoneIsRecorded()) ==> DoneIsRecorded()
    {
      if !CanSave() {
        return None;
      }
      sent := Some(Records());
      if ok {
        hasExisting := true;
        step := Done;
      }
    }

    /** `stats` of the current sheet. */
    function Stats(): SheetStats
      reads this
    {
      StatsOf(students, attendance)
    }
  }
}
