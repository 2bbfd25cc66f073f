/** The attendance sheet shared by the quick-entry page, the attendance page
    and the attendance hook: a status per student id, filled for a class list
    or read back from a session's rows. */
module Sheet {
  import opened Common
  import opened Tally
  import Months

  datatype Student = Student(id: Id, full_name: string)

  /** An `attendances` row as read back for the session. */
  datatype SessionRow = SessionRow(student_id: Id, status: AttStatus)

  /** The session an attendance row belongs to: class, teacher, month, day and
      session number. */
  datatype SessionKey = SessionKey(classId: Id, teacherId: Id, month: Months.YearMonth, day: int, session: int)

  /** An `attendances` record as written. */
  datatype AttendanceRecord = AttendanceRecord(student_id: Id, key: SessionKey, status: AttStatus)

  function StudentIds(students: seq<Student>): (r: seq<Id>)
    ensures |r| == |students| && forall i :: 0 <= i < |r| ==> r[i] == students[i].id
  {
    MapSeq(students, (s: Student) => s.id)
  }

  /** The sheet giving every listed student the same status. */
  function Uniform(students: seq<Student>, status: AttStatus): map<Id, AttStatus> {
    map k | k in StudentIds(students) :: status
  }

  /** The `forEach` filling one status for every listed student. */
  method FillAll(students: seq<Student>, status: AttStatus) returns (m: map<Id, AttStatus>)
    ensures m == Uniform(students, status)
    ensures forall k :: k in m <==> exists i :: 0 <= i < |students| && students[i].id == k
  {
    m := map[];
    var i := 0;
    while i < |students|
      invariant 0 <= i <= |students|
      invariant m == Uniform(students[..i], status)
    {
      assert StudentIds(students[..i + 1]) == StudentIds(students[..i]) + [students[i].id];
      m := m[students[i].id := status];
      i := i + 1;
    }
    assert students[..i] == students;
  }

  /** The existing-rows map: the last status per student. */
  function SessionPairs(rows: seq<SessionRow>): (r: seq<(Id, AttStatus)>)
    ensures |r| == |rows| && forall i :: 0 <= i < |r| ==> r[i] == (rows[i].student_id, rows[i].status)
  {
    seq(|rows|, i requires 0 <= i < |rows| => (rows[i].student_id, rows[i].status))
  }

  function IsMarked(attendance: map<Id, AttStatus>, status: AttStatus): Student -> bool {
    (s: Student) => s.id in attendance && attendance[s.id] == status
  }

  lemma {:induction false} MarkedBound(students: seq<Student>, attendance: map<Id, AttStatus>)
    ensures CountIf(students, IsMarked(attendance, Present)) + CountIf(students, IsMarked(attendance, Absent)) <= |students|
    decreases |students|
  {
    if students != [] {
      MarkedBound(students[..|students| - 1], attendance);
    }
  }


  /** The map read back from a session's rows (`map[r.student_id] = r.status`). */
  function SheetOf(rows: seq<SessionRow>): map<Id, AttStatus> {
    LastWins(SessionPairs(rows))
  }

  /** The loaded sheet has exactly the ids of the rows, each with the status of
      its last row. */
  lemma SheetOfSpec(rows: seq<SessionRow>, i: nat)
    requires i < |rows|
    requires forall j :: i < j < |rows| ==> rows[j].student_id != rows[i].student_id
    ensures rows[i].student_id in SheetOf(rows) && SheetOf(rows)[rows[i].student_id] == rows[i].status
  {
    LastWinsValue(SessionPairs(rows), i);
  }

  lemma SheetOfKeys(rows: seq<SessionRow>, k: Id)
    ensures k in SheetOf(rows) <==> exists i :: 0 <= i < |rows| && rows[i].student_id == k
  {
    LastWinsKeys(SessionPairs(rows), k);
    if exists i :: 0 <= i < |SessionPairs(rows)| && SessionPairs(rows)[i].0 == k {
      var i :| 0 <= i < |SessionPairs(rows)| && SessionPairs(rows)[i].0 == k;
      assert rows[i].student_id == k;
    }
  }

  /** The `forEach` over the session's rows. */
  method LoadSheet(rows: seq<SessionRow>) returns (m: map<Id, AttStatus>)
    ensures m == SheetOf(rows)
  {
    m := BuildLastWins(SessionPairs(rows));
  }

  /** After filling the sheet with one status, every listed student carries it
      and none carries the other. */
  lemma UniformCounts(students: seq<Student>, status: AttStatus, other: AttStatus)
    requires other != status
    ensures CountIf(students, IsMarked(Uniform(students, status), status)) == |students|
    ensures CountIf(students, IsMarked(Uniform(students, status), other)) == 0
  {
    var m := Uniform(students, status);
    forall k | 0 <= k < |students| ensures students[k].id in m {
      assert StudentIds(students)[k] == students[k].id;
    }
    CountIfAll(students, IsMarked(m, status));
    CountIfNone(students, IsMarked(m, other));
  }
}
