/** The subscriptions page for one month: the paid/unpaid state of every
    student, the eight session marks of the month per student, the payment
    toggle and the name/class filter. Backend answers and the clock are
    parameters. */
module Subscriptions {
  import opened Common
  import opened Tally
  import Months
  import Text

  datatype SubInfo = SubInfo(status: PayStatus, paid_at: Option<string>)

  /** A `subscriptions` row of the month. */
  datatype SubRow = SubRow(student_id: Id, status: PayStatus, paid_at: Option<string>)

  /** An `attendances` row of the month. */
  datatype AttRow = AttRow(student_id: Id, session_number: int, status: AttStatus)

  datatype Student = Student(id: Id, full_name: string, class_id: Option<Id>)

  /** The upserted row of a toggle. */
  datatype Upsert = Upsert(student_id: Id, month: Months.YearMonth, status: PayStatus, paid_at: Option<string>)

  /** The class picker's "every class" value. */
  const AllClasses := "all"

  /** `generateMonths`: the sixty months September 2025 .. August 2030. */
  method GenerateMonths() returns (months: seq<Months.YearMonth>)
    ensures months == Months.SchoolMonths()
    ensures |months| == 60 && months[0] == Months.SchoolStart && months[59] == Months.SchoolEnd
  {
    months := Months.GenerateSchoolMonths();
  }

  function SubPairs(rows: seq<SubRow>): (r: seq<(Id, SubInfo)>)
    ensures |r| == |rows| && forall i :: 0 <= i < |r| ==> r[i] == (rows[i].student_id, SubInfo(rows[i].status, rows[i].paid_at))
  {
    seq(|rows|, i requires 0 <= i < |rows| => (rows[i].student_id, SubInfo(rows[i].status, rows[i].paid_at)))
  }

  /** `subsMap`: the last row per student. */
  function SubsMap(rows: seq<SubRow>): map<Id, SubInfo> {
    LastWins(SubPairs(rows))
  }

  /** A student has an entry iff some row carries the id, and it is the last such row. */
  lemma SubsMapSpec(rows: seq<SubRow>, i: nat)
    requires i < |rows|
    requires forall j :: i < j < |rows| ==> rows[j].student_id != rows[i].student_id
    ensures rows[i].student_id in SubsMap(rows)
    ensures SubsMap(rows)[rows[i].student_id] == SubInfo(rows[i].status, rows[i].paid_at)
  {
    LastWinsValue(SubPairs(rows), i);
  }

  /** `attMap`: per student, per session number, the status of the last row. */
  function SessionMarks(rows: seq<AttRow>): map<Id, map<int, AttStatus>> {
    if rows == [] then map[]
    else
      var m := SessionMarks(rows[..|rows| - 1]);
      var r := rows[|rows| - 1];
      var inner := if r.student_id in m then m[r.student_id] else map[];
      m[r.student_id := inner[r.session_number := r.status]]
  }

  /** Row `i` is the last one for its student and session. */
  predicate LastFor(rows: seq<AttRow>, i: int)
    requires 0 <= i < |rows|
  {
    forall j :: i < j < |rows| ==> !(rows[j].student_id == rows[i].student_id && rows[j].session_number == rows[i].session_number)
  }

  /** The mark of a student's session is the status of the last row for that
      student and session. */
  lemma {:induction false} SessionMarksLast(rows: seq<AttRow>, i: nat)
    requires i < |rows| && LastFor(rows, i)
    ensures rows[i].student_id in SessionMarks(rows)
    ensures rows[i].session_number in SessionMarks(rows)[rows[i].student_id]
    ensures SessionMarks(rows)[rows[i].student_id][rows[i].session_number] == rows[i].status
    decreases |rows|
  {
    if i < |rows| - 1 {
      var init := rows[..|rows| - 1];
      assert LastFor(init, i) by {
        forall j | i < j < |init| ensures !(init[j].student_id == init[i].student_id && init[j].session_number == init[i].session_number) {
          assert init[j] == rows[j];
        }
      }
      SessionMarksLast(init, i);
    }
  }

  /** A student or a session without rows shows no mark. */
  lemma {:induction false} SessionMarksOnlyRows(rows: seq<AttRow>, id: Id, session: int)
    requires id in SessionMarks(rows) && session in SessionMarks(rows)[id]
    ensures exists i :: 0 <= i < |rows| && rows[i].student_id == id && rows[i].session_number == session
    decreases |rows|
  {
    var init := rows[..|rows| - 1];
    var r := rows[|rows| - 1];
    if !(r.student_id == id && r.session_number == session) {
      SessionMarksOnlyRows(init, id, session);
      var i :| 0 <= i < |init| && init[i].student_id == id && init[i].session_number == session;
      assert rows[i] == init[i];
    }
  }

  /** The `forEach` building `attMap`. */
  method BuildSessionMarks(rows: seq<AttRow>) returns (m: map<Id, map<int, AttStatus>>)
    ensures m == SessionMarks(rows)
  {
    m := map[];
    var i := 0;
    while i < |rows|
      invariant 0 <= i <= |rows|
      invariant m == SessionMarks(rows[..i])
    {
      assert rows[..i + 1][..i] == rows[..i];
      var r := rows[i];
      if r.student_id !in m {
        m := m[r.student_id := map[]];
      }
      m := m[r.student_id := m[r.student_id][r.session_number := r.status]];
      i := i + 1;
    }
    assert rows[..i] == rows;
  }

  /** `subscriptions[id] || { status: 'unpaid', paid_at: null }`. */
  function CurrentSub(subs: map<Id, SubInfo>, id: Id): SubInfo {
    if id in subs then subs[id] else SubInfo(Unpaid, None)
  }

  predicate IsPaid(subs: map<Id, SubInfo>, id: Id) {
    CurrentSub(subs, id).status == Paid
  }

  /** The state `togglePayment` writes: paid becomes unpaid without a payment
      time, unpaid or missing becomes paid at `now`. */
  function Toggled(subs: map<Id, SubInfo>, id: Id, now: string): (s: SubInfo)
    ensures IsPaid(subs, id) ==> s == SubInfo(Unpaid, None)
    ensures !IsPaid(subs, id) ==> s == SubInfo(Paid, Some(now))
  {
    if CurrentSub(subs, id).status == Paid then SubInfo(Unpaid, None) else SubInfo(Paid, Some(now))
  }

  /** `filteredStudents`: the name contains the term and the class picker is on
      every class or on the student's class. */
  predicate Listed(s: Student, term: string, selectedClass: string) {
    Text.NameMatches(s.full_name, term) && (selectedClass == AllClasses || s.class_id == Some(selectedClass))
  }

  function FilteredStudents(students: seq<Student>, term: string, selectedClass: string): (r: seq<Student>)
    ensures forall s :: s in r <==> s in students && Listed(s, term, selectedClass)
    ensures |r| <= |students|
  {
    Filter(students, (s: Student) => Listed(s, term, selectedClass))
  }

  /** A student without a class is listed only under "every class". */
  lemma NoClassOnlyUnderAll(s: Student, term: string, selectedClass: string)
    requires s.class_id.None? && Listed(s, term, selectedClass)
    ensures selectedClass == AllClasses
  {
  }

  class SubscriptionsPage {
    var selectedMonth: Months.YearMonth
    var subscriptions: map<Id, SubInfo>
    var attendances: map<Id, map<int, AttStatus>>

    constructor (month: Months.YearMonth)
      ensures selectedMonth == month && subscriptions == map[] && attendances == map[]
    {
      selectedMonth := month;
      subscriptions := map[];
      attendances := map[];
    }

    /** `fetchSubscriptionData` for the selected month. */
    method FetchSubscriptionData(subsData: Option<seq<SubRow>>, attData: Option<seq<AttRow>>)
      modifies this
      ensures subscriptions == SubsMap(OrEmpty(subsData))
      ensures attendances == SessionMarks(OrEmpty(attData))
      ensures selectedMonth == old(selectedMonth)
    {
      var s := BuildLastWins(SubPairs(OrEmpty(subsData)));
      subscriptions := s;
      var a := BuildSessionMarks(OrEmpty(attData));
      attendances := a;
    }

    /** `togglePayment`: sends the toggled row for the selected month; on
        success that student's local entry becomes it, on error nothing changes. */
    method TogglePayment(studentId: Id, now: string, failed: bool) returns (sent: Upsert)
      modifies this
      ensures var t := Toggled(old(subscriptions), studentId, now);
        sent == Upsert(studentId, selectedMonth, t.status, t.paid_at)
      ensures !failed ==> subscriptions == old(subscriptions)[studentId := Toggled(old(subscriptions), studentId, now)]
      ensures failed ==> subscriptions == old(subscriptions)
      ensures selectedMonth == old(selectedMonth) && attendances == old(attendances)
    {
      var currentSub := CurrentSub(subscriptions, studentId);
      var newStatus := if currentSub.status == Paid then Unpaid else Paid;
      var newPaidAt := if newStatus == Paid then Some(now) else None;
      sent := Upsert(studentId, selectedMonth, newStatus, newPaidAt);
      if !failed {
        subscriptions := subscriptions[studentId := SubInfo(newStatus, newPaidAt)];
      }
    }
  }

  /** A successful toggle flips the shown paid state of that student only. */
  lemma ToggleFlips(subs: map<Id, SubInfo>, id: Id, now: string, other: Id)
    ensures IsPaid(subs[id := Toggled(subs, id, now)], id) == !IsPaid(subs, id)
    ensures other != id ==> CurrentSub(subs[id := Toggled(subs, id, now)], other) == CurrentSub(subs, other)
  {
  }

  /** Two successful toggles restore the shown status, a missing entry counting
      as unpaid; an unpaid student comes back without a payment time. */
  lemma ToggleTwice(subs: map<Id, SubInfo>, id: Id, now1: string, now2: string)
    ensures var once := subs[id := Toggled(subs, id, now1)];
      var twice := once[id := Toggled(once, id, now2)];
      IsPaid(twice, id) == IsPaid(subs, id)
      && (!IsPaid(subs, id) ==> twice[id] == SubInfo(Unpaid, None))
  {
  }
}
