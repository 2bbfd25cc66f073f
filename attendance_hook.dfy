/** The attendance data hooks: reading one session's sheet, a student's
    history and statistics, and saving a session by deleting its rows and
    inserting the new records. The `attendances` table is a field of row
    values; query answers are parameters. */
module AttendanceHook {
  import opened Common
  import opened Sheet
  import Selection

  /** What a query hook yields: nothing queried, a thrown error, or data. */
  datatype Query<T> = NoQuery | QueryError | Loaded(value: T)

  /** `useAttendance`'s data. */
  datatype SessionData = SessionData(records: seq<SessionRow>, attendanceMap: map<Id, AttStatus>, hasExistingData: bool)

  datatype StudentStats = StudentStats(total: nat, present: nat, absent: nat, rate: nat)

  /** `useAttendance`, at the level of the hook: `enabled: !!params` runs no
      query without parameters; otherwise the rows, the last status per
      student, and whether any row came back. */
  function SessionQuery(params: Option<SessionKey>, answer: Answer<SessionRow>): (q: Query<SessionData>)
    ensures params.None? ==> q == NoQuery
    ensures params.Some? && answer.Failed? ==> q == QueryError
    ensures params.Some? && answer.Rows? ==> q.Loaded?
    ensures q.Loaded? ==> q.value.records == OrEmpty(answer.data) && q.value.attendanceMap == SheetOf(OrEmpty(answer.data))
    ensures q.Loaded? ==> (q.value.hasExistingData <==> OrEmpty(answer.data) != [])
  {
    if params.None? then NoQuery
    else if answer.Failed? then QueryError
    else
      var rows := OrEmpty(answer.data);
      Loaded(SessionData(rows, SheetOf(rows), |rows| > 0))
  }

  /** `useStudentAttendanceHistory`, at the level of its query function:
      `[]` without a student (a missing or empty id). The hook's
      `enabled: !!studentId` then runs no query at all, leaving the data
      undefined; that layer is not modelled here. */
  function HistoryQuery<R>(studentId: Option<Id>, answer: Answer<R>): (q: Query<seq<R>>)
    ensures !Selection.Truthy(studentId) ==> q == Loaded([])
    ensures Selection.Truthy(studentId) && answer.Failed? ==> q == QueryError
    ensures Selection.Truthy(studentId) && answer.Rows? ==> q == Loaded(OrEmpty(answer.data))
  {
    if !Selection.Truthy(studentId) then Loaded([])
    else if answer.Failed? then QueryError
    else Loaded(OrEmpty(answer.data))
  }

  /** The stored status text; only `"present"` counts as present. */
  const PresentText := "present"

  function IsPresentText(): string -> bool {
    (s: string) => s == PresentText
  }

  function IsOtherText(): string -> bool {
    (s: string) => s != PresentText
  }

  /** `useAttendanceStats`: no stats without a student (a missing or empty
      id); otherwise all rows, the present ones, the rest as absent, and the
      rounded present rate. */
  function StatsQuery(studentId: Option<Id>, answer: Answer<string>): (q: Query<Option<StudentStats>>)
    ensures !Selection.Truthy(studentId) ==> q == Loaded(None)
    ensures Selection.Truthy(studentId) && answer.Failed? ==> q == QueryError
    ensures Selection.Truthy(studentId) && answer.Rows? ==> q.Loaded? && q.value.Some?
    ensures Selection.Truthy(studentId) && answer.Rows? ==>
      var s := q.value.value;
      var rows := OrEmpty(answer.data);
      s.total == |rows| && s.present == CountIf(rows, IsPresentText())
    ensures Selection.Truthy(studentId) && answer.Rows? ==>
      var s := q.value.value;
      var rows := OrEmpty(answer.data);
      s.absent == CountIf(rows, IsOtherText()) && s.present + s.absent == s.total
    ensures Selection.Truthy(studentId) && answer.Rows? ==>
      var s := q.value.value;
      s.rate == Percent(s.present, s.total) && s.rate <= 100 && (s.total == 0 ==> s.rate == 0)
  {
    if !Selection.Truthy(studentId) then Loaded(None)
    else if answer.Failed? then QueryError
    else
      var rows := OrEmpty(answer.data);
      var total := |rows|;
      var present := CountIf(rows, IsPresentText());
      CountIfSplit(rows, IsPresentText(), IsOtherText());
      Loaded(Some(StudentStats(total, present, total - present, Percent(present, total))))
  }

  predicate InSession(key: SessionKey, r: AttendanceRecord) {
    r.key == key
  }

  function OfSession(key: SessionKey): AttendanceRecord -> bool {
    (r: AttendanceRecord) => InSession(key, r)
  }

  function NotOfSession(key: SessionKey): AttendanceRecord -> bool {
    (r: AttendanceRecord) => !InSession(key, r)
  }

  class AttendanceTable {
    var rows: seq<AttendanceRecord>

    constructor (rows: seq<AttendanceRecord>)
      ensures this.rows == rows
    {
      this.rows := rows;
    }

    /** `useSaveAttendance`: delete every row of the session, then (when there
        are records) insert them. A failed delete changes nothing; a failed
        insert leaves the session emptied. `ok` reports whether both steps
        succeeded. */
    method Save(records: seq<AttendanceRecord>, params: SessionKey, deleteFails: bool, insertFails: bool)
      returns (ok: bool)
      modifies this
      ensures deleteFails ==> rows == old(rows) && !ok
      ensures !deleteFails && (records == [] || !insertFails) ==>
                rows == Filter(old(rows), NotOfSession(params)) + records && ok
      ensures !deleteFails && records != [] && insertFails ==> rows == Filter(old(rows), NotOfSession(params)) && !ok
    {
      if deleteFails {
        return false;
      }
      rows := Filter(rows, NotOfSession(params));
      if |records| > 0 {
        if insertFails {
          return false;
        }
        rows := rows + records;
      }
      return true;
    }
  }

  /** After a successful save of records of that session, the session's rows
      are exactly the records in order, and every other row is untouched. */
  lemma SaveReplacesSession(old_rows: seq<AttendanceRecord>, records: seq<AttendanceRecord>, params: SessionKey)
    requires forall i :: 0 <= i < |records| ==> records[i].key == params
    ensures Filter(Filter(old_rows, NotOfSession(params)) + records, OfSession(params)) == records
    ensures Filter(Filter(old_rows, NotOfSession(params)) + records, NotOfSession(params)) == Filter(old_rows, NotOfSession(params))
  {
    var kept := Filter(old_rows, NotOfSession(params));
    FilterAppend(kept, records, OfSession(params));
    FilterAppend(kept, records, NotOfSession(params));
    FilterNone(kept, OfSession(params));
    FilterNone(records, NotOfSession(params));
    FilterAll(records, OfSession(params));
    FilterAll(kept, NotOfSession(params));
  }

  /** Saving no records empties the session. */
  lemma SaveNothingEmpties(old_rows: seq<AttendanceRecord>, params: SessionKey)
    ensures Filter(Filter(old_rows, NotOfSession(params)), OfSession(params)) == []
  {
    FilterNone(Filter(old_rows, NotOfSession(params)), OfSession(params));
  }
}
