/** The dashboard's alert box for administrators and its name-search guard.
    The three backend answers (number of students, number of paid
    subscriptions of the current month, the ids of the month's absent rows)
    are parameters. */
module Dashboard {
  import opened Common
  import opened Tally
  import Text

  datatype AlertKind = Danger | Warning

  /** An alert card: its kind, the figure it shows and the page it links to. */
  datatype Alert = Alert(kind: AlertKind, count: int, route: string)

  const SubscriptionsRoute := "/subscriptions"
  const AttendanceRoute := "/attendance"

  /** `(unpaidCount || 0) - (paidCount || 0)`: students minus paid rows; it can be
      negative or zero, and then no alert is raised. */
  function UnpaidFigure(studentCount: Option<nat>, paidCount: Option<nat>): int {
    (if studentCount.Some? then studentCount.value else 0) - (if paidCount.Some? then paidCount.value else 0)
  }

  /** `Object.values(absenceCounts).filter(c => c >= 3).length`. */
  function HighAbsenceFigure(absentIds: seq<Id>): nat {
    |RepeatAbsentees(absentIds)|
  }

  /** The alert list `fetchAlerts` leaves: the unpaid alert when its figure is
      positive, then the absence alert when rows came back and some student has
      three or more absent rows. */
  function AlertsOf(studentCount: Option<nat>, paidCount: Option<nat>, absentRows: Option<seq<Id>>): seq<Alert> {
    var u := UnpaidFigure(studentCount, paidCount);
    var first := if u > 0 then [Alert(Danger, u, SubscriptionsRoute)] else [];
    var h := if absentRows.Some? then HighAbsenceFigure(absentRows.value) else 0;
    first + (if h > 0 then [Alert(Warning, h, AttendanceRoute)] else [])
  }

  /** The `fetchAlerts` effect. It does not run for a non-administrator (`None`);
      otherwise it pushes the alerts one after the other. */
  method FetchAlerts(isAdmin: bool, studentCount: Option<nat>, paidCount: Option<nat>, absentRows: Option<seq<Id>>)
    returns (alerts: Option<seq<Alert>>)
    ensures !isAdmin ==> alerts == None
    ensures isAdmin ==> alerts == Some(AlertsOf(studentCount, paidCount, absentRows))
  {
    if !isAdmin {
      return None;
    }
    var newAlerts: seq<Alert> := [];
    var unpaid := UnpaidFigure(studentCount, paidCount);
    if unpaid > 0 {
      newAlerts := newAlerts + [Alert(Danger, unpaid, SubscriptionsRoute)];
    }
    ghost var first := newAlerts;
    assert first == if unpaid > 0 then [Alert(Danger, unpaid, SubscriptionsRoute)] else [];
    if absentRows.Some? {
      var absenceCounts := CountRows(absentRows.value);
      assert absenceCounts == Counts(absentRows.value) by {
        forall k | k in Counts(absentRows.value) || k in absenceCounts
          ensures k in absenceCounts && k in Counts(absentRows.value) && absenceCounts[k] == Counts(absentRows.value)[k]
        {
          CountsSpec(absentRows.value, k);
        }
      }
      var highAbsence := |set k | k in absenceCounts && absenceCounts[k] >= RepeatAbsenceThreshold|;
      assert highAbsence == HighAbsenceFigure(absentRows.value);
      if highAbsence > 0 {
        newAlerts := newAlerts + [Alert(Warning, highAbsence, AttendanceRoute)];
      } else {
        assert newAlerts == first + [];
      }
    } else {
      assert newAlerts == first + [];
    }
    return Some(newAlerts);
  }

  /** The unpaid alert is raised iff students outnumber paid rows, with that difference. */
  lemma UnpaidAlertSpec(studentCount: Option<nat>, paidCount: Option<nat>, absentRows: Option<seq<Id>>)
    ensures var a := AlertsOf(studentCount, paidCount, absentRows);
      (exists i :: 0 <= i < |a| && a[i].kind == Danger) <==> UnpaidFigure(studentCount, paidCount) > 0
    ensures var a := AlertsOf(studentCount, paidCount, absentRows);
      forall i :: 0 <= i < |a| && a[i].kind == Danger ==> a[i].count == UnpaidFigure(studentCount, paidCount) && a[i].route == SubscriptionsRoute
  {
    var a := AlertsOf(studentCount, paidCount, absentRows);
    if UnpaidFigure(studentCount, paidCount) > 0 {
      assert a[0].kind == Danger;
    }
  }

  /** A student is flagged iff at least three absent rows carry the id; the
      absence alert is raised iff some student is flagged and it shows how many
      distinct students are. */
  lemma AbsenceAlertSpec(studentCount: Option<nat>, paidCount: Option<nat>, absentIds: seq<Id>)
    ensures var a := AlertsOf(studentCount, paidCount, Some(absentIds));
      (exists i :: 0 <= i < |a| && a[i].kind == Warning) <==> exists k :: Count(absentIds, k) >= RepeatAbsenceThreshold
    ensures var a := AlertsOf(studentCount, paidCount, Some(absentIds));
      forall i :: 0 <= i < |a| && a[i].kind == Warning ==> a[i].count == |RepeatAbsentees(absentIds)| && a[i].route == AttendanceRoute
  {
    var r := RepeatAbsentees(absentIds);
    if exists k :: Count(absentIds, k) >= RepeatAbsenceThreshold {
      var k :| Count(absentIds, k) >= RepeatAbsenceThreshold;
      RepeatAbsenteesSpec(absentIds, k);
      assert k in r;
      var a := AlertsOf(studentCount, paidCount, Some(absentIds));
      assert a[|a| - 1].kind == Warning;
    }
    if |r| > 0 {
      var k :| k in r;
      RepeatAbsenteesSpec(absentIds, k);
    }
  }

  /** Without absence rows there is no absence alert. */
  lemma NoRowsNoAbsenceAlert(studentCount: Option<nat>, paidCount: Option<nat>)
    ensures var a := AlertsOf(studentCount, paidCount, None);
      forall i :: 0 <= i < |a| ==> a[i].kind == Danger
    ensures var a := AlertsOf(studentCount, paidCount, Some([]));
      forall i :: 0 <= i < |a| ==> a[i].kind == Danger
  {
    assert RepeatAbsentees([]) == {};
  }

  /** At most two alerts, and the unpaid (danger) alert comes first. */
  lemma AlertOrder(studentCount: Option<nat>, paidCount: Option<nat>, absentRows: Option<seq<Id>>)
    ensures var a := AlertsOf(studentCount, paidCount, absentRows);
      |a| <= 2 && (|a| == 2 ==> a[0].kind == Danger && a[1].kind == Warning)
  {
  }

  /** The search effect: nothing below two non-blank characters, otherwise the
      rows returned (none for a null answer). */
  function SearchResults<T>(query: string, data: Option<seq<T>>): (r: seq<T>)
    ensures !Text.SearchReady(query) ==> r == []
    ensures Text.SearchReady(query) ==> r == OrEmpty(data)
  {
    if !Text.SearchReady(query) then [] else OrEmpty(data)
  }
}
