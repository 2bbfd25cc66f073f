/** The finance report page: per-student payment rows for one month with the
    absence count beside them, the collection rate, the per-class paid/unpaid
    rollup sorted by collection rate, the table filters and the month switcher
    over the newest-first list of school months. The four queries of
    `fetchData` are parameters (their `data`, null when a query failed). */
module FinanceReport {
  import opened Common
  import opened Tally
  import Months

  /** `students` joined with `classes(id, name)`; `className` is the joined name. */
  datatype Student = Student(id: Id, full_name: string, class_id: Option<Id>, className: Option<string>)

  /** A `subscriptions` row of the selected month. */
  datatype Subscription = Subscription(student_id: Id, status: PayStatus, paid_at: Option<string>)

  datatype ClassRow = ClassRow(id: Id, name: string)

  /** The value stored in `subsMap`. */
  datatype SubInfo = SubInfo(status: PayStatus, paid_at: Option<string>)

  datatype StudentRow = StudentRow(id: Id, full_name: string, className: string, status: PayStatus,
                                   paid_at: Option<string>, absences: nat)

  datatype ClassStat = ClassStat(classId: Id, className: string, total: nat, paid: nat, unpaid: nat, rate: nat)

  /** The page state `fetchData` sets. */
  datatype Report = Report(students: seq<StudentRow>, totalStudents: nat, paidCount: nat, classStats: seq<ClassStat>)

  /** Shown for a student without a class. */
  const NoClassName := "—"

  /** `x || null` on a nullable string: the empty string becomes null too. */
  function NonEmpty(x: Option<string>): (r: Option<string>)
    ensures r.Some? <==> x.Some? && x.value != ""
    ensures r.Some? ==> r == x
  {
    if x.Some? && x.value != "" then x else None
  }

  /** `s.classes?.name || '—'`. */
  function ClassLabel(name: Option<string>): (r: string)
    ensures r != ""
    ensures name.Some? && name.value != "" ==> r == name.value
    ensures !(name.Some? && name.value != "") ==> r == NoClassName
  {
    if name.Some? && name.value != "" then name.value else NoClassName
  }

  /** The `(key, value)` pairs the `subsMap` loop assigns, in row order. */
  function SubPairs(subs: seq<Subscription>): (r: seq<(Id, SubInfo)>)
    ensures |r| == |subs|
    ensures forall i :: 0 <= i < |subs| ==> r[i] == (subs[i].student_id, SubInfo(subs[i].status, subs[i].paid_at))
  {
    seq(|subs|, i requires 0 <= i < |subs| => (subs[i].student_id, SubInfo(subs[i].status, subs[i].paid_at)))
  }

  /** One table row from the lookups. */
  function RowOf(s: Student, subsMap: map<Id, SubInfo>, absMap: map<Id, nat>): StudentRow {
    StudentRow(s.id, s.full_name, ClassLabel(s.className),
      if s.id in subsMap then subsMap[s.id].status else Unpaid,
      if s.id in subsMap then NonEmpty(subsMap[s.id].paid_at) else None,
      if s.id in absMap then absMap[s.id] else 0)
  }

  /** `studentRows`: one row per fetched student, in order. */
  function StudentRows(studs: seq<Student>, subsMap: map<Id, SubInfo>, absMap: map<Id, nat>): (r: seq<StudentRow>)
    ensures |r| == |studs|
    ensures forall i :: 0 <= i < |studs| ==> r[i] == RowOf(studs[i], subsMap, absMap)
  {
    seq(|studs|, i requires 0 <= i < |studs| => RowOf(studs[i], subsMap, absMap))
  }

  /** The rows for the raw query results: `subsMap` keeps the last row per
      student, `absMap` counts the absent rows. */
  function StudentRowsOf(studs: seq<Student>, subs: seq<Subscription>, absences: seq<Id>): seq<StudentRow> {
    StudentRows(studs, LastWins(SubPairs(subs)), Counts(absences))
  }

  /** Row `i` keeps the student's id and name and labels the class,
      falling back to `—`. */
  lemma StudentRowIdentity(studs: seq<Student>, subs: seq<Subscription>, absences: seq<Id>, i: nat)
    requires i < |studs|
    ensures |StudentRowsOf(studs, subs, absences)| == |studs|
    ensures var r := StudentRowsOf(studs, subs, absences)[i];
      r.id == studs[i].id && r.full_name == studs[i].full_name && r.className == ClassLabel(studs[i].className)
  {
  }

  /** A student without a subscription row for the month is unpaid, `paid_at` null. */
  lemma StudentRowDefaultUnpaid(studs: seq<Student>, subs: seq<Subscription>, absences: seq<Id>, i: nat)
    requires i < |studs|
    requires forall j :: 0 <= j < |subs| ==> subs[j].student_id != studs[i].id
    ensures StudentRowsOf(studs, subs, absences)[i].status == Unpaid
    ensures StudentRowsOf(studs, subs, absences)[i].paid_at == None
  {
    var pairs := SubPairs(subs);
    LastWinsKeys(pairs, studs[i].id);
    assert forall j :: 0 <= j < |pairs| ==> pairs[j].0 == subs[j].student_id;
  }

  /** With several subscription rows for a student, the LAST one decides. */
  lemma StudentRowLastSubscription(studs: seq<Student>, subs: seq<Subscription>, absences: seq<Id>, i: nat, j: nat)
    requires i < |studs| && j < |subs| && subs[j].student_id == studs[i].id
    requires forall k :: j < k < |subs| ==> subs[k].student_id != studs[i].id
    ensures StudentRowsOf(studs, subs, absences)[i].status == subs[j].status
    ensures StudentRowsOf(studs, subs, absences)[i].paid_at == NonEmpty(subs[j].paid_at)
  {
    var pairs := SubPairs(subs);
    assert forall k :: j < k < |pairs| ==> pairs[k].0 != pairs[j].0;
    LastWinsValue(pairs, j);
  }

  /** `absences` is the number of absent rows of the student, 0 when there are none. */
  lemma StudentRowAbsences(studs: seq<Student>, subs: seq<Subscription>, absences: seq<Id>, i: nat)
    requires i < |studs|
    ensures StudentRowsOf(studs, subs, absences)[i].absences == Count(absences, studs[i].id)
  {
    CountsSpec(absences, studs[i].id);
  }

  predicate IsPaid(r: StudentRow) { r.status == Paid }
  predicate IsUnpaid(r: StudentRow) { r.status != Paid }

  /** `paidCount + unpaidCount == totalStudents`, the unpaid card being the unpaid rows. */
  lemma PaidUnpaidSplit(rows: seq<StudentRow>)
    ensures CountIf(rows, IsPaid) + CountIf(rows, IsUnpaid) == |rows|
    ensures CountIf(rows, IsPaid) <= |rows|
  {
    CountIfSplit(rows, IsPaid, IsUnpaid);
  }

  /** `collectionRate`: the paid share rounded to a whole percent, 0 for no students. */
  function CollectionRate(report: Report): (r: nat)
    requires report.paidCount <= report.totalStudents
    ensures r <= 100
    ensures report.totalStudents == 0 ==> r == 0
    ensures report.totalStudents > 0 ==>
      2 * report.totalStudents * r - report.totalStudents <= 200 * report.paidCount < 2 * report.totalStudents * r + report.totalStudents
  {
    Percent(report.paidCount, report.totalStudents)
  }

  /** `unpaidCount = totalStudents - paidCount`. */
  function UnpaidCount(report: Report): int {
    report.totalStudents - report.paidCount
  }

  // ---------------------------------------------------------------- per-class rollup

  /** `(studs || []).find(st => st.id === s.id)?.class_id`: the class of the FIRST student with the id. */
  function ClassIdOf(studs: seq<Student>, id: Id): (r: Option<Id>)
    ensures r.Some? ==> exists k :: 0 <= k < |studs| && studs[k].id == id && studs[k].class_id == r
    ensures (forall k :: 0 <= k < |studs| ==> studs[k].id != id) ==> r.None?
  {
    if studs == [] then None
    else if studs[0].id == id then studs[0].class_id
    else
      var r := ClassIdOf(studs[1..], id);
      assert r.Some? ==> exists k :: 1 <= k < |studs| && studs[k].id == id && studs[k].class_id == r by {
        if r.Some? {
          var k :| 0 <= k < |studs[1..]| && studs[1..][k].id == id && studs[1..][k].class_id == r;
          assert studs[k + 1] == studs[1..][k];
        }
      }
      r
  }

  /** The rollup counts a row for class `c` iff the student's `class_id` is `c`,
      non-empty, and a key of `classMap` (`cid && classMap[cid]`). */
  predicate Counted(studs: seq<Student>, known: set<Id>, id: Id, c: Id) {
    var cid := ClassIdOf(studs, id);
    cid == Some(c) && c != "" && c in known
  }

  function InClass(studs: seq<Student>, known: set<Id>, c: Id): StudentRow -> bool {
    (r: StudentRow) => Counted(studs, known, r.id, c)
  }

  function PaidIn(studs: seq<Student>, known: set<Id>, c: Id): StudentRow -> bool {
    (r: StudentRow) => Counted(studs, known, r.id, c) && r.status == Paid
  }

  function UnpaidIn(studs: seq<Student>, known: set<Id>, c: Id): StudentRow -> bool {
    (r: StudentRow) => Counted(studs, known, r.id, c) && r.status != Paid
  }

  datatype Counter = Counter(total: nat, paid: nat, unpaid: nat)

  /** The counters of class `c` once every row was tallied. */
  function CounterOf(studs: seq<Student>, rows: seq<StudentRow>, known: set<Id>, c: Id): Counter {
    Counter(CountIf(rows, InClass(studs, known, c)), CountIf(rows, PaidIn(studs, known, c)), CountIf(rows, UnpaidIn(studs, known, c)))
  }

  /** The counters `classMap` holds once every row was tallied. */
  function TallyOf(studs: seq<Student>, rows: seq<StudentRow>, known: set<Id>): map<Id, Counter> {
    map c | c in known :: CounterOf(studs, rows, known, c)
  }

  /** Each class's total splits into paid and unpaid. */
  lemma TallyOfSplit(studs: seq<Student>, rows: seq<StudentRow>, known: set<Id>, c: Id)
    requires c in known
    ensures var t := TallyOf(studs, rows, known)[c]; t.total == t.paid + t.unpaid
  {
    CountIfPartition(rows, InClass(studs, known, c), PaidIn(studs, known, c), UnpaidIn(studs, known, c), IsPaid);
  }

  /** A student whose `class_id` is null, empty or not a fetched class counts toward no class. */
  lemma UnassignedCountsNowhere(studs: seq<Student>, rows: seq<StudentRow>, known: set<Id>, i: nat, c: Id)
    requires i < |rows|
    requires ClassIdOf(studs, rows[i].id).None? || ClassIdOf(studs, rows[i].id).value !in known
    ensures !InClass(studs, known, c)(rows[i])
  {
  }

  /** `classMap[cid].total++` and `paid++` or `unpaid++`. */
  function BumpCounter(k: Counter, r: StudentRow): Counter {
    if r.status == Paid then Counter(k.total + 1, k.paid + 1, k.unpaid) else Counter(k.total + 1, k.paid, k.unpaid + 1)
  }

  /** One iteration of the tally loop: the row's class, if counted, gains the row. */
  function Bump(t: map<Id, Counter>, studs: seq<Student>, r: StudentRow): (u: map<Id, Counter>)
    ensures u.Keys == t.Keys
  {
    var cid := ClassIdOf(studs, r.id);
    if cid.Some? && cid.value != "" && cid.value in t then t[cid.value := BumpCounter(t[cid.value], r)] else t
  }

  /** Tallying one more row is one `Bump`. */
  lemma TallyOfSnoc(studs: seq<Student>, rows: seq<StudentRow>, r: StudentRow, known: set<Id>)
    ensures TallyOf(studs, rows + [r], known) == Bump(TallyOf(studs, rows, known), studs, r)
  {
    var t := TallyOf(studs, rows, known);
    var a := TallyOf(studs, rows + [r], known);
    var b := Bump(t, studs, r);
    forall c | c in known ensures a[c] == b[c] {
      CounterOfSnoc(studs, rows, r, known, c);
      BumpAt(t, studs, r, c);
      assert a[c] == CounterOf(studs, rows + [r], known, c);
      assert t[c] == CounterOf(studs, rows, known, c);
    }
    assert a.Keys == b.Keys;
  }

  /** `Bump` changes only the counters of the row's class. */
  lemma BumpAt(t: map<Id, Counter>, studs: seq<Student>, r: StudentRow, c: Id)
    requires c in t
    ensures Bump(t, studs, r)[c] == if ClassIdOf(studs, r.id) == Some(c) && c != "" then BumpCounter(t[c], r) else t[c]
  {
  }

  /** One more row bumps the counters of its own class and no other. */
  lemma CounterOfSnoc(studs: seq<Student>, rows: seq<StudentRow>, r: StudentRow, known: set<Id>, c: Id)
    ensures CounterOf(studs, rows + [r], known, c) ==
      if Counted(studs, known, r.id, c) then BumpCounter(CounterOf(studs, rows, known, c), r) else CounterOf(studs, rows, known, c)
  {
    CountIfSnoc(rows, r, InClass(studs, known, c));
    CountIfSnoc(rows, r, PaidIn(studs, known, c));
    CountIfSnoc(rows, r, UnpaidIn(studs, known, c));
  }

  /** `classMap` after the loop has bumped the rows in order, starting from
      every fetched class at zero. */
  function Tallied(studs: seq<Student>, rows: seq<StudentRow>, known: set<Id>): (t: map<Id, Counter>)
    ensures t.Keys == known
  {
    if rows == [] then map c | c in known :: Counter(0, 0, 0)
    else Bump(Tallied(studs, rows[..|rows| - 1], known), studs, rows[|rows| - 1])
  }

  /** Bumping row by row ends with each class's counts of its rows. */
  lemma {:induction false} TalliedCounts(studs: seq<Student>, rows: seq<StudentRow>, known: set<Id>)
    ensures Tallied(studs, rows, known) == TallyOf(studs, rows, known)
    decreases |rows|
  {
    if rows == [] {
      TallyOfNone(studs, known);
    } else {
      var init, last := rows[..|rows| - 1], rows[|rows| - 1];
      TalliedCounts(studs, init, known);
      assert Tallied(studs, rows, known) == Bump(TallyOf(studs, init, known), studs, last);
      TallyOfSnoc(studs, init, last, known);
      assert rows == init + [last];
    }
  }

  /** Before any row every known class is at zero. */
  lemma TallyOfNone(studs: seq<Student>, known: set<Id>)
    ensures TallyOf(studs, [], known) == map c | c in known :: Counter(0, 0, 0)
  {
  }

  /** The `studentRows.forEach` loop incrementing `classMap[cid]`. */
  method TallyClasses(studs: seq<Student>, rows: seq<StudentRow>, known: set<Id>) returns (t: map<Id, Counter>)
    ensures t == TallyOf(studs, rows, known)
  {
    t := map c | c in known :: Counter(0, 0, 0);
    var i := 0;
    while i < |rows|
      invariant 0 <= i <= |rows|
      invariant t == Tallied(studs, rows[..i], known)
    {
      var r := rows[i];
      ghost var before := t;
      var cid := ClassIdOf(studs, r.id);
      if cid.Some? && cid.value != "" && cid.value in t {
        var k := cid.value;
        var old_k := t[k];
        if r.status == Paid {
          t := t[k := Counter(old_k.total + 1, old_k.paid + 1, old_k.unpaid)];
        } else {
          t := t[k := Counter(old_k.total + 1, old_k.paid, old_k.unpaid + 1)];
        }
      }
      assert t == Bump(before, studs, r);
      assert rows[..i + 1][..i] == rows[..i];
      i := i + 1;
    }
    assert rows[..i] == rows;
    TalliedCounts(studs, rows, known);
  }

  /** `Object.values(classMap)` order: class ids in order of first appearance. */
  function DistinctIds(ids: seq<Id>): (r: seq<Id>)
    ensures forall i, j :: 0 <= i < j < |r| ==> r[i] != r[j]
    ensures forall k :: k in r <==> k in ids
  {
    if ids == [] then []
    else
      var r := DistinctIds(ids[..|ids| - 1]);
      var x := ids[|ids| - 1];
      assert forall k :: k in ids <==> k in ids[..|ids| - 1] || k == x by {
        assert ids == ids[..|ids| - 1] + [x];
      }
      if x in r then r else r + [x]
  }

  function ClassIds(classes: seq<ClassRow>): (r: seq<Id>)
    ensures |r| == |classes| && forall i :: 0 <= i < |classes| ==> r[i] == classes[i].id
  {
    MapSeq(classes, (c: ClassRow) => c.id)
  }

  function NamePairs(classes: seq<ClassRow>): (r: seq<(Id, string)>)
    ensures |r| == |classes| && forall i :: 0 <= i < |classes| ==> r[i] == (classes[i].id, classes[i].name)
  {
    seq(|classes|, i requires 0 <= i < |classes| => (classes[i].id, classes[i].name))
  }

  /** The stat of one class with its rate (`c.rate = c.total > 0 ? round : 0`). */
  function StatOf(c: Id, name: string, k: Counter): (s: ClassStat)
    requires k.total == k.paid + k.unpaid
    ensures s.rate <= 100
  {
    ClassStat(c, name, k.total, k.paid, k.unpaid, Percent(k.paid, k.total))
  }

  predicate HasStudents(s: ClassStat) { s.total > 0 }

  predicate SplitCounters(t: map<Id, Counter>) {
    forall c :: c in t ==> t[c].total == t[c].paid + t[c].unpaid
  }

  /** `Object.values(classMap)` with rates, in key order. */
  function Rollup(order: seq<Id>, names: map<Id, string>, t: map<Id, Counter>): (r: seq<ClassStat>)
    requires forall c :: c in order ==> c in names && c in t
    requires SplitCounters(t)
    ensures |r| == |order|
    ensures forall i :: 0 <= i < |order| ==> r[i] == StatOf(order[i], names[order[i]], t[order[i]])
  {
    seq(|order|, i requires 0 <= i < |order| => StatOf(order[i], names[order[i]], t[order[i]]))
  }

  /** Entry `s` carries its class's name and counters, total = paid + unpaid,
      a positive total and the rounded rate. */
  predicate StatOfClass(s: ClassStat, order: seq<Id>, names: map<Id, string>, t: map<Id, Counter>) {
    && s.classId in order && s.classId in names && s.classId in t
    && s.className == names[s.classId]
    && s.total == t[s.classId].total && s.paid == t[s.classId].paid && s.unpaid == t[s.classId].unpaid
    && s.total == s.paid + s.unpaid && s.total > 0 && s.rate == Percent(s.paid, s.total) && s.rate <= 100
  }

  /** `classStats`: classes with students, stably sorted by rate, highest first.
      Every entry carries its class's counters, total = paid + unpaid, a rate in
      0..100, and every class of `order` with students appears exactly once. */
  function ClassStats(order: seq<Id>, names: map<Id, string>, t: map<Id, Counter>): (r: seq<ClassStat>)
    requires forall c :: c in order ==> c in names && c in t
    requires SplitCounters(t)
    requires forall i, j :: 0 <= i < j < |order| ==> order[i] != order[j]
    ensures SortedByRate(r)
    ensures forall i :: 0 <= i < |r| ==> StatOfClass(r[i], order, names, t)
    ensures forall c :: c in order && t[c].total > 0 ==> exists i :: 0 <= i < |r| && r[i].classId == c
    ensures forall i, j :: 0 <= i < j < |r| ==> r[i].classId != r[j].classId
  {
    var all := Rollup(order, names, t);
    var kept := Filter(all, HasStudents);
    var r := SortByRate(kept);
    ClassStatsFacts(order, names, t, all, kept, r);
    r
  }

  lemma ClassStatsFacts(order: seq<Id>, names: map<Id, string>, t: map<Id, Counter>,
                        all: seq<ClassStat>, kept: seq<ClassStat>, r: seq<ClassStat>)
    requires forall c :: c in order ==> c in names && c in t
    requires SplitCounters(t)
    requires forall i, j :: 0 <= i < j < |order| ==> order[i] != order[j]
    requires all == Rollup(order, names, t) && kept == Filter(all, HasStudents) && r == SortByRate(kept)
    ensures forall i :: 0 <= i < |r| ==> StatOfClass(r[i], order, names, t)
    ensures forall c :: c in order && t[c].total > 0 ==> exists i :: 0 <= i < |r| && r[i].classId == c
    ensures forall i, j :: 0 <= i < j < |r| ==> r[i].classId != r[j].classId
  {
    ClassStatsEntries(order, names, t, all, kept, r);
    ClassStatsComplete(order, names, t, all, kept, r);
    RollupDistinct(order, names, t, all);
    FilterDistinct(all, HasStudents);
    SortDistinct(kept);
  }

  lemma SortedMembers(kept: seq<ClassStat>, r: seq<ClassStat>)
    requires r == SortByRate(kept)
    ensures forall i :: 0 <= i < |r| ==> r[i] in kept
    ensures forall i :: 0 <= i < |kept| ==> kept[i] in r
  {
    forall i | 0 <= i < |r| ensures r[i] in kept {
      assert r[i] in multiset(r);
    }
    forall i | 0 <= i < |kept| ensures kept[i] in r {
      assert kept[i] in multiset(kept);
    }
  }

  lemma ClassStatsEntries(order: seq<Id>, names: map<Id, string>, t: map<Id, Counter>,
                          all: seq<ClassStat>, kept: seq<ClassStat>, r: seq<ClassStat>)
    requires forall c :: c in order ==> c in names && c in t
    requires SplitCounters(t)
    requires all == Rollup(order, names, t) && kept == Filter(all, HasStudents) && r == SortByRate(kept)
    ensures forall i :: 0 <= i < |r| ==> StatOfClass(r[i], order, names, t)
  {
    SortedMembers(kept, r);
    forall i | 0 <= i < |r| ensures StatOfClass(r[i], order, names, t) {
      assert r[i] in kept;
      var k :| 0 <= k < |kept| && kept[k] == r[i];
      assert kept[k] in all && HasStudents(kept[k]);
      var j :| 0 <= j < |all| && all[j] == kept[k];
      assert all[j] == StatOf(order[j], names[order[j]], t[order[j]]);
    }
  }

  lemma ClassStatsComplete(order: seq<Id>, names: map<Id, string>, t: map<Id, Counter>,
                           all: seq<ClassStat>, kept: seq<ClassStat>, r: seq<ClassStat>)
    requires forall c :: c in order ==> c in names && c in t
    requires SplitCounters(t)
    requires all == Rollup(order, names, t) && kept == Filter(all, HasStudents) && r == SortByRate(kept)
    ensures forall c :: c in order && t[c].total > 0 ==> exists i :: 0 <= i < |r| && r[i].classId == c
  {
    SortedMembers(kept, r);
    forall c | c in order && t[c].total > 0 ensures exists i :: 0 <= i < |r| && r[i].classId == c {
      var j :| 0 <= j < |order| && order[j] == c;
      ClassStatsCompleteAt(order, names, t, all, kept, r, j);
    }
  }

  lemma ClassStatsCompleteAt(order: seq<Id>, names: map<Id, string>, t: map<Id, Counter>,
                             all: seq<ClassStat>, kept: seq<ClassStat>, r: seq<ClassStat>, j: nat)
    requires forall c :: c in order ==> c in names && c in t
    requires SplitCounters(t)
    requires all == Rollup(order, names, t) && kept == Filter(all, HasStudents)
    requires forall i :: 0 <= i < |kept| ==> kept[i] in r
    requires j < |order| && t[order[j]].total > 0
    ensures exists i :: 0 <= i < |r| && r[i].classId == order[j]
  {
    assert all[j].classId == order[j] && HasStudents(all[j]);
    assert all[j] in kept;
    var k :| 0 <= k < |kept| && kept[k] == all[j];
    assert kept[k] in r;
    var i :| 0 <= i < |r| && r[i] == all[j];
  }

  predicate DistinctClasses(s: seq<ClassStat>) {
    forall i, j :: 0 <= i < j < |s| ==> s[i].classId != s[j].classId
  }

  lemma RollupDistinct(order: seq<Id>, names: map<Id, string>, t: map<Id, Counter>, all: seq<ClassStat>)
    requires forall c :: c in order ==> c in names && c in t
    requires SplitCounters(t)
    requires forall i, j :: 0 <= i < j < |order| ==> order[i] != order[j]
    requires all == Rollup(order, names, t)
    ensures DistinctClasses(all)
  {
  }

  lemma {:induction false} FilterDistinct(s: seq<ClassStat>, p: ClassStat -> bool)
    requires DistinctClasses(s)
    ensures DistinctClasses(Filter(s, p))
    decreases |s|
  {
    if s != [] {
      var init := s[..|s| - 1];
      FilterDistinct(init, p);
      var x := s[|s| - 1];
      forall i | 0 <= i < |Filter(init, p)| ensures Filter(init, p)[i].classId != x.classId {
        var k :| 0 <= k < |init| && init[k] == Filter(init, p)[i];
      }
    }
  }

  /** Inserting an entry of a new class keeps the class ids distinct. */
  lemma {:induction false} InsertDistinct(x: ClassStat, s: seq<ClassStat>)
    requires DistinctClasses(s)
    requires forall i :: 0 <= i < |s| ==> s[i].classId != x.classId
    ensures DistinctClasses(InsertByRate(x, s))
    decreases |s|
  {
    if s != [] && s[0].rate > x.rate {
      var t := InsertByRate(x, s[1..]);
      InsertDistinct(x, s[1..]);
      InsertByRateMultiset(x, s[1..]);
      forall i | 0 <= i < |t| ensures t[i].classId != s[0].classId {
        assert t[i] in multiset(t);
        if t[i] != x {
          var k :| 0 <= k < |s[1..]| && s[1..][k] == t[i];
          assert s[k + 1] == t[i];
        }
      }
    }
  }

  lemma {:induction false} SortDistinct(s: seq<ClassStat>)
    requires DistinctClasses(s)
    ensures DistinctClasses(SortByRate(s))
    decreases |s|
  {
    if s != [] {
      var t := SortByRate(s[1..]);
      SortDistinct(s[1..]);
      forall i | 0 <= i < |t| ensures t[i].classId != s[0].classId {
        assert t[i] in multiset(s[1..]);
        var k :| 0 <= k < |s[1..]| && s[1..][k] == t[i];
        assert s[k + 1] == t[i];
      }
      InsertDistinct(s[0], t);
    }
  }

  // ---------------------------------------------------------------- sorting by rate

  predicate SortedByRate(s: seq<ClassStat>) {
    forall i, j :: 0 <= i < j < |s| ==> s[i].rate >= s[j].rate
  }

  /** Insert `x` before the first entry whose rate is not above `x`'s. */
  function InsertByRate(x: ClassStat, s: seq<ClassStat>): seq<ClassStat> {
    if s == [] then [x]
    else if s[0].rate <= x.rate then [x] + s
    else [s[0]] + InsertByRate(x, s[1..])
  }

  lemma {:induction false} InsertByRateMultiset(x: ClassStat, s: seq<ClassStat>)
    ensures multiset(InsertByRate(x, s)) == multiset(s) + multiset{x}
    ensures |InsertByRate(x, s)| == |s| + 1
    decreases |s|
  {
    if s != [] && s[0].rate > x.rate {
      InsertByRateMultiset(x, s[1..]);
      assert s == [s[0]] + s[1..];
    }
  }

  lemma {:induction false} InsertByRateSorted(x: ClassStat, s: seq<ClassStat>)
    requires SortedByRate(s)
    ensures SortedByRate(InsertByRate(x, s))
    decreases |s|
  {
    if s != [] && s[0].rate > x.rate {
      var t := InsertByRate(x, s[1..]);
      InsertByRateSorted(x, s[1..]);
      InsertByRateMultiset(x, s[1..]);
      forall k | 0 <= k < |t| ensures t[k].rate <= s[0].rate {
        assert t[k] in multiset(t);
        if t[k] != x {
          var m :| 0 <= m < |s[1..]| && s[1..][m] == t[k];
          assert s[m + 1] == t[k];
        }
      }
    }
  }

  /** `.sort((a, b) => b.rate - a.rate)`: a stable sort, highest rate first. */
  function SortByRate(s: seq<ClassStat>): (r: seq<ClassStat>)
    ensures SortedByRate(r)
    ensures multiset(r) == multiset(s)
    ensures |r| == |s|
  {
    if s == [] then []
    else
      var t := SortByRate(s[1..]);
      SortStep(s, t);
      InsertByRate(s[0], t)
  }

  /** Inserting the head into the sorted tail sorts the whole list. */
  lemma SortStep(s: seq<ClassStat>, t: seq<ClassStat>)
    requires s != [] && SortedByRate(t) && multiset(t) == multiset(s[1..]) && |t| == |s| - 1
    ensures SortedByRate(InsertByRate(s[0], t))
    ensures multiset(InsertByRate(s[0], t)) == multiset(s) && |InsertByRate(s[0], t)| == |s|
  {
    InsertByRateMultiset(s[0], t);
    InsertByRateSorted(s[0], t);
    assert s == [s[0]] + s[1..];
  }

  /** The entries of rate `v`. */
  function RateIs(v: nat): ClassStat -> bool {
    (c: ClassStat) => c.rate == v
  }

  lemma SortedTail(s: seq<ClassStat>)
    requires SortedByRate(s) && s != []
    ensures SortedByRate(s[1..])
  {
    forall i, j | 0 <= i < j < |s| - 1 ensures s[1..][i].rate >= s[1..][j].rate {
      assert s[1..][i] == s[i + 1] && s[1..][j] == s[j + 1];
    }
  }

  /** Inserting into a sorted list keeps the entries of rate `v` in order, with
      `x` first among them. */
  lemma {:induction false} InsertByRateStable(x: ClassStat, s: seq<ClassStat>, v: nat)
    requires SortedByRate(s)
    ensures Filter(InsertByRate(x, s), RateIs(v)) == (if x.rate == v then [x] else []) + Filter(s, RateIs(v))
    decreases |s|
  {
    if s == [] {
      FilterCons(x, [], RateIs(v));
    } else if s[0].rate <= x.rate {
      FilterCons(x, s, RateIs(v));
    } else {
      SortedTail(s);
      InsertByRateStable(x, s[1..], v);
      InsertPastHead(x, s, v);
    }
  }

  /** The step of `InsertByRateStable` past a head of higher rate than `x`. */
  lemma InsertPastHead(x: ClassStat, s: seq<ClassStat>, v: nat)
    requires s != [] && s[0].rate > x.rate
    requires Filter(InsertByRate(x, s[1..]), RateIs(v)) == (if x.rate == v then [x] else []) + Filter(s[1..], RateIs(v))
    ensures Filter(InsertByRate(x, s), RateIs(v)) == (if x.rate == v then [x] else []) + Filter(s, RateIs(v))
  {
    assert InsertByRate(x, s) == [s[0]] + InsertByRate(x, s[1..]);
    assert s == [s[0]] + s[1..];
    FilterConsSwap(s[0], InsertByRate(x, s[1..]), x, s[1..], RateIs(v));
  }

  /** The sort is stable: the classes sharing a rate keep their relative order. */
  lemma {:induction false} SortByRateStable(s: seq<ClassStat>, v: nat)
    ensures Filter(SortByRate(s), RateIs(v)) == Filter(s, RateIs(v))
    decreases |s|
  {
    if s != [] {
      SortByRateStable(s[1..], v);
      InsertByRateStable(s[0], SortByRate(s[1..]), v);
      FilterCons(s[0], s[1..], RateIs(v));
      assert s == [s[0]] + s[1..];
    }
  }

  // ---------------------------------------------------------------- fetchData

  /** The report of the fetched rows, as a function of them. */
  function ReportOf(studs: seq<Student>, subs: seq<Subscription>, classes: seq<ClassRow>, absences: seq<Id>): Report {
    var rows := StudentRowsOf(studs, subs, absences);
    var names := LastWins(NamePairs(classes));
    var known := names.Keys;
    var order := DistinctIds(ClassIds(classes));
    ClassIdsKnown(classes);
    TallySplit(studs, rows, known);
    Report(rows, |rows|, CountIf(rows, IsPaid), ClassStats(order, names, TallyOf(studs, rows, known)))
  }

  lemma ClassIdsKnown(classes: seq<ClassRow>)
    ensures forall c :: c in DistinctIds(ClassIds(classes)) ==> c in LastWins(NamePairs(classes))
  {
    forall c | c in DistinctIds(ClassIds(classes)) ensures c in LastWins(NamePairs(classes)) {
      var i :| 0 <= i < |classes| && ClassIds(classes)[i] == c;
      LastWinsKeys(NamePairs(classes), c);
      assert NamePairs(classes)[i].0 == c;
    }
  }

  lemma TallySplit(studs: seq<Student>, rows: seq<StudentRow>, known: set<Id>)
    ensures SplitCounters(TallyOf(studs, rows, known))
  {
    forall c | c in known ensures TallyOf(studs, rows, known)[c].total == TallyOf(studs, rows, known)[c].paid + TallyOf(studs, rows, known)[c].unpaid {
      TallyOfSplit(studs, rows, known, c);
    }
  }

  /** `fetchData`: build `subsMap` and `absMap`, the rows, then tally the classes. */
  method FetchData(studs: Option<seq<Student>>, subs: Option<seq<Subscription>>,
                   classes: Option<seq<ClassRow>>, absences: Option<seq<Id>>) returns (report: Report)
    ensures report == ReportOf(OrEmpty(studs), OrEmpty(subs), OrEmpty(classes), OrEmpty(absences))
    ensures report.totalStudents == |OrEmpty(studs)| && report.paidCount <= report.totalStudents
  {
    var S, U, C, A := OrEmpty(studs), OrEmpty(subs), OrEmpty(classes), OrEmpty(absences);
    var subsMap := BuildLastWins(SubPairs(U));
    var absMap := CountRows(A);
    assert absMap == Counts(A) by {
      forall k ensures (k in absMap <==> k in Counts(A)) && (k in absMap ==> absMap[k] == Counts(A)[k]) {
        CountsSpec(A, k);
      }
    }
    var rows := StudentRows(S, subsMap, absMap);
    var names := BuildLastWins(NamePairs(C));
    var t := TallyClasses(S, rows, names.Keys);
    ClassIdsKnown(C);
    TallySplit(S, rows, names.Keys);
    var stats := ClassStats(DistinctIds(ClassIds(C)), names, t);
    PaidUnpaidSplit(rows);
    report := Report(rows, |rows|, CountIf(rows, IsPaid), stats);
  }

  /** The report's rows: one row per student, the paid ones counted in `paidCount`. */
  lemma ReportCounts(studs: seq<Student>, subs: seq<Subscription>, classes: seq<ClassRow>, absences: seq<Id>)
    ensures var r := ReportOf(studs, subs, classes, absences);
      && r.totalStudents == |studs| == |r.students|
      && r.paidCount == CountIf(r.students, IsPaid)
      && r.paidCount + CountIf(r.students, IsUnpaid) == r.totalStudents
      && UnpaidCount(r) == CountIf(r.students, IsUnpaid)
  {
    PaidUnpaidSplit(ReportOf(studs, subs, classes, absences).students);
  }

  /** Every class entry counts exactly the students of that class: `paid` rows
      that are paid, `unpaid` the others, `total` both. */
  lemma ReportClassCounts(studs: seq<Student>, subs: seq<Subscription>, classes: seq<ClassRow>, absences: seq<Id>, i: nat)
    requires i < |ReportOf(studs, subs, classes, absences).classStats|
    ensures var r := ReportOf(studs, subs, classes, absences);
      var known := LastWins(NamePairs(classes)).Keys;
      var c := r.classStats[i];
      && c.classId in known
      && c.total == CountIf(r.students, InClass(studs, known, c.classId))
      && c.paid == CountIf(r.students, PaidIn(studs, known, c.classId))
      && c.unpaid == CountIf(r.students, UnpaidIn(studs, known, c.classId))
      && c.total == c.paid + c.unpaid && c.total > 0 && c.rate <= 100
  {
    var names := LastWins(NamePairs(classes));
    var r := ReportOf(studs, subs, classes, absences);
    var c := r.classStats[i];
    ClassIdsKnown(classes);
    assert c.classId in DistinctIds(ClassIds(classes));
  }

  // ---------------------------------------------------------------- table filter

  datatype StatusFilter = AnyStatus | OnlyStatus(status: PayStatus)

  /** Value of the class filter that keeps every class. */
  const AllClasses := "all"

  predicate Shown(s: StudentRow, filterClass: string, filterStatus: StatusFilter) {
    (filterClass == AllClasses || s.className == filterClass)
    && (filterStatus.AnyStatus? || s.status == filterStatus.status)
  }

  function ShownBy(filterClass: string, filterStatus: StatusFilter): StudentRow -> bool {
    (s: StudentRow) => Shown(s, filterClass, filterStatus)
  }

  /** `filteredStudents`: the rows passing both filters, in table order. */
  function FilteredStudents(rows: seq<StudentRow>, filterClass: string, filterStatus: StatusFilter): (r: seq<StudentRow>)
    ensures forall i :: 0 <= i < |r| ==> r[i] in rows && Shown(r[i], filterClass, filterStatus)
    ensures forall i :: 0 <= i < |rows| && Shown(rows[i], filterClass, filterStatus) ==> rows[i] in r
  {
    Filter(rows, ShownBy(filterClass, filterStatus))
  }

  /** With both filters on "all" every row is listed. */
  lemma {:induction false} FilteredAll(rows: seq<StudentRow>)
    ensures FilteredStudents(rows, AllClasses, AnyStatus) == rows
    decreases |rows|
  {
    if rows != [] {
      FilteredAll(rows[..|rows| - 1]);
    }
  }

  // ---------------------------------------------------------------- month switcher

  function Reverse<T>(s: seq<T>): (r: seq<T>)
    ensures |r| == |s| && forall i :: 0 <= i < |s| ==> r[i] == s[|s| - 1 - i]
  {
    seq(|s|, i requires 0 <= i < |s| => s[|s| - 1 - i])
  }

  /** The finance month list, newest first: the school months reversed. Entries are
      months; the page compares their `MonthValue` keys, which is the same as
      comparing the months (`MonthKeysMatch`). */
  function FinanceMonths(): (r: seq<Months.YearMonth>)
    ensures |r| == Months.SchoolMonthCount
  {
    Reverse(Months.SchoolMonths())
  }

  /** Position `i` of the list is `i` months before August 2030. */
  lemma FinanceMonthsNewestFirst(i: nat)
    requires i < Months.SchoolMonthCount
    ensures FinanceMonths()[i] == Months.AddMonths(Months.SchoolEnd, -(i as int))
  {
    var s := Months.SchoolMonths();
    assert Reverse(s)[i] == s[59 - i];
    Months.IndexInjective(s[59 - i], Months.AddMonths(Months.SchoolEnd, -(i as int)));
  }

  /** `buildMonthList`: the `generateMonths` loop, then `.reverse()`. */
  method BuildMonthList() returns (list: seq<Months.YearMonth>)
    ensures list == FinanceMonths()
    ensures list[0] == Months.SchoolEnd && list[|list| - 1] == Months.SchoolStart
  {
    var ascending := Months.GenerateSchoolMonths();
    list := Reverse(ascending);
  }

  /** `list.findIndex(m => m.value === v)`: the first position holding `v`, -1 if none. */
  function FindIndex<T(==)>(list: seq<T>, v: T): (r: int)
    ensures -1 <= r < |list|
    ensures r >= 0 ==> list[r] == v && forall j :: 0 <= j < r ==> list[j] != v
    ensures r == -1 <==> v !in list
  {
    if list == [] then -1
    else if list[0] == v then 0
    else
      var k := FindIndex(list[1..], v);
      assert v in list <==> v in list[1..] by {
        assert list == [list[0]] + list[1..];
      }
      if k < 0 then -1 else k + 1
  }

  /** The `MonthValue` keys of a list of months. */
  function Keys(list: seq<Months.YearMonth>): (r: seq<string>)
    requires forall i :: 0 <= i < |list| ==> Months.Valid(list[i])
    ensures |r| == |list| && forall i :: 0 <= i < |list| ==> r[i] == Months.MonthValue(list[i])
  {
    seq(|list|, i requires 0 <= i < |list| => Months.MonthValue(list[i]))
  }

  /** `FindIndex` only depends on which positions match. */
  lemma {:induction false} FindIndexMatching<A, B>(list: seq<A>, sel: A, keys: seq<B>, key: B)
    requires |keys| == |list|
    requires forall i :: 0 <= i < |list| ==> (keys[i] == key <==> list[i] == sel)
    ensures FindIndex(keys, key) == FindIndex(list, sel)
    decreases |list|
  {
    if list != [] {
      FindIndexMatching(list[1..], sel, keys[1..], key);
    }
  }

  /** Looking a key up among the keys finds the same position as looking the month
      up among the months, because distinct months have distinct keys. */
  lemma MonthKeysMatch(list: seq<Months.YearMonth>, sel: Months.YearMonth)
    requires forall i :: 0 <= i < |list| ==> Months.Valid(list[i])
    requires Months.Valid(sel)
    ensures FindIndex(Keys(list), Months.MonthValue(sel)) == FindIndex(list, sel)
  {
    var keys := Keys(list);
    forall i | 0 <= i < |list| ensures keys[i] == Months.MonthValue(sel) <==> list[i] == sel {
      if keys[i] == Months.MonthValue(sel) {
        Months.MonthValueInjective(list[i], sel);
      }
    }
    FindIndexMatching(list, sel, keys, Months.MonthValue(sel));
  }

  /** `canPrev`: an older month exists below the selected one (also true when the
      selected month is not in the list). */
  function CanPrev<T(==)>(list: seq<T>, selected: T): bool {
    FindIndex(list, selected) < |list| - 1
  }

  /** `canNext`: a newer month exists above the selected one. */
  function CanNext<T(==)>(list: seq<T>, selected: T): bool {
    FindIndex(list, selected) > 0
  }

  /** The previous-month button: `monthList[currentIdx + 1]` when `canPrev`. */
  function PrevMonth<T(==)>(list: seq<T>, selected: T): (r: Option<T>)
    ensures r.Some? <==> CanPrev(list, selected)
    ensures r.Some? ==> r.value == list[FindIndex(list, selected) + 1]
  {
    if CanPrev(list, selected) then Some(list[FindIndex(list, selected) + 1]) else None
  }

  /** The next-month button: `monthList[currentIdx - 1]` when `canNext`. */
  function NextMonth<T(==)>(list: seq<T>, selected: T): (r: Option<T>)
    ensures r.Some? <==> CanNext(list, selected)
    ensures r.Some? ==> r.value == list[FindIndex(list, selected) - 1]
  {
    if CanNext(list, selected) then Some(list[FindIndex(list, selected) - 1]) else None
  }

  /** Selecting position `i` of the list makes `i` the current index. */
  lemma MonthListIndex(i: nat)
    requires i < Months.SchoolMonthCount
    ensures FindIndex(FinanceMonths(), FinanceMonths()[i]) == i
  {
    var k := FindIndex(FinanceMonths(), FinanceMonths()[i]);
    FinanceMonthsNewestFirst(i);
    FinanceMonthsNewestFirst(k);
  }

  /** On the newest-first list, position `i` has a newer month iff `i > 0` and an
      older one iff `i < 59`; "next" moves to the following calendar month and
      "previous" to the preceding one. */
  lemma MonthNavigation(i: nat)
    requires i < Months.SchoolMonthCount
    ensures CanNext(FinanceMonths(), FinanceMonths()[i]) <==> i > 0
    ensures CanPrev(FinanceMonths(), FinanceMonths()[i]) <==> i < Months.SchoolMonthCount - 1
    ensures i > 0 ==>
      NextMonth(FinanceMonths(), FinanceMonths()[i]) == Some(Months.AddMonths(FinanceMonths()[i], 1))
    ensures i < Months.SchoolMonthCount - 1 ==>
      PrevMonth(FinanceMonths(), FinanceMonths()[i]) == Some(Months.AddMonths(FinanceMonths()[i], -1))
  {
    var list := FinanceMonths();
    MonthListIndex(i);
    assert FindIndex(list, list[i]) == i;
    if i > 0 {
      NextIsFollowing(i);
      assert NextMonth(list, list[i]) == Some(list[i - 1]);
    }
    if i < Months.SchoolMonthCount - 1 {
      PrevIsPreceding(i);
      assert PrevMonth(list, list[i]) == Some(list[i + 1]);
    }
  }

  lemma NextIsFollowing(i: nat)
    requires 0 < i < Months.SchoolMonthCount
    ensures FinanceMonths()[i - 1] == Months.AddMonths(FinanceMonths()[i], 1)
  {
    FinanceMonthsNewestFirst(i);
    FinanceMonthsNewestFirst(i - 1);
    Months.IndexInjective(FinanceMonths()[i - 1], Months.AddMonths(FinanceMonths()[i], 1));
  }

  lemma PrevIsPreceding(i: nat)
    requires i + 1 < Months.SchoolMonthCount
    ensures FinanceMonths()[i + 1] == Months.AddMonths(FinanceMonths()[i], -1)
  {
    FinanceMonthsNewestFirst(i);
    FinanceMonthsNewestFirst(i + 1);
    Months.IndexInjective(FinanceMonths()[i + 1], Months.AddMonths(FinanceMonths()[i], -1));
  }

  /** A selected month outside the list (`findIndex` gives -1) disables "next"
      and makes "previous" jump to the newest month. */
  lemma MonthNavigationOffList(selected: Months.YearMonth)
    requires selected !in FinanceMonths()
    ensures NextMonth(FinanceMonths(), selected).None?
    ensures PrevMonth(FinanceMonths(), selected) == Some(Months.SchoolEnd)
  {
    var s := Months.SchoolMonths();
    assert Reverse(s)[0] == s[59];
    Months.IndexInjective(s[59], Months.SchoolEnd);
  }
}
