/** The reworked student list: the search/class filter, the grouping of the
    kept students by class name (the accumulator of a `reduce`, here a loop
    over the key list in creation order and a map of groups), the order in
    which `Object.entries` lists the groups, and the validation gate of the
    submit handler. */
module StudentsImproved {
  import opened Common
  import Text
  import Months

  /** A student row with its joined class, when it has one. */
  datatype Student = Student(id: Id, full_name: string, parent_name: Option<string>, parent_phone: Option<string>,
                             class_id: Option<Id>, class_name: Option<string>)

  const AllClasses := "all"
  /** The group of students without a class name. */
  const NoClassLabel := "بدون صف"

  /** The name or the parent's name contains the term, and the class picker is
      on every class or on the student's class. */
  predicate Kept(s: Student, term: string, selectedClassId: string) {
    (Text.NameMatches(s.full_name, term) || (s.parent_name.Some? && Text.NameMatches(s.parent_name.value, term)))
    && (selectedClassId == AllClasses || s.class_id == Some(selectedClassId))
  }

  function KeptBy(term: string, selectedClassId: string): Student -> bool {
    (s: Student) => Kept(s, term, selectedClassId)
  }

  /** `filteredStudents`. */
  function FilteredStudents(students: seq<Student>, term: string, selectedClassId: string): (r: seq<Student>)
    ensures forall s :: s in r <==> s in students && Kept(s, term, selectedClassId)
    ensures |r| <= |students|
  {
    Filter(students, KeptBy(term, selectedClassId))
  }

  /** `student.classes?.name || 'بدون صف'`. */
  function GroupName(s: Student): (n: string)
    ensures n != ""
  {
    if s.class_name.Some? && s.class_name.value != "" then s.class_name.value else NoClassLabel
  }

  function InGroup(name: string): Student -> bool {
    (s: Student) => GroupName(s) == name
  }

  /** The group of a name: the students carrying it, in list order. */
  function GroupOf(students: seq<Student>, name: string): seq<Student> {
    Filter(students, InGroup(name))
  }

  /** The group names in the order the accumulator creates them (first
      sight), each once. */
  function Names(students: seq<Student>): (r: seq<string>)
    ensures forall i, j :: 0 <= i < j < |r| ==> r[i] != r[j]
  {
    if students == [] then []
    else
      var init := Names(students[..|students| - 1]);
      var n := GroupName(students[|students| - 1]);
      if n in init then init else init + [n]
  }

  /** A name is a key iff some student carries it. */
  lemma {:induction false} NamesSpec(students: seq<Student>, name: string)
    ensures name in Names(students) <==> exists i :: 0 <= i < |students| && GroupName(students[i]) == name
    decreases |students|
  {
    if students != [] {
      var init := students[..|students| - 1];
      NamesSpec(init, name);
      if exists i :: 0 <= i < |init| && GroupName(init[i]) == name {
        var i :| 0 <= i < |init| && GroupName(init[i]) == name;
        assert students[i] == init[i];
      }
      if exists i :: 0 <= i < |students| && GroupName(students[i]) == name {
        var i :| 0 <= i < |students| && GroupName(students[i]) == name;
        if i < |init| {
          assert init[i] == students[i];
        }
      }
    }
  }

  /** A name no student carries has an empty group. */
  lemma {:induction false} AbsentNameEmpty(students: seq<Student>, name: string)
    requires name !in Names(students)
    ensures GroupOf(students, name) == []
  {
    NamesSpec(students, name);
    FilterNone(students, InGroup(name));
  }

  /** The `reduce` accumulator after the students so far: each student pushed
      onto the group of its name, the group created on first sight. */
  function Grouped(students: seq<Student>): map<string, seq<Student>> {
    if students == [] then map[]
    else
      var g := Grouped(students[..|students| - 1]);
      var s := students[|students| - 1];
      g[GroupName(s) := (if GroupName(s) in g then g[GroupName(s)] else []) + [s]]
  }

  /** The accumulator holds a group for exactly the names some student carries,
      and each group is that name's students in list order. */
  lemma {:induction false} GroupedSpec(students: seq<Student>, k: string)
    ensures k in Grouped(students) <==> k in Names(students)
    ensures k in Grouped(students) ==> Grouped(students)[k] == GroupOf(students, k)
    decreases |students|
  {
    if students != [] {
      var init, s := students[..|students| - 1], students[|students| - 1];
      assert students == init + [s];
      GroupedSpec(init, k);
      GroupOfSnoc(init, s, k);
      if k == GroupName(s) && k !in Grouped(init) {
        AbsentNameEmpty(init, k);
      }
    }
  }

  /** `studentsByClass`: groups keyed by class name, created on first sight,
      every student pushed onto its group. `keys` is the order in which
      `Object.entries` lists the object's groups: the class names that are
      array indices first, ascending, then the others in creation order. */
  method GroupByClass(students: seq<Student>) returns (keys: seq<string>, groups: map<string, seq<Student>>)
    ensures keys == OwnKeys(Names(students))
    ensures forall k :: k in groups <==> k in keys
    ensures forall k :: k in groups ==> groups[k] == GroupOf(students, k)
  {
    var created := [];
    groups := map[];
    var i := 0;
    while i < |students|
      invariant 0 <= i <= |students|
      invariant created == Names(students[..i]) && groups == Grouped(students[..i])
    {
      var s := students[i];
      var name := GroupName(s);
      GroupedSpec(students[..i], name);
      assert students[..i + 1][..i] == students[..i];
      if name !in groups {
        created := created + [name];
        groups := groups[name := []];
      }
      groups := groups[name := groups[name] + [s]];
      i := i + 1;
    }
    assert students[..i] == students;
    keys := OwnKeys(created);
    forall k ensures (k in groups <==> k in keys) && (k in groups ==> groups[k] == GroupOf(students, k)) {
      GroupedSpec(students, k);
      assert k in keys <==> k in multiset(keys);
    }
  }

  /** An array index of ECMAScript: a decimal numeral without leading zeros
      (`"0"` itself excepted) whose value is below 2^32 - 1. */
  predicate IsArrayIndex(k: string) {
    |k| >= 1 && (forall i :: 0 <= i < |k| ==> '0' <= k[i] <= '9')
    && (k[0] == '0' ==> |k| == 1)
    && Months.ParseDigits(k) < 0xFFFF_FFFF
  }

  predicate IsNamedKey(k: string) {
    !IsArrayIndex(k)
  }

  /** The numeric value of an array-index key (0 for any other key). */
  function IndexValue(k: string): nat {
    if IsArrayIndex(k) then Months.ParseDigits(k) else 0
  }

  predicate Ascending<T>(s: seq<T>, key: T -> nat) {
    forall i, j :: 0 <= i < j < |s| ==> key(s[i]) <= key(s[j])
  }

  /** Insert `x` before the first element whose key is not below `x`'s. */
  function InsertAscending<T>(x: T, s: seq<T>, key: T -> nat): seq<T> {
    if s == [] || key(x) <= key(s[0]) then [x] + s
    else [s[0]] + InsertAscending(x, s[1..], key)
  }

  lemma {:induction false} InsertAscendingMultiset<T>(x: T, s: seq<T>, key: T -> nat)
    ensures multiset(InsertAscending(x, s, key)) == multiset(s) + multiset{x}
    decreases |s|
  {
    if s != [] && key(x) > key(s[0]) {
      InsertAscendingMultiset(x, s[1..], key);
      assert s == [s[0]] + s[1..];
    }
  }

  lemma {:induction false} InsertAscendingSorted<T>(x: T, s: seq<T>, key: T -> nat)
    requires Ascending(s, key)
    ensures Ascending(InsertAscending(x, s, key), key)
    decreases |s|
  {
    if s != [] && key(x) > key(s[0]) {
      var t := InsertAscending(x, s[1..], key);
      InsertAscendingSorted(x, s[1..], key);
      InsertAscendingMultiset(x, s[1..], key);
      forall m | 0 <= m < |t| ensures key(s[0]) <= key(t[m]) {
        assert t[m] in multiset(t);
        if t[m] != x {
          var n :| 0 <= n < |s[1..]| && s[1..][n] == t[m];
          assert s[n + 1] == t[m];
        }
      }
    }
  }

  /** Insertion sort by ascending key. */
  function SortAscending<T>(s: seq<T>, key: T -> nat): (r: seq<T>)
    ensures Ascending(r, key)
    ensures multiset(r) == multiset(s)
  {
    if s == [] then []
    else
      var t := SortAscending(s[1..], key);
      InsertAscendingSorted(s[0], t, key);
      InsertAscendingMultiset(s[0], t, key);
      assert s == [s[0]] + s[1..];
      InsertAscending(s[0], t, key)
  }

  /** A sequence is split by a predicate without losing or adding an element. */
  lemma {:induction false} FilterSplit(s: seq<string>)
    ensures multiset(Filter(s, IsArrayIndex) + Filter(s, IsNamedKey)) == multiset(s)
    decreases |s|
  {
    if s != [] {
      var init, k := s[..|s| - 1], s[|s| - 1];
      assert s == init + [k];
      FilterSplit(init);
    }
  }

  /** The order of the own keys of an object whose keys were created in the
      order `created` (section 10.1.11.1 of ECMA-262, the
      `OrdinaryOwnPropertyKeys` step that `Object.entries` follows): the array
      indices ascending, then the other keys in creation order. */
  function OwnKeys(created: seq<string>): (r: seq<string>)
    ensures multiset(r) == multiset(created)
    ensures forall i, j :: 0 <= i < j < |r| && IsArrayIndex(r[j]) ==> IsArrayIndex(r[i])
    ensures forall i, j :: 0 <= i < j < |r| && IsArrayIndex(r[i]) && IsArrayIndex(r[j]) ==> IndexValue(r[i]) <= IndexValue(r[j])
    ensures Filter(r, IsNamedKey) == Filter(created, IsNamedKey)
  {
    var indices := SortAscending(Filter(created, IsArrayIndex), IndexValue);
    var named := Filter(created, IsNamedKey);
    OwnKeysFacts(created, indices, named);
    indices + named
  }

  lemma OwnKeysFacts(created: seq<string>, indices: seq<string>, named: seq<string>)
    requires indices == SortAscending(Filter(created, IsArrayIndex), IndexValue) && named == Filter(created, IsNamedKey)
    ensures multiset(indices + named) == multiset(created)
    ensures forall i :: 0 <= i < |indices| ==> IsArrayIndex(indices[i])
    ensures Filter(indices + named, IsNamedKey) == named
  {
    FilterSplit(created);
    var f := Filter(created, IsArrayIndex);
    forall i | 0 <= i < |indices| ensures IsArrayIndex(indices[i]) {
      assert indices[i] in multiset(f);
    }
    FilterAppend(indices, named, IsNamedKey);
    FilterNone(indices, IsNamedKey);
    FilterAll(named, IsNamedKey);
  }

  /** Without a numeric class name the groups are listed in creation order. */
  lemma OwnKeysNamed(created: seq<string>)
    requires forall i :: 0 <= i < |created| ==> IsNamedKey(created[i])
    ensures OwnKeys(created) == created
  {
    FilterNone(created, IsArrayIndex);
    FilterAll(created, IsNamedKey);
  }

  lemma GroupOfSnoc(students: seq<Student>, s: Student, k: string)
    ensures GroupOf(students + [s], k) == GroupOf(students, k) + (if GroupName(s) == k then [s] else [])
  {
    assert (students + [s])[..|students + [s]| - 1] == students;
  }

  /** The total size of the groups of some keys. */
  function SumSizes(keys: seq<string>, students: seq<Student>): nat {
    if keys == [] then 0 else SumSizes(keys[..|keys| - 1], students) + |GroupOf(students, keys[|keys| - 1])|
  }

  lemma {:induction false} SumSizesEmpty(keys: seq<string>)
    ensures SumSizes(keys, []) == 0
    decreases |keys|
  {
    if keys != [] {
      SumSizesEmpty(keys[..|keys| - 1]);
    }
  }

  /** One more student adds one to the total of distinct keys holding its name
      and nothing to keys without it. */
  lemma {:induction false} SumSizesSnoc(keys: seq<string>, students: seq<Student>, s: Student)
    requires forall i, j :: 0 <= i < j < |keys| ==> keys[i] != keys[j]
    ensures SumSizes(keys, students + [s]) == SumSizes(keys, students) + (if GroupName(s) in keys then 1 else 0)
    decreases |keys|
  {
    if keys != [] {
      var init := keys[..|keys| - 1];
      var k := keys[|keys| - 1];
      assert keys == init + [k];
      SumSizesSnoc(init, students, s);
      assert (students + [s])[..|students + [s]| - 1] == students;
      assert |GroupOf(students + [s], k)| == |GroupOf(students, k)| + (if GroupName(s) == k then 1 else 0);
      assert GroupName(s) == k ==> GroupName(s) !in init;
    }
  }

  /** The groups hold every kept student once: their sizes add up to the
      number of students. */
  lemma {:induction false} GroupSizesSum(students: seq<Student>)
    ensures SumSizes(Names(students), students) == |students|
    decreases |students|
  {
    if students == [] {
    } else {
      var init := students[..|students| - 1];
      var s := students[|students| - 1];
      assert students == init + [s];
      GroupSizesSum(init);
      var keys := Names(students);
      SumSizesSnoc(keys, init, s);
      if GroupName(s) !in Names(init) {
        SumSizesSnoc(Names(init), init, s);
        AbsentNameEmpty(init, GroupName(s));
        assert keys == Names(init) + [GroupName(s)];
        assert keys[..|keys| - 1] == Names(init);
      }
    }
  }

  /** A kept student is in the group of its own name and in no other group. */
  lemma OneGroupEach(students: seq<Student>, s: Student, k: string)
    requires s in students
    ensures GroupName(s) in Names(students) && s in GroupOf(students, GroupName(s))
    ensures k != GroupName(s) ==> s !in GroupOf(students, k)
  {
    var i :| 0 <= i < |students| && students[i] == s;
    NamesSpec(students, GroupName(s));
  }

  /** The outcome of the form validation. */
  datatype Validation<D> = Invalid(errors: seq<string>) | Valid(data: D)

  /** What `handleSubmit` does. */
  datatype Action<D> = ShowErrors(errors: seq<string>) | UpdateStudent(id: Id, data: D) | AddStudent(data: D)

  /** A failed validation shows its errors and writes nothing (the modal stays
      open); otherwise the edited student is updated, or a new one created. */
  function HandleSubmit<D>(current: Option<Student>, validation: Validation<D>): (a: Action<D>)
    ensures validation.Invalid? <==> a.ShowErrors?
    ensures validation.Invalid? ==> a.errors == validation.errors
    ensures validation.Valid? && current.Some? ==> a == UpdateStudent(current.value.id, validation.data)
    ensures validation.Valid? && current.None? ==> a == AddStudent(validation.data)
  {
    if validation.Invalid? then ShowErrors(validation.errors)
    else if current.Some? then UpdateStudent(current.value.id, validation.data)
    else AddStudent(validation.data)
  }
}
