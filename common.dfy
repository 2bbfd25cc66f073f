/** Shared vocabulary of the dashboard model: identifiers, the two status
    enumerations stored in the backend, the rounding rule used by every
    percentage on every page, and sequence counting helpers. */
module Common {

  /** Row identifiers are opaque strings (UUIDs in the backend). */
  type Id = string

  /** A nullable value (`null`/`undefined` in the source). */
  datatype Option<T> = None | Some(value: T)

  /** `data || []`: the rows of a query, none when the backend returned null. */
  function OrEmpty<T>(data: Option<seq<T>>): (r: seq<T>)
    ensures data.None? ==> r == []
    ensures data.Some? ==> r == data.value
  {
    if data.Some? then data.value else []
  }

  /** `xs.map(f)`: one image per element, in order. */
  function MapSeq<T, U>(s: seq<T>, f: T -> U): (r: seq<U>)
    ensures |r| == |s| && forall i :: 0 <= i < |r| ==> r[i] == f(s[i])
  {
    seq(|s|, i requires 0 <= i < |s| => f(s[i]))
  }

  /** `attendances.status`. */
  datatype AttStatus = Present | Absent

  /** `subscriptions.status`. */
  datatype PayStatus = Paid | Unpaid

  /** `Math.round(p / t * 100)` guarded by `t > 0`, computed exactly: the
      nearest integer to 100p/t with halves rounded up, i.e. the r with
      r - 1/2 <= 100p/t < r + 1/2 (multiplied out by 2t below); 0 when t is 0. */
  function Percent(p: nat, t: nat): (r: nat)
    ensures t == 0 ==> r == 0
    ensures t > 0 ==> 2 * t * r - t <= 200 * p < 2 * t * r + t
    ensures p <= t ==> r <= 100
  {
    if t == 0 then 0
    else
      var r := (200 * p + t) / (2 * t);
      PercentBound(p, t, r);
      r
  }

  lemma PercentBound(p: nat, t: nat, r: nat)
    requires t > 0 && r == (200 * p + t) / (2 * t)
    ensures 2 * t * r - t <= 200 * p < 2 * t * r + t
    ensures p <= t ==> r <= 100
  {
    var d := 2 * t;
    var q := 200 * p + t;
    DivBracket(q, d);
    if p <= t {
      assert d * r < d * 101;
      MulLtCancel(d, r, 101);
    }
  }

  /** The quotient of Euclidean division brackets the dividend. */
  lemma DivBracket(q: nat, d: nat)
    requires d > 0
    ensures d * (q / d) <= q < d * (q / d) + d
  {
  }

  /** Number of occurrences of `x` in `s`. */
  function Count<T(==)>(s: seq<T>, x: T): (n: nat)
    ensures n <= |s|
    ensures n > 0 <==> x in s
  {
    if s == [] then 0 else Count(s[..|s| - 1], x) + (if s[|s| - 1] == x then 1 else 0)
  }

  /** Occurrence counts add up over concatenation. */
  lemma {:induction false} CountAppend<T>(a: seq<T>, b: seq<T>, x: T)
    ensures Count(a + b, x) == Count(a, x) + Count(b, x)
    decreases |b|
  {
    if b == [] {
      assert a + b == a;
    } else {
      assert (a + b)[..|a + b| - 1] == a + b[..|b| - 1];
      CountAppend(a, b[..|b| - 1], x);
    }
  }

  /** The elements of `s` satisfying `p`, in their original order. */
  function Filter<T>(s: seq<T>, p: T -> bool): (r: seq<T>)
    ensures |r| <= |s|
    ensures forall i :: 0 <= i < |r| ==> r[i] in s && p(r[i])
    ensures forall i :: 0 <= i < |s| && p(s[i]) ==> s[i] in r
  {
    if s == [] then [] else Filter(s[..|s| - 1], p) + (if p(s[|s| - 1]) then [s[|s| - 1]] else [])
  }

  /** Filtering distributes over concatenation, so it keeps relative order. */
  lemma {:induction false} FilterAppend<T>(a: seq<T>, b: seq<T>, p: T -> bool)
    ensures Filter(a + b, p) == Filter(a, p) + Filter(b, p)
    decreases |b|
  {
    if b == [] {
      assert a + b == a;
    } else {
      assert (a + b)[..|a + b| - 1] == a + b[..|b| - 1];
      FilterAppend(a, b[..|b| - 1], p);
    }
  }

  /** A one-element sequence is kept or dropped whole. */
  lemma FilterSingleton<T>(x: T, p: T -> bool)
    ensures Filter([x], p) == if p(x) then [x] else []
  {
    assert [x][..0] == [];
  }

  /** Filtering a sequence with a new head. */
  lemma FilterCons<T>(x: T, s: seq<T>, p: T -> bool)
    ensures Filter([x] + s, p) == (if p(x) then [x] else []) + Filter(s, p)
  {
    FilterAppend([x], s, p);
    FilterSingleton(x, p);
  }

  /** A new head `y` and an element `x` that are never both kept commute under
      filtering. */
  lemma FilterConsSwap<T>(y: T, t: seq<T>, x: T, u: seq<T>, p: T -> bool)
    requires Filter(t, p) == (if p(x) then [x] else []) + Filter(u, p)
    requires !(p(x) && p(y))
    ensures Filter([y] + t, p) == (if p(x) then [x] else []) + Filter([y] + u, p)
  {
    FilterCons(y, t, p);
    FilterCons(y, u, p);
    var fu := Filter(u, p);
    if p(x) {
      assert Filter([y] + t, p) == Filter(t, p) == [x] + fu;
      assert Filter([y] + u, p) == fu;
    } else {
      assert Filter(t, p) == fu;
      assert [] + Filter([y] + u, p) == Filter([y] + u, p);
    }
  }

  /** Number of elements of `s` satisfying `p`. */
  function CountIf<T>(s: seq<T>, p: T -> bool): (n: nat)
    ensures n == |Filter(s, p)|
  {
    if s == [] then 0 else CountIf(s[..|s| - 1], p) + (if p(s[|s| - 1]) then 1 else 0)
  }

  /** `CountIf` over a one-element extension. */
  lemma CountIfSnoc<T>(s: seq<T>, x: T, p: T -> bool)
    ensures CountIf(s + [x], p) == CountIf(s, p) + (if p(x) then 1 else 0)
  {
    assert (s + [x])[..|s + [x]| - 1] == s;
  }

  /** Elements of `s` satisfying `p` and those not satisfying it add up to `|s|`. */
  lemma {:induction false} CountIfSplit<T>(s: seq<T>, p: T -> bool, q: T -> bool)
    requires forall x :: q(x) == !p(x)
    ensures CountIf(s, p) + CountIf(s, q) == |s|
    decreases |s|
  {
    if s != [] {
      CountIfSplit(s[..|s| - 1], p, q);
    }
  }

  /** If `p` implies `q` then fewer elements satisfy `p`. */
  lemma {:induction false} CountIfMono<T>(s: seq<T>, p: T -> bool, q: T -> bool)
    requires forall x :: p(x) ==> q(x)
    ensures CountIf(s, p) <= CountIf(s, q)
    decreases |s|
  {
    if s != [] {
      CountIfMono(s[..|s| - 1], p, q);
    }
  }

  /** The first `n` elements (`slice(0, n)`). */
  function Take<T>(s: seq<T>, n: nat): (r: seq<T>)
    ensures |r| == if n < |s| then n else |s|
    ensures forall i :: 0 <= i < |r| ==> r[i] == s[i]
  {
    if n < |s| then s[..n] else s
  }

  /** Splitting by a second predicate: the elements satisfying `p` are those
      satisfying `p` and `q` plus those satisfying `p` and not `q`. */
  lemma {:induction false} CountIfPartition<T>(s: seq<T>, p: T -> bool, pq: T -> bool, pnq: T -> bool, q: T -> bool)
    requires forall x :: pq(x) == (p(x) && q(x))
    requires forall x :: pnq(x) == (p(x) && !q(x))
    ensures CountIf(s, pq) + CountIf(s, pnq) == CountIf(s, p)
    decreases |s|
  {
    if s != [] {
      CountIfPartition(s[..|s| - 1], p, pq, pnq, q);
    }
  }

  /** Nothing is counted when no element satisfies `p`. */
  lemma {:induction false} CountIfNone<T>(s: seq<T>, p: T -> bool)
    requires forall k :: 0 <= k < |s| ==> !p(s[k])
    ensures CountIf(s, p) == 0
    decreases |s|
  {
    if s != [] {
      CountIfNone(s[..|s| - 1], p);
    }
  }

  /** Everything is counted when every element satisfies `p`. */
  lemma {:induction false} CountIfAll<T>(s: seq<T>, p: T -> bool)
    requires forall k :: 0 <= k < |s| ==> p(s[k])
    ensures CountIf(s, p) == |s|
    decreases |s|
  {
    if s != [] {
      CountIfAll(s[..|s| - 1], p);
    }
  }

  /** A backend answer: the call failed, or it returned (possibly null) rows. */
  datatype Answer<T> = Failed | Rows(data: Option<seq<T>>)

  /** All of a positive total is 100%. */
  lemma PercentFull(n: nat)
    requires n > 0
    ensures Percent(n, n) == 100
  {
    var r := Percent(n, n);
    assert 2 * n * r - n <= 200 * n < 2 * n * r + n;
    MulBelow(n, r);
  }

  /** From `200n < 2nr + n` and `2nr - n <= 200n`: `r` is 100. */
  lemma MulBelow(n: nat, r: nat)
    requires n > 0 && 2 * n * r - n <= 200 * n < 2 * n * r + n
    ensures r == 100
  {
    assert 2 * n * r - n == n * (2 * r - 1);
    assert 2 * n * r + n == n * (2 * r + 1);
    assert 200 * n == n * 200;
    MulLtCancel(n, 2 * r - 1, 201);
    MulLtCancel(n, 199, 2 * r + 1);
  }

  /** Multiplying by a positive number preserves strict order. */
  lemma MulLtCancel(n: nat, a: int, b: int)
    requires n > 0 && n * a < n * b
    ensures a < b
  {
    assert n * b - n * a == n * (b - a);
  }

  /** Filtering keeps nothing when no element passes. */
  lemma {:induction false} FilterNone<T>(s: seq<T>, p: T -> bool)
    requires forall i :: 0 <= i < |s| ==> !p(s[i])
    ensures Filter(s, p) == []
    decreases |s|
  {
    if s != [] {
      FilterNone(s[..|s| - 1], p);
    }
  }

  /** Filtering keeps everything when every element passes. */
  lemma {:induction false} FilterAll<T>(s: seq<T>, p: T -> bool)
    requires forall i :: 0 <= i < |s| ==> p(s[i])
    ensures Filter(s, p) == s
    decreases |s|
  {
    if s != [] {
      FilterAll(s[..|s| - 1], p);
      assert s == s[..|s| - 1] + [s[|s| - 1]];
    }
  }
}
