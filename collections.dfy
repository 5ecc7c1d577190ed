/**
  * The array operations the diary's views are built from, written once over `seq`:
  * `filter`, `find`, `slice(0, n)`, `reduce` into a sum, and the comparator `sort`
  * of JavaScript, which is stable: elements the comparator calls equal keep
  * their relative order.
  */
module Collections {

  datatype Option<T> = None | Some(value: T)

  // ---------------------------------------------------------------------------
  // filter
  // ---------------------------------------------------------------------------

  /** `s.filter(p)`: the elements of `s` satisfying `p`, in their order in `s`. */
  function Filter<T(!new)>(s: seq<T>, p: T -> bool): (r: seq<T>)
    ensures |r| <= |s|
  {
    if s == [] then []
    else (if p(s[0]) then [s[0]] else []) + Filter(s[1..], p)
  }

  /**
    * What `Filter` keeps: exactly the elements satisfying `p`, each as often as
    * it occurs in `s`.
    */
  lemma {:induction false} FilterMembers<T(!new)>(s: seq<T>, p: T -> bool)
    ensures forall x :: x in Filter(s, p) <==> x in s && p(x)
    ensures forall x :: multiset(Filter(s, p))[x] == if p(x) then multiset(s)[x] else 0
  {
    if s != [] {
      FilterMembers(s[1..], p);
      assert s == [s[0]] + s[1..];
    }
  }

  /** Filtering keeps the order of the input: it distributes over concatenation. */
  lemma {:induction false} FilterConcat<T(!new)>(a: seq<T>, b: seq<T>, p: T -> bool)
    ensures Filter(a + b, p) == Filter(a, p) + Filter(b, p)
  {
    if a == [] {
      assert a + b == b;
    } else {
      var head := if p(a[0]) then [a[0]] else [];
      assert (a + b)[0] == a[0];
      assert (a + b)[1..] == a[1..] + b;
      assert Filter(a + b, p) == head + Filter(a[1..] + b, p);
      assert Filter(a, p) == head + Filter(a[1..], p);
      FilterConcat(a[1..], b, p);
      assert head + (Filter(a[1..], p) + Filter(b, p)) == (head + Filter(a[1..], p)) + Filter(b, p);
    }
  }

  /** Filtering an already filtered sequence with the same predicate changes nothing. */
  lemma {:induction false} FilterIdempotent<T(!new)>(s: seq<T>, p: T -> bool)
    ensures Filter(Filter(s, p), p) == Filter(s, p)
  {
    if s != [] {
      var head := if p(s[0]) then [s[0]] else [];
      FilterIdempotent(s[1..], p);
      FilterConcat(head, Filter(s[1..], p), p);
      if p(s[0]) {
        assert Filter(head, p) == [s[0]] + Filter([], p);
      }
    }
  }

  /** A predicate that every element satisfies filters nothing out. */
  lemma {:induction false} FilterKeepsAll<T(!new)>(s: seq<T>, p: T -> bool)
    requires forall i :: 0 <= i < |s| ==> p(s[i])
    ensures Filter(s, p) == s
  {
    if s != [] {
      FilterKeepsAll(s[1..], p);
    }
  }

  /** Two predicates that agree on every value filter alike. */
  lemma {:induction false} FilterExtensional<T(!new)>(s: seq<T>, p: T -> bool, q: T -> bool)
    requires forall x :: p(x) == q(x)
    ensures Filter(s, p) == Filter(s, q)
  {
    if s != [] {
      FilterExtensional(s[1..], p, q);
    }
  }

  // ---------------------------------------------------------------------------
  // find
  // ---------------------------------------------------------------------------

  /** `s.findIndex(p)`, with `None` for the source's -1. */
  function FirstIndex<T(!new)>(s: seq<T>, p: T -> bool): (r: Option<nat>)
    ensures r.Some? ==> r.value < |s| && p(s[r.value])
    ensures r.Some? ==> forall j :: 0 <= j < r.value ==> !p(s[j])
    ensures r.None? ==> forall j :: 0 <= j < |s| ==> !p(s[j])
  {
    if s == [] then None
    else if p(s[0]) then Some(0)
    else
      match FirstIndex(s[1..], p)
      case None => None
      case Some(i) => Some(i + 1)
  }

  /** `s.find(p)`, with `None` for the source's `undefined`. */
  function Find<T(!new)>(s: seq<T>, p: T -> bool): (r: Option<T>)
    ensures r.Some? <==> exists i :: 0 <= i < |s| && p(s[i])
    ensures r.Some? ==> r.value in s && p(r.value)
    ensures r.Some? ==> exists i :: 0 <= i < |s| && s[i] == r.value && forall j :: 0 <= j < i ==> !p(s[j])
  {
    match FirstIndex(s, p)
    case None => None
    case Some(i) => Some(s[i])
  }

  /** `s.length > 0 ? s[0] : …`: the first element, `None` for an empty sequence. */
  function Head<T>(s: seq<T>): (r: Option<T>)
    ensures r.None? <==> s == []
    ensures r.Some? ==> r.value == s[0]
  {
    if s == [] then None else Some(s[0])
  }

  /** The first element of a filtered sequence is the first element satisfying the predicate. */
  lemma {:induction false} FilterHeadIsFind<T(!new)>(s: seq<T>, p: T -> bool)
    ensures Head(Filter(s, p)) == Find(s, p)
  {
    if s != [] && !p(s[0]) {
      FilterHeadIsFind(s[1..], p);
      assert Filter(s, p) == Filter(s[1..], p);
      match FirstIndex(s[1..], p)
      case None =>
      case Some(i) =>
        assert FirstIndex(s, p) == Some(i + 1);
        assert s[i + 1] == s[1..][i];
    }
  }

  // ---------------------------------------------------------------------------
  // slice(0, n)
  // ---------------------------------------------------------------------------

  function Min(a: int, b: int): int { if a <= b then a else b }

  /** `s.slice(0, n)`: the first `n` elements, or all of them when there are fewer. */
  function Take<T(!new)>(s: seq<T>, n: nat): (r: seq<T>)
    ensures |r| == Min(n, |s|)
    ensures r == s[..|r|]
  {
    if n < |s| then s[..n] else s
  }

  /** An element occurring less often in a prefix than in the whole sequence occurs after the prefix. */
  lemma MissingFromPrefix<T>(s: seq<T>, n: nat, x: T)
    requires n <= |s| && multiset(s[..n])[x] < multiset(s)[x]
    ensures exists k :: n <= k < |s| && s[k] == x
  {
    assert s == s[..n] + s[n..];
    assert multiset(s) == multiset(s[..n]) + multiset(s[n..]);
    assert x in multiset(s[n..]);
    var j :| 0 <= j < |s[n..]| && s[n..][j] == x;
    assert s[n + j] == x;
  }

  // ---------------------------------------------------------------------------
  // reduce((sum, x) => sum + f(x), 0)
  // ---------------------------------------------------------------------------

  function SumOf<T(!new)>(s: seq<T>, f: T -> int): int
  {
    if s == [] then 0 else f(s[0]) + SumOf(s[1..], f)
  }

  /** A sum of terms each within `[lo, hi]` lies within `[lo * n, hi * n]`. */
  lemma {:induction false} SumOfBounds<T(!new)>(s: seq<T>, f: T -> int, lo: int, hi: int)
    requires forall i :: 0 <= i < |s| ==> lo <= f(s[i]) <= hi
    ensures lo * |s| <= SumOf(s, f) <= hi * |s|
  {
    if s != [] {
      SumOfBounds(s[1..], f, lo, hi);
    }
  }

  // ---------------------------------------------------------------------------
  // sort((a, b) => cmp(a, b)), stable
  // ---------------------------------------------------------------------------

  /** `le(a, b)` stands for `cmp(a, b) <= 0`: `a` may stay in front of `b`. */
  ghost predicate TotalPreorder<T(!new)>(le: (T, T) -> bool)
  {
    && (forall a, b :: le(a, b) || le(b, a))
    && (forall a, b, c :: le(a, b) && le(b, c) ==> le(a, c))
  }

  ghost predicate SortedBy<T(!new)>(s: seq<T>, le: (T, T) -> bool)
  {
    forall i, j :: 0 <= i < j < |s| ==> le(s[i], s[j])
  }

  /** The values the comparator cannot tell apart from `x`. */
  function EquivalentTo<T(!new)>(le: (T, T) -> bool, x: T): T -> bool
  {
    (y: T) => le(x, y) && le(y, x)
  }

  /** Inserts `x` in front of the first element it may precede. */
  function Insert<T(!new)>(x: T, s: seq<T>, le: (T, T) -> bool): (r: seq<T>)
    ensures multiset(r) == multiset(s) + multiset{x}
  {
    if s == [] then [x]
    else if le(x, s[0]) then [x] + s
    else
      assert s == [s[0]] + s[1..];
      [s[0]] + Insert(x, s[1..], le)
  }

  /** The stable sort: each element is inserted in front of all equivalent later ones. */
  function InsertionSort<T(!new)>(s: seq<T>, le: (T, T) -> bool): (r: seq<T>)
    ensures multiset(r) == multiset(s)
    ensures |r| == |s|
  {
    if s == [] then []
    else
      assert s == [s[0]] + s[1..];
      Insert(s[0], InsertionSort(s[1..], le), le)
  }

  lemma {:induction false} InsertSorted<T(!new)>(x: T, s: seq<T>, le: (T, T) -> bool)
    requires TotalPreorder(le)
    requires SortedBy(s, le)
    ensures SortedBy(Insert(x, s, le), le)
  {
    if s != [] && !le(x, s[0]) {
      var rest := Insert(x, s[1..], le);
      InsertSorted(x, s[1..], le);
      assert multiset(rest) == multiset(s[1..]) + multiset{x};
      forall k | 0 <= k < |rest|
        ensures le(s[0], rest[k])
      {
        assert rest[k] in multiset(rest);
        if rest[k] != x {
          assert rest[k] in multiset(s[1..]);
          var j :| 0 <= j < |s[1..]| && s[1..][j] == rest[k];
          assert s[j + 1] == rest[k];
        }
      }
    }
  }

  /** The sort's output is ordered by the comparator. */
  lemma {:induction false} InsertionSortSorted<T(!new)>(s: seq<T>, le: (T, T) -> bool)
    requires TotalPreorder(le)
    ensures SortedBy(InsertionSort(s, le), le)
  {
    if s != [] {
      InsertionSortSorted(s[1..], le);
      InsertSorted(s[0], InsertionSort(s[1..], le), le);
    }
  }

  /**
    * Inserting `x` puts it among the elements equivalent to `y` in front of
    * all of them. The requirement is the one instance of transitivity this
    * relies on: whatever `y` may precede, `x` may precede too when `x` may
    * precede `y`.
    */
  lemma {:induction false} InsertStable<T(!new)>(x: T, s: seq<T>, le: (T, T) -> bool, y: T)
    requires forall z :: le(x, y) && le(y, z) ==> le(x, z)
    ensures Filter(Insert(x, s, le), EquivalentTo(le, y))
         == Filter([x], EquivalentTo(le, y)) + Filter(s, EquivalentTo(le, y))
  {
    var p := EquivalentTo(le, y);
    if s == [] {
      assert Insert(x, s, le) == [x] + s;
    } else if le(x, s[0]) {
      FilterConcat([x], s, p);
    } else {
      var rest := Insert(x, s[1..], le);
      assert Insert(x, s, le) == [s[0]] + rest;
      InsertStable(x, s[1..], le, y);
      FilterCons(x, [], p);
      assert [x] + [] == [x];
      FilterCons(s[0], rest, p);
      FilterCons(s[0], s[1..], p);
      assert [s[0]] + s[1..] == s;
      assert !(p(x) && p(s[0]));
      SwapHeads(if p(x) then [x] else [], if p(s[0]) then [s[0]] else [], Filter(s[1..], p));
    }
  }

  lemma FilterCons<T(!new)>(x: T, t: seq<T>, p: T -> bool)
    ensures Filter([x] + t, p) == (if p(x) then [x] else []) + Filter(t, p)
  {
    var xt := [x] + t;
    assert xt[0] == x && xt[1..] == t;
  }

  /** Two heads of which at least one is empty can be swapped. */
  lemma SwapHeads<T>(ha: seq<T>, hb: seq<T>, f: seq<T>)
    requires ha == [] || hb == []
    ensures hb + (ha + f) == ha + (hb + f)
  {
    if ha == [] {
      assert ha + f == f;
      assert ha + (hb + f) == hb + f;
    } else {
      assert hb + (ha + f) == ha + f;
      assert hb + f == f;
    }
  }

  /**
    * Stability: the elements equivalent to any `y` come out in the order they
    * went in.
    */
  lemma {:induction false} InsertionSortStable<T(!new)>(s: seq<T>, le: (T, T) -> bool, y: T)
    requires TotalPreorder(le)
    ensures Filter(InsertionSort(s, le), EquivalentTo(le, y)) == Filter(s, EquivalentTo(le, y))
  {
    if s != [] {
      var p := EquivalentTo(le, y);
      InsertionSortStable(s[1..], le, y);
      InsertStable(s[0], InsertionSort(s[1..], le), le, y);
      FilterConcat([s[0]], s[1..], p);
      assert [s[0]] + s[1..] == s;
    }
  }

  /** Stability for every equivalence class at once. */
  lemma InsertionSortStableAll<T(!new)>(s: seq<T>, le: (T, T) -> bool)
    requires TotalPreorder(le)
    ensures forall y :: Filter(InsertionSort(s, le), EquivalentTo(le, y)) == Filter(s, EquivalentTo(le, y))
  {
    forall y
      ensures Filter(InsertionSort(s, le), EquivalentTo(le, y)) == Filter(s, EquivalentTo(le, y))
    {
      InsertionSortStable(s, le, y);
    }
  }
}
