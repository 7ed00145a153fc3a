/** Python's `sorted(set(xs))` and tuple order, over any strict total order. */
module Sorting {

  ghost predicate StrictTotal<T(!new)>(less: (T, T) -> bool) {
    && (forall a :: !less(a, a))
    && (forall a, b :: less(a, b) || a == b || less(b, a))
    && (forall a, b, c :: less(a, b) && less(b, c) ==> less(a, c))
  }

  ghost predicate Increasing<T>(s: seq<T>, less: (T, T) -> bool) {
    forall i, j :: 0 <= i < j < |s| ==> less(s[i], s[j])
  }

  function Insert<T(==, !new)>(x: T, s: seq<T>, less: (T, T) -> bool): (r: seq<T>)
    requires StrictTotal(less) && Increasing(s, less)
    ensures Increasing(r, less) && forall y :: y in r <==> y == x || y in s
  {
    if s == [] then [x]
    else if x == s[0] then s
    else if less(x, s[0]) then
      assert forall k :: 0 < k < |s| ==> less(s[0], s[k]);
      [x] + s
    else
      assert forall y :: y in s <==> y == s[0] || y in s[1..];
      var rest := Insert(x, s[1..], less);
      HeadStaysFront(x, s, rest, less);
      [s[0]] + rest
  }

  lemma HeadStaysFront<T(!new)>(x: T, s: seq<T>, rest: seq<T>, less: (T, T) -> bool)
    requires Increasing(s, less) && s != [] && less(s[0], x)
    requires Increasing(rest, less) && forall y :: y in rest <==> y == x || y in s[1..]
    ensures Increasing([s[0]] + rest, less)
  {
    forall k | 0 <= k < |rest| ensures less(s[0], rest[k]) {
      assert rest[k] in rest;
      if rest[k] != x {
        var j :| 0 <= j < |s| - 1 && s[1..][j] == rest[k];
        assert less(s[0], s[j+1]);
      }
    }
  }

  /** `sorted(set(xs))`. */
  function SortedSet<T(==, !new)>(xs: seq<T>, less: (T, T) -> bool): (r: seq<T>)
    requires StrictTotal(less)
    ensures Increasing(r, less) && forall x :: x in r <==> x in xs
  {
    if xs == [] then []
    else
      assert forall x :: x in xs <==> x in xs[..|xs|-1] || x == xs[|xs|-1];
      Insert(xs[|xs|-1], SortedSet(xs[..|xs|-1], less), less)
  }

  /** An increasing list is determined by its elements. */
  lemma {:induction false} IncreasingIsCanonical<T(!new)>(a: seq<T>, b: seq<T>, less: (T, T) -> bool)
    requires StrictTotal(less) && Increasing(a, less) && Increasing(b, less) && forall x :: x in a <==> x in b
    ensures a == b
    decreases |a|
  {
    if a == [] {
      MemberExists(b);
    } else {
      assert a[0] in b && b[0] in a;
      FirstIsLeast(a, b[0], less);
      FirstIsLeast(b, a[0], less);
      TailLosesHead(a, less);
      TailLosesHead(b, less);
      IncreasingIsCanonical(a[1..], b[1..], less);
      assert a == [a[0]] + a[1..] && b == [b[0]] + b[1..];
    }
  }

  lemma FirstIsLeast<T(!new)>(a: seq<T>, x: T, less: (T, T) -> bool)
    ensures Increasing(a, less) && x in a ==> x == a[0] || less(a[0], x)
  {
  }

  lemma MemberExists<T(!new)>(a: seq<T>)
    ensures a == [] || exists x :: x in a
  {
    if a != [] {
      assert a[0] in a;
    }
  }

  lemma TailLosesHead<T(!new)>(a: seq<T>, less: (T, T) -> bool)
    requires StrictTotal(less) && Increasing(a, less) && a != []
    ensures forall x :: x in a[1..] <==> x in a && x != a[0]
  {
    forall x | x in a[1..] ensures x != a[0] {
      var k :| 0 <= k < |a| - 1 && a[1..][k] == x;
      assert less(a[0], a[k+1]);
    }
    assert forall x :: x in a <==> x == a[0] || x in a[1..];
  }

  /** `sorted(set(...))` depends only on which elements there are. */
  lemma SortedSetIsCanonical<T(!new)>(xs: seq<T>, ys: seq<T>, less: (T, T) -> bool)
    requires StrictTotal(less) && forall x :: x in xs <==> x in ys
    ensures SortedSet(xs, less) == SortedSet(ys, less)
  {
    IncreasingIsCanonical(SortedSet(xs, less), SortedSet(ys, less), less);
  }

  // ---------------------------------------------------------------- tuples

  /** The order of tuples and strings: by the first difference, a proper prefix first. */
  predicate Before<T(==)>(a: seq<T>, b: seq<T>, less: (T, T) -> bool) {
    if b == [] then false
    else if a == [] then true
    else less(a[0], b[0]) || (a[0] == b[0] && Before(a[1..], b[1..], less))
  }

  lemma {:induction false} BeforeTotal<T(!new)>(a: seq<T>, b: seq<T>, less: (T, T) -> bool)
    requires StrictTotal(less)
    ensures Before(a, b, less) || a == b || Before(b, a, less)
    ensures !Before(a, a, less)
  {
    if a != [] {
      BeforeTotal(a[1..], if b == [] then b else b[1..], less);
      if b != [] && a[0] == b[0] {
        assert a == [a[0]] + a[1..] && b == [b[0]] + b[1..];
      }
    }
  }

  lemma {:induction false} BeforeTransitive<T(!new)>(a: seq<T>, b: seq<T>, c: seq<T>, less: (T, T) -> bool)
    requires StrictTotal(less) && Before(a, b, less) && Before(b, c, less)
    ensures Before(a, c, less)
  {
    if a != [] && a[0] == b[0] == c[0] {
      BeforeTransitive(a[1..], b[1..], c[1..], less);
    }
  }

  function Lexicographic<T(==)>(less: (T, T) -> bool): (seq<T>, seq<T>) -> bool {
    (a, b) => Before(a, b, less)
  }

  /** Tuples of totally ordered things are totally ordered. */
  lemma TuplesAreOrdered<T(!new)>(less: (T, T) -> bool)
    requires StrictTotal(less)
    ensures StrictTotal(Lexicographic(less))
  {
    var tuples := Lexicographic(less);
    forall a, b ensures !tuples(a, a) && (tuples(a, b) || a == b || tuples(b, a)) {
      BeforeTotal(a, b, less);
    }
    forall a, b, c | tuples(a, b) && tuples(b, c) ensures tuples(a, c) {
      BeforeTransitive(a, b, c, less);
    }
  }
}
