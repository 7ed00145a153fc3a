/** The order of lists: one list inside another. */
module Sublists {

  /** The k-th element of a stands at position at[k] of b, and positions rise. */
  ghost predicate Places<T>(a: seq<T>, b: seq<T>, at: seq<nat>) {
    && |at| == |a|
    && (forall k :: 0 <= k < |at| ==> at[k] < |b| && b[at[k]] == a[k])
    && (forall j, k :: 0 <= j < k < |at| ==> at[j] < at[k])
  }

  /** a lists elements of b in the order of b. */
  ghost predicate Within<T(!new)>(a: seq<T>, b: seq<T>) {
    exists at :: Places(a, b, at)
  }

  ghost predicate Precedes<T>(s: seq<T>, x: T, y: T) {
    exists i, j :: 0 <= i < j < |s| && s[i] == x && s[j] == y
  }

  ghost predicate Distinct<T>(s: seq<T>) {
    forall i, j :: 0 <= i < j < |s| ==> s[i] != s[j]
  }

  lemma WithinSelf<T(!new)>(s: seq<T>)
    ensures Within(s, s)
  {
    assert Places(s, s, seq(|s|, k => k));
  }

  lemma WithinTransitive<T(!new)>(a: seq<T>, b: seq<T>, c: seq<T>)
    requires Within(a, b) && Within(b, c)
    ensures Within(a, c)
  {
    var p :| Places(a, b, p);
    var q :| Places(b, c, q);
    assert Places(a, c, seq(|p|, k requires 0 <= k < |p| => q[p[k]]));
  }

  lemma WithinLonger<T(!new)>(a: seq<T>, b: seq<T>, e: T)
    requires Within(a, b)
    ensures Within(a, b + [e])
    ensures Within(a + [e], b + [e])
  {
    var at: seq<nat> :| Places(a, b, at);
    assert Places(a, b + [e], at);
    assert Places(a + [e], b + [e], at + [|b|]);
  }

  lemma WithinFront<T(!new)>(a: seq<T>, b: seq<T>, e: T)
    requires Within(a, b)
    ensures Within(a, [e] + b)
    ensures Within([e] + a, [e] + b)
  {
    var at: seq<nat> :| Places(a, b, at);
    var up := seq(|at|, k requires 0 <= k < |at| => at[k] + 1);
    assert Places(a, [e] + b, up);
    assert Places([e] + a, [e] + b, [0] + up);
  }

  lemma WithinSuffix<T(!new)>(s: seq<T>, n: nat)
    requires n <= |s|
    ensures Within(s[n..], s)
  {
    assert Places(s[n..], s, seq(|s| - n, k => k + n));
  }

  lemma WithinKeepsOrder<T(!new)>(a: seq<T>, b: seq<T>, x: T, y: T)
    requires Within(a, b) && Precedes(a, x, y)
    ensures Precedes(b, x, y)
  {
    var at: seq<nat> :| Places(a, b, at);
    var i, j :| 0 <= i < j < |a| && a[i] == x && a[j] == y;
    assert at[i] < at[j] && b[at[i]] == x && b[at[j]] == y;
  }

  /** In a list without repetition the order of two elements of a sublist is decided. */
  lemma WithinOrderIff<T(!new)>(a: seq<T>, b: seq<T>, x: T, y: T)
    requires Within(a, b) && Distinct(b) && x in a && y in a
    ensures Precedes(a, x, y) <==> Precedes(b, x, y)
  {
    var at: seq<nat> :| Places(a, b, at);
    var i :| 0 <= i < |a| && a[i] == x;
    var j :| 0 <= j < |a| && a[j] == y;
    if Precedes(b, x, y) {
      var m, n :| 0 <= m < n < |b| && b[m] == x && b[n] == y;
      assert m == at[i] && n == at[j];
    }
    if Precedes(a, x, y) {
      WithinKeepsOrder(a, b, x, y);
    }
  }
}
