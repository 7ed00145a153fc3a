/** Single-link spatiotemporal clustering by union-find with path halving. */
module Clustering {
  import opened Numbers

  datatype Fix = Fix(lat: real, lon: real, ts: real)

  /** Great-circle distance in kilometres; only its value at the compared pairs matters. */
  type Distance = (Fix, Fix) -> real

  type Edges = set<(nat, nat)>

  /** The pair test of the inner loop, asked with the earlier index first. */
  predicate Linked(points: seq<Fix>, km: Distance, radius: real, window: real, i: nat, j: nat)
    requires i < |points| && j < |points|
  {
    Abs(points[i].ts - points[j].ts) <= window && km(points[i], points[j]) <= radius
  }

  // ---------------------------------------------------------------- connectivity

  /** A walk that uses edges of e in either direction. */
  ghost predicate Walk(e: Edges, w: seq<nat>) {
    |w| > 0 && forall k :: 0 <= k < |w| - 1 ==> Adjacent(e, w[k], w[k+1])
  }

  ghost predicate Adjacent(e: Edges, a: nat, b: nat) {
    (a, b) in e || (b, a) in e
  }

  ghost predicate Connected(e: Edges, a: nat, b: nat) {
    exists w :: Walk(e, w) && w[0] == a && w[|w|-1] == b
  }

  lemma ConnectedSelf(e: Edges, a: nat)
    ensures Connected(e, a, a)
  {
    assert Walk(e, [a]);
  }

  lemma ConnectedStep(e: Edges, a: nat, b: nat)
    requires Adjacent(e, a, b)
    ensures Connected(e, a, b)
  {
    assert Walk(e, [a, b]) && [a, b][0] == a && [a, b][1] == b;
  }

  lemma ConnectedTrans(e: Edges, a: nat, b: nat, c: nat)
    requires Connected(e, a, b) && Connected(e, b, c)
    ensures Connected(e, a, c)
  {
    var v :| Walk(e, v) && v[0] == a && v[|v|-1] == b;
    var w :| Walk(e, w) && w[0] == b && w[|w|-1] == c;
    var vw := v + w[1..];
    forall k | 0 <= k < |vw| - 1 ensures Adjacent(e, vw[k], vw[k+1]) {
      if k >= |v| - 1 {
        assert vw[k] == w[k-|v|+1] && vw[k+1] == w[k-|v|+2];
      }
    }
    assert Walk(e, vw) && vw[|vw|-1] == c;
  }

  lemma {:induction false} ConnectedSym(e: Edges, a: nat, b: nat)
    requires Connected(e, a, b)
    ensures Connected(e, b, a)
  {
    var w :| Walk(e, w) && w[0] == a && w[|w|-1] == b;
    var r := seq(|w|, k requires 0 <= k < |w| => w[|w|-1-k]);
    assert Walk(e, r);
    assert r[0] == b && r[|r|-1] == a;
  }

  lemma ConnectedMono(e: Edges, f: Edges, a: nat, b: nat)
    requires e <= f && Connected(e, a, b)
    ensures Connected(f, a, b)
  {
    var w :| Walk(e, w) && w[0] == a && w[|w|-1] == b;
    assert Walk(f, w);
  }

  // ---------------------------------------------------------------- the forest

  /** Node i of the parent list p: its root is rep[i], and h shrinks towards that root. */
  ghost predicate NodeOk(p: seq<nat>, h: seq<nat>, rep: seq<nat>, i: nat) {
    && i < |p| == |h| == |rep|
    && p[i] < |p| && rep[i] < |p|
    && rep[p[i]] == rep[i] && p[rep[i]] == rep[i]
    && (p[i] == i ==> rep[i] == i) && (p[i] != i ==> h[p[i]] < h[i])
  }

  ghost predicate Forest(p: seq<nat>, h: seq<nat>, rep: seq<nat>) {
    |p| == |h| == |rep| && forall i: nat :: i < |p| ==> NodeOk(p, h, rep, i)
  }

  lemma HalvingKeepsForest(p: seq<nat>, h: seq<nat>, rep: seq<nat>, i: nat)
    requires Forest(p, h, rep) && i < |p| && p[i] != i
    ensures p[i] < |p| && p[p[i]] < |p|
    ensures Forest(p[i := p[p[i]]], h, rep)
    ensures rep[p[p[i]]] == rep[i] && h[p[p[i]]] < h[i]
  {
    assert NodeOk(p, h, rep, i) && NodeOk(p, h, rep, p[i]);
    var g := p[p[i]];
    var q := p[i := g];
    forall k: nat | k < |p| ensures NodeOk(q, h, rep, k) {
      assert NodeOk(p, h, rep, k);
      assert NodeOk(p, h, rep, rep[k]);
    }
  }

  /** Path-halving `find`: every root stays what it was. */
  method Find(parent: array<nat>, ghost h: seq<nat>, ghost rep: seq<nat>, start: nat) returns (root: nat)
    requires Forest(parent[..], h, rep) && start < parent.Length
    modifies parent
    ensures Forest(parent[..], h, rep) && root == rep[start] < parent.Length
  {
    hide Forest, NodeOk;
    var i: nat := start;
    NodeFacts(parent[..], h, rep, i);
    while parent[i] != i
      invariant i < parent.Length == |h| == |rep|
      invariant Forest(parent[..], h, rep)
      invariant rep[i] == rep[start]
      decreases h[i]
    {
      ghost var p := parent[..];
      HalvingKeepsForest(p, h, rep, i);
      parent[i] := parent[parent[i]];
      assert parent[..] == p[i := p[p[i]]];
      i := parent[i];
    }
    NodeFacts(parent[..], h, rep, i);
    root := i;
  }

  lemma NodeFacts(p: seq<nat>, h: seq<nat>, rep: seq<nat>, i: nat)
    requires Forest(p, h, rep) && i < |p|
    ensures |p| == |h| == |rep| && rep[i] < |p| && p[rep[i]] == rep[i]
    ensures p[i] == i ==> rep[i] == i
  {
    assert NodeOk(p, h, rep, i);
  }

  ghost function Merged(rep: seq<nat>, from: nat, to: nat): seq<nat> {
    seq(|rep|, x requires 0 <= x < |rep| => if rep[x] == from then to else rep[x])
  }

  ghost function Lifted(h: seq<nat>, rep: seq<nat>, from: nat, lift: nat): seq<nat>
    requires |h| == |rep|
  {
    seq(|h|, x requires 0 <= x < |h| => if rep[x] == from then h[x] + lift else h[x])
  }

  lemma LinkKeepsForest(p: seq<nat>, h: seq<nat>, rep: seq<nat>, a: nat, b: nat)
    requires Forest(p, h, rep) && a < |p| && b < |p| && p[a] == a && p[b] == b && a != b
    ensures Forest(p[a := b], Lifted(h, rep, a, h[b] + 1), Merged(rep, a, b))
  {
    assert NodeOk(p, h, rep, a) && NodeOk(p, h, rep, b);
    var p', h', rep' := p[a := b], Lifted(h, rep, a, h[b] + 1), Merged(rep, a, b);
    forall i: nat | i < |p| ensures NodeOk(p', h', rep', i) {
      assert NodeOk(p, h, rep, i);
    }
  }

  // ---------------------------------------------------------------- forest and graph agree

  ghost predicate Sound(e: Edges, rep: seq<nat>) {
    forall a :: 0 <= a < |rep| ==> Connected(e, a, rep[a])
  }

  ghost predicate Complete(e: Edges, rep: seq<nat>) {
    forall a, b :: (a, b) in e ==> a < |rep| && b < |rep| && rep[a] == rep[b]
  }

  lemma {:induction false} WalkKeepsRep(e: Edges, rep: seq<nat>, w: seq<nat>, k: nat)
    requires Complete(e, rep) && Walk(e, w) && w[0] < |rep| && k < |w|
    ensures w[k] < |rep| && rep[w[k]] == rep[w[0]]
  {
    if k > 0 {
      WalkKeepsRep(e, rep, w, k - 1);
      assert Adjacent(e, w[k-1], w[k-1+1]);
    }
  }

  lemma RepIsConnectivity(e: Edges, rep: seq<nat>, a: nat, b: nat)
    requires Sound(e, rep) && Complete(e, rep) && a < |rep| && b < |rep|
    ensures rep[a] == rep[b] <==> Connected(e, a, b)
  {
    if rep[a] == rep[b] {
      ConnectedSym(e, b, rep[b]);
      ConnectedTrans(e, a, rep[a], b);
    } else if Connected(e, a, b) {
      var w :| Walk(e, w) && w[0] == a && w[|w|-1] == b;
      WalkKeepsRep(e, rep, w, |w| - 1);
    }
  }

  lemma MergeIsSound(e: Edges, rep: seq<nat>, i: nat, j: nat)
    requires Sound(e, rep) && i < |rep| && j < |rep|
    ensures Sound(e + {(i, j)}, Merged(rep, rep[i], rep[j]))
  {
    var f := e + {(i, j)};
    forall a | 0 <= a < |rep| ensures Connected(f, a, Merged(rep, rep[i], rep[j])[a]) {
      ConnectedMono(e, f, a, rep[a]);
      if rep[a] == rep[i] {
        ConnectedMono(e, f, i, rep[i]);
        ConnectedSym(f, i, rep[i]);
        ConnectedTrans(f, a, rep[i], i);
        ConnectedStep(f, i, j);
        ConnectedTrans(f, a, i, j);
        ConnectedMono(e, f, j, rep[j]);
        ConnectedTrans(f, a, j, rep[j]);
      }
    }
  }

  /** The forest, its ghost shape, and the graph it stands for. */
  ghost predicate Represents(p: seq<nat>, h: seq<nat>, rep: seq<nat>, e: Edges) {
    Forest(p, h, rep) && Sound(e, rep) && Complete(e, rep)
  }

  /** `union`: the partition becomes that of the graph with the edge (i, j) added. */
  method Union(parent: array<nat>, ghost h: seq<nat>, ghost rep: seq<nat>, ghost e: Edges, i: nat, j: nat)
    returns (ghost h': seq<nat>, ghost rep': seq<nat>)
    requires Represents(parent[..], h, rep, e) && i < parent.Length && j < parent.Length
    modifies parent
    ensures Represents(parent[..], h', rep', e + {(i, j)})
  {
    hide Sound, Forest;
    var to := Find(parent, h, rep, j);
    var from := Find(parent, h, rep, i);
    ghost var p := parent[..];
    parent[from] := to;
    assert parent[..] == p[from := to];
    NodeFacts(p, h, rep, i);
    NodeFacts(p, h, rep, j);
    MergeIsSound(e, rep, i, j);
    rep' := Merged(rep, from, to);
    if from == to {
      h' := h;
      assert rep' == rep && p[from := to] == p;
    } else {
      LinkKeepsForest(p, h, rep, from, to);
      h' := Lifted(h, rep, from, h[to] + 1);
    }
  }

  // ---------------------------------------------------------------- the clustering

  /** The linked pairs met before the inner loop reaches (i, j). */
  ghost function EdgesBefore(points: seq<Fix>, km: Distance, radius: real, window: real, i: nat, j: nat): Edges {
    set x: nat, y: nat | x < y < |points| && (x < i || (x == i && y < j)) && Linked(points, km, radius, window, x, y)
      :: (x, y)
  }

  ghost function LinkGraph(points: seq<Fix>, km: Distance, radius: real, window: real): Edges {
    set x: nat, y: nat | x < y < |points| && Linked(points, km, radius, window, x, y) :: (x, y)
  }

  ghost predicate Increasing(g: seq<nat>) {
    forall a, b :: 0 <= a < b < |g| ==> g[a] < g[b]
  }

  ghost predicate SameGroup(groups: seq<seq<nat>>, a: nat, b: nat) {
    exists k :: 0 <= k < |groups| && a in groups[k] && b in groups[k]
  }

  /** The groups are the connected components of e, each in index order, ordered by first index, without overlap. */
  ghost predicate IsClustering(e: Edges, n: nat, groups: seq<seq<nat>>) {
    && (forall a: nat, b: nat :: a < n && b < n ==> (SameGroup(groups, a, b) <==> Connected(e, a, b)))
    && (forall k :: 0 <= k < |groups| ==>
          groups[k] != [] && Increasing(groups[k]) && forall x :: x in groups[k] ==> x < n)
    && (forall k, l :: 0 <= k < l < |groups| ==> groups[k] != [] && groups[l] != [] && groups[k][0] < groups[l][0])
    && (forall k, l, x :: 0 <= k < l < |groups| && x in groups[k] ==> x !in groups[l])
  }

  ghost predicate InGroup(rep: seq<nat>, i: nat, keys: seq<nat>, k: nat, x: nat) {
    x < i <= |rep| && k < |keys| && rep[x] == keys[k]
  }

  /** Grouping so far: keys[k] is the root of groups[k], and slot inverts keys. */
  ghost predicate Grouped(rep: seq<nat>, i: nat, slot: map<nat, nat>, keys: seq<nat>, groups: seq<seq<nat>>) {
    && i <= |rep| && |keys| == |groups|
    && (forall k :: 0 <= k < |keys| ==> keys[k] in slot && slot[keys[k]] == k)
    && (forall r :: r in slot ==> slot[r] < |keys| && keys[slot[r]] == r)
    && (forall k :: 0 <= k < |groups| ==> groups[k] != [] && Increasing(groups[k]))
    && (forall k, x :: 0 <= k < |groups| && x in groups[k] ==> InGroup(rep, i, keys, k, x))
    && (forall x :: 0 <= x < i ==> rep[x] in slot && x in groups[slot[rep[x]]])
    && (forall k, l :: 0 <= k < l < |groups| ==> groups[k][0] < groups[l][0])
  }

  lemma GroupsFollowRoots(rep: seq<nat>, slot: map<nat, nat>, keys: seq<nat>, groups: seq<seq<nat>>, a: nat, b: nat)
    requires Grouped(rep, |rep|, slot, keys, groups) && a < |rep| && b < |rep|
    ensures SameGroup(groups, a, b) <==> rep[a] == rep[b]
  {
    assert a in groups[slot[rep[a]]];
  }

  lemma GroupedIsClustering(e: Edges, rep: seq<nat>, slot: map<nat, nat>, keys: seq<nat>, groups: seq<seq<nat>>)
    requires Sound(e, rep) && Complete(e, rep) && Grouped(rep, |rep|, slot, keys, groups)
    ensures IsClustering(e, |rep|, groups)
  {
    forall a: nat, b: nat | a < |rep| && b < |rep| ensures SameGroup(groups, a, b) <==> Connected(e, a, b) {
      RepIsConnectivity(e, rep, a, b);
      GroupsFollowRoots(rep, slot, keys, groups, a, b);
    }
    forall k, l, x | 0 <= k < l < |groups| && x in groups[k] ensures x !in groups[l] {
      assert rep[x] == keys[k];
    }
  }

  /** The pair loop: afterwards the forest stands for the whole link graph. */
  method LinkAll(points: seq<Fix>, km: Distance, radius: real, window: real, parent: array<nat>)
    returns (ghost h: seq<nat>, ghost rep: seq<nat>)
    requires parent.Length == |points| && forall i :: 0 <= i < parent.Length ==> parent[i] == i
    modifies parent
    ensures Represents(parent[..], h, rep, LinkGraph(points, km, radius, window))
  {
    hide Represents;
    var n := |points|;
    h, rep := seq(n, _ => 0), seq(n, i => i);
    IdentityRepresents(parent[..], h, rep);
    assert EdgesBefore(points, km, radius, window, 0, 1) == {};
    for i := 0 to n
      invariant Represents(parent[..], h, rep, EdgesBefore(points, km, radius, window, i, i + 1))
    {
      for j := i + 1 to n
        invariant Represents(parent[..], h, rep, EdgesBefore(points, km, radius, window, i, j))
      {
        ghost var e := EdgesBefore(points, km, radius, window, i, j);
        ghost var e' := EdgesBefore(points, km, radius, window, i, j + 1);
        if Abs(points[i].ts - points[j].ts) > window {
          assert e' == e;
          continue;
        }
        if km(points[i], points[j]) <= radius {
          h, rep := Union(parent, h, rep, e, i, j);
          assert e' == e + {(i, j)};
        } else {
          assert e' == e;
        }
      }
      assert EdgesBefore(points, km, radius, window, i, n) == EdgesBefore(points, km, radius, window, i + 1, i + 2);
    }
    assert EdgesBefore(points, km, radius, window, n, n + 1) == LinkGraph(points, km, radius, window);
  }

  /** The dictionary loop: one group per root, in order of first appearance. */
  method GroupByRoot(parent: array<nat>, ghost h: seq<nat>, ghost rep: seq<nat>)
    returns (groups: seq<seq<nat>>, slot: map<nat, nat>, ghost keys: seq<nat>)
    requires Forest(parent[..], h, rep)
    modifies parent
    ensures Grouped(rep, |rep|, slot, keys, groups)
  {
    hide NodeOk;
    groups, slot, keys := [], map[], [];
    var n := parent.Length;
    for i := 0 to n
      invariant Forest(parent[..], h, rep) && Grouped(rep, i, slot, keys, groups)
    {
      var root := Find(parent, h, rep, i);
      if root !in slot {
        ghost var slot', keys', groups' := slot, keys, groups;
        slot := slot[root := |groups|];
        keys := keys + [root];
        groups := groups + [[i]];
        GroupOpens(rep, i, slot', keys', groups');
      } else {
        GroupGrows(rep, i, slot, keys, groups);
        groups := groups[slot[root] := groups[slot[root]] + [i]];
      }
    }
  }

  method Cluster(points: seq<Fix>, km: Distance, radius: real, window: real) returns (groups: seq<seq<nat>>)
    ensures IsClustering(LinkGraph(points, km, radius, window), |points|, groups)
  {
    var parent := new nat[|points|](i => i);
    ghost var h, rep := LinkAll(points, km, radius, window, parent);
    var slot: map<nat, nat>;
    ghost var keys: seq<nat>;
    groups, slot, keys := GroupByRoot(parent, h, rep);
    GroupedIsClustering(LinkGraph(points, km, radius, window), rep, slot, keys, groups);
  }

  lemma GroupOpens(rep: seq<nat>, i: nat, slot: map<nat, nat>, keys: seq<nat>, groups: seq<seq<nat>>)
    requires Grouped(rep, i, slot, keys, groups) && i < |rep| && rep[i] !in slot
    ensures Grouped(rep, i + 1, slot[rep[i] := |groups|], keys + [rep[i]], groups + [[i]])
  {
    var g := groups + [[i]];
    assert forall k :: 0 <= k < |groups| ==> groups[k][0] in groups[k];
    forall x | 0 <= x < i + 1 ensures x in g[slot[rep[i] := |groups|][rep[x]]] {
      if x < i {
        assert rep[x] in slot && x in groups[slot[rep[x]]];
      }
    }
  }

  lemma GroupGrows(rep: seq<nat>, i: nat, slot: map<nat, nat>, keys: seq<nat>, groups: seq<seq<nat>>)
    requires Grouped(rep, i, slot, keys, groups) && i < |rep| && rep[i] in slot
    ensures var k := slot[rep[i]]; Grouped(rep, i + 1, slot, keys, groups[k := groups[k] + [i]])
  {
    var k := slot[rep[i]];
    var g := groups[k := groups[k] + [i]];
    forall m | 0 <= m < |g| ensures g[m] != [] && Increasing(g[m]) && g[m][0] == groups[m][0] {
      assert forall x :: x in groups[m] ==> x < i;
      assert forall a :: 0 <= a < |groups[m]| ==> groups[m][a] in groups[m];
    }
    forall x | 0 <= x < i + 1 ensures rep[x] in slot && x in g[slot[rep[x]]] {
      if x < i {
        assert x in groups[slot[rep[x]]];
      } else {
        assert g[k][|groups[k]|] == i;
      }
    }
  }

  lemma IdentityRepresents(p: seq<nat>, h: seq<nat>, rep: seq<nat>)
    requires |p| == |h| == |rep| && forall i :: 0 <= i < |p| ==> p[i] == i == rep[i]
    ensures Represents(p, h, rep, {})
  {
    forall a | 0 <= a < |rep| ensures Connected({}, a, rep[a]) {
      ConnectedSelf({}, a);
    }
  }
}
