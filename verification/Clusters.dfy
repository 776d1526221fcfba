/** Single-link clustering by union-find with path halving (kaizen_components/dedup.py).

    The similarity of records i < j is a number the caller supplies; the pair is an edge when the
    number reaches the threshold. */
module Clusters {
  import opened Orders

  type Edges = set<(nat, nat)>

  /** The pairs the double loop unites. */
  ghost function SimilarPairs(n: nat, score: (nat, nat) -> real, threshold: real): Edges {
    set i: nat, j: nat | i < j && j < n && score(i, j) >= threshold :: (i, j)
  }

  // ---- reachability --------------------------------------------------------------------------

  ghost predicate Adjacent(edges: Edges, u: nat, v: nat) {
    (u, v) in edges || (v, u) in edges
  }

  ghost predicate IsPath(edges: Edges, p: seq<nat>, u: nat, v: nat) {
    && p != [] && p[0] == u && p[|p| - 1] == v
    && forall k | 0 <= k < |p| - 1 :: Adjacent(edges, p[k], p[k + 1])
  }

  ghost predicate Linked(edges: Edges, u: nat, v: nat) {
    exists p :: IsPath(edges, p, u, v)
  }

  lemma LinkedRefl(edges: Edges, u: nat)
    ensures Linked(edges, u, u)
  {
    assert IsPath(edges, [u], u, u);
  }

  lemma LinkedEdge(edges: Edges, u: nat, v: nat)
    requires Adjacent(edges, u, v)
    ensures Linked(edges, u, v)
  {
    assert IsPath(edges, [u, v], u, v);
  }

  lemma LinkedTrans(edges: Edges, u: nat, v: nat, w: nat)
    requires Linked(edges, u, v) && Linked(edges, v, w)
    ensures Linked(edges, u, w)
  {
    var p :| IsPath(edges, p, u, v);
    var q :| IsPath(edges, q, v, w);
    var r := p + q[1..];
    forall k: nat | 0 <= k < |r| - 1
      ensures Adjacent(edges, r[k], r[k + 1])
    {
      if k >= |p| - 1 {
        var m := k - (|p| - 1);
        assert r[k] == q[m] && r[k + 1] == q[m + 1];
      }
    }
    assert IsPath(edges, r, u, w);
  }

  lemma LinkedSym(edges: Edges, u: nat, v: nat)
    requires Linked(edges, u, v)
    ensures Linked(edges, v, u)
  {
    var p :| IsPath(edges, p, u, v);
    var r := seq(|p|, k requires 0 <= k < |p| => p[|p| - 1 - k]);
    forall k: nat | 0 <= k < |r| - 1
      ensures Adjacent(edges, r[k], r[k + 1])
    {
      var m := |p| - 2 - k;
      assert Adjacent(edges, p[m], p[m + 1]);
    }
    assert IsPath(edges, r, v, u);
  }

  lemma LinkedMono(edges: Edges, more: Edges, u: nat, v: nat)
    requires Linked(edges, u, v) && edges <= more
    ensures Linked(more, u, v)
  {
    var p :| IsPath(edges, p, u, v);
    assert IsPath(more, p, u, v);
  }

  /** A label that agrees across every edge agrees along every path. */
  lemma {:induction false} PathKeepsLabel(edges: Edges, tag: seq<nat>, p: seq<nat>, u: nat, v: nat)
    requires forall e | e in edges :: e.0 < |tag| && e.1 < |tag| && tag[e.0] == tag[e.1]
    requires IsPath(edges, p, u, v) && u < |tag|
    ensures v < |tag| && tag[u] == tag[v]
    decreases |p|
  {
    if |p| > 1 {
      assert Adjacent(edges, p[0], p[1]);
      forall k: nat | 0 <= k < |p[1..]| - 1
        ensures Adjacent(edges, p[1..][k], p[1..][k + 1])
      {
        assert Adjacent(edges, p[k + 1], p[k + 2]);
      }
      PathKeepsLabel(edges, tag, p[1..], p[1], v);
    }
  }

  // ---- the forest ----------------------------------------------------------------------------

  /** `root` names each index's tree; `dist` falls along every parent link, so find terminates. */
  ghost predicate Forest(parent: seq<nat>, root: seq<nat>, dist: seq<nat>) {
    && |parent| == |root| == |dist|
    && forall x: nat | x < |parent| :: GoodLink(parent, root, dist, x)
  }

  ghost predicate GoodLink(parent: seq<nat>, root: seq<nat>, dist: seq<nat>, x: nat)
    requires x < |parent| == |root| == |dist|
  {
    && parent[x] < |parent| && root[x] < |parent|
    && (parent[x] == x ==> root[x] == x)
    && (parent[x] != x ==> dist[parent[x]] < dist[x])
    && root[parent[x]] == root[x]
    && parent[root[x]] == root[x]
  }

  /** Two indices carry one root exactly when the edges seen so far connect them. */
  ghost predicate Represents(root: seq<nat>, edges: Edges) {
    && (forall e | e in edges :: e.0 < |root| && e.1 < |root| && root[e.0] == root[e.1])
    && (forall x: nat | x < |root| :: Linked(edges, x, root[x]))
  }

  lemma SameRootIffLinked(root: seq<nat>, edges: Edges, x: nat, y: nat)
    requires Represents(root, edges) && x < |root| && y < |root|
    ensures root[x] == root[y] <==> Linked(edges, x, y)
  {
    if root[x] == root[y] {
      LinkedSym(edges, y, root[y]);
      LinkedTrans(edges, x, root[x], y);
    }
    if Linked(edges, x, y) {
      var p :| IsPath(edges, p, x, y);
      PathKeepsLabel(edges, root, p, x, y);
    }
  }

  lemma HalvingKeepsForest(parent: seq<nat>, root: seq<nat>, dist: seq<nat>, x: nat)
    requires Forest(parent, root, dist) && x < |parent| && parent[x] != x
    requires parent[x] < |parent|
    ensures Forest(parent[x := parent[parent[x]]], root, dist)
    ensures parent[parent[x]] < |parent|
    ensures root[parent[parent[x]]] == root[x] && dist[parent[parent[x]]] < dist[x]
  {
    assert GoodLink(parent, root, dist, x) && GoodLink(parent, root, dist, parent[x]);
    var after := parent[x := parent[parent[x]]];
    forall y: nat | y < |parent|
      ensures GoodLink(after, root, dist, y)
    {
      assert GoodLink(parent, root, dist, y);
    }
  }

  method Find(parent: array<nat>, start: nat, ghost root: seq<nat>, ghost dist: seq<nat>)
    returns (r: nat)
    requires Forest(parent[..], root, dist) && start < parent.Length
    modifies parent
    ensures Forest(parent[..], root, dist)
    ensures r == root[start] && r < parent.Length && root[r] == r
  {
    var x: nat := start;
    while parent[x] != x
      invariant Forest(parent[..], root, dist)
      invariant x < parent.Length == |root| && root[x] == root[start]
      decreases dist[x]
    {
      ghost var before := parent[..];
      assert GoodLink(before, root, dist, x) && GoodLink(before, root, dist, parent[x]);
      parent[x] := parent[parent[x]];
      HalvingKeepsForest(before, root, dist, x);
      assert parent[..] == before[x := before[before[x]]];
      x := parent[x];
    }
    assert GoodLink(parent[..], root, dist, x);
    r := x;
  }

  ghost function MergedRoot(root: seq<nat>, ri: nat, rj: nat): seq<nat> {
    seq(|root|, x requires 0 <= x < |root| => if root[x] == ri then rj else root[x])
  }

  ghost function LinkDist(root: seq<nat>, dist: seq<nat>, ri: nat, rj: nat): seq<nat>
    requires |root| == |dist| && rj < |dist|
  {
    seq(|root|, x requires 0 <= x < |root| => if root[x] == ri then dist[x] + dist[rj] + 1 else dist[x])
  }

  lemma UnionKeepsForest(parent: seq<nat>, root: seq<nat>, dist: seq<nat>, ri: nat, rj: nat)
    requires Forest(parent, root, dist)
    requires ri < |parent| && rj < |parent| && ri != rj && root[ri] == ri && root[rj] == rj
    ensures Forest(parent[ri := rj], MergedRoot(root, ri, rj), LinkDist(root, dist, ri, rj))
  {
    var parent', root', dist' := parent[ri := rj], MergedRoot(root, ri, rj), LinkDist(root, dist, ri, rj);
    forall x: nat | x < |parent|
      ensures GoodLink(parent', root', dist', x)
    {
      assert GoodLink(parent, root, dist, x) && GoodLink(parent, root, dist, ri) && GoodLink(parent, root, dist, rj);
    }
  }

  lemma UnionKeepsRepresents(root: seq<nat>, edges: Edges, i: nat, j: nat)
    requires Represents(root, edges) && i < |root| && j < |root|
    requires root[i] < |root| && root[j] < |root|
    ensures Represents(MergedRoot(root, root[i], root[j]), edges + {(i, j)})
  {
    var more := edges + {(i, j)};
    var merged := MergedRoot(root, root[i], root[j]);
    forall x: nat | x < |root|
      ensures Linked(more, x, merged[x])
    {
      LinkedMono(edges, more, x, root[x]);
      if root[x] == root[i] {
        LinkedMono(edges, more, i, root[i]);
        LinkedMono(edges, more, j, root[j]);
        LinkedSym(more, i, root[i]);
        LinkedEdge(more, i, j);
        LinkedTrans(more, x, root[x], i);
        LinkedTrans(more, x, i, j);
        LinkedTrans(more, x, j, root[j]);
      }
    }
  }

  lemma RedundantEdgeKeepsRepresents(root: seq<nat>, edges: Edges, i: nat, j: nat)
    requires Represents(root, edges) && i < |root| && j < |root| && root[i] == root[j]
    ensures Represents(root, edges + {(i, j)})
  {
    forall x: nat | x < |root|
      ensures Linked(edges + {(i, j)}, x, root[x])
    {
      LinkedMono(edges, edges + {(i, j)}, x, root[x]);
    }
  }

  // ---- the clusters --------------------------------------------------------------------------

  ghost predicate Ascending(s: seq<nat>) {
    forall a, b | 0 <= a < b < |s| :: s[a] < s[b]
  }

  predicate InCluster(clusters: seq<seq<nat>>, c: nat, x: nat) {
    c < |clusters| && x in clusters[c]
  }

  ghost predicate Covered(clusters: seq<seq<nat>>, x: nat) {
    exists c: nat :: InCluster(clusters, c, x)
  }

  /** The components of the graph: two indices share a cluster exactly when edges connect them. */
  ghost predicate IsClustering(n: nat, edges: Edges, clusters: seq<seq<nat>>) {
    && (forall c | 0 <= c < |clusters| :: clusters[c] != [] && Ascending(clusters[c]))
    && (forall x: nat :: x < n <==> Covered(clusters, x))
    && (forall c: nat, d: nat, x: nat, y: nat | InCluster(clusters, c, x) && InCluster(clusters, d, y) ::
          c == d <==> Linked(edges, x, y))
    && (forall c, d | 0 <= c < d < |clusters| :: clusters[c][0] < clusters[d][0])
  }

  /** `groups` holds, under each root, the indices below `i` of that tree in ascending order. */
  ghost predicate GroupsAgree(root: seq<nat>, i: nat, groups: map<nat, seq<nat>>)
    requires i <= |root|
  {
    && (forall k: nat | k in groups :: groups[k] != [] && Ascending(groups[k]))
    && (forall k: nat, x: nat {:trigger x in groups[k]} | k in groups && x in groups[k] :: x < i && root[x] == k)
    && (forall x: nat | x < i :: root[x] in groups && x in groups[root[x]])
  }

  /** The dictionary's insertion order: by least member. */
  ghost predicate KeysOrdered(keys: seq<nat>, groups: map<nat, seq<nat>>) {
    && (forall k: nat :: k in keys <==> k in groups)
    && (forall k: nat | k in groups :: groups[k] != [])
    && (forall a, b | 0 <= a < b < |keys| :: groups[keys[a]][0] < groups[keys[b]][0])
  }

  ghost function Values(keys: seq<nat>, groups: map<nat, seq<nat>>): (r: seq<seq<nat>>)
    requires forall k: nat | k in keys :: k in groups
    ensures |r| == |keys| && forall k: nat | 0 <= k < |keys| :: r[k] == groups[keys[k]]
  {
    seq(|keys|, k requires 0 <= k < |keys| => groups[keys[k]])
  }

  lemma ValuesCover(n: nat, root: seq<nat>, keys: seq<nat>, groups: map<nat, seq<nat>>, x: nat)
    requires |root| == n && GroupsAgree(root, n, groups) && KeysOrdered(keys, groups)
    ensures x < n <==> Covered(Values(keys, groups), x)
  {
    var clusters := Values(keys, groups);
    if x < n {
      var c :| 0 <= c < |keys| && keys[c] == root[x];
      assert InCluster(clusters, c, x);
    }
    if Covered(clusters, x) {
      var c: nat :| InCluster(clusters, c, x);
      assert keys[c] in groups;
    }
  }

  lemma ValuesSeparate(n: nat, edges: Edges, root: seq<nat>, keys: seq<nat>, groups: map<nat, seq<nat>>,
                       c: nat, d: nat, x: nat, y: nat)
    requires |root| == n && Represents(root, edges) && GroupsAgree(root, n, groups) && KeysOrdered(keys, groups)
    requires InCluster(Values(keys, groups), c, x) && InCluster(Values(keys, groups), d, y)
    ensures c == d <==> Linked(edges, x, y)
  {
    assert keys[c] in groups && keys[d] in groups;
    assert x in groups[keys[c]] && y in groups[keys[d]];
    assert root[x] == keys[c] && root[y] == keys[d];
    SameRootIffLinked(root, edges, x, y);
    if c != d {
      assert groups[keys[c]][0] != groups[keys[d]][0];
    }
  }

  lemma GroupedIsClustering(n: nat, edges: Edges, root: seq<nat>, keys: seq<nat>, groups: map<nat, seq<nat>>)
    requires |root| == n && Represents(root, edges) && GroupsAgree(root, n, groups) && KeysOrdered(keys, groups)
    ensures IsClustering(n, edges, Values(keys, groups))
  {
    var clusters := Values(keys, groups);
    forall x: nat
      ensures x < n <==> Covered(clusters, x)
    {
      ValuesCover(n, root, keys, groups, x);
    }
    forall c: nat, d: nat, x: nat, y: nat | InCluster(clusters, c, x) && InCluster(clusters, d, y)
      ensures c == d <==> Linked(edges, x, y)
    {
      ValuesSeparate(n, edges, root, keys, groups, c, d, x, y);
    }
  }

  /** Python's `sorted` on one group; the members were appended in ascending order. */
  lemma SortedGroup(s: seq<nat>)
    requires Ascending(s)
    ensures Sort((a: nat, b: nat) => a <= b, s) == s
  {
    SortIdentity((a: nat, b: nat) => a <= b, s);
  }

  /** The pairs (i, b) with b < j that the inner loop unites, and all of those for rows below i. */
  ghost function Row(score: (nat, nat) -> real, threshold: real, i: nat, j: nat): Edges {
    if j <= i + 1 then {}
    else Row(score, threshold, i, j - 1) + if score(i, j - 1) >= threshold then {(i, j - 1)} else {}
  }

  ghost function Rows(n: nat, score: (nat, nat) -> real, threshold: real, i: nat): Edges {
    if i == 0 then {} else Rows(n, score, threshold, i - 1) + Row(score, threshold, i - 1, n)
  }

  lemma {:induction false} RowMember(score: (nat, nat) -> real, threshold: real, i: nat, j: nat, a: nat, b: nat)
    ensures (a, b) in Row(score, threshold, i, j) <==> a == i && i < b < j && score(a, b) >= threshold
  {
    if j > i + 1 {
      RowMember(score, threshold, i, j - 1, a, b);
    }
  }

  lemma {:induction false} RowsMember(n: nat, score: (nat, nat) -> real, threshold: real, i: nat, a: nat, b: nat)
    ensures (a, b) in Rows(n, score, threshold, i) <==> a < i && a < b < n && score(a, b) >= threshold
  {
    if i > 0 {
      RowsMember(n, score, threshold, i - 1, a, b);
      RowMember(score, threshold, i - 1, n, a, b);
    }
  }

  lemma RowsComplete(n: nat, score: (nat, nat) -> real, threshold: real)
    ensures Rows(n, score, threshold, n) == SimilarPairs(n, score, threshold)
  {
    forall e: (nat, nat)
      ensures e in Rows(n, score, threshold, n) <==> e in SimilarPairs(n, score, threshold)
    {
      RowsMember(n, score, threshold, n, e.0, e.1);
    }
  }

  method Unite(parent: array<nat>, i: nat, j: nat, ghost root: seq<nat>, ghost dist: seq<nat>, ghost edges: Edges)
    returns (ghost root': seq<nat>, ghost dist': seq<nat>)
    requires Forest(parent[..], root, dist) && Represents(root, edges)
    requires i < parent.Length && j < parent.Length
    modifies parent
    ensures Forest(parent[..], root', dist') && Represents(root', edges + {(i, j)})
  {
    var ri := Find(parent, i, root, dist);
    var rj := Find(parent, j, root, dist);
    root', dist' := root, dist;
    if ri != rj {
      UnionKeepsForest(parent[..], root, dist, ri, rj);
      UnionKeepsRepresents(root, edges, i, j);
      ghost var before := parent[..];
      parent[ri] := rj;
      assert parent[..] == before[ri := rj];
      root', dist' := MergedRoot(root, ri, rj), LinkDist(root, dist, ri, rj);
    } else {
      RedundantEdgeKeepsRepresents(root, edges, i, j);
    }
  }

  /** `groups.setdefault(r, []).append(i)` with r the root of i. */
  function Appended(groups: map<nat, seq<nat>>, r: nat, i: nat): map<nat, seq<nat>> {
    groups[r := (if r in groups then groups[r] else []) + [i]]
  }

  lemma AppendKeepsGroups(root: seq<nat>, i: nat, groups: map<nat, seq<nat>>)
    requires i < |root| && GroupsAgree(root, i, groups)
    ensures GroupsAgree(root, i + 1, Appended(groups, root[i], i))
  {
    var r := root[i];
    var members := if r in groups then groups[r] else [];
    var groups' := Appended(groups, r, i);
    forall a | 0 <= a < |members|
      ensures members[a] < i
    {
      assert members[a] in groups[r];
    }
    assert (members + [i])[|members|] == i;
    forall x: nat | x < i + 1
      ensures root[x] in groups' && x in groups'[root[x]]
    {
    }
    forall k: nat, x: nat | k in groups' && x in groups'[k]
      ensures x < i + 1 && root[x] == k
    {
      if k != r || x != i {
        assert k in groups && x in groups[k];
      }
    }
  }

  lemma AppendKeepsOrder(root: seq<nat>, i: nat, keys: seq<nat>, groups: map<nat, seq<nat>>)
    requires i < |root| && GroupsAgree(root, i, groups) && KeysOrdered(keys, groups)
    ensures KeysOrdered(if root[i] in groups then keys else keys + [root[i]], Appended(groups, root[i], i))
  {
    var r := root[i];
    var groups' := Appended(groups, r, i);
    var keys' := if r in groups then keys else keys + [r];
    forall k: nat | k in groups
      ensures groups'[k][0] == groups[k][0] < i
    {
      assert groups[k][0] in groups[k];
      assert root[groups[k][0]] == k;
    }
    forall a, b | 0 <= a < b < |keys'|
      ensures groups'[keys'[a]][0] < groups'[keys'[b]][0]
    {
      assert keys[a] in groups;
      if b < |keys| {
        assert keys[b] in groups;
      }
    }
  }

  lemma DiscreteForest(n: nat)
    ensures Forest(seq(n, k => k), seq(n, k => k), seq(n, k => 0)) && Represents(seq(n, k => k), {})
  {
    forall x: nat | x < n
      ensures Linked({}, x, x)
    {
      LinkedRefl({}, x);
    }
  }

  /** The inner loop for a fixed i. */
  method UniteRow(parent: array<nat>, score: (nat, nat) -> real, threshold: real, i: nat,
                  ghost root: seq<nat>, ghost dist: seq<nat>, ghost edges: Edges)
    returns (ghost root': seq<nat>, ghost dist': seq<nat>)
    requires i < parent.Length && Forest(parent[..], root, dist) && Represents(root, edges)
    modifies parent
    ensures Forest(parent[..], root', dist')
    ensures Represents(root', edges + Row(score, threshold, i, parent.Length))
  {
    root', dist' := root, dist;
    ghost var seen := edges;
    for j := i + 1 to parent.Length
      invariant Forest(parent[..], root', dist') && Represents(root', seen)
      invariant seen == edges + Row(score, threshold, i, j)
    {
      if score(i, j) >= threshold {
        root', dist' := Unite(parent, i, j, root', dist', seen);
        seen := seen + {(i, j)};
      }
    }
  }

  method BuildForest(n: nat, score: (nat, nat) -> real, threshold: real)
    returns (parent: array<nat>, ghost root: seq<nat>, ghost dist: seq<nat>)
    ensures fresh(parent) && parent.Length == n
    ensures Forest(parent[..], root, dist) && Represents(root, SimilarPairs(n, score, threshold))
  {
    parent := new nat[n](k => k);
    root, dist := seq(n, k => k), seq(n, k => 0);
    DiscreteForest(n);
    assert parent[..] == root;
    for i := 0 to n
      invariant Forest(parent[..], root, dist)
      invariant Represents(root, Rows(n, score, threshold, i))
    {
      root, dist := UniteRow(parent, score, threshold, i, root, dist, Rows(n, score, threshold, i));
    }
    RowsComplete(n, score, threshold);
  }

  method GroupByRoot(parent: array<nat>, ghost root: seq<nat>, ghost dist: seq<nat>)
    returns (keys: seq<nat>, groups: map<nat, seq<nat>>)
    requires Forest(parent[..], root, dist)
    modifies parent
    ensures |root| == parent.Length && GroupsAgree(root, parent.Length, groups) && KeysOrdered(keys, groups)
  {
    keys, groups := [], map[];
    for i := 0 to parent.Length
      invariant |root| == parent.Length && Forest(parent[..], root, dist)
      invariant GroupsAgree(root, i, groups) && KeysOrdered(keys, groups)
    {
      var r := Find(parent, i, root, dist);
      AppendKeepsGroups(root, i, groups);
      AppendKeepsOrder(root, i, keys, groups);
      keys := if r in groups then keys else keys + [r];
      groups := Appended(groups, r, i);
    }
  }

  method SingleLinkClusters(n: nat, score: (nat, nat) -> real, threshold: real)
    returns (clusters: seq<seq<nat>>)
    ensures IsClustering(n, SimilarPairs(n, score, threshold), clusters)
  {
    var parent, root, dist := BuildForest(n, score, threshold);
    var keys, groups := GroupByRoot(parent, root, dist);
    GroupedIsClustering(n, SimilarPairs(n, score, threshold), root, keys, groups);
    clusters := [];
    for k := 0 to |keys|
      invariant |clusters| == k && forall c | 0 <= c < k :: clusters[c] == groups[keys[c]]
    {
      SortedGroup(groups[keys[k]]);
      clusters := clusters + [Sort((a: nat, b: nat) => a <= b, groups[keys[k]])];
    }
    assert clusters == Values(keys, groups);
  }

  // ---- what a clustering means to a reader ---------------------------------------------------

  lemma {:induction false} AscendingUnique(a: seq<nat>, b: seq<nat>)
    requires Ascending(a) && Ascending(b)
    requires forall x: nat :: x in a <==> x in b
    ensures a == b
  {
    assert a == [] || a[0] in a;
    assert b == [] || b[0] in b;
    if a != [] {
      assert a[0] == b[0];
      forall x: nat
        ensures x in a[1..] <==> x in b[1..]
      {
        TailMember(a, x);
        TailMember(b, x);
      }
      AscendingUnique(a[1..], b[1..]);
    }
  }

  lemma TailMember(a: seq<nat>, x: nat)
    requires Ascending(a) && a != []
    ensures x in a[1..] <==> x in a && x != a[0]
  {
    if x in a && x != a[0] {
      var k :| 0 <= k < |a| && a[k] == x;
      assert a[1..][k - 1] == x;
    }
  }

  ghost predicate Least(n: nat, edges: Edges, x: nat) {
    x < n && forall y: nat | y < n && Linked(edges, x, y) :: x <= y
  }

  ghost function Firsts(clusters: seq<seq<nat>>): (r: seq<nat>)
    requires forall c | 0 <= c < |clusters| :: clusters[c] != []
    ensures |r| == |clusters| && forall c | 0 <= c < |r| :: r[c] == clusters[c][0]
  {
    seq(|clusters|, c requires 0 <= c < |clusters| => clusters[c][0])
  }

  lemma FirstsAreLeast(n: nat, edges: Edges, clusters: seq<seq<nat>>, x: nat)
    requires IsClustering(n, edges, clusters)
    ensures x in Firsts(clusters) <==> Least(n, edges, x)
  {
    if x in Firsts(clusters) {
      var c :| 0 <= c < |clusters| && clusters[c][0] == x;
      assert InCluster(clusters, c, x) && Covered(clusters, x);
      forall y: nat | y < n && Linked(edges, x, y)
        ensures x <= y
      {
        assert Covered(clusters, y);
        var d: nat :| InCluster(clusters, d, y);
        assert c == d;
      }
    }
    if Least(n, edges, x) {
      assert Covered(clusters, x);
      var c: nat :| InCluster(clusters, c, x);
      assert InCluster(clusters, c, clusters[c][0]);
      assert Covered(clusters, clusters[c][0]);
      assert x == clusters[c][0];
    }
  }

  lemma ClusterMembers(n: nat, edges: Edges, clusters: seq<seq<nat>>, c: nat, y: nat)
    requires IsClustering(n, edges, clusters) && c < |clusters|
    ensures y in clusters[c] <==> y < n && Linked(edges, clusters[c][0], y)
  {
    assert InCluster(clusters, c, clusters[c][0]);
    if y in clusters[c] {
      assert InCluster(clusters, c, y) && Covered(clusters, y);
    }
    if y < n && Linked(edges, clusters[c][0], y) {
      assert Covered(clusters, y);
      var d: nat :| InCluster(clusters, d, y);
      assert c == d;
    }
  }

  /** The graph alone decides the result, so no other grouping or order meets the contract. */
  lemma ClusteringUnique(n: nat, edges: Edges, a: seq<seq<nat>>, b: seq<seq<nat>>)
    requires IsClustering(n, edges, a) && IsClustering(n, edges, b)
    ensures a == b
  {
    forall x: nat
      ensures x in Firsts(a) <==> x in Firsts(b)
    {
      FirstsAreLeast(n, edges, a, x);
      FirstsAreLeast(n, edges, b, x);
    }
    AscendingUnique(Firsts(a), Firsts(b));
    forall c | 0 <= c < |a|
      ensures a[c] == b[c]
    {
      assert a[c][0] == Firsts(a)[c] == b[c][0];
      forall y: nat
        ensures y in a[c] <==> y in b[c]
      {
        ClusterMembers(n, edges, a, c, y);
        ClusterMembers(n, edges, b, c, y);
      }
      AscendingUnique(a[c], b[c]);
    }
  }

  ghost predicate Within(a: seq<nat>, b: seq<nat>) {
    forall x: nat | x in a :: x in b
  }

  /** Raising the threshold only splits clusters. */
  lemma HigherThresholdSplits(n: nat, score: (nat, nat) -> real, low: real, high: real,
                              coarse: seq<seq<nat>>, fine: seq<seq<nat>>, c: nat)
    requires low <= high && c < |fine|
    requires IsClustering(n, SimilarPairs(n, score, low), coarse)
    requires IsClustering(n, SimilarPairs(n, score, high), fine)
    ensures exists d: nat :: d < |coarse| && Within(fine[c], coarse[d])
  {
    var few, many := SimilarPairs(n, score, high), SimilarPairs(n, score, low);
    var head := fine[c][0];
    ClusterMembers(n, few, fine, c, head);
    assert Covered(coarse, head);
    var d: nat :| InCluster(coarse, d, head);
    forall x: nat | x in fine[c]
      ensures x in coarse[d]
    {
      ClusterMembers(n, few, fine, c, x);
      LinkedMono(few, many, head, x);
      assert Covered(coarse, x);
      var e: nat :| InCluster(coarse, e, x);
      assert e == d;
    }
    assert Within(fine[c], coarse[d]);
  }
}
