/** Grouping discovery candidates that share an identity key. A candidate is known here by its
    position in the input; `keys[i]` are the identity keys of candidate i. */
module CandidateClusters {

  datatype Cluster = Cluster(members: seq<nat>, keys: set<string>)

  // ---- The graph "shares an identity key" --------------------------------------------

  predicate Adjacent(keys: seq<set<string>>, i: nat, j: nat) {
    i < |keys| && j < |keys| && keys[i] * keys[j] != {}
  }

  ghost predicate Chain(keys: seq<set<string>>, path: seq<nat>) {
    && path != []
    && (forall n :: 0 <= n < |path| ==> path[n] < |keys|)
    && (forall n :: 0 < n < |path| ==> Adjacent(keys, path[n - 1], path[n]))
  }

  /** A chain of key-sharing candidates leads from i to j. */
  ghost predicate Linked(keys: seq<set<string>>, i: nat, j: nat) {
    exists path :: Chain(keys, path) && path[0] == i && path[|path| - 1] == j
  }

  lemma LinkedToSelf(keys: seq<set<string>>, i: nat)
    requires i < |keys|
    ensures Linked(keys, i, i)
  {
    assert Chain(keys, [i]);
  }

  lemma LinkedToNeighbour(keys: seq<set<string>>, i: nat, j: nat)
    requires Adjacent(keys, i, j)
    ensures Linked(keys, i, j)
  {
    assert Chain(keys, [i, j]);
  }

  lemma LinkedSymmetric(keys: seq<set<string>>, i: nat, j: nat)
    requires Linked(keys, i, j)
    ensures Linked(keys, j, i)
  {
    var path :| Chain(keys, path) && path[0] == i && path[|path| - 1] == j;
    var back := seq(|path|, n requires 0 <= n < |path| => path[|path| - 1 - n]);
    forall n | 0 < n < |back| ensures Adjacent(keys, back[n - 1], back[n]) {
      assert Adjacent(keys, path[|path| - 1 - n], path[|path| - n]);
    }
    assert Chain(keys, back);
  }

  lemma LinkedTransitive(keys: seq<set<string>>, i: nat, j: nat, k: nat)
    requires Linked(keys, i, j) && Linked(keys, j, k)
    ensures Linked(keys, i, k)
  {
    var p :| Chain(keys, p) && p[0] == i && p[|p| - 1] == j;
    var q :| Chain(keys, q) && q[0] == j && q[|q| - 1] == k;
    var whole := p + q[1..];
    forall n | 0 < n < |whole| ensures Adjacent(keys, whole[n - 1], whole[n]) {
      if n < |p| {
        assert Adjacent(keys, p[n - 1], p[n]);
      } else {
        assert Adjacent(keys, q[n - |p|], q[n - |p| + 1]);
        assert n == |p| ==> whole[n - 1] == q[0];
      }
    }
    assert Chain(keys, whole);
  }

  /** A candidate without keys is linked to itself alone. */
  lemma KeylessStaysAlone(keys: seq<set<string>>, i: nat, j: nat)
    requires i < |keys| && keys[i] == {} && Linked(keys, i, j)
    ensures j == i
  {
    var path :| Chain(keys, path) && path[0] == i && path[|path| - 1] == j;
    assert |path| > 1 ==> Adjacent(keys, path[0], path[1]);
  }

  // ---- Clusters ----------------------------------------------------------------------

  /** A cluster holds distinct linked candidates and exactly their keys. */
  ghost predicate Good(keys: seq<set<string>>, c: Cluster) {
    && c.members != []
    && (forall i :: i in c.members ==> i < |keys|)
    && (forall m, n :: 0 <= m < n < |c.members| ==> c.members[m] != c.members[n])
    && (forall x :: x in c.keys <==> exists i :: i in c.members && i < |keys| && x in keys[i])
    && (forall i, j :: i in c.members && j in c.members ==> Linked(keys, i, j))
  }

  predicate MembersApart(a: Cluster, b: Cluster) {
    forall i :: i in a.members ==> i !in b.members
  }

  ghost predicate AllGood(keys: seq<set<string>>, clusters: seq<Cluster>) {
    forall k :: 0 <= k < |clusters| ==> Good(keys, clusters[k])
  }

  ghost predicate AllMembersApart(clusters: seq<Cluster>) {
    forall a, b :: 0 <= a < b < |clusters| ==> MembersApart(clusters[a], clusters[b])
  }

  /** Key sets are pairwise disjoint, except that cluster `t` may still share keys with `open`. */
  ghost predicate KeysApartExcept(clusters: seq<Cluster>, t: int, open: set<int>) {
    forall a, b :: 0 <= a < b < |clusters| && !(a == t && b in open) ==> clusters[a].keys !! clusters[b].keys
  }

  ghost predicate HoldsMember(clusters: seq<Cluster>, i: nat) {
    exists k :: 0 <= k < |clusters| && i in clusters[k].members
  }

  ghost predicate Covers(clusters: seq<Cluster>, n: nat) {
    && (forall i: nat :: i < n ==> HoldsMember(clusters, i))
    && (forall k, i :: 0 <= k < |clusters| && i in clusters[k].members ==> i < n)
  }

  ghost predicate SameCluster(clusters: seq<Cluster>, i: nat, j: nat) {
    exists k :: 0 <= k < |clusters| && i in clusters[k].members && j in clusters[k].members
  }

  /** The clusters are a partition of the candidates into the connected components of the graph. */
  ghost predicate IsComponents(keys: seq<set<string>>, clusters: seq<Cluster>) {
    && AllGood(keys, clusters)
    && AllMembersApart(clusters)
    && Covers(clusters, |keys|)
    && (forall i: nat, j: nat :: i < |keys| && j < |keys| ==> (SameCluster(clusters, i, j) <==> Linked(keys, i, j)))
    && (forall a, b :: 0 <= a < b < |clusters| ==> clusters[a].keys !! clusters[b].keys)
  }

  function Join(a: Cluster, b: Cluster): Cluster {
    Cluster(a.members + b.members, a.keys + b.keys)
  }

  lemma GoodJoin(keys: seq<set<string>>, a: Cluster, b: Cluster, i: nat, j: nat)
    requires Good(keys, a) && Good(keys, b) && MembersApart(a, b)
    requires i in a.members && j in b.members && Adjacent(keys, i, j)
    ensures Good(keys, Join(a, b))
  {
    hide Linked, Adjacent;
    var c := Join(a, b);
    assert forall x :: x in c.members <==> x in a.members || x in b.members;
    LinkedToNeighbour(keys, i, j);
    forall p, q | p in a.members && q in b.members ensures Linked(keys, p, q) && Linked(keys, q, p) {
      LinkedTransitive(keys, p, i, j);
      LinkedTransitive(keys, p, j, q);
      LinkedSymmetric(keys, p, q);
    }
    forall m, n | 0 <= m < n < |c.members| ensures c.members[m] != c.members[n] {
      if m < |a.members| <= n { assert c.members[n] in b.members && c.members[m] in a.members; }
    }
  }

  function Without(clusters: seq<Cluster>, d: nat): seq<Cluster>
    requires d < |clusters|
  {
    clusters[..d] + clusters[d + 1..]
  }

  /** Folding cluster d into cluster t and dropping d: the pop-and-extend of the merge loop. */
  function Fold(clusters: seq<Cluster>, t: nat, d: nat): seq<Cluster>
    requires t < d < |clusters|
  {
    Without(clusters[t := Join(clusters[t], clusters[d])], d)
  }

  /** Position in the old list of what is at position k after a fold at d. */
  function Old(k: int, d: int): int {
    if k < d then k else k + 1
  }

  lemma FoldAt(clusters: seq<Cluster>, t: nat, d: nat, k: nat)
    requires t < d < |clusters| && k < |clusters| - 1
    ensures Fold(clusters, t, d)[k] == if k == t then Join(clusters[t], clusters[d]) else clusters[Old(k, d)]
  {
  }

  lemma FoldKeepsApart(clusters: seq<Cluster>, t: nat, d: nat, open: set<int>)
    requires t < d < |clusters| && d in open && forall m :: m in open ==> t < m <= d
    requires AllMembersApart(clusters) && KeysApartExcept(clusters, t, open)
    ensures AllMembersApart(Fold(clusters, t, d)) && KeysApartExcept(Fold(clusters, t, d), t, open - {d})
  {
    var r := Fold(clusters, t, d);
    forall a, b | 0 <= a < b < |r| ensures MembersApart(r[a], r[b]) {
      FoldAt(clusters, t, d, a);
      FoldAt(clusters, t, d, b);
      var a', b' := Old(a, d), Old(b, d);
      assert MembersApart(clusters[a'], clusters[b']);
      if a == t {
        if b' < d {
          assert MembersApart(clusters[b'], clusters[d]);
        } else {
          assert MembersApart(clusters[d], clusters[b']);
        }
      }
      if b == t { assert MembersApart(clusters[a], clusters[d]); }
    }
    forall a, b | 0 <= a < b < |r| && !(a == t && b in open - {d}) ensures r[a].keys !! r[b].keys {
      FoldAt(clusters, t, d, a);
      FoldAt(clusters, t, d, b);
      var a', b' := Old(a, d), Old(b, d);
      assert clusters[a'].keys !! clusters[b'].keys;
      if a == t {
        if b' < d {
          assert clusters[b'].keys !! clusters[d].keys;
        } else {
          assert clusters[d].keys !! clusters[b'].keys;
        }
      }
      if b == t { assert clusters[a].keys !! clusters[d].keys; }
    }
  }

  lemma FoldKeepsGood(keys: seq<set<string>>, clusters: seq<Cluster>, t: nat, d: nat, i: nat)
    requires t < d < |clusters| && AllGood(keys, clusters) && AllMembersApart(clusters)
    requires i in clusters[t].members && i < |keys| && clusters[d].keys * keys[i] != {}
    ensures AllGood(keys, Fold(clusters, t, d))
    ensures i in Fold(clusters, t, d)[t].members
  {
    hide Linked;
    var x :| x in keys[i] && x in clusters[d].keys;
    assert Good(keys, clusters[d]);
    var j :| j in clusters[d].members && j < |keys| && x in keys[j];
    assert x in keys[i] * keys[j];
    assert MembersApart(clusters[t], clusters[d]);
    GoodJoin(keys, clusters[t], clusters[d], i, j);
    var r := Fold(clusters, t, d);
    forall k | 0 <= k < |r| ensures Good(keys, r[k]) {
      FoldAt(clusters, t, d, k);
    }
    FoldAt(clusters, t, d, t);
  }

  lemma FoldCovers(clusters: seq<Cluster>, t: nat, d: nat, n: nat)
    requires t < d < |clusters| && Covers(clusters, n)
    ensures Covers(Fold(clusters, t, d), n)
  {
    var r := Fold(clusters, t, d);
    forall i: nat | i < n ensures HoldsMember(r, i) {
      assert HoldsMember(clusters, i);
      var k :| 0 <= k < |clusters| && i in clusters[k].members;
      var k' := if k == d then t else if k < d then k else k - 1;
      FoldAt(clusters, t, d, k');
      assert i in r[k'].members;
    }
    forall k, i | 0 <= k < |r| && i in r[k].members ensures i < n {
      FoldAt(clusters, t, d, k);
    }
  }

  /** With disjoint keys everywhere, linked candidates end up in one cluster. */
  lemma {:induction false} ChainStaysInCluster(keys: seq<set<string>>, clusters: seq<Cluster>, path: seq<nat>)
    requires AllGood(keys, clusters) && Covers(clusters, |keys|) && KeysApartExcept(clusters, -1, {})
    requires Chain(keys, path)
    ensures SameCluster(clusters, path[0], path[|path| - 1])
  {
    hide Linked;
    if |path| == 1 {
      assert HoldsMember(clusters, path[0]);
    } else {
      var front, last := path[..|path| - 1], path[|path| - 1];
      assert Adjacent(keys, path[|path| - 2], last);
      ChainStaysInCluster(keys, clusters, front);
      var k :| 0 <= k < |clusters| && path[0] in clusters[k].members && front[|front| - 1] in clusters[k].members;
      assert HoldsMember(clusters, last);
      var l :| 0 <= l < |clusters| && last in clusters[l].members;
      var x :| x in keys[front[|front| - 1]] && x in keys[last];
      assert Good(keys, clusters[k]) && Good(keys, clusters[l]);
      assert x in clusters[k].keys && x in clusters[l].keys;
    }
  }

  lemma ApartClustersAreComponents(keys: seq<set<string>>, clusters: seq<Cluster>)
    requires AllGood(keys, clusters) && AllMembersApart(clusters)
    requires Covers(clusters, |keys|) && KeysApartExcept(clusters, -1, {})
    ensures IsComponents(keys, clusters)
  {
    forall i: nat, j: nat | i < |keys| && j < |keys| ensures SameCluster(clusters, i, j) <==> Linked(keys, i, j) {
      if Linked(keys, i, j) {
        var path :| Chain(keys, path) && path[0] == i && path[|path| - 1] == j;
        ChainStaysInCluster(keys, clusters, path);
      }
      if SameCluster(clusters, i, j) {
        var k :| 0 <= k < |clusters| && i in clusters[k].members && j in clusters[k].members;
        assert Good(keys, clusters[k]);
      }
    }
  }

  // ---- The algorithm -----------------------------------------------------------------

  predicate Separate(keys: seq<set<string>>) {
    forall i, j :: 0 <= i < j < |keys| ==> keys[i] !! keys[j]
  }

  function Singletons(keys: seq<set<string>>): (r: seq<Cluster>)
    ensures |r| == |keys| && forall i :: 0 <= i < |r| ==> r[i] == Cluster([i], keys[i])
  {
    seq(|keys|, i requires 0 <= i < |keys| => Cluster([i], keys[i]))
  }

  /** The positions of the clusters that share a key with the candidate, in order. */
  method MatchingIndices(clusters: seq<Cluster>, candidateKeys: set<string>) returns (matching: seq<nat>)
    ensures forall m, n :: 0 <= m < n < |matching| ==> matching[m] < matching[n]
    ensures forall k :: k in matching <==> 0 <= k < |clusters| && clusters[k].keys * candidateKeys != {}
  {
    matching := [];
    for k := 0 to |clusters|
      invariant forall m, n :: 0 <= m < n < |matching| ==> matching[m] < matching[n]
      invariant forall l :: l in matching <==> 0 <= l < k && clusters[l].keys * candidateKeys != {}
    {
      if candidateKeys != {} && clusters[k].keys * candidateKeys != {} {
        forall m | 0 <= m < |matching| ensures matching[m] < k { assert matching[m] in matching; }
        matching := matching + [k];
      }
    }
  }

  lemma GoodSingleton(keys: seq<set<string>>, n: nat)
    requires n < |keys|
    ensures Good(keys, Cluster([n], keys[n]))
  {
    hide Linked;
    LinkedToSelf(keys, n);
  }

  lemma AppendKeeps(keys: seq<set<string>>, clusters: seq<Cluster>, n: nat)
    requires n < |keys| && Good(keys, Cluster([n], keys[n]))
    requires AllGood(keys, clusters) && AllMembersApart(clusters)
    requires Covers(clusters, n) && KeysApartExcept(clusters, -1, {})
    requires forall k :: 0 <= k < |clusters| ==> clusters[k].keys * keys[n] == {}
    ensures
      var r := clusters + [Cluster([n], keys[n])];
      AllGood(keys, r) && AllMembersApart(r) && Covers(r, n + 1) && KeysApartExcept(r, -1, {})
  {
    hide Good;
    var r := clusters + [Cluster([n], keys[n])];
    forall i: nat | i < n + 1 ensures HoldsMember(r, i) {
      if i == n {
        assert n in r[|clusters|].members;
      } else {
        assert HoldsMember(clusters, i);
        var k :| 0 <= k < |clusters| && i in clusters[k].members;
        assert i in r[k].members;
      }
    }
    forall a, b | 0 <= a < b < |r| ensures r[a].keys !! r[b].keys {
      if b < |clusters| {
        assert clusters[a].keys !! clusters[b].keys;
      } else {
        DisjointIff(clusters[a].keys, keys[n]);
      }
    }
  }

  lemma DisjointIff(a: set<string>, b: set<string>)
    ensures a * b == {} <==> a !! b
  {
    if a * b == {} {
      forall x | x in a ensures x !in b {
        assert x !in a * b;
      }
    }
  }

  /** Adding the candidate to the first matching cluster leaves only the other matching clusters
      sharing keys with it. */
  lemma AddCandidateKeeps(keys: seq<set<string>>, clusters: seq<Cluster>, n: nat, t: nat, others: set<int>)
    requires n < |keys| && Good(keys, Cluster([n], keys[n]))
    requires AllGood(keys, clusters) && AllMembersApart(clusters)
    requires Covers(clusters, n) && KeysApartExcept(clusters, -1, {})
    requires t < |clusters| && clusters[t].keys * keys[n] != {}
    requires forall k :: 0 <= k < |clusters| && clusters[k].keys * keys[n] != {} ==> k == t || (k > t && k in others)
    ensures
      var r := clusters[t := Join(clusters[t], Cluster([n], keys[n]))];
      && AllGood(keys, r) && AllMembersApart(r) && Covers(r, n + 1) && KeysApartExcept(r, t, others)
      && n in r[t].members
  {
    hide Linked;
    var single := Cluster([n], keys[n]);
    var r := clusters[t := Join(clusters[t], single)];
    var x :| x in clusters[t].keys && x in keys[n];
    assert Good(keys, clusters[t]);
    var i :| i in clusters[t].members && i < |keys| && x in keys[i];
    assert x in keys[i] * keys[n];
    assert MembersApart(clusters[t], single);
    GoodJoin(keys, clusters[t], single, i, n);
    assert n in r[t].members;
    forall i: nat | i < n + 1 ensures HoldsMember(r, i) {
      if i != n {
        assert HoldsMember(clusters, i);
        var k :| 0 <= k < |clusters| && i in clusters[k].members;
        assert i in r[k].members;
      }
    }
    AddCandidateKeepsApart(keys, clusters, n, t, others);
  }

  lemma AddCandidateKeepsApart(keys: seq<set<string>>, clusters: seq<Cluster>, n: nat, t: nat, others: set<int>)
    requires n < |keys|
    requires AllMembersApart(clusters) && Covers(clusters, n) && KeysApartExcept(clusters, -1, {})
    requires t < |clusters|
    requires forall k :: 0 <= k < |clusters| && clusters[k].keys * keys[n] != {} ==> k == t || (k > t && k in others)
    ensures
      var r := clusters[t := Join(clusters[t], Cluster([n], keys[n]))];
      AllMembersApart(r) && KeysApartExcept(r, t, others)
  {
    var r := clusters[t := Join(clusters[t], Cluster([n], keys[n]))];
    assert forall i :: i in r[t].members <==> i in clusters[t].members || i == n;
    assert forall k :: 0 <= k < |clusters| ==> n !in clusters[k].members;
    forall a, b | 0 <= a < b < |r| ensures MembersApart(r[a], r[b]) {
      assert MembersApart(clusters[a], clusters[b]);
    }
    forall a, b | 0 <= a < b < |r| && !(a == t && b in others) ensures r[a].keys !! r[b].keys {
      assert clusters[a].keys !! clusters[b].keys;
      if a == t { DisjointIff(clusters[b].keys, keys[n]); }
      if b == t { DisjointIff(clusters[a].keys, keys[n]); }
    }
  }

  // ---- What the merge loop gathers ---------------------------------------------------

  /** The clusters that share no key with `ks`, in order. */
  function Unmatched(clusters: seq<Cluster>, ks: set<string>): seq<Cluster> {
    if clusters == [] then [] else
    var last := clusters[|clusters| - 1];
    Unmatched(clusters[..|clusters| - 1], ks) + if last.keys * ks != {} then [] else [last]
  }

  lemma {:induction false} UnmatchedConcat(a: seq<Cluster>, b: seq<Cluster>, ks: set<string>)
    ensures Unmatched(a + b, ks) == Unmatched(a, ks) + Unmatched(b, ks)
  {
    if b == [] {
      assert a + b == a;
    } else {
      var n := |b| - 1;
      assert (a + b)[..|a| + n] == a + b[..n];
      UnmatchedConcat(a, b[..n], ks);
    }
  }

  /** Dropping a cluster that matches leaves the others as they are. */
  lemma UnmatchedWithout(clusters: seq<Cluster>, d: nat, ks: set<string>)
    requires d < |clusters| && clusters[d].keys * ks != {}
    ensures Unmatched(Without(clusters, d), ks) == Unmatched(clusters, ks)
  {
    hide Unmatched;
    var a, c, b := clusters[..d], clusters[d], clusters[d + 1..];
    assert clusters == a + [c] + b;
    UnmatchedConcat(a, b, ks);
    UnmatchedConcat(a + [c], b, ks);
    UnmatchedConcat(a, [c], ks);
    UnmatchedOne(c, ks);
  }

  lemma UnmatchedOne(c: Cluster, ks: set<string>)
    requires c.keys * ks != {}
    ensures Unmatched([c], ks) == []
  {
    assert [c][..0] == [];
  }

  lemma {:induction false} UnmatchedAll(clusters: seq<Cluster>, ks: set<string>)
    requires forall k :: 0 <= k < |clusters| ==> clusters[k].keys !! ks
    ensures Unmatched(clusters, ks) == clusters
  {
    if clusters != [] {
      UnmatchedAll(clusters[..|clusters| - 1], ks);
    }
  }

  /** A fold changes neither the clusters that do not match nor their order. */
  lemma UnmatchedFold(clusters: seq<Cluster>, t: nat, d: nat, ks: set<string>)
    requires t < d < |clusters| && clusters[d].keys * ks != {}
    ensures Unmatched(Without(Fold(clusters, t, d), t), ks) == Unmatched(Without(clusters, t), ks)
  {
    var rest := Without(clusters, t);
    assert rest[d - 1] == clusters[d];
    UnmatchedWithout(rest, d - 1, ks);
    assert Without(Fold(clusters, t, d), t) == Without(rest, d - 1);
  }

  function MemberSet(c: Cluster): (r: set<nat>)
    ensures forall x :: x in r <==> x in c.members
  {
    set x | x in c.members
  }

  /** All members of the matching clusters from position r of the list on. */
  function Gathered(clusters: seq<Cluster>, matching: seq<nat>, r: nat): (members: set<nat>)
    requires r <= |matching| && forall i :: r <= i < |matching| ==> matching[i] < |clusters|
    ensures forall x :: x in members <==> exists i :: r <= i < |matching| && x in clusters[matching[i]].members
    decreases |matching| - r
  {
    if r == |matching| then {} else MemberSet(clusters[matching[r]]) + Gathered(clusters, matching, r + 1)
  }

  /** The candidate joins the first matching cluster, and the other matching clusters are popped
      from the last to the second and folded into it: that cluster, at its place, gathers the candidate
      and all members of the matching clusters, and the clusters that do not match stay in order. */
  method Absorb(keys: seq<set<string>>, before: seq<Cluster>, n: nat, matching: seq<nat>)
      returns (clusters: seq<Cluster>)
    requires n < |keys| && Good(keys, Cluster([n], keys[n]))
    requires AllGood(keys, before) && AllMembersApart(before)
    requires Covers(before, n) && KeysApartExcept(before, -1, {})
    requires matching != [] && forall i, j :: 0 <= i < j < |matching| ==> matching[i] < matching[j]
    requires forall k :: k in matching <==> 0 <= k < |before| && before[k].keys * keys[n] != {}
    requires forall i :: 0 <= i < |matching| ==> matching[i] < |before|
    ensures AllGood(keys, clusters) && AllMembersApart(clusters)
    ensures Covers(clusters, n + 1) && KeysApartExcept(clusters, -1, {})
    ensures matching[0] < |clusters|
    ensures MemberSet(clusters[matching[0]]) == {n} + Gathered(before, matching, 0)
    ensures Without(clusters, matching[0]) == Unmatched(before, keys[n])
  {
    hide Linked, Good, AllGood, AllMembersApart, Covers, KeysApartExcept, Unmatched, Gathered;
    var t := matching[0];
    assert t in matching;
    forall k | 0 <= k < |before| && before[k].keys * keys[n] != {}
      ensures k == t || (k > t && k in Among(matching, |matching|)) {
      assert k in matching;
      var i :| 0 <= i < |matching| && matching[i] == k;
    }
    AddCandidateKeeps(keys, before, n, t, Among(matching, |matching|));
    clusters := before[t := Join(before[t], Cluster([n], keys[n]))];
    ghost var joined := clusters;
    assert forall i :: 1 <= i < |matching| ==> matching[i] in matching && matching[i] > t;
    assert Folding(keys, clusters, n, t, Among(matching, |matching|));
    clusters := FoldMatching(keys, clusters, n, matching);
    NothingOpen(clusters, t);
    GatheredElsewhere(before, joined, matching);
    assert Without(joined, t) == Without(before, t);
    UnmatchedWithout(before, t, keys[n]);
    RestIsUnmatched(keys, clusters, n, t);
  }

  lemma GatheredElsewhere(before: seq<Cluster>, joined: seq<Cluster>, matching: seq<nat>)
    requires matching != [] && forall i :: 0 <= i < |matching| ==> matching[i] < |before|
    requires forall i, j :: 0 <= i < j < |matching| ==> matching[i] < matching[j]
    requires |joined| == |before| && forall k :: 0 <= k < |before| && k != matching[0] ==> joined[k] == before[k]
    ensures Gathered(joined, matching, 1) == Gathered(before, matching, 1)
    ensures Gathered(before, matching, 0) == MemberSet(before[matching[0]]) + Gathered(before, matching, 1)
  {
    forall x ensures x in Gathered(joined, matching, 1) <==> x in Gathered(before, matching, 1) {
    }
  }

  /** Once the loop is done, every other cluster is disjoint from the candidate's keys. */
  lemma RestIsUnmatched(keys: seq<set<string>>, clusters: seq<Cluster>, n: nat, t: nat)
    requires n < |keys| && AllGood(keys, clusters) && KeysApartExcept(clusters, -1, {})
    requires t < |clusters| && n in clusters[t].members
    ensures Unmatched(Without(clusters, t), keys[n]) == Without(clusters, t)
  {
    hide Linked;
    assert Good(keys, clusters[t]);
    assert keys[n] <= clusters[t].keys;
    var rest := Without(clusters, t);
    forall k | 0 <= k < |rest| ensures rest[k].keys !! keys[n] {
      if k < t {
        assert clusters[k].keys !! clusters[t].keys;
      } else {
        assert clusters[t].keys !! clusters[k + 1].keys;
      }
    }
    UnmatchedAll(rest, keys[n]);
  }

  method FoldMatching(keys: seq<set<string>>, before: seq<Cluster>, n: nat, matching: seq<nat>)
      returns (clusters: seq<Cluster>)
    requires n < |keys| && matching != [] && forall i, j :: 0 <= i < j < |matching| ==> matching[i] < matching[j]
    requires Folding(keys, before, n, matching[0], Among(matching, |matching|))
    requires forall i :: 1 <= i < |matching| ==> matching[i] < |before| && before[matching[i]].keys * keys[n] != {}
    ensures Folding(keys, clusters, n, matching[0], {})
    ensures matching[0] < |clusters|
    ensures MemberSet(clusters[matching[0]]) == MemberSet(before[matching[0]]) + Gathered(before, matching, 1)
    ensures Unmatched(Without(clusters, matching[0]), keys[n]) == Unmatched(Without(before, matching[0]), keys[n])
  {
    hide Folding, Gathered, Unmatched, MemberSet;
    var t := matching[0];
    assert t < |before| by { FoldingInRange(keys, before, n, t, Among(matching, |matching|)); }
    NothingGathered(before, matching);
    clusters := before;
    var r := |matching|;
    while r > 1
      invariant 1 <= r <= |matching|
      invariant Folding(keys, clusters, n, t, Among(matching, r))
      invariant forall i :: 1 <= i < r ==> matching[i] < |clusters| && clusters[matching[i]].keys * keys[n] != {}
      invariant t < |clusters| && forall i :: 1 <= i < r ==> clusters[matching[i]] == before[matching[i]]
      invariant MemberSet(clusters[t]) == MemberSet(before[t]) + Gathered(before, matching, r)
      invariant Unmatched(Without(clusters, t), keys[n]) == Unmatched(Without(before, t), keys[n])
    {
      r := r - 1;
      var d := matching[r];
      GatheredNext(before, matching, r);
      UnmatchedFold(clusters, t, d, keys[n]);
      FoldAt(clusters, t, d, t);
      MembersOfJoin(clusters[t], clusters[d]);
      FoldStep(keys, clusters, n, t, d, Among(matching, r + 1));
      forall i | 1 <= i < r
        ensures matching[i] < |clusters| - 1 && Fold(clusters, t, d)[matching[i]] == clusters[matching[i]] {
        FoldAt(clusters, t, d, matching[i]);
      }
      assert Among(matching, r + 1) - {d} == Among(matching, r);
      clusters := Fold(clusters, t, d);
    }
    assert Among(matching, r) == {};
  }

  lemma FoldingInRange(keys: seq<set<string>>, clusters: seq<Cluster>, n: nat, t: nat, open: set<int>)
    requires Folding(keys, clusters, n, t, open)
    ensures t < |clusters|
  {
  }

  lemma NothingGathered(clusters: seq<Cluster>, matching: seq<nat>)
    ensures Gathered(clusters, matching, |matching|) == {}
  {
  }

  lemma GatheredNext(clusters: seq<Cluster>, matching: seq<nat>, r: nat)
    requires r < |matching| && forall i :: r <= i < |matching| ==> matching[i] < |clusters|
    ensures Gathered(clusters, matching, r) == MemberSet(clusters[matching[r]]) + Gathered(clusters, matching, r + 1)
  {
  }

  lemma MembersOfJoin(a: Cluster, b: Cluster)
    ensures MemberSet(Join(a, b)) == MemberSet(a) + MemberSet(b)
  {
  }

  /** Where the merge loop stands: the candidate sits in cluster t, which may still share keys
      with the clusters in `open` and with no other. */
  ghost predicate Folding(keys: seq<set<string>>, clusters: seq<Cluster>, n: nat, t: nat, open: set<int>) {
    && t < |clusters| && n in clusters[t].members
    && AllGood(keys, clusters) && AllMembersApart(clusters)
    && Covers(clusters, n + 1) && KeysApartExcept(clusters, t, open)
  }

  lemma FoldStep(keys: seq<set<string>>, clusters: seq<Cluster>, n: nat, t: nat, d: nat, open: set<int>)
    requires n < |keys| && Folding(keys, clusters, n, t, open)
    requires t < d < |clusters| && d in open && forall m :: m in open ==> t < m <= d
    requires clusters[d].keys * keys[n] != {}
    ensures Folding(keys, Fold(clusters, t, d), n, t, open - {d})
  {
    hide AllGood, AllMembersApart, Covers, KeysApartExcept;
    FoldKeepsGood(keys, clusters, t, d, n);
    FoldKeepsApart(clusters, t, d, open);
    FoldCovers(clusters, t, d, n + 1);
  }

  /** The matching positions after the first and before position r of the list. */
  function Among(matching: seq<nat>, r: nat): set<int>
    requires r <= |matching|
  {
    set i | 1 <= i < r :: matching[i]
  }

  lemma NothingOpen(clusters: seq<Cluster>, t: nat)
    requires KeysApartExcept(clusters, t, {})
    ensures KeysApartExcept(clusters, -1, {})
  {
  }

  /** The incremental merge computes exactly the connected components; candidates that share no
      key with each other stay singletons, in input order. */
  method FindClusters(keys: seq<set<string>>) returns (clusters: seq<Cluster>)
    ensures IsComponents(keys, clusters)
    ensures Separate(keys) ==> clusters == Singletons(keys)
  {
    hide Linked, Good, IsComponents;
    clusters := [];
    for n := 0 to |keys|
      invariant AllGood(keys, clusters) && AllMembersApart(clusters)
      invariant Covers(clusters, n) && KeysApartExcept(clusters, -1, {})
      invariant Separate(keys) ==> clusters == Singletons(keys)[..n]
    {
      var matching := MatchingIndices(clusters, keys[n]);
      GoodSingleton(keys, n);
      if Separate(keys) {
        assert forall k :: 0 <= k < n ==> clusters[k].keys == keys[k] && keys[k] !! keys[n];
      }
      assert matching != [] ==> matching[0] in matching;
      assert Separate(keys) ==> matching == [];
      if matching == [] {
        AppendKeeps(keys, clusters, n);
        clusters := clusters + [Cluster([n], keys[n])];
      } else {
        assert matching[0] in matching;
        assert forall i :: 0 <= i < |matching| ==> matching[i] in matching;
        clusters := Absorb(keys, clusters, n, matching);
      }
    }
    ApartClustersAreComponents(keys, clusters);
    assert Singletons(keys)[..|keys|] == Singletons(keys);
  }

  // ---- Order independence ------------------------------------------------------------

  /** Reading the candidates through a renumbering carries chains over. */
  lemma LinkedUnderRenumbering(keys: seq<set<string>>, renumbered: seq<set<string>>, to: seq<nat>, i: nat, j: nat)
    requires |to| == |renumbered| && forall n :: 0 <= n < |to| ==> to[n] < |keys| && renumbered[n] == keys[to[n]]
    requires Linked(renumbered, i, j)
    ensures i < |to| && j < |to| && Linked(keys, to[i], to[j])
  {
    var path :| Chain(renumbered, path) && path[0] == i && path[|path| - 1] == j;
    var image := seq(|path|, n requires 0 <= n < |path| => to[path[n]]);
    forall n | 0 < n < |image| ensures Adjacent(keys, image[n - 1], image[n]) {
      assert Adjacent(renumbered, path[n - 1], path[n]);
    }
    assert Chain(keys, image);
  }

  /** Permuting the input permutes the partition and changes nothing else: candidates share a
      cluster of the permuted input exactly when they share one of the original. */
  lemma PartitionIgnoresOrder(keys: seq<set<string>>, clusters: seq<Cluster>,
                              permuted: seq<set<string>>, clusters': seq<Cluster>,
                              to: seq<nat>, back: seq<nat>, i: nat, j: nat)
    requires |keys| == |permuted| == |to| == |back|
    requires forall n :: 0 <= n < |to| ==> to[n] < |keys| && back[to[n]] == n && permuted[n] == keys[to[n]]
    requires forall n :: 0 <= n < |back| ==> back[n] < |keys| && to[back[n]] == n
    requires IsComponents(keys, clusters) && IsComponents(permuted, clusters')
    requires i < |keys| && j < |keys|
    ensures SameCluster(clusters', i, j) <==> SameCluster(clusters, to[i], to[j])
  {
    hide AllGood, AllMembersApart, Covers;
    if Linked(permuted, i, j) {
      LinkedUnderRenumbering(keys, permuted, to, i, j);
    }
    if Linked(keys, to[i], to[j]) {
      LinkedUnderRenumbering(permuted, keys, back, to[i], to[j]);
    }
  }
}
