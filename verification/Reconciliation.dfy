/** The reconciliation pass: cluster, merge, sort. */
module Reconciliation {
  import opened CandidateKeys
  import opened CandidateClusters
  import opened CandidateMerge
  import Sorting
  import Text

  predicate NameLeq(a: Candidate, b: Candidate) {
    Text.Leq(Text.Lower(a.displayName), Text.Lower(b.displayName))
  }

  function KeysOf(cs: seq<Candidate>): (keys: seq<set<string>>)
    ensures |keys| == |cs| && forall i :: 0 <= i < |keys| ==> keys[i] == IdentityKeys(cs[i].evidence)
  {
    seq(|cs|, i requires 0 <= i < |cs| => IdentityKeys(cs[i].evidence))
  }

  predicate KeysDisjoint(a: Candidate, b: Candidate) {
    IdentityKeys(a.evidence) !! IdentityKeys(b.evidence)
  }

  /** No two candidates share an identity key, and they are in name order. */
  ghost predicate Settled(cs: seq<Candidate>) {
    Sorting.Pairwise(KeysDisjoint, cs) && Sorting.SortedBy(NameLeq, cs)
  }

  predicate InRange(members: seq<nat>, n: nat) {
    members != [] && forall m :: 0 <= m < |members| ==> members[m] < n
  }

  function Members(cs: seq<Candidate>, members: seq<nat>): (r: seq<Candidate>)
    requires InRange(members, |cs|)
    ensures |r| == |members| && forall m :: 0 <= m < |r| ==> r[m] == cs[members[m]]
  {
    seq(|members|, m requires 0 <= m < |members| => cs[members[m]])
  }

  predicate AllInRange(clusters: seq<Cluster>, n: nat) {
    forall k :: 0 <= k < |clusters| ==> InRange(clusters[k].members, n)
  }

  function MergeAll(cs: seq<Candidate>, clusters: seq<Cluster>): (r: seq<Candidate>)
    requires AllInRange(clusters, |cs|)
    ensures |r| == |clusters| && forall k :: 0 <= k < |r| ==> r[k] == Merged(Members(cs, clusters[k].members))
  {
    seq(|clusters|, k requires 0 <= k < |clusters| => Merged(Members(cs, clusters[k].members)))
  }

  /** `out` is the name-sorted list of the merged connected components of `cs`. */
  ghost predicate IsReconciliation(cs: seq<Candidate>, out: seq<Candidate>) {
    exists clusters :: IsComponents(KeysOf(cs), clusters) && AllInRange(clusters, |cs|)
                       && out == Sorting.Sort(NameLeq, MergeAll(cs, clusters))
  }

  lemma ComponentsInRange(keys: seq<set<string>>, clusters: seq<Cluster>)
    requires IsComponents(keys, clusters)
    ensures AllInRange(clusters, |keys|)
  {
    hide Linked;
    forall k | 0 <= k < |clusters| ensures InRange(clusters[k].members, |keys|) {
      assert Good(keys, clusters[k]);
      forall m | 0 <= m < |clusters[k].members| ensures clusters[k].members[m] < |keys| {
        assert clusters[k].members[m] in clusters[k].members;
      }
    }
  }

  lemma MergedKeysOfCluster(cs: seq<Candidate>, c: Cluster)
    requires Good(KeysOf(cs), c) && InRange(c.members, |cs|)
    ensures IdentityKeys(Merged(Members(cs, c.members)).evidence) == c.keys
  {
    hide Linked, Merged, IdentityKeys;
    var members := Members(cs, c.members);
    MergedKeysAreUnion(members);
    forall key ensures key in AllKeys(members) <==> key in c.keys {
      if key in AllKeys(members) {
        var member :| member in members && key in IdentityKeys(member.evidence);
        var m :| 0 <= m < |members| && members[m] == member;
        assert c.members[m] in c.members;
      }
      if key in c.keys {
        var i :| i in c.members && i < |cs| && key in KeysOf(cs)[i];
        var m :| 0 <= m < |c.members| && c.members[m] == i;
        assert members[m] in members;
      }
    }
  }

  lemma MergedClustersAreDisjoint(cs: seq<Candidate>, clusters: seq<Cluster>)
    requires IsComponents(KeysOf(cs), clusters) && AllInRange(clusters, |cs|)
    ensures Sorting.Pairwise(KeysDisjoint, MergeAll(cs, clusters))
  {
    hide Linked, Merged, IdentityKeys, Good;
    var merged := MergeAll(cs, clusters);
    forall a, b | 0 <= a < b < |merged| ensures KeysDisjoint(merged[a], merged[b]) {
      MergedKeysOfCluster(cs, clusters[a]);
      MergedKeysOfCluster(cs, clusters[b]);
    }
  }

  lemma NameOrderIsTotal()
    ensures Sorting.TotalPreorder(NameLeq)
  {
    hide Text.Lower, Text.Leq;
    forall a: Candidate, b: Candidate ensures NameLeq(a, b) || NameLeq(b, a) {
      Text.LeqTotal(Text.Lower(a.displayName), Text.Lower(b.displayName));
    }
    forall a: Candidate, b: Candidate, c: Candidate | NameLeq(a, b) && NameLeq(b, c) ensures NameLeq(a, c) {
      Text.LeqTransitive(Text.Lower(a.displayName), Text.Lower(b.displayName), Text.Lower(c.displayName));
    }
  }

  lemma ReconciliationIsSettled(cs: seq<Candidate>, out: seq<Candidate>)
    requires IsReconciliation(cs, out)
    ensures Settled(out)
  {
    hide IsComponents, KeysDisjoint, NameLeq, Merged;
    var clusters :| IsComponents(KeysOf(cs), clusters) && AllInRange(clusters, |cs|)
                    && out == Sorting.Sort(NameLeq, MergeAll(cs, clusters));
    MergedClustersAreDisjoint(cs, clusters);
    DisjointnessIsSymmetric();
    Sorting.SortKeepsPairwise(NameLeq, KeysDisjoint, MergeAll(cs, clusters));
    NameOrderIsTotal();
    Sorting.SortSorts(NameLeq, MergeAll(cs, clusters));
  }

  lemma DisjointnessIsSymmetric()
    ensures forall a: Candidate, b: Candidate :: KeysDisjoint(a, b) ==> KeysDisjoint(b, a)
  {
    hide IdentityKeys;
  }

  /** Settled candidates merge one by one into themselves. */
  lemma SingletonsMergeToThemselves(cs: seq<Candidate>)
    requires Sorting.SortedBy(NameLeq, cs)
    ensures AllInRange(Singletons(KeysOf(cs)), |cs|)
    ensures Sorting.Sort(NameLeq, MergeAll(cs, Singletons(KeysOf(cs)))) == cs
  {
    hide IdentityKeys, NameLeq, Merged;
    var clusters := Singletons(KeysOf(cs));
    var merged := MergeAll(cs, clusters);
    forall k | 0 <= k < |cs| ensures merged[k] == cs[k] {
      MergedOfOne(Members(cs, clusters[k].members));
    }
    assert merged == cs;
    Sorting.SortOfSorted(NameLeq, cs);
  }

  /** Reconciliation merges exactly the connected components of "shares an identity key"; its
      result is settled, and a settled input is returned unchanged. */
  method Reconcile(cs: seq<Candidate>) returns (out: seq<Candidate>)
    ensures IsReconciliation(cs, out)
    ensures Settled(out)
    ensures Settled(cs) ==> out == cs
  {
    hide IdentityKeys, Merged, IsComponents, NameLeq, Sorting.Sort;
    var keys: seq<set<string>> := [];
    for n := 0 to |cs|
      invariant keys == KeysOf(cs)[..n]
    {
      var candidateKeys := CollectIdentityKeys(cs[n].evidence);
      keys := keys + [candidateKeys];
    }
    assert keys == KeysOf(cs);
    var clusters := FindClusters(keys);
    ComponentsInRange(keys, clusters);
    var reconciled: seq<Candidate> := [];
    for k := 0 to |clusters|
      invariant reconciled == MergeAll(cs, clusters)[..k]
    {
      reconciled := reconciled + [Merged(Members(cs, clusters[k].members))];
    }
    assert reconciled == MergeAll(cs, clusters);
    out := Sorting.Sort(NameLeq, reconciled);
    assert IsReconciliation(cs, out);
    ReconciliationIsSettled(cs, out);
    if Settled(cs) {
      SettledIsSeparate(cs);
      SingletonsMergeToThemselves(cs);
    }
  }

  lemma SettledIsSeparate(cs: seq<Candidate>)
    requires Settled(cs)
    ensures Separate(KeysOf(cs))
  {
    hide IdentityKeys, NameLeq;
    forall i, j | 0 <= i < j < |cs| ensures KeysOf(cs)[i] !! KeysOf(cs)[j] {
      assert KeysDisjoint(cs[i], cs[j]);
    }
  }

  /** Reconciling the output again returns it unchanged. */
  method ReconcileTwice(cs: seq<Candidate>) returns (once: seq<Candidate>, twice: seq<Candidate>)
    ensures IsReconciliation(cs, once)
    ensures twice == once
  {
    once := Reconcile(cs);
    twice := Reconcile(once);
  }

  /** Candidates with a common key always end up in one, which has the keys of both. */
  lemma SharedKeyMerges(cs: seq<Candidate>, out: seq<Candidate>, i: nat, j: nat)
    requires IsReconciliation(cs, out) && i < |cs| && j < |cs|
    requires IdentityKeys(cs[i].evidence) * IdentityKeys(cs[j].evidence) != {}
    ensures exists c :: c in out && HasKeysOf(c, cs[i]) && HasKeysOf(c, cs[j])
  {
    hide IdentityKeys, Merged, Linked, NameLeq, Sorting.Sort;
    var clusters: seq<Cluster> :| IsComponents(KeysOf(cs), clusters) && AllInRange(clusters, |cs|)
                    && out == Sorting.Sort(NameLeq, MergeAll(cs, clusters));
    LinkedToNeighbour(KeysOf(cs), i, j);
    assert SameCluster(clusters, i, j);
    var k :| 0 <= k < |clusters| && i in clusters[k].members && j in clusters[k].members;
    var c := MergeAll(cs, clusters)[k];
    assert Good(KeysOf(cs), clusters[k]);
    MergedKeysOfCluster(cs, clusters[k]);
    assert HasKeysOf(c, cs[i]) && HasKeysOf(c, cs[j]);
    Sorting.SortMembers(NameLeq, MergeAll(cs, clusters));
  }

  predicate HasKeysOf(c: Candidate, member: Candidate) {
    IdentityKeys(member.evidence) <= IdentityKeys(c.evidence)
  }

  /** There is only one such candidate: no two places of the output share a key. */
  lemma KeysFoundOnce(cs: seq<Candidate>, out: seq<Candidate>, member: Candidate, m: nat, n: nat)
    requires IsReconciliation(cs, out) && m < |out| && n < |out| && IdentityKeys(member.evidence) != {}
    requires HasKeysOf(out[m], member) && HasKeysOf(out[n], member)
    ensures m == n
  {
    hide IdentityKeys, NameLeq, IsReconciliation;
    ReconciliationIsSettled(cs, out);
    var key :| key in IdentityKeys(member.evidence);
    SharedKeyFoundOnce(out, member, member, key, m, n);
  }

  predicate HasSymbolSlug(c: Candidate) {
    c.evidence.mqttSlug.Slug? && Symbols(c.evidence.mqttSlug.text) && !Blank(c.evidence.mqttSlug.text)
  }

  /** All devices whose MQTT slugs consist of symbols only are merged into the same candidate, whatever
      else is known of them and whoever else is in the inventory. */
  lemma SymbolSlugsMerge(cs: seq<Candidate>, out: seq<Candidate>, i: nat, j: nat)
    requires IsReconciliation(cs, out) && i < |cs| && j < |cs|
    requires HasSymbolSlug(cs[i]) && HasSymbolSlug(cs[j])
    ensures exists c :: c in out && HasKeysOf(c, cs[i]) && HasKeysOf(c, cs[j])
    ensures forall m, n :: 0 <= m < |out| && 0 <= n < |out| ==>
              HasKeysOf(out[m], cs[i]) && HasKeysOf(out[n], cs[j]) ==> m == n
  {
    hide IsReconciliation, SlugKeys, Symbols, Blank, HasKeysOf;
    SymbolSlugsCollide(cs[i].evidence.mqttSlug.text, cs[j].evidence.mqttSlug.text);
    assert "mqtt-slug:" in IdentityKeys(cs[i].evidence) * IdentityKeys(cs[j].evidence);
    SharedKeyMerges(cs, out, i, j);
    ReconciliationIsSettled(cs, out);
    forall m, n | 0 <= m < |out| && 0 <= n < |out| && HasKeysOf(out[m], cs[i]) && HasKeysOf(out[n], cs[j])
      ensures m == n
    {
      SharedKeyFoundOnce(out, cs[i], cs[j], "mqtt-slug:", m, n);
    }
  }

  lemma SharedKeyFoundOnce(out: seq<Candidate>, a: Candidate, b: Candidate, key: string, m: nat, n: nat)
    requires Settled(out) && m < |out| && n < |out| && HasKeysOf(out[m], a) && HasKeysOf(out[n], b)
    requires key in IdentityKeys(a.evidence) && key in IdentityKeys(b.evidence)
    ensures m == n
  {
    hide IdentityKeys, NameLeq;
    assert m < n ==> KeysDisjoint(out[m], out[n]);
    assert n < m ==> KeysDisjoint(out[n], out[m]);
  }

  // ---- Inventories of two ------------------------------------------------------------

  /** Two candidates alone come out as one exactly when they share a key, and as two otherwise. */
  lemma PairMergesIff(a: Candidate, b: Candidate, out: seq<Candidate>)
    requires IsReconciliation([a, b], out)
    ensures |out| == if IdentityKeys(a.evidence) * IdentityKeys(b.evidence) != {} then 1 else 2
  {
    hide IdentityKeys, Merged, Linked, NameLeq, Sorting.Sort;
    var cs := [a, b];
    var clusters: seq<Cluster> :| IsComponents(KeysOf(cs), clusters) && AllInRange(clusters, |cs|)
                                  && out == Sorting.Sort(NameLeq, MergeAll(cs, clusters));
    TwoComponents(KeysOf(cs), clusters);
  }

  lemma TwoComponents(keys: seq<set<string>>, clusters: seq<Cluster>)
    requires |keys| == 2 && IsComponents(keys, clusters)
    ensures |clusters| == if keys[0] * keys[1] != {} then 1 else 2
  {
    hide Linked;
    assert HoldsMember(clusters, 0) && HoldsMember(clusters, 1);
    var k :| 0 <= k < |clusters| && 0 in clusters[k].members;
    var l :| 0 <= l < |clusters| && 1 in clusters[l].members;
    AtMost(keys, clusters, k, l, 0);
    AtMost(keys, clusters, k, l, |clusters| - 1);
    if |clusters| > 2 { AtMost(keys, clusters, k, l, 1); }
    if keys[0] * keys[1] != {} {
      LinkedToNeighbour(keys, 0, 1);
      assert SameCluster(clusters, 0, 1);
      var m :| 0 <= m < |clusters| && 0 in clusters[m].members && 1 in clusters[m].members;
      SharedMember(clusters, k, m, 0);
      SharedMember(clusters, l, m, 1);
    } else {
      DisjointIsUnlinked(keys);
      NotTogether(keys, clusters, k);
    }
  }

  lemma NotTogether(keys: seq<set<string>>, clusters: seq<Cluster>, k: nat)
    requires |keys| == 2 && !Linked(keys, 0, 1) && AllGood(keys, clusters)
    requires k < |clusters| && 0 in clusters[k].members
    ensures 1 !in clusters[k].members
  {
    hide Linked;
    assert Good(keys, clusters[k]);
  }

  lemma AtMost(keys: seq<set<string>>, clusters: seq<Cluster>, k: nat, l: nat, other: nat)
    requires |keys| == 2 && AllGood(keys, clusters) && AllMembersApart(clusters)
    requires k < |clusters| && l < |clusters| && other < |clusters|
    requires 0 in clusters[k].members && 1 in clusters[l].members
    ensures other == k || other == l
  {
    hide Linked;
    var first := clusters[other].members;
    assert Good(keys, clusters[other]);
    assert first[0] in first;
    if first[0] == 0 {
      SharedMember(clusters, k, other, 0);
    } else {
      SharedMember(clusters, l, other, 1);
    }
  }

  lemma SharedMember(clusters: seq<Cluster>, k: nat, other: nat, m: nat)
    requires AllMembersApart(clusters) && k < |clusters| && other < |clusters|
    requires m in clusters[k].members && m in clusters[other].members
    ensures k == other
  {
  }

  lemma DisjointIsUnlinked(keys: seq<set<string>>)
    requires |keys| == 2 && keys[0] * keys[1] == {}
    ensures !Linked(keys, 0, 1)
  {
    if Linked(keys, 0, 1) {
      var path :| Chain(keys, path) && path[0] == 0 && path[|path| - 1] == 1;
      StaysAtStart(keys, path, |path| - 1);
    }
  }

  lemma {:induction false} StaysAtStart(keys: seq<set<string>>, path: seq<nat>, n: nat)
    requires |keys| == 2 && keys[0] * keys[1] == {} && Chain(keys, path) && path[0] == 0 && n < |path|
    ensures path[n] == 0
  {
    if n > 0 {
      StaysAtStart(keys, path, n - 1);
      assert Adjacent(keys, path[n - 1], path[n]);
      assert keys[1] * keys[0] == {};
    }
  }

  predicate OnlyMac(c: Candidate, mac: string) {
    c.evidence.identityKeys == [] && c.evidence.networkMacs == [mac] && c.evidence.mqttSlug.Missing?
  }

  /** Two candidates of which only a MAC address is known come out as one exactly when the addresses
      agree letter by letter, whatever their capitals and separators, and have a letter or digit. */
  lemma MacPairMergesIff(a: Candidate, b: Candidate, macA: string, macB: string, out: seq<Candidate>)
    requires OnlyMac(a, macA) && OnlyMac(b, macB) && IsReconciliation([a, b], out)
    ensures |out| == if Bare(macA) == Bare(macB) != "" then 1 else 2
  {
    hide IsReconciliation, NormalizeMac, Bare;
    PairMergesIff(a, b, out);
    OnlyMacKeys(a, macA);
    OnlyMacKeys(b, macB);
    PrefixIsInjective("mac:", Bare(macA), Bare(macB));
    if Bare(macA) == Bare(macB) != "" {
      assert "mac:" + Bare(macA) in IdentityKeys(a.evidence) * IdentityKeys(b.evidence);
    }
  }

  lemma OnlyMacKeys(c: Candidate, mac: string)
    requires OnlyMac(c, mac)
    ensures IdentityKeys(c.evidence) == if Bare(mac) == "" then {} else {"mac:" + Bare(mac)}
  {
    hide NormalizeMac, Bare, NormalizeText, Text.Strip, RawKeys, MacKeys, SlugKeys;
    NoKeys();
    OneMacKey(mac);
  }

  lemma NoKeys()
    ensures RawKeys([]) == {} && SlugKeys(Missing) == {}
  {
    hide NormalizeText;
    assert Text.Strip("") == "";
  }

  lemma OneMacKey(mac: string)
    ensures MacKeys([mac]) == if Bare(mac) == "" then {} else {"mac:" + Bare(mac)}
  {
    hide NormalizeMac, Bare;
    MacIsBare(mac);
    if Bare(mac) != "" {
      assert mac in [mac];
      assert "mac:" + Bare(mac) in MacKeys([mac]);
    }
  }
}
