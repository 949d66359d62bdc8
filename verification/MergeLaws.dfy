/** What a merged candidate takes from which member. */
module MergeLaws {
  import opened CandidateKeys
  import opened CandidateMerge
  import Text

  /** The live sources, most trusted first. */
  const SOURCE_ORDER := ["local_network_live", "modbus_live", "eebus_ship_live", "network_broadcast_live", "mqtt_live"]

  predicate SeenBy(sources: seq<string>, k: nat) {
    k < |SOURCE_ORDER| && exists i :: 0 <= i < |sources| && sources[i] in SOURCE_ORDER[..k + 1]
  }

  lemma OneSource(source: string, k: nat)
    requires k < |SOURCE_ORDER|
    ensures SourcePriority(source) <= k <==> source in SOURCE_ORDER[..k + 1]
  {
    assert SOURCE_ORDER[..1] == ["local_network_live"];
    assert SOURCE_ORDER[..2] == ["local_network_live", "modbus_live"];
    assert SOURCE_ORDER[..3] == ["local_network_live", "modbus_live", "eebus_ship_live"];
    assert SOURCE_ORDER[..4] == ["local_network_live", "modbus_live", "eebus_ship_live", "network_broadcast_live"];
    assert SOURCE_ORDER[..5] == SOURCE_ORDER;
  }

  lemma {:induction false} PriorityIs(sources: seq<string>, k: nat)
    requires k < |SOURCE_ORDER|
    ensures BestPriority(sources) <= k <==> SeenBy(sources, k)
  {
    hide SourcePriority;
    if sources != [] {
      OneSource(sources[0], k);
      PriorityIs(sources[1..], k);
      assert forall i :: 1 <= i < |sources| ==> sources[i] == sources[1..][i - 1];
      if SeenBy(sources[1..], k) {
        var i :| 0 <= i < |sources| - 1 && sources[1..][i] in SOURCE_ORDER[..k + 1];
        assert sources[i + 1] in SOURCE_ORDER[..k + 1];
      }
      if sources[0] in SOURCE_ORDER[..k + 1] {
        assert SeenBy(sources, k);
      }
    }
  }

  /** The primary is a member from the most trusted source any member was seen by; among those, it is
      monitorable if one is; and among those, none has more telemetry. */
  lemma PrimaryIsMostTrusted(cs: seq<Candidate>)
    requires cs != []
    ensures Primary(cs) in cs
    ensures forall k: nat, c :: c in cs && SeenBy(c.discoverySources, k) ==> SeenBy(Primary(cs).discoverySources, k)
    ensures forall c :: c in cs && SameTrust(c, Primary(cs)) && c.monitorable ==> Primary(cs).monitorable
    ensures forall c :: c in cs && SameTrust(c, Primary(cs)) && (c.monitorable <==> Primary(cs).monitorable) ==>
              |c.telemetry| <= |Primary(cs).telemetry|
  {
    hide BestFirst, Primary, BestPriority, SeenBy;
    PrimaryIsBest(cs);
    var i :| 0 <= i < |cs| && Primary(cs) == cs[i]
             && forall j :: 0 <= j < |cs| ==> RankLeq(RankAt(cs, i), RankAt(cs, j));
    forall c | c in cs ensures RankLeq(RankOf(Primary(cs)), RankOf(c)) {
      var j :| 0 <= j < |cs| && cs[j] == c;
      assert RankLeq(RankAt(cs, i), RankAt(cs, j));
    }
    forall k: nat, c | c in cs && SeenBy(c.discoverySources, k) ensures SeenBy(Primary(cs).discoverySources, k) {
      SeenBelow(c.discoverySources, k);
      PriorityIs(c.discoverySources, k);
      PriorityIs(Primary(cs).discoverySources, k);
    }
  }

  lemma SeenBelow(sources: seq<string>, k: nat)
    requires SeenBy(sources, k)
    ensures k < |SOURCE_ORDER|
  {
  }

  predicate SameTrust(a: Candidate, b: Candidate) {
    BestPriority(a.discoverySources) == BestPriority(b.discoverySources)
  }

  /** A merged candidate can be seen, monitored, controlled or optimized exactly when a member can, and was
      seen by exactly the sources and protocols of its members. */
  lemma MergedCapabilities(cs: seq<Candidate>)
    requires |cs| > 1
    ensures Merged(cs).visible <==> exists c :: c in cs && c.visible
    ensures Merged(cs).monitorable <==> exists c :: c in cs && c.monitorable
    ensures Merged(cs).controllable <==> exists c :: c in cs && c.controllable
    ensures Merged(cs).optimizable <==> exists c :: c in cs && c.optimizable
    ensures forall s :: s in Merged(cs).discoverySources <==> exists c :: c in cs && s in c.discoverySources
    ensures forall p :: p in Merged(cs).protocols <==> exists c :: c in cs && p in c.protocols
  {
    hide Primary, MergedEvidence, Overlaid, WorstFirst, BestFirst, Strictest, Pick;
  }

  predicate SomeZone(cs: seq<Candidate>, zone: string) {
    exists i :: 0 <= i < |cs| && cs[i].recoveryZone == zone
  }

  /** The merged recovery zone is the strictest of all members: gated by a human if any is, guarded if any
      is and none is gated. */
  lemma MergedZone(cs: seq<Candidate>)
    requires |cs| > 1
    ensures Merged(cs).recoveryZone == "human_gated" <==> SomeZone(cs, "human_gated")
    ensures Merged(cs).recoveryZone == "guarded_apply" <==>
            SomeZone(cs, "guarded_apply") && !SomeZone(cs, "human_gated")
  {
    hide MergedEvidence, Overlaid, WorstFirst, BestFirst, Pick, Text.SortedSet, Primary;
    var i := Strictest(cs);
    var j := PrimaryIndex(cs);
    assert Merged(cs).recoveryZone == if cs[i].recoveryZone != "" then cs[i].recoveryZone else cs[j].recoveryZone;
    forall k | 0 <= k < |cs|
      ensures ZoneStrictness(cs[k].recoveryZone) <= ZoneStrictness(cs[i].recoveryZone)
    {
    }
    if cs[i].recoveryZone == "" {
      assert ZoneStrictness(cs[j].recoveryZone) <= 0;
    }
  }

  lemma PrimaryIndex(cs: seq<Candidate>) returns (j: nat)
    requires cs != []
    ensures j < |cs| && Primary(cs) == cs[j]
  {
    hide BestFirst;
    j := BestFirst(cs)[0];
  }

  /** `value` is the field of a best-ranked usable member, or the fallback when none is usable. */
  ghost predicate FromBest(cs: seq<Candidate>, usable: Candidate -> bool, field: Candidate -> string, fallback: string,
                           value: string) {
    || ((forall i :: 0 <= i < |cs| ==> !usable(cs[i])) && value == fallback)
    || exists i :: 0 <= i < |cs| && usable(cs[i]) && value == field(cs[i])
                   && forall j :: 0 <= j < |cs| && usable(cs[j]) ==> RankLeq(RankAt(cs, i), RankAt(cs, j))
  }

  lemma PickIsFromBest(cs: seq<Candidate>, usable: Candidate -> bool, field: Candidate -> string, fallback: string)
    requires cs != []
    ensures FromBest(cs, usable, field, fallback, Pick(cs, BestFirst(cs), usable, field, fallback))
  {
    hide BestFirst, RankAt, RankLeq, Pick;
    var order := BestFirst(cs);
    var picked := Pick(cs, order, usable, field, fallback);
    PickFindsFirst(cs, order, usable, field, fallback);
    if n :| 0 <= n < |order| && usable(cs[order[n]]) && picked == field(cs[order[n]])
            && forall m :: 0 <= m < n ==> !usable(cs[order[m]]) {
      forall j | 0 <= j < |cs| && usable(cs[j]) ensures RankLeq(RankAt(cs, order[n]), RankAt(cs, j)) {
        assert j in order;
        var m :| 0 <= m < |order| && order[m] == j;
        LaterIsNoBetter(cs, n, m);
      }
    } else {
      forall i | 0 <= i < |cs| ensures !usable(cs[i]) {
        assert i in order;
      }
    }
  }

  /** Model and firmware come from the best-ranked member that knows its own; an issue is reported only when
      no member can be monitored, and then the one of the best-ranked member that has one. */
  lemma MergedFields(cs: seq<Candidate>)
    requires |cs| > 1
    ensures FromBest(cs, HasOwnModel, (c: Candidate) => c.model, Primary(cs).model, Merged(cs).model)
    ensures FromBest(cs, HasFirmware, (c: Candidate) => c.firmware, Primary(cs).firmware, Merged(cs).firmware)
    ensures (exists c :: c in cs && c.monitorable) ==> Merged(cs).issueCode == ""
    ensures (forall c :: c in cs ==> !c.monitorable) ==>
              FromBest(cs, (c: Candidate) => c.issueCode != "", (c: Candidate) => c.issueCode, "", Merged(cs).issueCode)
  {
    hide MergedEvidence, Overlaid, WorstFirst, BestFirst, Strictest, Pick, Primary, Text.SortedSet, FromBest,
      HasOwnModel,
      HasFirmware, HasOwnLabel;
    PickIsFromBest(cs, HasOwnModel, (c: Candidate) => c.model, Primary(cs).model);
    PickIsFromBest(cs, HasFirmware, (c: Candidate) => c.firmware, Primary(cs).firmware);
    PickIsFromBest(cs, (c: Candidate) => c.issueCode != "", (c: Candidate) => c.issueCode, "");
  }

  /** Merged evidence names every MAC address and host name of every member, without outer blanks, and no
      others, and keeps the evidence of each member's sources unless a later one has the same sources. */
  lemma MergedEvidenceKeeps(cs: seq<Candidate>, value: string)
    requires cs != []
    ensures
      var merged := MergedEvidence(cs);
      && merged.reconciled == (|cs| > 1)
      && (AllMacs(cs) != {} ==> (value in merged.networkMacs <==>
            exists c, raw :: c in cs && raw in c.evidence.networkMacs && Text.Strip(raw) == value != ""))
      && (AllHostnames(cs) != {} ==> (value in merged.hostnames <==>
            exists c, raw :: c in cs && raw in c.evidence.hostnames && Text.Strip(raw) == value != ""))
      && merged.sourceEvidence == SourceEvidence(cs)
  {
    hide Primary, Text.Strip, IdentityKeys, Text.SortedSet, SourceEvidence, AllKeys;
  }

  lemma {:induction false} SourceEvidenceIsLatest(cs: seq<Candidate>, i: nat)
    requires i < |cs| && forall j :: i < j < |cs| ==> SourceLabel(cs[j]) != SourceLabel(cs[i])
    ensures SourceLabel(cs[i]) in SourceEvidence(cs) && SourceEvidence(cs)[SourceLabel(cs[i])] == cs[i].evidence
  {
    hide SourceLabel;
    if i < |cs| - 1 {
      SourceEvidenceIsLatest(cs[..|cs| - 1], i);
    }
  }
}
