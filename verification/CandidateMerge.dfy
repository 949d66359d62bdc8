/** Merging a cluster of candidates into one, and the whole reconciliation pass. */
module CandidateMerge {
  import opened Wrappers
  import opened CandidateKeys
  import Sorting
  import Text

  /** Fields that a merge copies from the best-ranked member stand behind `candidateId`. */
  datatype Candidate = Candidate(
    candidateId: string,
    displayName: string,
    model: string,
    firmware: string,
    discoverySources: seq<string>,
    protocols: seq<string>,
    telemetry: map<string, string>,
    evidence: Evidence,
    recoveryZone: string,
    issueCode: string,
    visible: bool,
    monitorable: bool,
    controllable: bool,
    optimizable: bool)

  const UNRANKED := 99

  const GENERIC_LABELS := {"", "local energy device", "local http device", "mqtt energy device", "shelly web admin",
                           "tasmota", "unknown"}
  const GENERIC_MODELS := {"", "local http device", "mqtt energy device", "unknown"}

  function SourcePriority(source: string): int {
    match source
    case "local_network_live" => 0
    case "modbus_live" => 1
    case "eebus_ship_live" => 2
    case "network_broadcast_live" => 3
    case "mqtt_live" => 4
    case _ => UNRANKED
  }

  function BestPriority(sources: seq<string>): int {
    if sources == [] then UNRANKED
    else if |sources| == 1 then SourcePriority(sources[0])
    else
      var rest := BestPriority(sources[1..]);
      if SourcePriority(sources[0]) < rest then SourcePriority(sources[0]) else rest
  }

  datatype Rank = Rank(priority: int, monitorable: int, telemetry: int)

  function RankOf(c: Candidate): Rank {
    Rank(BestPriority(c.discoverySources), if c.monitorable then 0 else 1, -|c.telemetry|)
  }

  predicate RankLeq(a: Rank, b: Rank) {
    a.priority < b.priority
    || (a.priority == b.priority && (a.monitorable < b.monitorable
                                     || (a.monitorable == b.monitorable && a.telemetry <= b.telemetry)))
  }

  function RankAt(cs: seq<Candidate>, i: int): Rank {
    if 0 <= i < |cs| then RankOf(cs[i]) else Rank(0, 0, 0)
  }

  function Ascending(cs: seq<Candidate>): (int, int) -> bool {
    (i, j) => RankLeq(RankAt(cs, i), RankAt(cs, j))
  }

  function Descending(cs: seq<Candidate>): (int, int) -> bool {
    (i, j) => RankLeq(RankAt(cs, j), RankAt(cs, i))
  }

  /** The positions of the members, best rank first. */
  function BestFirst(cs: seq<Candidate>): (order: seq<int>)
    ensures |order| == |cs|
    ensures forall n :: 0 <= n < |order| ==> 0 <= order[n] < |cs|
    ensures forall i :: 0 <= i < |cs| ==> i in order
    ensures Sorting.StableSorted(Ascending(cs), order)
  {
    RankIsTotal(cs);
    Sorting.SortIsStable(Ascending(cs), |cs|);
    PositionsInRange(Ascending(cs), |cs|);
    Sorting.Sort(Ascending(cs), Sorting.Range(|cs|))
  }

  /** The positions of the members, worst rank first, equal ones still in their original order. */
  function WorstFirst(cs: seq<Candidate>): (order: seq<int>)
    ensures |order| == |cs|
    ensures forall n :: 0 <= n < |order| ==> 0 <= order[n] < |cs|
    ensures forall i :: 0 <= i < |cs| ==> i in order
    ensures Sorting.StableSorted(Descending(cs), order)
  {
    RankIsTotal(cs);
    Sorting.SortIsStable(Descending(cs), |cs|);
    PositionsInRange(Descending(cs), |cs|);
    Sorting.Sort(Descending(cs), Sorting.Range(|cs|))
  }

  lemma PositionsInRange(leq: (int, int) -> bool, n: nat)
    ensures forall i :: 0 <= i < n ==> i in Sorting.Sort(leq, Sorting.Range(n))
    ensures forall m :: 0 <= m < n ==> 0 <= Sorting.Sort(leq, Sorting.Range(n))[m] < n
  {
    hide Sorting.Sort;
    var order := Sorting.Sort(leq, Sorting.Range(n));
    Sorting.SortMembers(leq, Sorting.Range(n));
    forall i | 0 <= i < n ensures i in order {
      assert Sorting.Range(n)[i] == i;
    }
    forall m | 0 <= m < n ensures 0 <= order[m] < n {
      assert order[m] in order;
    }
  }

  function Primary(cs: seq<Candidate>): Candidate
    requires cs != []
  {
    cs[BestFirst(cs)[0]]
  }

  /** The first member, in the given order, whose field is usable; else the fallback. */
  function Pick(cs: seq<Candidate>, order: seq<int>, usable: Candidate -> bool, field: Candidate -> string,
                fallback: string): string
    requires forall n :: 0 <= n < |order| ==> 0 <= order[n] < |cs|
  {
    if order == [] then fallback
    else if usable(cs[order[0]]) then field(cs[order[0]])
    else Pick(cs, order[1..], usable, field, fallback)
  }

  predicate IsGenericLabel(value: string) {
    var lowered := Text.Lower(Text.Strip(value));
    lowered in GENERIC_LABELS || "local energy device " <= lowered
  }

  predicate HasOwnLabel(c: Candidate) {
    !IsGenericLabel(c.displayName)
  }

  predicate HasOwnModel(c: Candidate) {
    Text.Lower(Text.Strip(c.model)) !in GENERIC_MODELS
  }

  predicate HasFirmware(c: Candidate) {
    var firmware := Text.Strip(c.firmware);
    firmware != "" && Text.Lower(firmware) != "unknown"
  }

  function ZoneStrictness(zone: string): int {
    match zone
    case "auto_apply" => 0
    case "guarded_apply" => 1
    case "human_gated" => 2
    case _ => 0
  }

  /** The first member of greatest strictness. */
  function Strictest(cs: seq<Candidate>): (i: nat)
    requires cs != []
    ensures i < |cs|
    ensures forall j :: 0 <= j < |cs| ==> ZoneStrictness(cs[j].recoveryZone) <= ZoneStrictness(cs[i].recoveryZone)
  {
    if |cs| == 1 then 0 else
    var best := Strictest(cs[..|cs| - 1]);
    var last := |cs| - 1;
    assert forall j :: 0 <= j < last ==> cs[..last][j] == cs[j];
    if ZoneStrictness(cs[last].recoveryZone) > ZoneStrictness(cs[best].recoveryZone) then last else best
  }

  function Overlaid(cs: seq<Candidate>, order: seq<int>): map<string, string>
    requires forall n :: 0 <= n < |order| ==> 0 <= order[n] < |cs|
  {
    if order == [] then map[] else Overlaid(cs, order[..|order| - 1]) + cs[order[|order| - 1]].telemetry
  }

  /** Updates a growing dict from the worst-ranked member to the best. */
  method MergeTelemetry(cs: seq<Candidate>) returns (telemetry: map<string, string>)
    ensures telemetry == Overlaid(cs, WorstFirst(cs))
  {
    var order := WorstFirst(cs);
    telemetry := map[];
    for n := 0 to |order|
      invariant telemetry == Overlaid(cs, order[..n])
    {
      assert order[..n + 1][..n] == order[..n];
      telemetry := telemetry + cs[order[n]].telemetry;
    }
    assert order[..|order|] == order;
  }

  function AllKeys(cs: seq<Candidate>): set<string> {
    set c, key | c in cs && key in IdentityKeys(c.evidence) :: key
  }

  function AllMacs(cs: seq<Candidate>): set<string> {
    set c, mac | c in cs && mac in c.evidence.networkMacs && Text.Strip(mac) != "" :: Text.Strip(mac)
  }

  function AllHostnames(cs: seq<Candidate>): set<string> {
    set c, name | c in cs && name in c.evidence.hostnames && Text.Strip(name) != "" :: Text.Strip(name)
  }

  function JoinComma(parts: seq<string>): string {
    if parts == [] then "" else if |parts| == 1 then parts[0] else parts[0] + "," + JoinComma(parts[1..])
  }

  function SourceLabel(c: Candidate): string {
    if c.discoverySources == [] then "unknown" else JoinComma(c.discoverySources)
  }

  function SourceEvidence(cs: seq<Candidate>): map<string, Evidence> {
    if cs == [] then map[] else
    var last := cs[|cs| - 1];
    SourceEvidence(cs[..|cs| - 1])[SourceLabel(last) := last.evidence]
  }

  function SortedOr(found: set<string>, otherwise: seq<string>): seq<string> {
    if found != {} then Text.SortedSet(found) else otherwise
  }

  function MergedEvidence(cs: seq<Candidate>): Evidence
    requires cs != []
  {
    Primary(cs).evidence.(
      reconciled := |cs| > 1,
      sourceEvidence := SourceEvidence(cs),
      identityKeys := SortedOr(AllKeys(cs), Primary(cs).evidence.identityKeys),
      networkMacs := SortedOr(AllMacs(cs), Primary(cs).evidence.networkMacs),
      hostnames := SortedOr(AllHostnames(cs), Primary(cs).evidence.hostnames))
  }

  lemma FoundExtends(cs: seq<Candidate>, c: Candidate)
    ensures AllKeys(cs + [c]) == AllKeys(cs) + IdentityKeys(c.evidence)
    ensures AllMacs(cs + [c]) == AllMacs(cs) + StrippedSet(c.evidence.networkMacs)
    ensures AllHostnames(cs + [c]) == AllHostnames(cs) + StrippedSet(c.evidence.hostnames)
  {
    hide IdentityKeys, Text.Strip;
    assert forall x :: x in cs + [c] <==> x in cs || x == c;
  }

  function StrippedSet(values: seq<string>): set<string> {
    set value | value in values && Text.Strip(value) != "" :: Text.Strip(value)
  }

  lemma NothingFound()
    ensures AllKeys([]) == AllMacs([]) == AllHostnames([]) == {}
  {
  }

  method MergeEvidence(cs: seq<Candidate>) returns (merged: Evidence)
    requires cs != []
    ensures merged == MergedEvidence(cs)
  {
    hide IdentityKeys, Text.SortedSet, Primary, SourceLabel, AllKeys, AllMacs, AllHostnames, StrippedSet;
    var sourceEvidence: map<string, Evidence> := map[];
    var networkMacs: set<string> := {};
    var hostnames: set<string> := {};
    var identityKeys: set<string> := {};
    NothingFound();
    for n := 0 to |cs|
      invariant sourceEvidence == SourceEvidence(cs[..n])
      invariant identityKeys == AllKeys(cs[..n])
      invariant networkMacs == AllMacs(cs[..n])
      invariant hostnames == AllHostnames(cs[..n])
    {
      var c := cs[n];
      assert cs[..n + 1] == cs[..n] + [c];
      sourceEvidence := sourceEvidence[SourceLabel(c) := c.evidence];
      var keys := CollectIdentityKeys(c.evidence);
      identityKeys := identityKeys + keys;
      networkMacs := networkMacs + StrippedSet(c.evidence.networkMacs);
      hostnames := hostnames + StrippedSet(c.evidence.hostnames);
      FoundExtends(cs[..n], c);
    }
    assert cs[..|cs|] == cs;
    merged := Primary(cs).evidence.(reconciled := |cs| > 1, sourceEvidence := sourceEvidence);
    if identityKeys != {} {
      merged := merged.(identityKeys := Text.SortedSet(identityKeys));
    }
    if networkMacs != {} {
      merged := merged.(networkMacs := Text.SortedSet(networkMacs));
    }
    if hostnames != {} {
      merged := merged.(hostnames := Text.SortedSet(hostnames));
    }
  }

  function Merged(cs: seq<Candidate>): Candidate
    requires cs != []
  {
    if |cs| == 1 then cs[0] else
    var primary := Primary(cs);
    var anyMonitorable := exists c :: c in cs && c.monitorable;
    primary.(
      displayName := Pick(cs, BestFirst(cs), HasOwnLabel, (c: Candidate) => c.displayName, primary.displayName),
      model := Pick(cs, BestFirst(cs), HasOwnModel, (c: Candidate) => c.model, primary.model),
      firmware := Pick(cs, BestFirst(cs), HasFirmware, (c: Candidate) => c.firmware, primary.firmware),
      discoverySources := Text.SortedSet(set c, source | c in cs && source in c.discoverySources :: source),
      protocols := Text.SortedSet(set c, protocol | c in cs && protocol in c.protocols :: protocol),
      telemetry := Overlaid(cs, WorstFirst(cs)),
      evidence := MergedEvidence(cs),
      recoveryZone := if cs[Strictest(cs)].recoveryZone != "" then cs[Strictest(cs)].recoveryZone
        else primary.recoveryZone,
      issueCode := if anyMonitorable then ""
        else Pick(cs, BestFirst(cs), (c: Candidate) => c.issueCode != "", (c: Candidate) => c.issueCode, ""),
      visible := exists c :: c in cs && c.visible,
      monitorable := anyMonitorable,
      controllable := exists c :: c in cs && c.controllable,
      optimizable := exists c :: c in cs && c.optimizable)
  }

  // ---- What a merge keeps ------------------------------------------------------------

  /** A merged candidate carries exactly the union of its members' identity keys. */
  lemma MergedKeysAreUnion(cs: seq<Candidate>)
    requires cs != []
    ensures IdentityKeys(Merged(cs).evidence) == AllKeys(cs)
  {
    hide Merged, MergedEvidence, AllKeys, RawKeys, MacKeys, SlugKeys;
    if |cs| == 1 {
      MergedOfOne(cs);
      KeysOfOne(cs);
    } else {
      MergedOfMany(cs);
      MergedRawKeys(cs);
      MergedMacKeys(cs);
      MergedSlugKeys(cs);
    }
  }

  lemma KeysOfOne(cs: seq<Candidate>)
    requires |cs| == 1
    ensures AllKeys(cs) == IdentityKeys(cs[0].evidence)
  {
    hide IdentityKeys;
  }

  lemma MergedSlugKeys(cs: seq<Candidate>)
    requires cs != []
    ensures SlugKeys(MergedEvidence(cs).mqttSlug) <= AllKeys(cs)
  {
    hide SlugKeys, RawKeys, MacKeys, Text.SortedSet, BestFirst;
    assert Primary(cs) in cs;
    forall key | key in SlugKeys(Primary(cs).evidence.mqttSlug) ensures key in AllKeys(cs) {
      assert key in IdentityKeys(Primary(cs).evidence);
    }
  }

  lemma MergedOfOne(cs: seq<Candidate>)
    requires |cs| == 1
    ensures Merged(cs) == cs[0]
  {
  }

  lemma MergedOfMany(cs: seq<Candidate>)
    requires |cs| > 1
    ensures Merged(cs).evidence == MergedEvidence(cs)
    ensures Merged(cs).telemetry == Overlaid(cs, WorstFirst(cs))
    ensures Merged(cs).displayName ==
            Pick(cs, BestFirst(cs), HasOwnLabel, (c: Candidate) => c.displayName, Primary(cs).displayName)
    ensures Merged(cs).candidateId == Primary(cs).candidateId
  {
    hide MergedEvidence, Overlaid, WorstFirst, BestFirst, Text.SortedSet, Strictest, Pick, Primary, HasOwnLabel,
      HasOwnModel, HasFirmware;
  }

  lemma MergedRawKeys(cs: seq<Candidate>)
    requires cs != []
    ensures RawKeys(MergedEvidence(cs).identityKeys) == AllKeys(cs)
  {
    hide Text.SortedSet, Text.Strip, Text.Lower, Canonical, MacKeys, SlugKeys;
    var keys := AllKeys(cs);
    assert Primary(cs) in cs;
    if keys != {} {
      var listing := Text.SortedSet(keys);
      forall key | key in listing ensures Canonical(key) {
        var c :| c in cs && key in IdentityKeys(c.evidence);
        KeysAreCanonical(c.evidence);
      }
      CanonicalReadsBack(listing);
    } else {
      assert IdentityKeys(Primary(cs).evidence) <= keys;
    }
  }

  lemma MergedMacKeys(cs: seq<Candidate>)
    requires cs != []
    ensures MacKeys(MergedEvidence(cs).networkMacs) <= AllKeys(cs)
  {
    hide Text.SortedSet, Text.Strip, Text.Lower, NormalizeMac, RawKeys, SlugKeys;
    assert Primary(cs) in cs;
    assert IdentityKeys(Primary(cs).evidence) <= AllKeys(cs);
    if AllMacs(cs) != {} {
      forall key | key in MacKeys(Text.SortedSet(AllMacs(cs))) ensures key in AllKeys(cs) {
        var mac :| mac in AllMacs(cs) && NormalizeMac(mac) != "" && key == "mac:" + NormalizeMac(mac);
        var c, raw :| c in cs && raw in c.evidence.networkMacs && Text.Strip(raw) != "" && mac == Text.Strip(raw);
        MacOfStripped(raw);
        assert key in MacKeys(c.evidence.networkMacs);
        assert key in IdentityKeys(c.evidence);
      }
    }
  }

  lemma RankIsTotal(cs: seq<Candidate>)
    ensures Sorting.TotalPreorder(Ascending(cs)) && Sorting.TotalPreorder(Descending(cs))
  {
  }

  /** The primary has the best rank, and is the first of those that do. */
  lemma PrimaryIsBest(cs: seq<Candidate>)
    requires cs != []
    ensures exists i :: 0 <= i < |cs| && Primary(cs) == cs[i]
                        && (forall j :: 0 <= j < |cs| ==> RankLeq(RankAt(cs, i), RankAt(cs, j)))
                        && (forall j :: 0 <= j < i ==> !RankLeq(RankAt(cs, j), RankAt(cs, i)))
  {
    hide RankOf;
    var order := BestFirst(cs);
    var i := order[0];
    forall j | 0 <= j < |cs|
      ensures RankLeq(RankAt(cs, i), RankAt(cs, j)) && (j < i ==> !RankLeq(RankAt(cs, j), RankAt(cs, i))) {
      assert j in order;
      var n :| 0 <= n < |order| && order[n] == j;
      RankIsTotal(cs);
      if n > 0 { assert Ascending(cs)(order[0], order[n]); }
    }
  }

  lemma {:induction false} OverlaidAt(cs: seq<Candidate>, order: seq<int>, key: string)
    requires forall n :: 0 <= n < |order| ==> 0 <= order[n] < |cs|
    ensures key in Overlaid(cs, order) <==> exists n :: 0 <= n < |order| && key in cs[order[n]].telemetry
    ensures key in Overlaid(cs, order) ==>
              exists n :: 0 <= n < |order| && key in cs[order[n]].telemetry &&
                Overlaid(cs, order)[key] == cs[order[n]].telemetry[key]
                          && forall m :: n < m < |order| ==> key !in cs[order[m]].telemetry
  {
    if order != [] {
      var last := |order| - 1;
      var front := order[..last];
      OverlaidAt(cs, front, key);
      if key in cs[order[last]].telemetry {
        assert Overlaid(cs, order)[key] == cs[order[last]].telemetry[key];
      } else if key in Overlaid(cs, front) {
        var n :| 0 <= n < |front| && key in cs[front[n]].telemetry &&
            Overlaid(cs, front)[key] == cs[front[n]].telemetry[key]
                 && forall m :: n < m < |front| ==> key !in cs[front[m]].telemetry;
        assert order[n] == front[n];
        forall m | n < m < |order| ensures key !in cs[order[m]].telemetry {
          if m < last { assert order[m] == front[m]; }
        }
      }
    }
  }

  /** Merged telemetry has every reading of every member, and each value comes from the
      best-ranked member that reports it, the last of them when ranks tie. */
  lemma TelemetryFromBestMember(cs: seq<Candidate>, key: string)
    requires |cs| > 1
    ensures key in Merged(cs).telemetry <==> exists i :: 0 <= i < |cs| && key in cs[i].telemetry
    ensures key in Merged(cs).telemetry ==>
              exists i :: 0 <= i < |cs| && key in cs[i].telemetry && Merged(cs).telemetry[key] == cs[i].telemetry[key]
                          && forall j :: 0 <= j < |cs| && key in cs[j].telemetry ==>
                               RankLeq(RankAt(cs, i), RankAt(cs, j)) &&
                                 (RankLeq(RankAt(cs, j), RankAt(cs, i)) ==> j <= i)
  {
    hide Merged, Overlaid, RankAt, RankLeq, Sorting.StableSorted, WorstFirst;
    MergedOfMany(cs);
    var order := WorstFirst(cs);
    OverlaidAt(cs, order, key);
    ReportedInOrder(cs, key);
    if key in Merged(cs).telemetry {
      var n :| 0 <= n < |order| && key in cs[order[n]].telemetry &&
          Overlaid(cs, order)[key] == cs[order[n]].telemetry[key]
               && forall m :: n < m < |order| ==> key !in cs[order[m]].telemetry;
      LastReporterIsBest(cs, n, key);
      assert Merged(cs).telemetry[key] == cs[order[n]].telemetry[key];
    }
  }

  lemma ReportedInOrder(cs: seq<Candidate>, key: string)
    ensures (exists n :: 0 <= n < |cs| && key in cs[WorstFirst(cs)[n]].telemetry) <==>
            exists i :: 0 <= i < |cs| && key in cs[i].telemetry
  {
    hide WorstFirst, Sorting.StableSorted;
    var order := WorstFirst(cs);
    if i :| 0 <= i < |cs| && key in cs[i].telemetry {
      assert i in order;
    }
  }

  lemma LastReporterIsBest(cs: seq<Candidate>, n: nat, key: string)
    requires n < |cs| && forall m :: n < m < |cs| ==> key !in cs[WorstFirst(cs)[m]].telemetry
    ensures forall j :: 0 <= j < |cs| && key in cs[j].telemetry ==>
              RankLeq(RankAt(cs, WorstFirst(cs)[n]), RankAt(cs, j))
              && (RankLeq(RankAt(cs, j), RankAt(cs, WorstFirst(cs)[n])) ==> j <= WorstFirst(cs)[n])
  {
    hide WorstFirst, RankAt, RankLeq, Sorting.StableSorted;
    var order := WorstFirst(cs);
    forall j | 0 <= j < |cs| && key in cs[j].telemetry
      ensures RankLeq(RankAt(cs, order[n]), RankAt(cs, j)) &&
              (RankLeq(RankAt(cs, j), RankAt(cs, order[n])) ==> j <= order[n])
    {
      assert j in order;
      var m :| 0 <= m < |order| && order[m] == j;
      EarlierIsWorse(cs, m, n);
    }
  }

  lemma EarlierIsWorse(cs: seq<Candidate>, m: nat, n: nat)
    requires m <= n < |cs|
    ensures
      var i, j := WorstFirst(cs)[n], WorstFirst(cs)[m];
      RankLeq(RankAt(cs, i), RankAt(cs, j)) && (RankLeq(RankAt(cs, j), RankAt(cs, i)) ==> j <= i)
  {
    hide WorstFirst, RankAt;
    var order := WorstFirst(cs);
    if m < n {
      assert Descending(cs)(order[m], order[n]);
    }
  }

  lemma {:induction false} PickFindsFirst(cs: seq<Candidate>, order: seq<int>, usable: Candidate -> bool,
                                          field: Candidate -> string, fallback: string)
    requires forall n :: 0 <= n < |order| ==> 0 <= order[n] < |cs|
    ensures
      var picked := Pick(cs, order, usable, field, fallback);
      || (picked == fallback && forall n :: 0 <= n < |order| ==> !usable(cs[order[n]]))
      || exists n :: 0 <= n < |order| && usable(cs[order[n]]) && picked == field(cs[order[n]])
                     && forall m :: 0 <= m < n ==> !usable(cs[order[m]])
  {
    if order != [] && !usable(cs[order[0]]) {
      var rest := order[1..];
      PickFindsFirst(cs, rest, usable, field, fallback);
      if n :| 0 <= n < |rest| && usable(cs[rest[n]]) && Pick(cs, rest, usable, field, fallback) == field(cs[rest[n]])
              && forall m :: 0 <= m < n ==> !usable(cs[rest[m]]) {
        assert order[n + 1] == rest[n];
        forall m | 0 <= m < n + 1 ensures !usable(cs[order[m]]) {
          if m > 0 { assert order[m] == rest[m - 1]; }
        }
      } else {
        assert forall n :: 1 <= n < |order| ==> order[n] == rest[n - 1];
      }
    }
  }

  /** The merged name is the own label of the best-ranked member that has one; only when no member
      has one does the primary's generic label remain. */
  lemma NameFromBestLabelled(cs: seq<Candidate>)
    requires |cs| > 1
    ensures
      || ((forall i :: 0 <= i < |cs| ==> !HasOwnLabel(cs[i])) && Merged(cs).displayName == Primary(cs).displayName)
      || exists i :: 0 <= i < |cs| && HasOwnLabel(cs[i]) && Merged(cs).displayName == cs[i].displayName
                     && forall j :: 0 <= j < |cs| && HasOwnLabel(cs[j]) ==> RankLeq(RankAt(cs, i), RankAt(cs, j))
  {
    hide Merged, Primary, BestFirst, HasOwnLabel, RankAt, RankLeq, Pick;
    MergedOfMany(cs);
    var order := BestFirst(cs);
    PickFindsFirst(cs, order, HasOwnLabel, (c: Candidate) => c.displayName, Primary(cs).displayName);
    if n :| 0 <= n < |order| && HasOwnLabel(cs[order[n]]) && Merged(cs).displayName == cs[order[n]].displayName
            && forall m :: 0 <= m < n ==> !HasOwnLabel(cs[order[m]]) {
      forall j | 0 <= j < |cs| && HasOwnLabel(cs[j]) ensures RankLeq(RankAt(cs, order[n]), RankAt(cs, j)) {
        assert j in order;
        var m :| 0 <= m < |order| && order[m] == j;
        LaterIsNoBetter(cs, n, m);
      }
    } else {
      forall i | 0 <= i < |cs| ensures !HasOwnLabel(cs[i]) {
        assert i in order;
      }
    }
  }

  lemma LaterIsNoBetter(cs: seq<Candidate>, n: nat, m: nat)
    requires n <= m < |cs|
    ensures RankLeq(RankAt(cs, BestFirst(cs)[n]), RankAt(cs, BestFirst(cs)[m]))
  {
    hide BestFirst, RankAt;
    var order := BestFirst(cs);
    if n < m {
      assert Ascending(cs)(order[n], order[m]);
    }
  }
}
