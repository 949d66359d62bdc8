/** Syncing the observed inventory into the endpoint table. */
module HomeGraph {
  import opened Wrappers
  import opened EndpointProperties
  import Text

  datatype Endpoint = Endpoint(owner: string, protocol: string, service: string, host: string, port: Option<int>,
                               status: string, properties: Props)

  type Table = map<string, Endpoint>

  /** One observed endpoint. */
  datatype Spec = Spec(
    owner: string,
    protocol: string,
    service: string,
    host: string,
    port: Option<int>,
    source: string,
    lastSeenAt: Option<string>,
    confidence: real,
    properties: Props)

  /** The text an endpoint's stable id is derived from; the id stands for it here. */
  function IdOf(s: Spec): string {
    var port := if s.port.Some? && s.port.value != 0 then Text.DecimalInt(s.port.value) else "";
    s.owner + ":" + s.protocol + ":" + s.service + ":" + s.host + ":" + port
  }

  /** The observed properties with the observation's own entries written over them. */
  function Clean(s: Spec): (p: Props)
    ensures p != map[]
  {
    var sourced := if s.source != "" then s.properties["source" := Str(s.source)] else s.properties;
    var seen := if s.lastSeenAt.Some? then sourced["last_seen_at" := Str(s.lastSeenAt.value)] else sourced;
    var trusted := seen["confidence" := Num(s.confidence)];
    assert "confidence" in trusted;
    if s.host != "" then
      assert "host" in trusted["host" := Str(s.host)];
      trusted["host" := Str(s.host)]
    else trusted
  }

  function PropsOf(t: Table, id: string): Props {
    if id in t then t[id].properties else map[]
  }

  function StatusOf(t: Table, id: string): string {
    if id in t then t[id].status else ""
  }

  function StatusAfter(status: string): string {
    if status in {"connected", "disconnected"} then status else "observed"
  }

  function PropsAfter(incoming: Props, existing: Props): Props {
    if existing != map[] then Merged(incoming, existing) else incoming
  }

  function Upsert(t: Table, s: Spec): Table {
    var id := IdOf(s);
    t[id := Endpoint(s.owner, s.protocol, s.service, s.host, s.port, StatusAfter(StatusOf(t, id)),
                     PropsAfter(Clean(s), PropsOf(t, id)))]
  }

  function UpsertAll(t: Table, specs: seq<Spec>): Table {
    if specs == [] then t else Upsert(UpsertAll(t, specs[..|specs| - 1]), specs[|specs| - 1])
  }

  function Observed(specs: seq<Spec>): (ids: set<string>)
    ensures forall id :: id in ids <==> exists i :: 0 <= i < |specs| && IdOf(specs[i]) == id
  {
    set i | 0 <= i < |specs| :: IdOf(specs[i])
  }

  /** Unobserved endpoints go stale when they hold runtime state and are deleted otherwise. */
  function Sweep(t: Table, observed: set<string>): Table {
    map id | id in t && (id in observed || HasRuntimeState(t[id].properties)) ::
      if id in observed then t[id] else t[id].(status := "stale")
  }

  function Sync(t: Table, specs: seq<Spec>): Table {
    Sweep(UpsertAll(t, specs), Observed(specs))
  }

  // ---- The pass, in place ------------------------------------------------------------

  class Graph {
    var endpoints: Table

    constructor ()
      ensures endpoints == map[]
    {
      endpoints := map[];
    }

    method UpsertEndpoint(s: Spec) returns (id: string)
      modifies this
      ensures id == IdOf(s) && endpoints == Upsert(old(endpoints), s)
    {
      hide Merged, Clean, IdOf;
      id := IdOf(s);
      var endpoint := if id in endpoints then endpoints[id] else Endpoint("", "", "", "", None, "", map[]);
      endpoint := endpoint.(owner := s.owner, protocol := s.protocol, service := s.service, host := s.host,
                            port := s.port);
      if endpoint.status !in {"connected", "disconnected"} {
        endpoint := endpoint.(status := "observed");
      }
      var cleanProperties := Clean(s);
      if endpoint.properties != map[] {
        cleanProperties := MergeRuntimeProperties(cleanProperties, endpoint.properties);
      }
      endpoints := endpoints[id := endpoint.(properties := cleanProperties)];
    }

    method SyncInventory(specs: seq<Spec>)
      modifies this
      ensures endpoints == Sync(old(endpoints), specs)
    {
      hide Upsert, IdOf;
      var observed: set<string> := {};
      for n := 0 to |specs|
        invariant endpoints == UpsertAll(old(endpoints), specs[..n])
        invariant observed == Observed(specs[..n])
      {
        assert specs[..n + 1][..n] == specs[..n];
        ObservedExtends(specs[..n], specs[n]);
        assert specs[..n + 1] == specs[..n] + [specs[n]];
        var id := UpsertEndpoint(specs[n]);
        observed := observed + {id};
      }
      assert specs[..|specs|] == specs;
      ghost var upserted := endpoints;
      MarkUnobserved(observed);
    }

    method MarkUnobserved(observed: set<string>)
      modifies this
      ensures endpoints == Sweep(old(endpoints), observed)
    {
      hide HasRuntimeState;
      var ids := endpoints.Keys;
      while ids != {}
        invariant ids <= old(endpoints).Keys
        invariant forall id :: id in ids ==> id in endpoints && endpoints[id] == old(endpoints)[id]
        invariant forall id :: id in endpoints && id !in ids ==>
                  id in Sweep(old(endpoints), observed) && endpoints[id] == Sweep(old(endpoints), observed)[id]
        invariant forall id :: id in Sweep(old(endpoints), observed) && id !in ids ==> id in endpoints
        decreases ids
      {
        var id :| id in ids;
        ids := ids - {id};
        if id in observed {
          continue;
        }
        if HasRuntimeState(endpoints[id].properties) {
          endpoints := endpoints[id := endpoints[id].(status := "stale")];
        } else {
          endpoints := endpoints - {id};
        }
      }
    }
  }

  lemma ObservedExtends(specs: seq<Spec>, s: Spec)
    ensures Observed(specs + [s]) == Observed(specs) + {IdOf(s)}
  {
    hide IdOf;
    var longer := specs + [s];
    forall id ensures id in Observed(longer) <==> id in Observed(specs) || id == IdOf(s) {
      if id in Observed(specs) {
        var i :| 0 <= i < |specs| && IdOf(specs[i]) == id;
        assert longer[i] == specs[i];
      }
      if id == IdOf(s) { assert longer[|specs|] == s; }
    }
  }

  // ---- One endpoint at a time --------------------------------------------------------

  /** The observations of one endpoint, in order. */
  function CleansFor(specs: seq<Spec>, id: string): seq<Props> {
    if specs == [] then [] else
    var last := specs[|specs| - 1];
    CleansFor(specs[..|specs| - 1], id) + if IdOf(last) == id then [Clean(last)] else []
  }

  function FoldProps(cleans: seq<Props>, start: Props): Props {
    if cleans == [] then start else PropsAfter(cleans[|cleans| - 1], FoldProps(cleans[..|cleans| - 1], start))
  }

  /** The last observation of one endpoint; it decides the descriptive fields. */
  function LastFor(specs: seq<Spec>, id: string): Option<Spec> {
    if specs == [] then None
    else if IdOf(specs[|specs| - 1]) == id then Some(specs[|specs| - 1])
    else LastFor(specs[..|specs| - 1], id)
  }

  predicate Confident(cleans: seq<Props>) {
    forall i :: 0 <= i < |cleans| ==> "confidence" in cleans[i]
  }

  lemma CleanIsConfident(s: Spec)
    ensures "confidence" in Clean(s)
  {
  }

  lemma CleanKeepsTls(s: Spec)
    ensures NullTls(Clean(s)) <==> NullTls(s.properties)
  {
  }

  lemma {:induction false} ObservedHasLast(specs: seq<Spec>, id: string)
    ensures LastFor(specs, id).Some? <==> id in Observed(specs)
    ensures LastFor(specs, id).Some? <==> CleansFor(specs, id) != []
    ensures Confident(CleansFor(specs, id))
  {
    hide IdOf, Clean, Observed;
    if specs == [] {
      NothingObserved(specs);
    } else {
      var front, last := specs[..|specs| - 1], specs[|specs| - 1];
      ObservedHasLast(front, id);
      assert specs == front + [last];
      ObservedExtends(front, last);
      CleanIsConfident(last);
    }
  }

  lemma NothingObserved(specs: seq<Spec>)
    requires specs == []
    ensures Observed(specs) == {}
  {
  }

  /** The part of a table row that an upsert overwrites. */
  ghost predicate Describes(e: Endpoint, s: Spec) {
    e.owner == s.owner && e.protocol == s.protocol && e.service == s.service && e.host == s.host && e.port == s.port
  }

  lemma UpsertAt(t: Table, s: Spec, id: string)
    ensures id in Upsert(t, s) <==> id in t || IdOf(s) == id
    ensures IdOf(s) != id && id in t ==> Upsert(t, s)[id] == t[id]
    ensures IdOf(s) == id ==>
              Describes(Upsert(t, s)[id], s) && Upsert(t, s)[id].status == StatusAfter(StatusOf(t, id)) &&
              Upsert(t, s)[id].properties == PropsAfter(Clean(s), PropsOf(t, id))
  {
    hide IdOf, Clean, PropsAfter;
  }

  /** What a pass leaves under one id: nothing changed if the id was not observed. */
  lemma {:induction false} UpsertAllAt(t: Table, specs: seq<Spec>, id: string)
    ensures id in UpsertAll(t, specs) <==> id in t || LastFor(specs, id).Some?
    ensures StatusOf(UpsertAll(t, specs), id) == if LastFor(specs, id).Some? then StatusAfter(StatusOf(t, id))
            else StatusOf(t, id)
    ensures LastFor(specs, id).Some? ==> Describes(UpsertAll(t, specs)[id], LastFor(specs, id).value)
    ensures LastFor(specs, id).None? && id in t ==> UpsertAll(t, specs)[id] == t[id]
  {
    hide IdOf, Clean, PropsAfter, Upsert, Describes;
    if specs != [] {
      var front, last := specs[..|specs| - 1], specs[|specs| - 1];
      UpsertAllAt(t, front, id);
      UpsertAt(UpsertAll(t, front), last, id);
    }
  }

  lemma {:induction false} UpsertAllProps(t: Table, specs: seq<Spec>, id: string)
    ensures PropsOf(UpsertAll(t, specs), id) == FoldProps(CleansFor(specs, id), PropsOf(t, id))
  {
    hide IdOf, Clean, PropsAfter, Upsert;
    if specs != [] {
      var front, last := specs[..|specs| - 1], specs[|specs| - 1];
      UpsertAllProps(t, front, id);
      UpsertAt(UpsertAll(t, front), last, id);
      if IdOf(last) == id {
        var cleans := CleansFor(front, id);
        assert (cleans + [Clean(last)])[..|cleans|] == cleans;
      } else {
        assert CleansFor(specs, id) == CleansFor(front, id);
      }
    }
  }

  // ---- Trust material ----------------------------------------------------------------

  lemma PropsAfterParts(incoming: Props, existing: Props)
    ensures RuntimePart(PropsAfter(incoming, existing)) == RuntimePart(existing) + RuntimePart(incoming)
    ensures TlsPart(PropsAfter(incoming, existing)) == TlsPart(existing) + TlsPart(incoming)
  {
    hide RuntimePart, TlsPart, Filled;
    if existing != map[] {
      PartsAreParts(existing);
      FilledRuntimePart(incoming, RuntimePart(existing), TlsPart(existing));
      FilledTlsPart(incoming, RuntimePart(existing), TlsPart(existing));
    } else {
      EmptyParts();
    }
  }

  lemma EmptyParts()
    ensures RuntimePart(map[]) == map[] && TlsPart(map[]) == map[]
  {
  }

  lemma {:induction false} FoldKeepsParts(cleans: seq<Props>, start: Props)
    ensures forall key :: key in RuntimePart(start) ==> key in RuntimePart(FoldProps(cleans, start))
    ensures forall key :: key in TlsPart(start) ==> key in TlsPart(FoldProps(cleans, start))
  {
    hide RuntimePart, TlsPart, PropsAfter;
    if cleans != [] {
      FoldKeepsParts(cleans[..|cleans| - 1], start);
      PropsAfterParts(cleans[|cleans| - 1], FoldProps(cleans[..|cleans| - 1], start));
    }
  }

  function SyncAll(t: Table, passes: seq<seq<Spec>>): Table {
    if passes == [] then t else Sync(SyncAll(t, passes[..|passes| - 1]), passes[|passes| - 1])
  }

  /** One sync never deletes an endpoint that holds a truthy runtime property, and leaves that
      property truthy. */
  lemma SyncKeepsTrust(t: Table, specs: seq<Spec>, id: string, key: string)
    requires id in t && key in RuntimePart(t[id].properties)
    ensures id in Sync(t, specs) && key in RuntimePart(Sync(t, specs)[id].properties)
  {
    hide RuntimePart, TlsPart, UpsertAll, CleansFor, FoldProps, LastFor, Observed;
    UpsertAllAt(t, specs, id);
    UpsertAllProps(t, specs, id);
    FoldKeepsParts(CleansFor(specs, id), PropsOf(t, id));
  }

  /** Nor does any sequence of syncs, whatever is observed in between. */
  lemma {:induction false} TrustSurvives(t: Table, passes: seq<seq<Spec>>, id: string, key: string)
    requires id in t && key in RUNTIME_KEYS && Truthy(Get(t[id].properties, key))
    ensures id in SyncAll(t, passes)
    ensures Truthy(Get(SyncAll(t, passes)[id].properties, key))
  {
    hide Sync;
    if passes != [] {
      var front := passes[..|passes| - 1];
      TrustSurvives(t, front, id, key);
      SyncKeepsTrust(SyncAll(t, front), passes[|passes| - 1], id, key);
    }
  }

  /** After a sync the endpoints that are not stale are exactly the observed ones, all of which
      are present; a connected or disconnected endpoint that is observed keeps that status. */
  lemma NonStaleAreObserved(t: Table, specs: seq<Spec>, id: string)
    ensures (id in Sync(t, specs) && Sync(t, specs)[id].status != "stale") <==> id in Observed(specs)
    ensures id in Observed(specs) ==>
              Sync(t, specs)[id].status == if StatusOf(t, id) in {"connected", "disconnected"} then StatusOf(t, id)
                else "observed"
    ensures id !in Observed(specs) ==>
              (id in Sync(t, specs) <==> id in t && HasRuntimeState(t[id].properties))
  {
    hide HasRuntimeState, UpsertAll, CleansFor, FoldProps, LastFor, Observed;
    UpsertAllAt(t, specs, id);
    ObservedHasLast(specs, id);
  }

  // ---- Idempotence -------------------------------------------------------------------

  /** The runtime and TLS entries that observations bring along themselves. */
  function RuntimeFrom(cleans: seq<Props>): Props {
    if cleans == [] then map[] else RuntimeFrom(cleans[..|cleans| - 1]) + RuntimePart(cleans[|cleans| - 1])
  }

  function TlsFrom(cleans: seq<Props>): Props {
    if cleans == [] then map[] else TlsFrom(cleans[..|cleans| - 1]) + TlsPart(cleans[|cleans| - 1])
  }

  lemma {:induction false} FoldParts(cleans: seq<Props>, start: Props)
    ensures RuntimePart(FoldProps(cleans, start)) == RuntimePart(start) + RuntimeFrom(cleans)
    ensures TlsPart(FoldProps(cleans, start)) == TlsPart(start) + TlsFrom(cleans)
  {
    hide RuntimePart, TlsPart, PropsAfter;
    if cleans == [] {
      PlusNothing(RuntimePart(start));
      PlusNothing(TlsPart(start));
    } else {
      var front, last := cleans[..|cleans| - 1], cleans[|cleans| - 1];
      FoldParts(front, start);
      PropsAfterParts(last, FoldProps(front, start));
      PlusAssociates(RuntimePart(start), RuntimeFrom(front), RuntimePart(last));
      PlusAssociates(TlsPart(start), TlsFrom(front), TlsPart(last));
    }
  }

  lemma PlusNothing(x: Props)
    ensures x + map[] == x
  {
  }

  lemma PlusAssociates(x: Props, y: Props, z: Props)
    ensures x + y + z == x + (y + z)
  {
  }

  predicate NullTls(p: Props) {
    TLS_PROBE in p && p[TLS_PROBE] == Null
  }

  /** Folding the same observations of an endpoint in again changes nothing, with one exception:
      the single observation of a new endpoint with an explicit null TLS probe, which the first
      pass stores and the second drops. */
  lemma FoldAgainIff(cleans: seq<Props>, start: Props)
    requires cleans != [] && Confident(cleans)
    ensures FoldProps(cleans, FoldProps(cleans, start)) == FoldProps(cleans, start) <==>
            !(|cleans| == 1 && start == map[] && NullTls(cleans[0]))
  {
    hide RuntimePart, TlsPart, Filled, RUNTIME_KEYS, TLS_KEYS;
    var front, last := cleans[..|cleans| - 1], cleans[|cleans| - 1];
    var once := FoldProps(cleans, start);
    var before, again := FoldProps(front, start), FoldProps(front, once);
    NonEmptyFold(cleans, start);
    NonEmptyFold(front, once);
    if front == [] && start == map[] {
      MergedWithSelf(last);
      assert cleans[0] == last;
    } else {
      NonEmptyFold(front, start);
      var r, s := RuntimeFrom(front), TlsFrom(front);
      FoldParts(front, start);
      FoldParts(front, once);
      PropsAfterParts(last, before);
      PartsAreParts(before);
      PartsAreParts(again);
      GapsAgree(RuntimePart(start), r, RuntimePart(last));
      GapsAgree(TlsPart(start), s, TlsPart(last));
      FilledDependsOnGaps(last, RuntimePart(before), TlsPart(before), RuntimePart(again), TlsPart(again));
    }
  }

  lemma NonEmptyFold(cleans: seq<Props>, start: Props)
    requires Confident(cleans)
    ensures cleans != [] ==> "confidence" in FoldProps(cleans, start) && FoldProps(cleans, start) != map[]
  {
    if cleans != [] {
      hide RuntimePart, TlsPart;
      var last := cleans[|cleans| - 1];
      assert "confidence" in last && "confidence" != TLS_PROBE;
    }
  }

  lemma GapsAgree(x: Props, r: Props, l: Props)
    ensures SameOutside(x + r, x + r + l + r, l)
  {
  }

  // ---- Syncing the same inventory again ----------------------------------------------

  /** A lone observation of an endpoint without properties so far, with an explicit null TLS
      probe. */
  predicate LoneNullProbe(t: Table, specs: seq<Spec>, i: nat)
    requires i < |specs|
  {
    PropsOf(t, IdOf(specs[i])) == map[] && NullTls(specs[i].properties) &&
    forall j :: 0 <= j < |specs| && IdOf(specs[j]) == IdOf(specs[i]) ==> j == i
  }

  predicate LoneFor(t: Table, specs: seq<Spec>, id: string) {
    |CleansFor(specs, id)| == 1 && PropsOf(t, id) == map[] && NullTls(CleansFor(specs, id)[0])
  }

  lemma {:induction false} CleansOfNone(specs: seq<Spec>, id: string)
    requires forall j :: 0 <= j < |specs| ==> IdOf(specs[j]) != id
    ensures CleansFor(specs, id) == []
  {
    hide IdOf, Clean;
    if specs != [] { CleansOfNone(specs[..|specs| - 1], id); }
  }

  /** One observation of an endpoint is found at exactly one place, and conversely. */
  lemma {:induction false} SingleObservation(specs: seq<Spec>, i: nat)
    requires i < |specs|
    requires forall j :: 0 <= j < |specs| && IdOf(specs[j]) == IdOf(specs[i]) ==> j == i
    ensures CleansFor(specs, IdOf(specs[i])) == [Clean(specs[i])]
  {
    hide IdOf, Clean;
    var front := specs[..|specs| - 1];
    if i == |specs| - 1 {
      CleansOfNone(front, IdOf(specs[i]));
    } else {
      SingleObservation(front, i);
    }
  }

  lemma {:induction false} OnlyOnePlace(specs: seq<Spec>, id: string) returns (i: nat)
    requires |CleansFor(specs, id)| == 1
    ensures i < |specs| && IdOf(specs[i]) == id && CleansFor(specs, id)[0] == Clean(specs[i])
    ensures forall j :: 0 <= j < |specs| && IdOf(specs[j]) == id ==> j == i
  {
    hide IdOf, Clean;
    var front := specs[..|specs| - 1];
    if IdOf(specs[|specs| - 1]) == id {
      i := |specs| - 1;
      forall j | 0 <= j < |specs| && IdOf(specs[j]) == id ensures j == i {
        if j < |front| { SomewhereMeansSome(front, j); }
      }
    } else {
      i := OnlyOnePlace(front, id);
      assert forall j :: 0 <= j < |specs| && IdOf(specs[j]) == id ==> j < |front| && IdOf(front[j]) == id;
    }
  }

  lemma {:induction false} SomewhereMeansSome(specs: seq<Spec>, j: nat)
    requires j < |specs|
    ensures CleansFor(specs, IdOf(specs[j])) != []
  {
    hide IdOf, Clean;
    if j < |specs| - 1 { SomewhereMeansSome(specs[..|specs| - 1], j); }
  }

  lemma LoneIffSomewhere(t: Table, specs: seq<Spec>)
    ensures (exists id :: LoneFor(t, specs, id)) <==> exists i :: 0 <= i < |specs| && LoneNullProbe(t, specs, i)
  {
    hide IdOf, Clean, CleansFor, NullTls;
    if id :| LoneFor(t, specs, id) {
      var i := OnlyOnePlace(specs, id);
      CleanKeepsTls(specs[i]);
      assert LoneNullProbe(t, specs, i);
    }
    if i :| 0 <= i < |specs| && LoneNullProbe(t, specs, i) {
      SingleObservation(specs, i);
      CleanKeepsTls(specs[i]);
      assert LoneFor(t, specs, IdOf(specs[i]));
    }
  }

  /** What a second sync of the same inventory does to one endpoint. */
  lemma SyncAgainAt(t: Table, specs: seq<Spec>, id: string)
    ensures id in Sync(Sync(t, specs), specs) <==> id in Sync(t, specs)
    ensures id in Sync(t, specs) ==>
              (Sync(Sync(t, specs), specs)[id] == Sync(t, specs)[id] <==> !LoneFor(t, specs, id))
  {
    hide IdOf, Clean, CleansFor, FoldProps, UpsertAll, Observed, LastFor, HasRuntimeState, NullTls;
    var cleans := CleansFor(specs, id);
    var once := Sync(t, specs);
    ObservedHasLast(specs, id);
    UpsertAllAt(t, specs, id);
    UpsertAllAt(once, specs, id);
    if id in Observed(specs) {
      UpsertAllProps(t, specs, id);
      UpsertAllProps(once, specs, id);
      FoldAgainIff(cleans, PropsOf(t, id));
    }
  }

  /** Syncing the same inventory twice is syncing it once, unless a new endpoint was observed
      once with an explicit null TLS probe: the first pass stores the null, the second drops it. */
  lemma SyncIsIdempotentIff(t: Table, specs: seq<Spec>)
    ensures Sync(Sync(t, specs), specs) == Sync(t, specs) <==>
            !exists i :: 0 <= i < |specs| && LoneNullProbe(t, specs, i)
  {
    hide Sync, LoneNullProbe, LoneFor;
    LoneIffSomewhere(t, specs);
    var once, twice := Sync(t, specs), Sync(Sync(t, specs), specs);
    forall id
      ensures id in twice <==> id in once
      ensures id in once ==> (twice[id] == once[id] <==> !LoneFor(t, specs, id))
      ensures LoneFor(t, specs, id) ==> id in once
    {
      SyncAgainAt(t, specs, id);
      LoneIsKept(t, specs, id);
    }
  }

  lemma LoneIsKept(t: Table, specs: seq<Spec>, id: string)
    ensures LoneFor(t, specs, id) ==> id in Sync(t, specs)
  {
    hide IdOf, Clean, CleansFor, UpsertAll, Observed, LastFor, HasRuntimeState, NullTls;
    ObservedHasLast(specs, id);
    UpsertAllAt(t, specs, id);
  }

  /** From the second sync on nothing changes, whatever was observed. */
  lemma SyncSettles(t: Table, specs: seq<Spec>)
    ensures Sync(Sync(Sync(t, specs), specs), specs) == Sync(Sync(t, specs), specs)
  {
    hide Sync, IdOf, NullTls;
    var once := Sync(t, specs);
    SyncIsIdempotentIff(once, specs);
    forall i | 0 <= i < |specs| ensures !LoneNullProbe(once, specs, i) {
      ObservedHoldProperties(t, specs, IdOf(specs[i]));
    }
  }

  lemma ObservedHoldProperties(t: Table, specs: seq<Spec>, id: string)
    requires id in Observed(specs)
    ensures PropsOf(Sync(t, specs), id) != map[]
  {
    hide IdOf, Clean, CleansFor, FoldProps, UpsertAll, Observed, LastFor, HasRuntimeState;
    ObservedHasLast(specs, id);
    UpsertAllAt(t, specs, id);
    UpsertAllProps(t, specs, id);
    NonEmptyFold(CleansFor(specs, id), PropsOf(t, id));
  }

  /** The exception occurs: such an endpoint differs after the second sync. */
  lemma NullProbeIsDroppedLater(s: Spec)
    requires s.properties == map[TLS_PROBE := Null]
    ensures Sync(Sync(map[], [s]), [s]) != Sync(map[], [s])
  {
    hide IdOf, Sync;
    SyncIsIdempotentIff(map[], [s]);
    assert LoneNullProbe(map[], [s], 0);
  }

  // ---- Identity and content ----------------------------------------------------------

  predicate Plain(s: string) { ':' !in s }

  function PortText(s: Spec): (r: string)
    ensures Plain(r)
  {
    if s.port.Some? && s.port.value != 0 then Text.DecimalInt(s.port.value) else ""
  }

  lemma {:induction false} LastPartsAgree(a: string, p: string, b: string, q: string)
    requires Plain(p) && Plain(q)
    ensures a + ":" + p == b + ":" + q <==> a == b && p == q
  {
    if a + ":" + p == b + ":" + q {
      var whole := a + ":" + p;
      assert whole[|a|] == ':' && whole[|b|] == ':';
      assert forall i :: |a| < i < |whole| ==> whole[i] == p[i - |a| - 1];
      assert forall i :: |b| < i < |whole| ==> whole[i] == q[i - |b| - 1];
      assert |a| == |b|;
      assert whole[..|a|] == a && whole[..|b|] == b;
      assert whole[|a| + 1..] == p && whole[|b| + 1..] == q;
    }
  }

  /** Two observations are of one endpoint exactly when owner, protocol, service, host and port agree, a
      missing port counting as port zero; only host, service and protocol must not contain a colon. */
  lemma SameEndpointIff(a: Spec, b: Spec)
    requires Plain(a.host) && Plain(b.host) && Plain(a.service) && Plain(b.service) && Plain(a.protocol) &&
             Plain(b.protocol)
    ensures IdOf(a) == IdOf(b) <==>
              a.owner == b.owner && a.protocol == b.protocol && a.service == b.service && a.host == b.host &&
              PortText(a) == PortText(b)
  {
    hide Text.DecimalInt;
    IdSpelledOut(a);
    IdSpelledOut(b);
    LastPartsAgree(a.owner + ":" + a.protocol + ":" + a.service + ":" + a.host, PortText(a),
                   b.owner + ":" + b.protocol + ":" + b.service + ":" + b.host, PortText(b));
    LastPartsAgree(a.owner + ":" + a.protocol + ":" + a.service, a.host, b.owner + ":" + b.protocol + ":" + b.service,
                   b.host);
    LastPartsAgree(a.owner + ":" + a.protocol, a.service, b.owner + ":" + b.protocol, b.service);
    LastPartsAgree(a.owner, a.protocol, b.owner, b.protocol);
  }

  lemma IdSpelledOut(s: Spec)
    ensures IdOf(s) == s.owner + ":" + s.protocol + ":" + s.service + ":" + s.host + ":" + PortText(s)
  {
  }

  /** And two port texts agree exactly when the ports do. */
  lemma SamePortIff(a: Spec, b: Spec)
    requires (a.port.Some? ==> a.port.value >= 0) && (b.port.Some? ==> b.port.value >= 0)
    ensures PortText(a) == PortText(b) <==>
              (if a.port.Some? then a.port.value else 0) == (if b.port.Some? then b.port.value else 0)
  {
    hide Text.Decimal;
    if a.port.Some? && b.port.Some? && Text.Decimal(a.port.value) == Text.Decimal(b.port.value) {
      Text.DecimalInjective(a.port.value, b.port.value);
    }
  }

  /** The stored properties are the observed ones, with source, time, confidence and host of the
      observation itself written over them when it has them. */
  lemma CleanEntries(s: Spec, key: string)
    ensures key !in {"source", "last_seen_at", "confidence", "host"} ==>
              (key in Clean(s) <==> key in s.properties) && (key in s.properties ==> Clean(s)[key] == s.properties[key])
    ensures "confidence" in Clean(s) && Clean(s)["confidence"] == Num(s.confidence)
    ensures s.source != "" ==> "source" in Clean(s) && Clean(s)["source"] == Str(s.source)
    ensures s.lastSeenAt.Some? ==> "last_seen_at" in Clean(s) && Clean(s)["last_seen_at"] == Str(s.lastSeenAt.value)
    ensures s.host != "" ==> "host" in Clean(s) && Clean(s)["host"] == Str(s.host)
  {
    assert "confidence" != "host" && "source" != "host" && "last_seen_at" != "host";
    assert "source" != "confidence" && "last_seen_at" != "confidence" && "source" != "last_seen_at";
  }
}
