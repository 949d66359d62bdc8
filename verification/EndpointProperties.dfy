/** Endpoint properties as JSON objects, and what survives when an endpoint is observed again. */
module EndpointProperties {

  datatype Json =
    | Null
    | Bool(b: bool)
    | Num(x: real)
    | Str(s: string)
    | List(items: seq<Json>)
    | Dict(fields: map<string, Json>)

  type Props = map<string, Json>

  const TLS_PROBE := "tls_probe"

  const RUNTIME_KEYS: set<string> := {
    "peer_certificate_pem", "peer_certificate_ski", "txt_ski_matches_certificate_ski", "modbus_host", "modbus_unit_id",
    "sunspec_base_register", "sunspec_model_ids", "sunspec_model_blocks", "dispatch_profile", "last_telemetry_probe_at",
    "last_telemetry_status", "last_telemetry_source", "last_telemetry_message", "last_telemetry_keys"
  }

  const TLS_KEYS: set<string> := {"available", "client_cert_requested", "openssl_exit_code", "cert_ski",
                                  "txt_ski_matches_cert_ski"}

  predicate Truthy(v: Json) {
    match v
    case Null => false
    case Bool(b) => b
    case Num(x) => x != 0.0
    case Str(s) => s != ""
    case List(items) => items != []
    case Dict(fields) => fields != map[]
  }

  function Get(p: Props, key: string): Json {
    if key in p then p[key] else Null
  }

  function TlsProbe(p: Props): Props {
    if Get(p, TLS_PROBE).Dict? then Get(p, TLS_PROBE).fields else map[]
  }

  /** The truthy runtime properties. */
  function RuntimePart(p: Props): Props {
    map key | key in RUNTIME_KEYS && Truthy(Get(p, key)) :: Get(p, key)
  }

  /** The runtime entries of the TLS probe that are not null. */
  function TlsPart(p: Props): Props {
    map key | key in TLS_KEYS && Get(TlsProbe(p), key) != Null :: Get(TlsProbe(p), key)
  }

  /** The entries of `kept` that `p` has no truthy value for. */
  function Unset(kept: Props, p: Props): Props {
    map key | key in kept && !Truthy(Get(p, key)) :: kept[key]
  }

  /** The entries of `kept` that `p` has no value for. */
  function Absent(kept: Props, p: Props): Props {
    map key | key in kept && Get(p, key) == Null :: kept[key]
  }

  function WithTls(base: Props, preserved: Props): Props {
    if preserved != map[] then base[TLS_PROBE := Dict(preserved)]
    else if Get(base, TLS_PROBE) == Null then base - {TLS_PROBE}
    else base
  }

  /** The incoming properties, filled up with runtime and TLS entries kept from before. */
  function Filled(incoming: Props, runtime: Props, tls: Props): Props {
    WithTls(incoming + Unset(runtime, incoming), TlsProbe(incoming) + Absent(tls, TlsProbe(incoming)))
  }

  function Merged(incoming: Props, existing: Props): Props {
    Filled(incoming, RuntimePart(existing), TlsPart(existing))
  }

  /** The first pass of the merge, over the runtime keys. */
  method KeepRuntime(incoming: Props, existing: Props) returns (merged: Props)
    ensures merged == incoming + Unset(RuntimePart(existing), incoming)
  {
    hide RUNTIME_KEYS, Truthy;
    merged := incoming;
    var keys := RUNTIME_KEYS;
    while keys != {}
      invariant keys <= RUNTIME_KEYS
      invariant forall key | key in RUNTIME_KEYS - keys && Truthy(Get(existing, key)) && !Truthy(Get(incoming, key)) ::
                  key in merged && merged[key] == Get(existing, key)
      invariant forall key :: key in merged && !(key in incoming && merged[key] == incoming[key]) ==>
                  key in RUNTIME_KEYS - keys && Truthy(Get(existing, key)) && !Truthy(Get(incoming, key))
      invariant forall key :: key in incoming ==> key in merged
      decreases keys
    {
      var key :| key in keys;
      keys := keys - {key};
      if Truthy(Get(existing, key)) && !Truthy(Get(merged, key)) {
        merged := merged[key := Get(existing, key)];
      }
    }
  }

  /** The second pass, over the runtime keys of the TLS probe. */
  method KeepTls(incoming: Props, existing: Props) returns (preserved: Props)
    ensures preserved == TlsProbe(incoming) + Absent(TlsPart(existing), TlsProbe(incoming))
  {
    hide TLS_KEYS, TlsProbe;
    var existingTls, incomingTls := TlsProbe(existing), TlsProbe(incoming);
    preserved := incomingTls;
    var keys := TLS_KEYS;
    while keys != {}
      invariant keys <= TLS_KEYS
      invariant forall key | key in TLS_KEYS - keys && Get(existingTls, key) != Null && Get(incomingTls, key) == Null ::
                  key in preserved && preserved[key] == Get(existingTls, key)
      invariant forall key :: key in preserved && !(key in incomingTls && preserved[key] == incomingTls[key]) ==>
                  key in TLS_KEYS - keys && Get(existingTls, key) != Null && Get(incomingTls, key) == Null
      invariant forall key :: key in incomingTls ==> key in preserved
      decreases keys
    {
      var key :| key in keys;
      keys := keys - {key};
      if Get(existingTls, key) != Null && Get(preserved, key) == Null {
        preserved := preserved[key := Get(existingTls, key)];
      }
    }
  }

  method MergeRuntimeProperties(incoming: Props, existing: Props) returns (merged: Props)
    ensures merged == Merged(incoming, existing)
  {
    hide RuntimePart, TlsPart, Unset, Absent;
    merged := KeepRuntime(incoming, existing);
    UnsetLeavesTls(incoming, existing);
    var preserved := KeepTls(merged, existing);
    if preserved != map[] {
      merged := merged[TLS_PROBE := Dict(preserved)];
    } else if Get(merged, TLS_PROBE) == Null {
      merged := merged - {TLS_PROBE};
    }
  }

  lemma UnsetLeavesTls(incoming: Props, existing: Props)
    ensures Get(incoming + Unset(RuntimePart(existing), incoming), TLS_PROBE) == Get(incoming, TLS_PROBE)
  {
    TlsProbeIsNoRuntimeKey();
  }

  lemma TlsProbeIsNoRuntimeKey()
    ensures TLS_PROBE !in RUNTIME_KEYS
  {
  }

  function HasRuntimeState(p: Props): bool {
    RuntimePart(p) != map[] || TlsPart(p) != map[]
  }

  // ---- What a merge keeps ------------------------------------------------------------

  predicate IsRuntimePart(kept: Props) {
    forall key :: key in kept ==> key in RUNTIME_KEYS && Truthy(kept[key])
  }

  predicate IsTlsPart(kept: Props) {
    forall key :: key in kept ==> key in TLS_KEYS && kept[key] != Null
  }

  /** A merge keeps every runtime entry, replacing it only by a truthy incoming one. */
  lemma FilledRuntimePart(incoming: Props, runtime: Props, tls: Props)
    requires IsRuntimePart(runtime)
    ensures RuntimePart(Filled(incoming, runtime, tls)) == runtime + RuntimePart(incoming)
  {
    hide RUNTIME_KEYS, TLS_KEYS;
    TlsProbeIsNoRuntimeKey();
    var r := Filled(incoming, runtime, tls);
    forall key | key in RUNTIME_KEYS
      ensures Get(r, key) == if key in runtime && !Truthy(Get(incoming, key)) then runtime[key] else Get(incoming, key)
    {
      assert key != TLS_PROBE;
    }
  }

  /** It keeps every TLS entry, replacing it only by one that is not null. */
  lemma FilledTlsPart(incoming: Props, runtime: Props, tls: Props)
    requires IsRuntimePart(runtime) && IsTlsPart(tls)
    ensures TlsPart(Filled(incoming, runtime, tls)) == tls + TlsPart(incoming)
  {
    hide RUNTIME_KEYS, TLS_KEYS;
    TlsProbeIsNoRuntimeKey();
    var r := Filled(incoming, runtime, tls);
    var preserved := TlsProbe(incoming) + Absent(tls, TlsProbe(incoming));
    assert TLS_PROBE !in Unset(runtime, incoming);
    assert TlsProbe(r) == preserved;
    forall key | key in TLS_KEYS
      ensures Get(preserved, key) == if key in tls && Get(TlsProbe(incoming), key) == Null then tls[key]
              else Get(TlsProbe(incoming), key)
    {
    }
  }

  ghost predicate SameOutside(a: Props, b: Props, shadow: Props) {
    forall key :: key !in shadow ==> (key in a <==> key in b) && (key in a ==> a[key] == b[key])
  }

  /** What is kept matters only where the incoming properties say nothing. */
  lemma FilledDependsOnGaps(incoming: Props, runtime: Props, tls: Props, runtime': Props, tls': Props)
    requires IsRuntimePart(runtime) && IsRuntimePart(runtime') && IsTlsPart(tls) && IsTlsPart(tls')
    requires SameOutside(runtime, runtime', RuntimePart(incoming)) && SameOutside(tls, tls', TlsPart(incoming))
    ensures Filled(incoming, runtime, tls) == Filled(incoming, runtime', tls')
  {
    hide RUNTIME_KEYS, TLS_KEYS;
    assert Unset(runtime, incoming) == Unset(runtime', incoming);
    assert Absent(tls, TlsProbe(incoming)) == Absent(tls', TlsProbe(incoming));
  }

  lemma PartsAreParts(p: Props)
    ensures IsRuntimePart(RuntimePart(p)) && IsTlsPart(TlsPart(p))
  {
    hide RUNTIME_KEYS, TLS_KEYS;
  }

  /** Merging with oneself only drops an explicit null TLS probe. */
  lemma MergedWithSelf(p: Props)
    ensures Merged(p, p) == if TLS_PROBE in p && p[TLS_PROBE] == Null then p - {TLS_PROBE} else p
  {
    hide RUNTIME_KEYS, TLS_KEYS;
    assert Unset(RuntimePart(p), p) == map[];
    assert Absent(TlsPart(p), TlsProbe(p)) == map[];
    assert p + map[] == p && TlsProbe(p) + map[] == TlsProbe(p);
    if TLS_PROBE !in p { assert p - {TLS_PROBE} == p; }
  }

  /** The values that do not count as set are the empty one of each kind, false and zero. */
  lemma UnsetIff(v: Json)
    ensures !Truthy(v) <==>
            v == Null || v == Bool(false) || v == Num(0.0) || v == Str("") || v == List([]) || v == Dict(map[])
  {
  }

  /** An endpoint holds runtime state exactly when one of its runtime properties is set or one of the known
      entries of its TLS probe is not null. */
  lemma HasRuntimeStateIff(p: Props)
    ensures HasRuntimeState(p) <==>
            || (exists key :: key in RUNTIME_KEYS && key in p && Truthy(p[key]))
            || (TLS_PROBE in p && p[TLS_PROBE].Dict? &&
                exists key :: key in TLS_KEYS && key in p[TLS_PROBE].fields && p[TLS_PROBE].fields[key] != Null)
  {
    hide RUNTIME_KEYS, TLS_KEYS, Truthy;
    UnsetIff(Null);
    if key :| key in RUNTIME_KEYS && key in p && Truthy(p[key]) {
      assert key in RuntimePart(p);
    }
    if key :| key in TLS_KEYS && Get(TlsProbe(p), key) != Null {
      assert key in TlsPart(p);
    }
    if RuntimePart(p) != map[] {
      var key :| key in RuntimePart(p);
      assert Truthy(Get(p, key)) && !Truthy(Null);
    }
    if TlsPart(p) != map[] {
      var key :| key in TlsPart(p);
    }
  }
}
