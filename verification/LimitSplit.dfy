/** Splitting a site limit across the participating devices, and the delivery each one gets. */
module LimitSplit {
  import opened Wrappers
  import opened Rounding
  import Text

  datatype EebusEndpoint = EebusEndpoint(id: string, peerSki: string)
  datatype NativeEndpoint = NativeEndpoint(id: string, dispatchProfile: string)

  /** A participating device with the control endpoints found for it. */
  datatype Config = Config(
    deviceId: string,
    sharePct: Option<real>,
    controllable: bool,
    eebus: Option<EebusEndpoint>,
    native: Option<NativeEndpoint>)

  datatype Participant = Participant(
    deviceId: string,
    sharePct: real,
    normalizedShare: real,
    allocatedWatts: int,
    controlAvailable: bool,
    controlPath: string,
    targetEndpointRef: string,
    targetPeerSki: string)

  datatype Distribution = Distribution(
    limitWatts: int,
    totalSharePct: real,
    enforceable: bool,
    participants: seq<Participant>)

  datatype InitialStatus = SkippedZeroAllocation | Pending | NotDeliverable

  datatype Delivery = Delivery(deviceId: string, allocatedWatts: int, targetEndpointRef: string, targetPeerSki: string,
                               status: InitialStatus)

  function Share(config: Config): real {
    if config.sharePct.Some? && config.sharePct.value > 0.0 then config.sharePct.value else 0.0
  }

  function Shares(configs: seq<Config>): (r: seq<real>)
    ensures |r| == |configs| && forall i :: 0 <= i < |r| ==> r[i] == Share(configs[i]) >= 0.0
  {
    seq(|configs|, i requires 0 <= i < |configs| => Share(configs[i]))
  }

  function Sum(xs: seq<real>): real {
    if xs == [] then 0.0 else Sum(xs[..|xs| - 1]) + xs[|xs| - 1]
  }

  function Normalized(share: real, total: real): real {
    if total > 0.0 then share / total else 0.0
  }

  function Quota(limit: int, normalized: real): int {
    if normalized == 0.0 then 0 else RoundHalfEven(limit as real * normalized)
  }

  function Allocation(limit: int, share: real, total: real): int {
    Quota(limit, Normalized(share, total))
  }

  function EebusAvailable(config: Config): bool {
    config.eebus.Some? && config.eebus.value.peerSki != ""
  }

  function NativeAvailable(config: Config): bool {
    config.controllable && config.native.Some?
  }

  function ParticipantOf(config: Config, limit: int, total: real): Participant {
    var path :=
      if EebusAvailable(config) then "eebus_spine"
      else if !NativeAvailable(config) then ""
      else if config.native.value.dispatchProfile != "" then config.native.value.dispatchProfile
      else "native";
    var target :=
      if EebusAvailable(config) then config.eebus.value.id
      else if NativeAvailable(config) then config.native.value.id
      else "";
    Participant(
      config.deviceId,
      Share(config),
      RoundTo(Normalized(Share(config), total), 1_000_000),
      Allocation(limit, Share(config), total),
      EebusAvailable(config) || NativeAvailable(config),
      path,
      target,
      if config.eebus.Some? then config.eebus.value.peerSki else "")
  }

  method BuildDistribution(configs: seq<Config>, limitWatts: int) returns (d: Distribution)
    ensures d.limitWatts == limitWatts && |d.participants| == |configs|
    ensures d.totalSharePct == RoundTo(Sum(Shares(configs)), 1000)
    ensures forall i :: 0 <= i < |configs| ==>
            d.participants[i] == ParticipantOf(configs[i], limitWatts, Sum(Shares(configs)))
    ensures d.enforceable <==>
            exists i :: 0 <= i < |configs| && (EebusAvailable(configs[i]) || NativeAvailable(configs[i]))
    ensures forall i :: 0 <= i < |configs| ==> RowFits(configs[i], d.participants[i])
    ensures limitWatts >= 0 && Sum(Shares(configs)) > 0.0 ==>
            IsProportional(d.participants, Shares(configs), limitWatts)
    ensures Sum(Shares(configs)) <= 0.0 ==> forall i :: 0 <= i < |configs| ==> d.participants[i].allocatedWatts == 0
  {
    var totalShare := 0.0;
    for i := 0 to |configs|
      invariant totalShare == Sum(Shares(configs)[..i])
    {
      assert Shares(configs)[..i + 1][..i] == Shares(configs)[..i];
      totalShare := totalShare + Share(configs[i]);
    }
    assert Shares(configs)[..|configs|] == Shares(configs);
    d := BuildRows(configs, limitWatts, totalShare);
    RowsAreProportional(configs, limitWatts, d.participants);
    forall i | 0 <= i < |configs| ensures RowFits(configs[i], d.participants[i]) {
      ParticipantFits(configs[i], limitWatts, Sum(Shares(configs)));
    }
  }

  // ---- What a row promises -----------------------------------------------------------

  /** The row is about its device, and points at the EEBUS endpoint whenever that is usable, at the
      native one when only that is, and at none otherwise. */
  predicate RowFits(config: Config, row: Participant) {
    && row.deviceId == config.deviceId && row.sharePct == Share(config)
    && (row.controlAvailable <==> row.controlPath != "")
    && (if EebusAvailable(config) then
          row.controlPath == "eebus_spine" && row.targetEndpointRef == config.eebus.value.id
          && row.targetPeerSki == config.eebus.value.peerSki
        else if NativeAvailable(config) then
          row.targetEndpointRef == config.native.value.id && row.targetPeerSki == ""
        else !row.controlAvailable && row.targetEndpointRef == "" && row.targetPeerSki == "")
  }

  lemma ParticipantFits(config: Config, limit: int, total: real)
    ensures RowFits(config, ParticipantOf(config, limit, total))
  {
    hide Allocation, Normalized, Share, RoundTo;
  }

  function Watts(rows: seq<Participant>): int {
    if rows == [] then 0 else Watts(rows[..|rows| - 1]) + rows[|rows| - 1].allocatedWatts
  }

  /** The row gets its proportional part of the limit to within half a watt, never less than nothing or
      more than the limit, and reports its part rounded to six digits. */
  ghost predicate IsPart(row: Participant, share: real, total: real, limit: int)
    requires total > 0.0
  {
    && 0 <= row.allocatedWatts <= limit
    && -0.5 <= row.allocatedWatts as real - limit as real * (share / total) <= 0.5
    && -0.5 <= (row.normalizedShare - share / total) * 1_000_000.0 <= 0.5
  }

  /** Every row is such a part; larger shares never get less; the sum misses the limit by at most half a
      watt per row. */
  ghost predicate IsProportional(rows: seq<Participant>, shares: seq<real>, limit: int) {
    && |rows| == |shares| && Sum(shares) > 0.0
    && (forall i :: 0 <= i < |rows| ==> IsPart(rows[i], shares[i], Sum(shares), limit))
    && (forall i, j :: 0 <= i < |rows| && 0 <= j < |rows| && shares[i] <= shares[j] ==>
          rows[i].allocatedWatts <= rows[j].allocatedWatts)
    && -|rows| <= 2 * (Watts(rows) - limit) <= |rows|
  }

  lemma RowsAreProportional(configs: seq<Config>, limit: int, rows: seq<Participant>)
    requires |rows| == |configs|
    requires forall i :: 0 <= i < |rows| ==> rows[i] == ParticipantOf(configs[i], limit, Sum(Shares(configs)))
    ensures limit >= 0 && Sum(Shares(configs)) > 0.0 ==> IsProportional(rows, Shares(configs), limit)
    ensures Sum(Shares(configs)) <= 0.0 ==> forall i :: 0 <= i < |rows| ==> rows[i].allocatedWatts == 0
  {
    hide Allocation, Share, Sum, Normalized, RoundTo, IsPart;
    var shares := Shares(configs);
    var total := Sum(shares);
    forall i | 0 <= i < |rows|
      ensures rows[i].allocatedWatts == Allocation(limit, shares[i], total)
      ensures rows[i].normalizedShare == RoundTo(Normalized(shares[i], total), 1_000_000)
    {
    }
    if total <= 0.0 {
      NoSharesNoAllocation(limit, shares);
    } else if limit >= 0 {
      forall i | 0 <= i < |rows| ensures IsPart(rows[i], shares[i], total, limit) {
        RowIsPart(rows[i], limit, shares, i);
      }
      forall i, j | 0 <= i < |rows| && 0 <= j < |rows| && shares[i] <= shares[j]
        ensures rows[i].allocatedWatts <= rows[j].allocatedWatts
      {
        AllocationMonotone(limit, shares, i, j);
      }
      AllocationSumBound(limit, shares);
      WattsAdd(rows, shares, limit, total);
    }
  }

  lemma RowIsPart(row: Participant, limit: int, shares: seq<real>, i: nat)
    requires limit >= 0 && ValidShares(shares) && i < |shares|
    requires row.allocatedWatts == Allocation(limit, shares[i], Sum(shares))
    requires row.normalizedShare == RoundTo(Normalized(shares[i], Sum(shares)), 1_000_000)
    ensures IsPart(row, shares[i], Sum(shares), limit)
  {
    hide Allocation, Sum, RoundTo;
    AllocationNearShare(limit, shares, i);
    RoundToNear(shares[i] / Sum(shares), 1_000_000);
  }

  lemma {:induction false} WattsAdd(rows: seq<Participant>, shares: seq<real>, limit: int, total: real)
    requires |rows| == |shares|
    requires forall i :: 0 <= i < |rows| ==> rows[i].allocatedWatts == Allocation(limit, shares[i], total)
    ensures Watts(rows) == TotalAllocated(limit, shares, total)
  {
    hide Allocation;
    if rows != [] {
      WattsAdd(rows[..|rows| - 1], shares[..|shares| - 1], limit, total);
    }
  }

  method BuildRows(configs: seq<Config>, limitWatts: int, totalShare: real) returns (d: Distribution)
    ensures d.limitWatts == limitWatts && |d.participants| == |configs|
    ensures d.totalSharePct == RoundTo(totalShare, 1000)
    ensures forall i :: 0 <= i < |configs| ==> d.participants[i] == ParticipantOf(configs[i], limitWatts, totalShare)
    ensures d.enforceable <==>
            exists i :: 0 <= i < |configs| && (EebusAvailable(configs[i]) || NativeAvailable(configs[i]))
  {
    var rows: seq<Participant> := [];
    var enforceable := false;
    for i := 0 to |configs|
      invariant |rows| == i
      invariant forall j :: 0 <= j < i ==> rows[j] == ParticipantOf(configs[j], limitWatts, totalShare)
      invariant enforceable <==> exists j :: 0 <= j < i && (EebusAvailable(configs[j]) || NativeAvailable(configs[j]))
    {
      var row := ParticipantOf(configs[i], limitWatts, totalShare);
      rows := rows + [row];
      enforceable := enforceable || row.controlAvailable;
    }
    d := Distribution(limitWatts, RoundTo(totalShare, 1000), enforceable, rows);
  }

  function Named(participants: seq<Participant>): (r: seq<Participant>)
    ensures forall p :: p in r <==> p in participants && p.deviceId != ""
  {
    if participants == [] then [] else
    var last := participants[|participants| - 1];
    var earlier := Named(participants[..|participants| - 1]);
    if last.deviceId != "" then earlier + [last] else earlier
  }

  function DeliveryOf(p: Participant): Delivery {
    var ski := Text.Lower(Text.Strip(p.targetPeerSki));
    var status :=
      if p.allocatedWatts <= 0 then SkippedZeroAllocation
      else if p.targetEndpointRef != "" && ski != "" then Pending
      else if p.targetEndpointRef != "" && p.controlPath != "" then Pending
      else NotDeliverable;
    Delivery(p.deviceId, p.allocatedWatts, p.targetEndpointRef, ski, status)
  }

  function Deliveries(named: seq<Participant>): (r: seq<Delivery>)
    ensures |r| == |named| && forall i :: 0 <= i < |r| ==> r[i] == DeliveryOf(named[i])
  {
    seq(|named|, i requires 0 <= i < |named| => DeliveryOf(named[i]))
  }

  lemma DeliveriesExtend(named: seq<Participant>, p: Participant)
    ensures Deliveries(named + [p]) == Deliveries(named) + [DeliveryOf(p)]
  {
  }

  /** A delivery carries its row's device, watts and endpoint, and its SKI in stored form. */
  predicate Carries(delivery: Delivery, row: Participant) {
    && delivery.deviceId == row.deviceId && delivery.allocatedWatts == row.allocatedWatts
    && delivery.targetEndpointRef == row.targetEndpointRef
    && delivery.targetPeerSki == Text.Lower(Text.Strip(row.targetPeerSki))
    && (delivery.status == SkippedZeroAllocation <==> row.allocatedWatts <= 0)
  }

  /** One delivery per participant that names a device, in order. */
  method CreateDeliveries(d: Distribution) returns (deliveries: seq<Delivery>)
    ensures deliveries == Deliveries(Named(d.participants))
    ensures |deliveries| == |Named(d.participants)|
    ensures forall i :: 0 <= i < |deliveries| ==> Carries(deliveries[i], Named(d.participants)[i])
  {
    hide Text.Lower, Text.Strip;
    deliveries := [];
    for i := 0 to |d.participants|
      invariant deliveries == Deliveries(Named(d.participants[..i]))
    {
      assert d.participants[..i + 1][..i] == d.participants[..i];
      var p := d.participants[i];
      if p.deviceId != "" {
        DeliveriesExtend(Named(d.participants[..i]), p);
        deliveries := deliveries + [DeliveryOf(p)];
      }
    }
    assert d.participants[..|d.participants|] == d.participants;
  }

  /** From configuration to delivery: a delivery waits to be sent exactly when the device was
      allocated power and has a usable endpoint, and its target SKI carries no outer whitespace
      and no capitals. */
  lemma DeliveryPendingExactly(config: Config, limit: int, total: real)
    requires config.eebus.Some? ==> config.eebus.value.id != "" && Text.Trimmed(config.eebus.value.peerSki)
    requires config.native.Some? ==> config.native.value.id != ""
    ensures
      var delivery := DeliveryOf(ParticipantOf(config, limit, total));
      && (delivery.status == Pending <==>
          delivery.allocatedWatts > 0 && (EebusAvailable(config) || NativeAvailable(config)))
      && Text.Trimmed(delivery.targetPeerSki) && Text.IsLower(delivery.targetPeerSki)
      && (delivery.targetPeerSki != "" <==> EebusAvailable(config))
  {
    hide Allocation, Normalized, Share, RoundTo, Text.Trimmed, Text.IsLower, Text.Lower, Text.Strip;
    LowerKeepsTrimmed(ParticipantOf(config, limit, total).targetPeerSki);
  }

  lemma LowerKeepsTrimmed(s: string)
    requires Text.Trimmed(s)
    ensures Text.Trimmed(Text.Lower(s)) && Text.IsLower(Text.Lower(s))
  {
  }

  // ---- How far the split is from proportional ----------------------------------------

  predicate ValidShares(shares: seq<real>) {
    (forall i :: 0 <= i < |shares| ==> shares[i] >= 0.0) && Sum(shares) > 0.0
  }

  lemma {:induction false} ShareAtMostSum(shares: seq<real>, i: nat)
    requires i < |shares| && forall j :: 0 <= j < |shares| ==> shares[j] >= 0.0
    ensures 0.0 <= Sum(shares[..|shares| - 1]) && shares[i] <= Sum(shares)
  {
    var front := shares[..|shares| - 1];
    if i < |front| {
      ShareAtMostSum(front, i);
    } else if |front| > 0 {
      ShareAtMostSum(front, 0);
    }
  }

  lemma NormalizedBounds(share: real, total: real)
    requires 0.0 <= share <= total && total > 0.0
    ensures 0.0 <= Normalized(share, total) <= 1.0
  {
    DivideMonotone(0.0, share, total);
    DivideMonotone(share, total, total);
  }

  lemma RoundedWithin(limit: int, exact: real)
    requires 0.0 <= exact <= limit as real
    ensures 0 <= RoundHalfEven(exact) <= limit
  {
    RoundMonotone(0.0, exact);
    RoundMonotone(exact, limit as real);
    RoundOfInteger(0);
    RoundOfInteger(limit);
  }

  lemma QuotaNear(limit: int, q: real)
    requires limit >= 0 && 0.0 <= q <= 1.0
    ensures -0.5 <= Quota(limit, q) as real - limit as real * q <= 0.5
    ensures 0 <= Quota(limit, q) <= limit
  {
    var exact := limit as real * q;
    if q == 0.0 {
      assert exact == 0.0;
    } else {
      ScaleMonotone(0.0, q, limit as real);
      ScaleMonotone(q, 1.0, limit as real);
      RoundedWithin(limit, exact);
    }
  }

  lemma QuotaMonotone(limit: int, p: real, q: real)
    requires limit >= 0 && 0.0 <= p <= q <= 1.0
    ensures Quota(limit, p) <= Quota(limit, q)
  {
    QuotaNear(limit, q);
    if p != 0.0 {
      ScaleMonotone(p, q, limit as real);
      RoundMonotone(limit as real * p, limit as real * q);
    }
  }

  function ExactShare(limit: int, share: real, total: real): real
    requires total > 0.0
  {
    limit as real * (share / total)
  }

  /** Each device gets its exact proportional share to within half a watt, never less than
      nothing and never more than the whole limit. */
  lemma AllocationNearShare(limit: int, shares: seq<real>, i: nat)
    requires limit >= 0 && ValidShares(shares) && i < |shares|
    ensures
      var watts := Allocation(limit, shares[i], Sum(shares));
      -0.5 <= watts as real - ExactShare(limit, shares[i], Sum(shares)) <= 0.5 && 0 <= watts <= limit
  {
    ShareAtMostSum(shares, i);
    AllocationNear(limit, shares[i], Sum(shares));
  }

  lemma AllocationNear(limit: int, share: real, total: real)
    requires limit >= 0 && 0.0 <= share <= total && total > 0.0
    ensures
      var watts := Allocation(limit, share, total);
      -0.5 <= watts as real - ExactShare(limit, share, total) <= 0.5 && 0 <= watts <= limit
  {
    NormalizedBounds(share, total);
    QuotaNear(limit, Normalized(share, total));
  }

  lemma ScaleMonotone(a: real, b: real, k: real)
    requires a <= b && k >= 0.0
    ensures k * a <= k * b
  {
  }

  /** A device with a larger share never gets fewer watts. */
  lemma AllocationMonotone(limit: int, shares: seq<real>, i: nat, j: nat)
    requires limit >= 0 && ValidShares(shares) && i < |shares| && j < |shares|
    requires shares[i] <= shares[j]
    ensures Allocation(limit, shares[i], Sum(shares)) <= Allocation(limit, shares[j], Sum(shares))
  {
    ShareAtMostSum(shares, j);
    AllocationOrdered(limit, shares[i], shares[j], Sum(shares));
  }

  lemma AllocationOrdered(limit: int, low: real, high: real, total: real)
    requires limit >= 0 && 0.0 <= low <= high <= total && total > 0.0
    ensures Allocation(limit, low, total) <= Allocation(limit, high, total)
  {
    NormalizedBounds(low, total);
    NormalizedBounds(high, total);
    DivideMonotone(low, high, total);
    QuotaMonotone(limit, Normalized(low, total), Normalized(high, total));
  }

  function TotalAllocated(limit: int, shares: seq<real>, total: real): int {
    if shares == [] then 0
    else TotalAllocated(limit, shares[..|shares| - 1], total) + Allocation(limit, shares[|shares| - 1], total)
  }

  lemma {:induction false} PartialSumBound(limit: int, shares: seq<real>, total: real)
    requires limit >= 0 && total > 0.0
    requires forall i :: 0 <= i < |shares| ==> 0.0 <= shares[i] <= total
    ensures
      var error := TotalAllocated(limit, shares, total) as real - ExactShare(limit, Sum(shares), total);
      -(|shares| as real) / 2.0 <= error <= |shares| as real / 2.0
  {
    if shares == [] {
      ExactShareOfNothing(limit, total);
    } else {
      var front, last := shares[..|shares| - 1], shares[|shares| - 1];
      PartialSumBound(limit, front, total);
      AllocationNear(limit, last, total);
      ExactShareAdds(limit, Sum(front), last, total);
    }
  }

  lemma ExactShareOfNothing(limit: int, total: real)
    requires total > 0.0
    ensures ExactShare(limit, 0.0, total) == 0.0
  {
  }

  lemma ExactShareAdds(limit: int, a: real, b: real, total: real)
    requires total > 0.0
    ensures ExactShare(limit, a + b, total) == ExactShare(limit, a, total) + ExactShare(limit, b, total)
  {
    var x, y, z := (a + b) / total, a / total, b / total;
    assert x == y + z;
    Distribute(limit as real, y, z);
  }

  lemma Distribute(k: real, y: real, z: real)
    ensures k * (y + z) == k * y + k * z
  {
  }

  /** Over all n participants the allocations miss the limit by at most n/2 watts. */
  lemma AllocationSumBound(limit: int, shares: seq<real>)
    requires limit >= 0 && ValidShares(shares)
    ensures
      var missed := TotalAllocated(limit, shares, Sum(shares)) - limit;
      -|shares| <= 2 * missed <= |shares|
  {
    forall i | 0 <= i < |shares| ensures 0.0 <= shares[i] <= Sum(shares) { ShareAtMostSum(shares, i); }
    PartialSumBound(limit, shares, Sum(shares));
    WholeShare(limit, Sum(shares));
  }

  lemma WholeShare(limit: int, total: real)
    requires total > 0.0
    ensures ExactShare(limit, total, total) == limit as real
  {
    assert total / total == 1.0;
  }

  // ---- When the limit is missed ------------------------------------------------------

  predicate Whole(x: real) {
    x == x.Floor as real
  }

  /** Exactly between two whole numbers, the lower of which is odd or even. */
  predicate HalfAbove(x: real, odd: bool) {
    x == x.Floor as real + 0.5 && (x.Floor % 2 == 1 <==> odd)
  }

  /** Rounding both parts of a whole number that was cut in two. */
  lemma RoundedParts(limit: int, x: real)
    ensures
      var total := RoundHalfEven(x) + RoundHalfEven(limit as real - x);
      && (total > limit <==> limit % 2 == 1 && HalfAbove(x, true))
      && (total < limit <==> limit % 2 == 1 && HalfAbove(x, false))
  {
    var below := x.Floor;
    var rest := x - below as real;
    var y := limit as real - x;
    if rest == 0.0 {
      assert y.Floor == limit - below;
      assert RoundHalfEven(x) == below && RoundHalfEven(y) == limit - below;
    } else {
      assert y.Floor == limit - below - 1;
      if rest == 0.5 {
        RoundedHalf(x, below);
        RoundedHalf(y, limit - below - 1);
        Parity(limit, below, limit - below - 1);
      } else if rest < 0.5 {
        assert RoundHalfEven(x) == below && RoundHalfEven(y) == limit - below;
      } else {
        assert RoundHalfEven(x) == below + 1 && RoundHalfEven(y) == limit - below - 1;
      }
    }
  }

  lemma RoundedHalf(x: real, below: int)
    requires x == below as real + 0.5
    ensures x.Floor == below && RoundHalfEven(x) == below + below % 2
  {
  }

  lemma Parity(a: int, b: int, c: int)
    requires a == b + c + 1
    ensures b % 2 == 1 && c % 2 == 1 <==> a % 2 == 1 && b % 2 == 1
    ensures b % 2 == 0 && c % 2 == 0 <==> a % 2 == 1 && b % 2 == 0
  {
    assert a == 2 * (b / 2 + c / 2) + b % 2 + c % 2 + 1;
  }

  lemma QuotaIsRounded(limit: int, share: real, total: real)
    requires total > 0.0
    ensures Allocation(limit, share, total) == RoundHalfEven(ExactShare(limit, share, total))
  {
    hide RoundHalfEven;
    var q := share / total;
    assert Normalized(share, total) == q;
    var exact := limit as real * q;
    assert ExactShare(limit, share, total) == exact;
    QuotaRounds(limit, q, exact);
  }

  lemma QuotaRounds(limit: int, q: real, exact: real)
    requires exact == limit as real * q
    ensures Quota(limit, q) == RoundHalfEven(exact)
  {
    hide RoundHalfEven;
    if q == 0.0 {
      assert exact == 0.0;
      RoundOfInteger(0);
    }
  }

  lemma OfTwo(limit: int, a: real, b: real, total: real)
    ensures Sum([a, b]) == a + b
    ensures TotalAllocated(limit, [a, b], total) == Allocation(limit, a, total) + Allocation(limit, b, total)
  {
    hide Allocation;
    assert [a, b][..1] == [a] && [a][..0] == [];
    assert Sum([a]) == a;
    assert TotalAllocated(limit, [a], total) == Allocation(limit, a, total);
  }

  /** Two devices together get more than the limit exactly when the limit is odd and the first exact
      share ends in one half above an odd number, and less exactly when above an even one. */
  lemma TwoDevicesMissExactlyWhen(limit: int, a: real, b: real)
    requires a >= 0.0 && b >= 0.0 && a + b > 0.0
    ensures Sum([a, b]) == a + b
    ensures
      var handedOut, x := TotalAllocated(limit, [a, b], a + b), ExactShare(limit, a, a + b);
      && (handedOut > limit <==> limit % 2 == 1 && HalfAbove(x, true))
      && (handedOut < limit <==> limit % 2 == 1 && HalfAbove(x, false))
  {
    hide Allocation, ExactShare, HalfAbove, RoundHalfEven;
    OfTwo(limit, a, b, a + b);
    ExactShareAdds(limit, a, b, a + b);
    WholeShare(limit, a + b);
    QuotaIsRounded(limit, a, a + b);
    QuotaIsRounded(limit, b, a + b);
    RoundedParts(limit, ExactShare(limit, a, a + b));
  }

  /** The smallest such split: two equal shares of 3 W hand out 4 W. */
  lemma SplitCanExceedLimit()
    ensures TotalAllocated(3, [50.0, 50.0], Sum([50.0, 50.0])) == 4
  {
    TwoDevicesMissExactlyWhen(3, 50.0, 50.0);
    assert ExactShare(3, 50.0, 100.0) == 1.5;
    AllocationSumBound(3, [50.0, 50.0]);
  }

  /** However many devices: when every exact share is whole, exactly the limit is handed out. */
  lemma WholeSharesMeetLimit(limit: int, shares: seq<real>)
    requires Sum(shares) > 0.0
    requires forall i :: 0 <= i < |shares| ==> Whole(ExactShare(limit, shares[i], Sum(shares)))
    ensures TotalAllocated(limit, shares, Sum(shares)) == limit
  {
    PartialWhole(limit, shares, Sum(shares));
    WholeShare(limit, Sum(shares));
  }

  lemma {:induction false} PartialWhole(limit: int, shares: seq<real>, total: real)
    requires total > 0.0
    requires forall i :: 0 <= i < |shares| ==> Whole(ExactShare(limit, shares[i], total))
    ensures TotalAllocated(limit, shares, total) as real == ExactShare(limit, Sum(shares), total)
  {
    hide Allocation, ExactShare;
    if shares == [] {
      ExactShareOfNothing(limit, total);
    } else {
      var front, last := shares[..|shares| - 1], shares[|shares| - 1];
      PartialWhole(limit, front, total);
      ExactShareAdds(limit, Sum(front), last, total);
      QuotaIsRounded(limit, last, total);
      assert Whole(ExactShare(limit, last, total));
      RoundOfInteger(ExactShare(limit, last, total).Floor);
    }
  }

  /** In particular a single device gets the whole limit. */
  lemma OneDeviceGetsTheLimit(limit: int, share: real)
    requires share > 0.0
    ensures Sum([share]) == share && TotalAllocated(limit, [share], share) == limit
  {
    assert [share][..0] == [];
    WholeShare(limit, share);
    WholeSharesMeetLimit(limit, [share]);
  }

  /** With no positive share nothing is handed out, whatever the limit. */
  lemma NoSharesNoAllocation(limit: int, shares: seq<real>)
    requires Sum(shares) <= 0.0
    ensures forall i :: 0 <= i < |shares| ==> Allocation(limit, shares[i], Sum(shares)) == 0
  {
  }
}
