/** From a feasible plan to dispatched commands: interval extraction, the current interval and the
    clamp to the command contract. */
module Dispatch {
  import opened Wrappers
  import opened Rounding
  import opened SitePlan
  import opened HemsAssets

  datatype Value = Number(kw: real) | Switch(on: bool)

  /** An asset of the site model: its contract, and what the planner works with. */
  datatype CanonicalAsset = CanonicalAsset(key: string, kind: AssetType, contract: Option<Contract>, spec: Asset)

  datatype Interval = Interval(assetKey: string, startsAt: int, endsAt: int, commandKey: string, value: Value)

  function Rounded(kw: real): real {
    RoundTo(kw, 10000)
  }

  // ---- Interval extraction -----------------------------------------------------------

  function CommandKey(a: CanonicalAsset): string {
    match a.contract
    case Some(NumberContract(key, _, _)) => key
    case Some(SwitchContract(key)) => key
    case None =>
      match a.kind
      case BatteryAsset => "set_power_kw"
      case EvAsset => "set_charge_kw"
      case HeatPumpAsset => "set_power_kw"
      case PvAsset => "set_power_kw"
      case _ => "setpoint"
  }

  /** Without a contract the command goes under the key a contract for that type of asset would name, but for
      a load, whose contract switches it. */
  lemma FallbackKey(a: CanonicalAsset, t: Telemetry, c: Constraints)
    requires a.contract.None? && ContractOf(t, c).Some?
    requires match a.kind
             case BatteryAsset => c.BatteryConstraints?
             case EvAsset => c.EvConstraints?
             case HeatPumpAsset => c.HeatConstraints?
             case PvAsset => c.PvConstraints?
             case _ => c.LoadConstraints?
    ensures CommandKey(a) == if c.LoadConstraints? then "setpoint" else ContractOf(t, c).value.key
    ensures CommandKey(a.(contract := ContractOf(t, c))) == ContractOf(t, c).value.key
  {
    hide RoundTo, Numeric;
  }

  ghost predicate PlanFits(p: AssetPlan, steps: nat) {
    match p
    case BatteryPlan(charge, discharge, _) => |charge| == |discharge| == steps
    case EvPlan(charge, _) => |charge| == steps
    case HeatPlan(heat, _, _, _) => |heat| == steps
    case LoadPlan(on, _, _) => |on| == steps
    case PvPlan(output) => |output| == steps
  }

  function Planned(p: AssetPlan, steps: nat, t: nat): Value
    requires PlanFits(p, steps) && t < steps
  {
    match p
    case BatteryPlan(charge, discharge, _) => Number(Rounded(discharge[t] - charge[t]))
    case EvPlan(charge, _) => Number(Rounded(charge[t]))
    case HeatPlan(heat, _, _, _) => Number(Rounded(heat[t]))
    case LoadPlan(on, _, _) => Switch(on[t] as real >= 0.5)
    case PvPlan(output) => Number(Rounded(output[t]))
  }

  /** The command says what the balance of the site counts for the asset in step t: a load is switched on
      exactly when its nominal power is drawn, and every other asset's power is the drawn or supplied one,
      charging and heating counted as drawn, to four digits. */
  predicate Commands(v: Value, a: Asset, p: AssetPlan, t: nat) {
    match a
    case Load(nominal, _, _) =>
      && v.Switch? && p.LoadPlan? && t < |p.on|
      && (v.on <==> p.on[t] == 1) && NetSupply(a, p, t) == if v.on then -nominal else 0.0
    case EvCharger(_, _, _, _, _) => v.Number? && Near(v.kw, -NetSupply(a, p, t))
    case HeatPump(_, _, _, _, _, _) => v.Number? && Near(v.kw, -NetSupply(a, p, t))
    case Battery(_, _, _, _, _, _) => v.Number? && Near(v.kw, NetSupply(a, p, t))
    case PvInverter(_) => v.Number? && Near(v.kw, NetSupply(a, p, t))
  }

  predicate Near(kw: real, exact: real) {
    -0.00005 <= kw - exact <= 0.00005
  }

  lemma RoundedIsNear(kw: real)
    ensures Near(Rounded(kw), kw)
  {
    hide RoundTo;
    RoundToNear(kw, 10000);
  }

  lemma PlannedCommands(site: Site, a: Asset, p: AssetPlan, t: nat)
    requires WellFormed(site) && t < Steps(site)
    requires a.Battery? ==> a.capacityKwh > 0.0 && a.sqrtEfficiency > 0.0
    requires AssetFeasible(site, a, p)
    ensures PlanFits(p, Steps(site)) && Commands(Planned(p, Steps(site), t), a, p, t)
  {
    hide Rounded, SocStep, PvShare;
    RoundedIsNear(NetSupply(a, p, t));
    RoundedIsNear(-NetSupply(a, p, t));
  }

  function IntervalAt(a: CanonicalAsset, p: AssetPlan, steps: nat, start: int, step: int, t: nat): Interval
    requires PlanFits(p, steps) && t < steps
  {
    Interval(a.key, start + t * step, start + t * step + step, CommandKey(a), Planned(p, steps, t))
  }

  function IntervalsOf(a: CanonicalAsset, p: AssetPlan, steps: nat, start: int, step: int): (r: seq<Interval>)
    requires PlanFits(p, steps)
    ensures |r| == steps && forall t :: 0 <= t < steps ==> r[t] == IntervalAt(a, p, steps, start, step, t)
  {
    seq(steps, t requires 0 <= t < steps => IntervalAt(a, p, steps, start, step, t))
  }

  ghost predicate AllFit(plans: seq<AssetPlan>, steps: nat) {
    forall i :: 0 <= i < |plans| ==> PlanFits(plans[i], steps)
  }

  function AllIntervals(assets: seq<CanonicalAsset>, plans: seq<AssetPlan>, steps: nat, start: int,
                        step: int): seq<Interval>
    requires |assets| == |plans| && AllFit(plans, steps)
  {
    if assets == [] then []
    else AllIntervals(assets[..|assets| - 1], plans[..|plans| - 1], steps, start, step)
         + IntervalsOf(assets[|assets| - 1], plans[|plans| - 1], steps, start, step)
  }

  method ExtractIntervals(assets: seq<CanonicalAsset>, plans: seq<AssetPlan>, steps: nat, start: int, step: int)
    returns (intervals: seq<Interval>)
    requires |assets| == |plans| && AllFit(plans, steps)
    ensures intervals == AllIntervals(assets, plans, steps, start, step)
  {
    hide IntervalAt, PlanFits;
    intervals := [];
    for i := 0 to |assets|
      invariant intervals == AllIntervals(assets[..i], plans[..i], steps, start, step)
    {
      ghost var done := intervals;
      assert assets[..i + 1][..i] == assets[..i] && plans[..i + 1][..i] == plans[..i];
      for t := 0 to steps
        invariant intervals == done + IntervalsOf(assets[i], plans[i], steps, start, step)[..t]
      {
        intervals := intervals + [IntervalAt(assets[i], plans[i], steps, start, step, t)];
      }
    }
    assert assets[..|assets|] == assets && plans[..|plans|] == plans;
  }

  // ---- The current interval ----------------------------------------------------------

  const MINUTE := 60_000_000
  const HOUR := 3_600_000_000

  /** The start of the step-minute bucket of the hour that `now` (in microseconds) falls in. */
  function AlignHorizonStart(now: int, stepMinutes: nat): int
    requires stepMinutes > 0
  {
    var minute := now % HOUR / MINUTE;
    now - now % HOUR + minute / stepMinutes * stepMinutes * MINUTE
  }

  /** The horizon starts on a multiple of the step length counted from the full hour, to the minute. */
  lemma StartIsAligned(now: int, stepMinutes: nat)
    requires stepMinutes > 0
    ensures
      var start := AlignHorizonStart(now, stepMinutes);
      && start <= now && now - now % HOUR <= start
      && exists k: nat :: start == now - now % HOUR + k * stepMinutes * MINUTE
  {
    var minute := now % HOUR / MINUTE;
    var k: nat := minute / stepMinutes;
    assert k * stepMinutes <= minute;
    assert AlignHorizonStart(now, stepMinutes) == now - now % HOUR + k * stepMinutes * MINUTE;
    assert k * stepMinutes * MINUTE <= minute * MINUTE <= now % HOUR;
  }

  /** The aligned horizon always starts with the step `now` falls in, whether or not the step
      length divides the hour. */
  lemma NowIsInFirstStep(now: int, stepMinutes: nat)
    requires stepMinutes > 0
    ensures
      var start := AlignHorizonStart(now, stepMinutes);
      start <= now < start + stepMinutes * MINUTE
  {
    var inHour := now % HOUR;
    var minute := inHour / MINUTE;
    var bucket := minute / stepMinutes;
    assert minute == bucket * stepMinutes + minute % stepMinutes;
    assert bucket * stepMinutes <= minute <= bucket * stepMinutes + stepMinutes - 1;
    assert minute * MINUTE <= inHour < minute * MINUTE + MINUTE;
  }

  function Covering(intervals: seq<Interval>, now: int): seq<Interval> {
    if intervals == [] then [] else
    var last := intervals[|intervals| - 1];
    Covering(intervals[..|intervals| - 1], now) + if last.startsAt <= now < last.endsAt then [last] else []
  }

  function FirstStart(intervals: seq<Interval>): int
    requires intervals != []
  {
    if |intervals| == 1 then intervals[0].startsAt else
    var rest := FirstStart(intervals[1..]);
    if intervals[0].startsAt < rest then intervals[0].startsAt else rest
  }

  function StartingAt(intervals: seq<Interval>, at: int): seq<Interval> {
    if intervals == [] then [] else
    var last := intervals[|intervals| - 1];
    StartingAt(intervals[..|intervals| - 1], at) + if last.startsAt == at then [last] else []
  }

  /** The intervals covering `now`, or those that start first when none does. */
  function CurrentIntervals(intervals: seq<Interval>, now: int): seq<Interval> {
    var current := Covering(intervals, now);
    if current != [] then current
    else if intervals == [] then []
    else StartingAt(intervals, FirstStart(intervals))
  }

  lemma {:induction false} CoveringMembers(intervals: seq<Interval>, now: int, i: Interval)
    ensures i in Covering(intervals, now) <==> i in intervals && i.startsAt <= now < i.endsAt
  {
    if intervals != [] {
      var n := |intervals| - 1;
      CoveringMembers(intervals[..n], now, i);
      assert intervals == intervals[..n] + [intervals[n]];
    }
  }

  lemma {:induction false} StartingMembers(intervals: seq<Interval>, at: int, i: Interval)
    ensures i in StartingAt(intervals, at) <==> i in intervals && i.startsAt == at
  {
    if intervals != [] {
      var n := |intervals| - 1;
      StartingMembers(intervals[..n], at, i);
      assert intervals == intervals[..n] + [intervals[n]];
    }
  }

  lemma {:induction false} FirstStartIsLeast(intervals: seq<Interval>)
    requires intervals != []
    ensures exists i :: i in intervals && i.startsAt == FirstStart(intervals)
    ensures forall i :: i in intervals ==> FirstStart(intervals) <= i.startsAt
  {
    if |intervals| > 1 {
      FirstStartIsLeast(intervals[1..]);
      assert intervals == [intervals[0]] + intervals[1..];
      var i :| i in intervals[1..] && i.startsAt == FirstStart(intervals[1..]);
      assert i in intervals;
    }
    assert intervals[0] in intervals;
  }

  /** Current are exactly the intervals that cover the instant; when none does, exactly those that start
      first of all. */
  lemma CurrentIsCoveringOrFirst(intervals: seq<Interval>, now: int, i: Interval)
    ensures (exists j :: j in intervals && j.startsAt <= now < j.endsAt) ==>
              (i in CurrentIntervals(intervals, now) <==> i in intervals && i.startsAt <= now < i.endsAt)
    ensures (forall j :: j in intervals ==> !(j.startsAt <= now < j.endsAt)) ==>
              (i in CurrentIntervals(intervals, now) <==>
               i in intervals && forall j :: j in intervals ==> i.startsAt <= j.startsAt)
  {
    hide Covering, StartingAt, FirstStart;
    forall j ensures j in Covering(intervals, now) <==> j in intervals && j.startsAt <= now < j.endsAt {
      CoveringMembers(intervals, now, j);
    }
    assert Covering(intervals, now) != [] ==> Covering(intervals, now)[0] in Covering(intervals, now);
    if intervals != [] {
      FirstStartIsLeast(intervals);
      StartingMembers(intervals, FirstStart(intervals), i);
    }
  }

  lemma {:induction false} CoveringConcat(a: seq<Interval>, b: seq<Interval>, now: int)
    ensures Covering(a + b, now) == Covering(a, now) + Covering(b, now)
  {
    if b == [] {
      assert a + b == a;
    } else {
      assert (a + b)[..|a + b| - 1] == a + b[..|b| - 1];
      CoveringConcat(a, b[..|b| - 1], now);
    }
  }

  lemma {:induction false} OnlyFirstCovers(intervals: seq<Interval>, now: int)
    requires intervals != [] && intervals[0].startsAt <= now < intervals[0].endsAt
    requires forall t :: 1 <= t < |intervals| ==> intervals[t].startsAt > now
    ensures Covering(intervals, now) == [intervals[0]]
  {
    if |intervals| == 1 {
      assert intervals[..0] == [];
    } else {
      OnlyFirstCovers(intervals[..|intervals| - 1], now);
    }
  }

  /** The intervals of an asset follow each other without gap or overlap, from the start of the horizon
      over all its steps, and carry the asset's key and command key. */
  lemma IntervalsTile(a: CanonicalAsset, p: AssetPlan, steps: nat, start: int, step: int)
    requires PlanFits(p, steps) && steps > 0
    ensures
      var own := IntervalsOf(a, p, steps, start, step);
      && own[0].startsAt == start && own[steps - 1].endsAt == start + steps * step
      && (forall t :: 0 < t < steps ==> own[t].startsAt == own[t - 1].endsAt)
      && (forall t :: 0 <= t < steps ==> own[t].endsAt - own[t].startsAt == step && own[t].assetKey == a.key)
      && (forall t :: 0 <= t < steps && a.contract.Some? ==> own[t].commandKey == a.contract.value.key)
  {
    hide PlanFits, Planned;
    var own := IntervalsOf(a, p, steps, start, step);
    forall t | 0 < t < steps ensures own[t].startsAt == own[t - 1].endsAt {
      NextStart(t, step);
    }
    NextStart(steps, step);
  }

  lemma NextStart(t: int, step: int)
    ensures t * step == (t - 1) * step + step
  {
  }

  /** The step-0 interval of every asset. */
  function FirstIntervals(assets: seq<CanonicalAsset>, plans: seq<AssetPlan>, steps: nat, start: int,
                          step: int): (r: seq<Interval>)
    requires |assets| == |plans| && AllFit(plans, steps) && steps > 0
    ensures |r| == |assets|
    ensures forall i :: 0 <= i < |assets| ==> r[i] == IntervalAt(assets[i], plans[i], steps, start, step, 0)
  {
    seq(|assets|, i requires 0 <= i < |assets| => IntervalAt(assets[i], plans[i], steps, start, step, 0))
  }

  lemma OwnFirstCovers(a: CanonicalAsset, p: AssetPlan, steps: nat, start: int, step: int, now: int)
    requires PlanFits(p, steps) && steps > 0
    requires start <= now < start + step
    ensures Covering(IntervalsOf(a, p, steps, start, step), now) == [IntervalAt(a, p, steps, start, step, 0)]
  {
    hide PlanFits, Planned, CommandKey;
    var own := IntervalsOf(a, p, steps, start, step);
    forall t | 1 <= t < steps ensures own[t].startsAt > now {
      LaterStart(t, step);
    }
    OnlyFirstCovers(own, now);
  }

  lemma {:induction false} CurrentAreFirst(assets: seq<CanonicalAsset>, plans: seq<AssetPlan>, steps: nat, start: int,
                                           step: int, now: int)
    requires |assets| == |plans| && AllFit(plans, steps) && steps > 0
    requires start <= now < start + step
    ensures Covering(AllIntervals(assets, plans, steps, start, step), now) ==
            FirstIntervals(assets, plans, steps, start, step)
  {
    hide PlanFits, IntervalAt, IntervalsOf, Covering;
    if assets != [] {
      var n := |assets| - 1;
      var own := IntervalsOf(assets[n], plans[n], steps, start, step);
      CurrentAreFirst(assets[..n], plans[..n], steps, start, step, now);
      CoveringConcat(AllIntervals(assets[..n], plans[..n], steps, start, step), own, now);
      OwnFirstCovers(assets[n], plans[n], steps, start, step, now);
    } else {
      NothingCovers(now);
    }
  }

  lemma NothingCovers(now: int)
    ensures Covering([], now) == []
  {
  }

  lemma LaterStart(t: nat, step: int)
    requires t >= 1 && step > 0
    ensures t * step >= step
  {
  }

  // ---- The clamp ---------------------------------------------------------------------

  function Bound(low: real, high: real, v: real): real {
    var capped := if high < v then high else v;
    if low > capped then low else capped
  }

  /** The clamp for the values the planner emits: with a contract its type decides, without one a
      number is held to the range of the asset type. */
  function Clamped(a: CanonicalAsset, v: Value): Value {
    match a.contract
    case Some(SwitchContract(_)) => if v.Switch? then v else Switch(v.kw >= 0.5)
    case Some(NumberContract(_, low, high)) =>
      var kw := if v.Number? then v.kw else if v.on then 1.0 else 0.0;
      Number(Rounded(Bound(low, high, kw)))
    case None =>
      if v.Switch? then v else
      match a.spec
      case Battery(_, _, _, charge, discharge, _) => Number(Rounded(Bound(-charge, discharge, v.kw)))
      case EvCharger(charge, _, _, _, _) => Number(Rounded(Bound(0.0, charge, v.kw)))
      case HeatPump(power, _, _, _, _, _) => Number(Rounded(Bound(0.0, power, v.kw)))
      case PvInverter(_) => Number(Rounded(if v.kw > 0.0 then v.kw else 0.0))
      case Load(_, _, _) => Number(Rounded(v.kw))
  }

  /** Whatever the command, a number leaves the clamp inside the contract's bounds to four digits, is left
      alone when it already is such a number, and a switch contract always gets a switch. */
  lemma ClampBounds(a: CanonicalAsset, v: Value)
    requires a.contract.Some?
    ensures a.contract.value.SwitchContract? ==>
              Clamped(a, v).Switch? && (v.Switch? ==> Clamped(a, v) == v) &&
                (v.Number? ==> Clamped(a, v).on == (v.kw >= 0.5))
    ensures a.contract.value.NumberContract? && a.contract.value.minimum <= a.contract.value.maximum ==>
              && Clamped(a, v).Number?
              && Rounded(a.contract.value.minimum) <= Clamped(a, v).kw <= Rounded(a.contract.value.maximum)
              && (v.Number? && a.contract.value.minimum <= v.kw <= a.contract.value.maximum ==>
                    Clamped(a, v) == Number(Rounded(v.kw)))
  {
    hide RoundTo;
    if a.contract.value.NumberContract? && a.contract.value.minimum <= a.contract.value.maximum {
      var low, high := a.contract.value.minimum, a.contract.value.maximum;
      var kw := if v.Number? then v.kw else if v.on then 1.0 else 0.0;
      RoundToMonotone(low, Bound(low, high, kw), 10000);
      RoundToMonotone(Bound(low, high, kw), high, 10000);
    }
  }

  /** Without a contract a number is held to the range of the device. */
  lemma ClampWithoutContract(a: CanonicalAsset, kw: real)
    requires a.contract.None?
    ensures
      var r := Clamped(a, Number(kw));
      && r.Number?
      && (a.spec.Battery? && 0.0 <= a.spec.maxChargeKw && 0.0 <= a.spec.maxDischargeKw ==>
            Rounded(-a.spec.maxChargeKw) <= r.kw <= Rounded(a.spec.maxDischargeKw))
      && (a.spec.EvCharger? && 0.0 <= a.spec.maxChargeKw ==> Rounded(0.0) <= r.kw <= Rounded(a.spec.maxChargeKw))
      && (a.spec.HeatPump? && 0.0 <= a.spec.maxPowerKw ==> Rounded(0.0) <= r.kw <= Rounded(a.spec.maxPowerKw))
      && (a.spec.PvInverter? ==> Rounded(0.0) <= r.kw)
      && (a.spec.Load? ==> r.kw == Rounded(kw))
  {
    hide RoundTo;
    match a.spec {
      case Battery(_, _, _, charge, discharge, _) =>
        if 0.0 <= charge && 0.0 <= discharge { BoundRounds(-charge, discharge, kw); }
      case EvCharger(charge, _, _, _, _) => if 0.0 <= charge { BoundRounds(0.0, charge, kw); }
      case HeatPump(power, _, _, _, _, _) => if 0.0 <= power { BoundRounds(0.0, power, kw); }
      case PvInverter(_) => RoundToMonotone(0.0, if kw > 0.0 then kw else 0.0, 10000);
      case Load(_, _, _) =>
    }
  }

  lemma BoundRounds(low: real, high: real, v: real)
    requires low <= high
    ensures Rounded(low) <= Rounded(Bound(low, high, v)) <= Rounded(high)
  {
    hide RoundTo;
    RoundToMonotone(low, Bound(low, high, v), 10000);
    RoundToMonotone(Bound(low, high, v), high, 10000);
  }

  lemma RoundedInsideRoundedBounds(low: real, high: real, raw: real)
    requires low <= raw <= high
    ensures Rounded(Bound(Rounded(low), Rounded(high), Rounded(raw))) == Rounded(raw)
  {
    hide RoundTo;
    RoundToMonotone(low, raw, 10000);
    RoundToMonotone(raw, high, 10000);
    RoundToIdempotent(raw, 10000);
  }

  lemma RoundedZero()
    ensures Rounded(0.0) == 0.0
  {
    RoundToOnGrid(0.0, 0, 10000);
  }

  /** The site model's asset for the telemetry of a device. */
  function AssetFrom(key: string, kind: AssetType, t: Telemetry, policy: Policy, maxShareKw: real): CanonicalAsset
    requires policy.stepMinutes > 0 && !kind.OtherAsset?
  {
    var c := ConstraintsOf(kind, t, policy);
    CanonicalAsset(key, kind, ContractOf(t, c), PlannerAsset(c, policy, maxShareKw))
  }

  /** For every asset with a contract and every assignment that meets its planner constraints, the
      rounded command of each step already lies in the rounded contract bounds: the clamp returns
      it unchanged. */
  lemma ClampKeepsPlannedCommand(key: string, kind: AssetType, t: Telemetry, policy: Policy, maxShareKw: real,
                                 site: Site, p: AssetPlan, step: nat)
    requires policy.stepMinutes > 0 && !kind.OtherAsset?
    requires WellFormed(site) && step < Steps(site)
    requires AssetFrom(key, kind, t, policy, maxShareKw).contract.Some?
    requires
      var a := AssetFrom(key, kind, t, policy, maxShareKw).spec;
      (a.Battery? ==> a.capacityKwh > 0.0 && a.sqrtEfficiency > 0.0) && AssetFeasible(site, a, p)
    ensures PlanFits(p, Steps(site))
    ensures Clamped(AssetFrom(key, kind, t, policy, maxShareKw), Planned(p, Steps(site), step)) ==
            Planned(p, Steps(site), step)
  {
    match kind {
      case BatteryAsset => BatteryClamp(key, t, policy, site, p, step);
      case EvAsset => NumberClamp(key, kind, t, policy, maxShareKw, site, p, step);
      case HeatPumpAsset => NumberClamp(key, kind, t, policy, maxShareKw, site, p, step);
      case PvAsset => NumberClamp(key, kind, t, policy, maxShareKw, site, p, step);
      case LoadAsset =>
    }
  }

  lemma BatteryClamp(key: string, t: Telemetry, policy: Policy, site: Site, p: AssetPlan, step: nat)
    requires policy.stepMinutes > 0
    requires WellFormed(site) && step < Steps(site)
    requires
      var a := AssetFrom(key, BatteryAsset, t, policy, 0.0).spec;
      a.capacityKwh > 0.0 && AssetFeasible(site, a, p) && AssetFrom(key, BatteryAsset, t, policy, 0.0).contract.Some?
    ensures PlanFits(p, Steps(site))
    ensures Clamped(AssetFrom(key, BatteryAsset, t, policy, 0.0), Planned(p, Steps(site), step)) ==
            Planned(p, Steps(site), step)
  {
    hide RoundTo, Numeric, SocStep;
    var asset := AssetFrom(key, BatteryAsset, t, policy, 0.0);
    BatteryContractMatches(t, policy);
    RoundedInsideRoundedBounds(-asset.spec.maxChargeKw, asset.spec.maxDischargeKw, p.discharge[step] - p.charge[step]);
  }

  lemma BatteryContractMatches(t: Telemetry, policy: Policy)
    ensures
      var c := BatteryConstraintsOf(t, policy.batteryReservePct);
      && c.maxChargeKw >= 3.0 && c.maxDischargeKw >= 3.0
      && BatteryContract(t, c) ==
         Some(NumberContract("set_power_kw", Rounded(-c.maxChargeKw), Rounded(c.maxDischargeKw)))
  {
    hide RoundTo, Numeric;
    var c := BatteryConstraintsOf(t, policy.batteryReservePct);
    forall x: real | x >= 3.0 ensures RoundTo(x, 1000) >= 3.0 {
      RoundToMonotone(3.0, x, 1000);
      RoundToOnGrid(3.0, 3000, 1000);
    }
  }

  /** The planner's upper bound is the contract's before rounding, for the one-sided asset types. */
  lemma NumberClamp(key: string, kind: AssetType, t: Telemetry, policy: Policy, maxShareKw: real, site: Site,
                    p: AssetPlan, step: nat)
    requires policy.stepMinutes > 0 && (kind.EvAsset? || kind.HeatPumpAsset? || kind.PvAsset?)
    requires WellFormed(site) && step < Steps(site)
    requires AssetFrom(key, kind, t, policy, maxShareKw).contract.Some?
    requires AssetFeasible(site, AssetFrom(key, kind, t, policy, maxShareKw).spec, p)
    ensures PlanFits(p, Steps(site))
    ensures Clamped(AssetFrom(key, kind, t, policy, maxShareKw), Planned(p, Steps(site), step)) ==
            Planned(p, Steps(site), step)
  {
    hide RoundTo;
    RoundedZero();
    var asset := AssetFrom(key, kind, t, policy, maxShareKw);
    match asset.spec {
      case EvCharger(charge, _, _, _, _) =>
        assert asset.contract.value == NumberContract("set_charge_kw", 0.0, Rounded(charge));
        RoundedInsideRoundedBounds(0.0, charge, p.evCharge[step]);
      case HeatPump(power, _, _, _, _, _) =>
        assert asset.contract.value == NumberContract("set_power_kw", 0.0, Rounded(power));
        RoundedInsideRoundedBounds(0.0, power, p.heat[step]);
      case PvInverter(limit) =>
        assert asset.contract.value == NumberContract("set_power_kw", 0.0, Rounded(limit));
        RoundedInsideRoundedBounds(0.0, limit, p.output[step]);
    }
  }

  // ---- Dispatching -------------------------------------------------------------------

  const GUARDED_AUTO := "guarded_auto"

  /** What a write adapter answered; an empty applied command is filled in by the dispatcher. */
  datatype Reply = Reply(status: string, applied: Option<Value>)

  datatype Outcome = Outcome(status: string, requested: Value, applied: Option<Value>)

  datatype Record = Record(interval: Interval, outcome: Outcome)

  function RecordFor(a: CanonicalAsset, interval: Interval, mode: string, adapters: map<string, Reply>): Record {
    var clamped := Clamped(a, interval.value);
    var effective := interval.(value := clamped);
    if mode != GUARDED_AUTO then Record(effective, Outcome("skipped", interval.value, None))
    else if a.key !in adapters then Record(effective, Outcome("blocked", interval.value, None))
    else
      var reply := adapters[a.key];
      var applied := if reply.applied.Some? then reply.applied else Some(clamped);
      Record(effective, Outcome(reply.status, interval.value, applied))
  }

  /** Outside guarded automation, and without an adapter for the asset, nothing is applied; inside it the
      adapter's reply decides the status, and what it applied or else the clamped command is recorded. */
  lemma RecordFollowsMode(a: CanonicalAsset, interval: Interval, mode: string, adapters: map<string, Reply>)
    ensures
      var r := RecordFor(a, interval, mode, adapters);
      && r.outcome.requested == interval.value && r.interval.value == Clamped(a, interval.value)
      && r.interval == interval.(value := r.interval.value)
      && (mode != "guarded_auto" ==> r.outcome.status == "skipped" && r.outcome.applied == None)
      && (mode == "guarded_auto" && a.key !in adapters ==> r.outcome.status == "blocked" && r.outcome.applied == None)
      && (mode == "guarded_auto" && a.key in adapters ==>
            && r.outcome.status == adapters[a.key].status && r.outcome.applied.Some?
            && (adapters[a.key].applied.Some? ==> r.outcome.applied == adapters[a.key].applied)
            && (adapters[a.key].applied.None? ==> r.outcome.applied == Some(Clamped(a, interval.value))))
  {
    hide Clamped;
  }

  function RecordsFor(current: seq<Interval>, byKey: map<string, CanonicalAsset>, mode: string,
                      adapters: map<string, Reply>): seq<Record> {
    if current == [] then [] else
    var last := current[|current| - 1];
    RecordsFor(current[..|current| - 1], byKey, mode, adapters)
    + if last.assetKey in byKey then [RecordFor(byKey[last.assetKey], last, mode, adapters)] else []
  }

  /** The keys of the current intervals whose asset is not known, in order. */
  function UnknownKeys(current: seq<Interval>, byKey: map<string, CanonicalAsset>): seq<string> {
    if current == [] then [] else
    var last := current[|current| - 1];
    UnknownKeys(current[..|current| - 1], byKey) + if last.assetKey in byKey then [] else [last.assetKey]
  }

  /** One record per current interval with a known asset, in order; the others are reported. */
  method DispatchCurrent(byKey: map<string, CanonicalAsset>, intervals: seq<Interval>, mode: string,
                         adapters: map<string, Reply>, now: int)
    returns (records: seq<Record>, unmapped: seq<string>)
    ensures records == RecordsFor(CurrentIntervals(intervals, now), byKey, mode, adapters)
    ensures unmapped == UnknownKeys(CurrentIntervals(intervals, now), byKey)
    ensures |records| + |unmapped| == |CurrentIntervals(intervals, now)|
  {
    hide CurrentIntervals, RecordFor;
    records, unmapped := [], [];
    var current := CurrentIntervals(intervals, now);
    for i := 0 to |current|
      invariant records == RecordsFor(current[..i], byKey, mode, adapters)
      invariant unmapped == UnknownKeys(current[..i], byKey)
      invariant |records| + |unmapped| == i
    {
      assert current[..i + 1][..i] == current[..i];
      var interval := current[i];
      if interval.assetKey !in byKey {
        unmapped := unmapped + [interval.assetKey];
      } else {
        records := records + [RecordFor(byKey[interval.assetKey], interval, mode, adapters)];
      }
    }
    assert current[..|current|] == current;
  }

  lemma {:induction false} RecordsOfKnown(current: seq<Interval>, byKey: map<string, CanonicalAsset>, mode: string,
                                          adapters: map<string, Reply>)
    requires forall i :: 0 <= i < |current| ==> current[i].assetKey in byKey
    ensures |RecordsFor(current, byKey, mode, adapters)| == |current|
    ensures forall i :: 0 <= i < |current| ==>
              RecordsFor(current, byKey, mode, adapters)[i] ==
                RecordFor(byKey[current[i].assetKey], current[i], mode, adapters)
  {
    hide RecordFor;
    if current != [] {
      RecordsOfKnown(current[..|current| - 1], byKey, mode, adapters);
    }
  }

  /** A record is that of some current interval with a known asset, and every one of those has its record;
      a key is reported exactly when it is that of a current interval and unknown. */
  lemma {:induction false} RecordedOrReported(current: seq<Interval>, byKey: map<string, CanonicalAsset>, mode: string,
                                              adapters: map<string, Reply>)
    ensures forall r :: r in RecordsFor(current, byKey, mode, adapters) <==>
              exists i :: 0 <= i < |current| && current[i].assetKey in byKey &&
                          r == RecordFor(byKey[current[i].assetKey], current[i], mode, adapters)
    ensures forall key :: key in UnknownKeys(current, byKey) <==>
              key !in byKey && exists i :: 0 <= i < |current| && current[i].assetKey == key
  {
    hide RecordFor;
    if current != [] {
      var front := current[..|current| - 1];
      RecordedOrReported(front, byKey, mode, adapters);
      assert current == front + [current[|current| - 1]];
    }
  }

  datatype Source = Source(key: string, assessed: Assessed)

  predicate IsDispatchable(s: Source, policy: Policy, nativeWritesEnabled: bool)
    requires policy.stepMinutes > 0
  {
    EligibilityOf(s.assessed, policy, nativeWritesEnabled) == Dispatchable
  }

  /** The dispatchable ones among the site's assets, in order. */
  function Selected(sources: seq<Source>, policy: Policy, nativeWritesEnabled: bool): (r: seq<Source>)
    requires policy.stepMinutes > 0
    ensures forall s :: s in r <==> s in sources && IsDispatchable(s, policy, nativeWritesEnabled)
  {
    if sources == [] then [] else
    var last := sources[|sources| - 1];
    Selected(sources[..|sources| - 1], policy, nativeWritesEnabled)
    + if IsDispatchable(last, policy, nativeWritesEnabled) then [last] else []
  }

  /** The canonical asset of a dispatchable source; it always has a contract. */
  function AssetOf(s: Source, policy: Policy, nativeWritesEnabled: bool, maxShareKw: real): (a: CanonicalAsset)
    requires policy.stepMinutes > 0 && IsDispatchable(s, policy, nativeWritesEnabled)
    ensures !s.assessed.kind.OtherAsset? && a.contract.Some?
    ensures a == AssetFrom(s.key, s.assessed.kind, s.assessed.telemetry, policy, maxShareKw)
  {
    DispatchableHasContract(s.assessed, policy, nativeWritesEnabled);
    AssetFrom(s.key, s.assessed.kind, s.assessed.telemetry, policy, maxShareKw)
  }

  function AssetsOf(selected: seq<Source>, policy: Policy, nativeWritesEnabled: bool,
                    maxShareKw: real): (r: seq<CanonicalAsset>)
    requires policy.stepMinutes > 0
    requires forall i :: 0 <= i < |selected| ==> IsDispatchable(selected[i], policy, nativeWritesEnabled)
    ensures |r| == |selected|
    ensures forall i :: 0 <= i < |r| ==> r[i] == AssetOf(selected[i], policy, nativeWritesEnabled, maxShareKw)
  {
    seq(|selected|, i requires 0 <= i < |selected| => AssetOf(selected[i], policy, nativeWritesEnabled, maxShareKw))
  }

  /** The canonical assets the planner works with: those of the dispatchable sources. */
  function DispatchableAssets(sources: seq<Source>, policy: Policy, nativeWritesEnabled: bool,
                              maxShareKw: real): seq<CanonicalAsset>
    requires policy.stepMinutes > 0
  {
    AssetsOf(Selected(sources, policy, nativeWritesEnabled), policy, nativeWritesEnabled, maxShareKw)
  }

  /** `plan` is any solver output for the site formed by the dispatchable assets. */
  ghost predicate IsReplan(sources: seq<Source>, policy: Policy, nativeWritesEnabled: bool, maxShareKw: real,
                           site: Site, plan: Plan) {
    && policy.stepMinutes > 0
    && (var assets := DispatchableAssets(sources, policy, nativeWritesEnabled, maxShareKw);
        |assets| == |site.assets| && forall i :: 0 <= i < |assets| ==> site.assets[i] == assets[i].spec)
    && Feasible(site, plan)
  }

  lemma ReplanCommandSurvivesClamp(sources: seq<Source>, policy: Policy, nativeWritesEnabled: bool, maxShareKw: real,
                                   site: Site, plan: Plan, i: nat, step: nat)
    requires IsReplan(sources, policy, nativeWritesEnabled, maxShareKw, site, plan)
    requires i < |site.assets| && step < Steps(site)
    ensures |plan.assets| == |site.assets| && PlanFits(plan.assets[i], Steps(site))
    ensures
      var a := DispatchableAssets(sources, policy, nativeWritesEnabled, maxShareKw)[i];
      Clamped(a, Planned(plan.assets[i], Steps(site), step)) == Planned(plan.assets[i], Steps(site), step)
  {
    hide AssetFrom, AssetFeasible, Clamped, Balanced, PlanFits, Selected, AssetsOf, IsDispatchable;
    assert WellFormed(site) && AssetFeasible(site, site.assets[i], plan.assets[i]);
    var s := Selected(sources, policy, nativeWritesEnabled)[i];
    ClampKeepsPlannedCommand(s.key, s.assessed.kind, s.assessed.telemetry, policy, maxShareKw, site, plan.assets[i],
                             step);
  }

  /** In every feasible replan every command of every step says what the balance counts. */
  lemma ReplanCommands(sources: seq<Source>, policy: Policy, nativeWritesEnabled: bool, maxShareKw: real, site: Site,
                       plan: Plan, i: nat, step: nat)
    requires IsReplan(sources, policy, nativeWritesEnabled, maxShareKw, site, plan)
    requires i < |site.assets| && step < Steps(site)
    ensures |plan.assets| == |site.assets| && PlanFits(plan.assets[i], Steps(site))
    ensures Commands(Planned(plan.assets[i], Steps(site), step), site.assets[i], plan.assets[i], step)
  {
    hide DispatchableAssets, AssetFeasible, Balanced, PlanFits, Commands;
    assert WellFormed(site) && AssetFeasible(site, site.assets[i], plan.assets[i]);
    PlannedCommands(site, site.assets[i], plan.assets[i], step);
  }

  /** A replan on the default horizon dispatches each dispatchable asset exactly once, for its
      first step, and the command sent is the planned one: the clamp changes nothing. */
  lemma ReplanDispatchesEachAssetOnce(sources: seq<Source>, policy: Policy, nativeWritesEnabled: bool, maxShareKw: real,
                                      site: Site, plan: Plan, byKey: map<string, CanonicalAsset>, mode: string,
                                      adapters: map<string, Reply>, now: int)
    requires IsReplan(sources, policy, nativeWritesEnabled, maxShareKw, site, plan)
    requires
      var assets := DispatchableAssets(sources, policy, nativeWritesEnabled, maxShareKw);
      forall i :: 0 <= i < |assets| ==> assets[i].key in byKey && byKey[assets[i].key] == assets[i]
    ensures |plan.assets| == |site.assets| && AllFit(plan.assets, Steps(site)) && Steps(site) > 0
    ensures
      var selected := Selected(sources, policy, nativeWritesEnabled);
      var assets := DispatchableAssets(sources, policy, nativeWritesEnabled, maxShareKw);
      var start, step := AlignHorizonStart(now, policy.stepMinutes), policy.stepMinutes * MINUTE;
      var intervals := AllIntervals(assets, plan.assets, Steps(site), start, step);
      var records := RecordsFor(CurrentIntervals(intervals, now), byKey, mode, adapters);
      && |records| == |selected| == |assets|
      && forall i :: 0 <= i < |records| ==>
           && records[i].interval == IntervalAt(assets[i], plan.assets[i], Steps(site), start, step, 0)
           && records[i].interval.assetKey == selected[i].key
           && records[i].outcome.requested == records[i].interval.value
           && Commands(records[i].interval.value, site.assets[i], plan.assets[i], 0)
           && records[i].interval.startsAt <= now < records[i].interval.endsAt
           && (mode != "guarded_auto" ==> records[i].outcome.applied == None)
           && (mode == "guarded_auto" && assets[i].key in adapters && adapters[assets[i].key].applied.None? ==>
                 records[i].outcome.applied == Some(records[i].interval.value))
  {
    hide AssetFrom, Feasible, Clamped, Planned, AlignHorizonStart, Covering, PlanFits, AllIntervals, RecordsFor,
      IsDispatchable, Selected, AssetsOf;
    var assets := DispatchableAssets(sources, policy, nativeWritesEnabled, maxShareKw);
    ReplanShape(sources, policy, nativeWritesEnabled, maxShareKw, site, plan);
    forall i | 0 <= i < |assets| ensures PlanFits(plan.assets[i], Steps(site)) {
      ReplanCommandSurvivesClamp(sources, policy, nativeWritesEnabled, maxShareKw, site, plan, i, 0);
    }
    var start, step := AlignHorizonStart(now, policy.stepMinutes), policy.stepMinutes * MINUTE;
    var intervals := AllIntervals(assets, plan.assets, Steps(site), start, step);
    NowIsInFirstStep(now, policy.stepMinutes);
    CurrentAreFirst(assets, plan.assets, Steps(site), start, step, now);
    var current := FirstIntervals(assets, plan.assets, Steps(site), start, step);
    if assets == [] {
      assert intervals == [] by { NoIntervals(plan.assets, Steps(site), start, step); }
    }
    assert CurrentIntervals(intervals, now) == current;
    RecordsOfKnown(current, byKey, mode, adapters);
    forall i | 0 <= i < |assets|
      ensures RecordFor(assets[i], current[i], mode, adapters).interval == current[i]
      ensures Commands(current[i].value, site.assets[i], plan.assets[i], 0)
    {
      ReplanCommandSurvivesClamp(sources, policy, nativeWritesEnabled, maxShareKw, site, plan, i, 0);
      ReplanCommands(sources, policy, nativeWritesEnabled, maxShareKw, site, plan, i, 0);
    }
  }

  lemma NoIntervals(plans: seq<AssetPlan>, steps: nat, start: int, step: int)
    requires plans == [] && AllFit(plans, steps)
    ensures AllIntervals([], plans, steps, start, step) == []
  {
  }

  lemma ReplanShape(sources: seq<Source>, policy: Policy, nativeWritesEnabled: bool, maxShareKw: real, site: Site,
                    plan: Plan)
    requires IsReplan(sources, policy, nativeWritesEnabled, maxShareKw, site, plan)
    ensures |plan.assets| == |site.assets| && Steps(site) > 0
    ensures
      var selected, assets := Selected(sources, policy, nativeWritesEnabled),
          DispatchableAssets(sources, policy, nativeWritesEnabled, maxShareKw);
      |assets| == |selected| == |site.assets| && forall i :: 0 <= i < |assets| ==> assets[i].key == selected[i].key
  {
    hide Selected, AssetsOf, IsDispatchable, ConstraintsOf, ContractOf, PlannerAsset;
  }
}
