/** The planner's optimization problem: variables, constraints and objective of a site, with the
    solver left as an oracle that returns any assignment meeting the constraints. */
module SitePlan {
  import opened MinimumRun

  datatype Asset =
    | Battery(capacityKwh: real, reservePct: real, sqrtEfficiency: real, maxChargeKw: real, maxDischargeKw: real,
              socPct: real)
    | EvCharger(maxChargeKw: real, connected: bool, targetEnergyKwh: real, deadline: nat, efficiency: real)
    | HeatPump(maxPowerKw: real, temperatureC: real, gain: real, loss: real, comfortMinC: real, comfortMaxC: real)
    | Load(nominalKw: real, runtimeTarget: nat, minimumOnSteps: nat)
    | PvInverter(powerLimitKw: real)

  datatype AssetPlan =
    | BatteryPlan(charge: seq<real>, discharge: seq<real>, soc: seq<real>)
    | EvPlan(evCharge: seq<real>, deficit: real)
    | HeatPlan(heat: seq<real>, temperature: seq<real>, lowSlack: seq<real>, highSlack: seq<real>)
    | LoadPlan(on: seq<int>, start: seq<int>, shortfall: real)
    | PvPlan(output: seq<real>)

  datatype Site = Site(
    importPrice: seq<real>,
    exportPrice: seq<real>,
    pvGeneration: seq<real>,
    baseLoad: seq<real>,
    ambient: seq<real>,
    dtHours: real,
    importLimitKw: real,
    exportLimitKw: real,
    assets: seq<Asset>)

  datatype Plan = Plan(gridImport: seq<real>, gridExport: seq<real>, assets: seq<AssetPlan>)

  function Steps(site: Site): nat {
    |site.importPrice|
  }

  ghost predicate WellFormed(site: Site) {
    && 0 < Steps(site) == |site.exportPrice| == |site.pvGeneration| == |site.baseLoad| == |site.ambient|
    && site.dtHours > 0.0
    && forall i :: 0 <= i < |site.assets| && site.assets[i].Battery? ==>
         site.assets[i].capacityKwh > 0.0 && site.assets[i].sqrtEfficiency > 0.0
  }

  predicate Bounded(s: seq<real>, steps: nat, high: real) {
    |s| == steps && forall t :: 0 <= t < steps ==> 0.0 <= s[t] <= high
  }

  predicate Nonnegative(s: seq<real>, steps: nat) {
    |s| == steps && forall t :: 0 <= t < steps ==> 0.0 <= s[t]
  }

  function Sum(s: seq<real>): real {
    if s == [] then 0.0 else Sum(s[..|s| - 1]) + s[|s| - 1]
  }

  function SumInts(s: seq<int>): int {
    if s == [] then 0 else SumInts(s[..|s| - 1]) + s[|s| - 1]
  }

  function PvCount(assets: seq<Asset>): nat {
    if assets == [] then 0
    else PvCount(assets[..|assets| - 1]) + if assets[|assets| - 1].PvInverter? then 1 else 0
  }

  /** The share of the forecast generation each dispatchable inverter can use. */
  function PvShare(site: Site, t: nat): real
    requires t < |site.pvGeneration|
  {
    var n := PvCount(site.assets);
    site.pvGeneration[t] / (if n > 1 then n as real else 1.0)
  }

  /** One step of the battery: the state of charge follows charge and discharge through the
      one-way efficiency. */
  predicate SocStep(b: Asset, dt: real, soc: real, charge: real, discharge: real, next: real)
    requires b.Battery? && b.capacityKwh != 0.0 && b.sqrtEfficiency != 0.0
  {
    next == soc + (charge * b.sqrtEfficiency - discharge / b.sqrtEfficiency) * dt / b.capacityKwh * 100.0
  }

  ghost predicate BatteryFeasible(site: Site, b: Asset, p: AssetPlan)
    requires b.Battery? && b.capacityKwh > 0.0 && b.sqrtEfficiency > 0.0
  {
    var n := Steps(site);
    && p.BatteryPlan?
    && Bounded(p.charge, n, b.maxChargeKw) && Bounded(p.discharge, n, b.maxDischargeKw)
    && |p.soc| == n + 1 && p.soc[0] == b.socPct
    && (forall t :: 0 <= t <= n ==> b.reservePct <= p.soc[t] <= 100.0)
    && (forall t :: 0 <= t < n ==> SocStep(b, site.dtHours, p.soc[t], p.charge[t], p.discharge[t], p.soc[t + 1]))
  }

  ghost predicate EvFeasible(site: Site, e: Asset, p: AssetPlan)
    requires e.EvCharger?
  {
    var n := Steps(site);
    && p.EvPlan?
    && Bounded(p.evCharge, n, e.maxChargeKw)
    && (!e.connected ==> forall t :: 0 <= t < n ==> p.evCharge[t] == 0.0)
    && p.deficit >= 0.0
    && (var deadline := if e.deadline < n then e.deadline else n;
        Sum(p.evCharge[..deadline]) * site.dtHours * e.efficiency + p.deficit >= e.targetEnergyKwh)
  }

  ghost predicate HeatFeasible(site: Site, h: Asset, p: AssetPlan)
    requires h.HeatPump? && |site.ambient| == Steps(site)
  {
    var n := Steps(site);
    && p.HeatPlan?
    && Bounded(p.heat, n, h.maxPowerKw) && Nonnegative(p.lowSlack, n) && Nonnegative(p.highSlack, n)
    && |p.temperature| == n + 1 && p.temperature[0] == h.temperatureC
    && forall t :: 0 <= t < n ==>
         && p.temperature[t + 1] == p.temperature[t] + p.heat[t] * h.gain * site.dtHours
                                    - (p.temperature[t] - site.ambient[t]) * h.loss * site.dtHours
         && p.temperature[t + 1] + p.lowSlack[t] >= h.comfortMinC
         && p.temperature[t + 1] - p.highSlack[t] <= h.comfortMaxC
  }

  ghost predicate LoadFeasible(site: Site, l: Asset, p: AssetPlan)
    requires l.Load?
  {
    && p.LoadPlan? && |p.on| == Steps(site)
    && Satisfies(p.on, p.start, l.minimumOnSteps)
    && p.shortfall >= 0.0
    && (l.runtimeTarget > 0 ==> SumInts(p.on) as real + p.shortfall >= l.runtimeTarget as real)
  }

  ghost predicate PvFeasible(site: Site, v: Asset, p: AssetPlan)
    requires v.PvInverter? && |site.pvGeneration| == Steps(site)
  {
    && p.PvPlan? && Nonnegative(p.output, Steps(site))
    && forall t :: 0 <= t < Steps(site) ==>
         p.output[t] <= PvShare(site, t) && (v.powerLimitKw > 0.0 ==> p.output[t] <= v.powerLimitKw)
  }

  ghost predicate AssetFeasible(site: Site, a: Asset, p: AssetPlan)
    requires |site.ambient| == |site.pvGeneration| == Steps(site)
    requires a.Battery? ==> a.capacityKwh > 0.0 && a.sqrtEfficiency > 0.0
  {
    match a
    case Battery(_, _, _, _, _, _) => BatteryFeasible(site, a, p)
    case EvCharger(_, _, _, _, _) => EvFeasible(site, a, p)
    case HeatPump(_, _, _, _, _, _) => HeatFeasible(site, a, p)
    case Load(_, _, _) => LoadFeasible(site, a, p)
    case PvInverter(_) => PvFeasible(site, a, p)
  }

  /** What the asset adds to the site's supply in step t, net of its demand. */
  function NetSupply(a: Asset, p: AssetPlan, t: nat): real {
    match (a, p)
    case (Battery(_, _, _, _, _, _), BatteryPlan(charge, discharge, _)) =>
      if t < |charge| && t < |discharge| then discharge[t] - charge[t] else 0.0
    case (EvCharger(_, _, _, _, _), EvPlan(charge, _)) => if t < |charge| then -charge[t] else 0.0
    case (HeatPump(_, _, _, _, _, _), HeatPlan(heat, _, _, _)) => if t < |heat| then -heat[t] else 0.0
    case (Load(nominal, _, _), LoadPlan(on, _, _)) => if t < |on| then -(nominal * on[t] as real) else 0.0
    case (PvInverter(_), PvPlan(output)) => if t < |output| then output[t] else 0.0
    case _ => 0.0
  }

  function TotalNetSupply(assets: seq<Asset>, plans: seq<AssetPlan>, t: nat): real
    requires |assets| == |plans|
  {
    if assets == [] then 0.0
    else
      var n := |assets| - 1;
      TotalNetSupply(assets[..n], plans[..n], t) + NetSupply(assets[n], plans[n], t)
  }

  predicate Balanced(site: Site, plan: Plan, t: nat)
    requires t < |plan.gridImport| == |plan.gridExport| == |site.pvGeneration| == |site.baseLoad|
    requires |site.assets| == |plan.assets|
  {
    plan.gridImport[t] - plan.gridExport[t]
    + (if PvCount(site.assets) == 0 then site.pvGeneration[t] else 0.0)
    + TotalNetSupply(site.assets, plan.assets, t)
    == site.baseLoad[t]
  }

  ghost predicate Feasible(site: Site, plan: Plan) {
    && WellFormed(site)
    && Bounded(plan.gridImport, Steps(site), site.importLimitKw)
    && Bounded(plan.gridExport, Steps(site), site.exportLimitKw)
    && |plan.assets| == |site.assets|
    && (forall i :: 0 <= i < |site.assets| ==> AssetFeasible(site, site.assets[i], plan.assets[i]))
    && (forall t :: 0 <= t < Steps(site) ==> Balanced(site, plan, t))
  }

  // ---- Objective ---------------------------------------------------------------------

  function GridCost(site: Site, plan: Plan, n: nat): real
    requires n <= |site.importPrice| == |site.exportPrice| == |plan.gridImport| == |plan.gridExport|
  {
    if n == 0 then 0.0
    else GridCost(site, plan, n - 1) + StepCost(site, plan.gridImport[n - 1], plan.gridExport[n - 1], n - 1)
  }

  function StepCost(site: Site, imported: real, exported: real, t: nat): real
    requires t < |site.importPrice| == |site.exportPrice|
  {
    (site.importPrice[t] * imported - site.exportPrice[t] * exported) * site.dtHours
  }

  function PvShares(site: Site): seq<real> {
    seq(|site.pvGeneration|, t requires 0 <= t < |site.pvGeneration| => PvShare(site, t))
  }

  function AssetCost(site: Site, a: Asset, p: AssetPlan): real {
    match (a, p)
    case (Battery(_, _, _, _, _, _), BatteryPlan(charge, discharge, _)) =>
      0.01 * (Sum(charge) + Sum(discharge)) * site.dtHours
    case (EvCharger(_, _, _, _, _), EvPlan(charge, deficit)) => 250.0 * deficit + 0.005 * Sum(charge) * site.dtHours
    case (HeatPump(_, _, _, _, _, _), HeatPlan(heat, _, low, high)) =>
      75.0 * (Sum(low) + Sum(high)) + 0.01 * Sum(heat) * site.dtHours
    case (Load(_, target, _), LoadPlan(_, start, shortfall)) =>
      (if target > 0 then 20.0 * shortfall else 0.0) + 0.02 * SumInts(start) as real
    case (PvInverter(_), PvPlan(output)) => 0.02 * (Sum(PvShares(site)) - Sum(output)) * site.dtHours
    case _ => 0.0
  }

  function AssetCosts(site: Site, assets: seq<Asset>, plans: seq<AssetPlan>): real
    requires |assets| == |plans|
  {
    if assets == [] then 0.0
    else
      var n := |assets| - 1;
      AssetCosts(site, assets[..n], plans[..n]) + AssetCost(site, assets[n], plans[n])
  }

  ghost function Objective(site: Site, plan: Plan): real
    requires Feasible(site, plan)
  {
    GridCost(site, plan, Steps(site)) + AssetCosts(site, site.assets, plan.assets)
  }

  ghost predicate Optimal(site: Site, plan: Plan) {
    Feasible(site, plan) && forall other :: Feasible(site, other) ==> Objective(site, plan) <= Objective(site, other)
  }

  // ---- Exchange arguments on the grid flows ------------------------------------------

  function MinReal(a: real, b: real): real {
    if a < b then a else b
  }

  /** The same plan with `amount` more imported and exported at step t. */
  function Shifted(plan: Plan, t: nat, amount: real): Plan
    requires t < |plan.gridImport| == |plan.gridExport|
  {
    plan.(gridImport := plan.gridImport[t := plan.gridImport[t] + amount],
          gridExport := plan.gridExport[t := plan.gridExport[t] + amount])
  }

  lemma ShiftStaysFeasible(site: Site, plan: Plan, t: nat, amount: real)
    requires Feasible(site, plan) && t < Steps(site)
    requires 0.0 <= plan.gridImport[t] + amount <= site.importLimitKw
    requires 0.0 <= plan.gridExport[t] + amount <= site.exportLimitKw
    ensures Feasible(site, Shifted(plan, t, amount))
  {
    hide AssetFeasible, TotalNetSupply;
    var r := Shifted(plan, t, amount);
    forall u | 0 <= u < Steps(site) ensures Balanced(site, r, u) {
      assert Balanced(site, plan, u);
    }
  }

  lemma {:induction false} ShiftCost(site: Site, plan: Plan, t: nat, amount: real, n: nat)
    requires n <= |site.importPrice| == |site.exportPrice| == |plan.gridImport| == |plan.gridExport|
    requires t < |plan.gridImport|
    ensures GridCost(site, Shifted(plan, t, amount), n) ==
            GridCost(site, plan, n) + if t < n then (site.importPrice[t] - site.exportPrice[t]) * amount * site.dtHours
              else 0.0
  {
    if n > 0 {
      hide StepCost;
      ShiftCost(site, plan, t, amount, n - 1);
      if n - 1 == t {
        ShiftStepCost(site, plan.gridImport[t], plan.gridExport[t], t, amount);
      }
    }
  }

  lemma ShiftStepCost(site: Site, imported: real, exported: real, t: nat, amount: real)
    requires t < |site.importPrice| == |site.exportPrice|
    ensures StepCost(site, imported + amount, exported + amount, t) ==
            StepCost(site, imported, exported, t) + (site.importPrice[t] - site.exportPrice[t]) * amount * site.dtHours
  {
    var p, q, d := site.importPrice[t], site.exportPrice[t], site.dtHours;
    assert p * (imported + amount) == p * imported + p * amount;
    assert q * (exported + amount) == q * exported + q * amount;
    var x, y := p * imported - q * exported, (p - q) * amount;
    assert p * (imported + amount) - q * (exported + amount) == x + y;
    assert (x + y) * d == x * d + y * d;
  }

  lemma ShiftObjective(site: Site, plan: Plan, t: nat, amount: real)
    requires Feasible(site, plan) && t < Steps(site) && Feasible(site, Shifted(plan, t, amount))
    ensures Objective(site, Shifted(plan, t, amount)) ==
            Objective(site, plan) + (site.importPrice[t] - site.exportPrice[t]) * amount * site.dtHours
  {
    hide Feasible, GridCost, AssetCosts;
    assert Steps(site) == |site.exportPrice| == |plan.gridImport| == |plan.gridExport| by { Lengths(site, plan); }
    ShiftCost(site, plan, t, amount, Steps(site));
  }

  lemma Lengths(site: Site, plan: Plan)
    requires Feasible(site, plan)
    ensures Steps(site) == |site.exportPrice| == |plan.gridImport| == |plan.gridExport|
    ensures |plan.assets| == |site.assets| && site.dtHours > 0.0
  {
  }

  /** Moving a positive amount of flow changes the cost with the sign of the margin. */
  lemma ProductSign(margin: real, amount: real, dt: real)
    requires amount >= 0.0 && dt > 0.0
    ensures margin >= 0.0 ==> margin * amount * dt >= 0.0
    ensures amount > 0.0 && margin > 0.0 ==> margin * amount * dt > 0.0
    ensures amount > 0.0 && margin < 0.0 ==> margin * amount * dt < 0.0
  {
    var product := margin * amount;
    if amount > 0.0 && margin > 0.0 { assert product > 0.0; }
    if amount > 0.0 && margin < 0.0 { assert product < 0.0; }
  }

  /** If moving flow at a nonzero margin could only raise the cost, there was none to move. */
  lemma NothingToMove(margin: real, amount: real, dt: real, was: real, now: real)
    requires amount >= 0.0 && dt > 0.0 && was <= now
    requires (margin > 0.0 && now == was - margin * amount * dt) || (margin < 0.0 && now == was + margin * amount * dt)
    ensures amount == 0.0
  {
    ProductSign(margin, amount, dt);
  }

  function Overlap(plan: Plan, t: nat): real
    requires t < |plan.gridImport| == |plan.gridExport|
  {
    MinReal(plan.gridImport[t], plan.gridExport[t])
  }

  /** Cancelling the overlap of import and export at a step keeps the plan feasible and changes
      the objective by exactly minus the price margin times the overlap. */
  lemma CancelOverlap(site: Site, plan: Plan, t: nat)
    requires Feasible(site, plan) && t < Steps(site)
    ensures
      var r := Shifted(plan, t, -Overlap(plan, t));
      && Feasible(site, r)
      && (r.gridImport[t] == 0.0 || r.gridExport[t] == 0.0)
      && Objective(site, r) ==
         Objective(site, plan) - (site.importPrice[t] - site.exportPrice[t]) * Overlap(plan, t) * site.dtHours
      && (site.importPrice[t] >= site.exportPrice[t] ==> Objective(site, r) <= Objective(site, plan))
  {
    var amount := Overlap(plan, t);
    assert amount >= 0.0 && plan.gridImport[t] <= site.importLimitKw && plan.gridExport[t] <= site.exportLimitKw by {
      hide AssetFeasible, Balanced;
    }
    ShiftStaysFeasible(site, plan, t, -amount);
    ShiftObjective(site, plan, t, -amount);
    Lengths(site, plan);
    Negate(site.importPrice[t] - site.exportPrice[t], amount, site.dtHours);
    ProductSign(site.importPrice[t] - site.exportPrice[t], amount, site.dtHours);
  }

  lemma Negate(a: real, b: real, c: real)
    ensures a * -b * c == -(a * b * c)
    ensures b == 0.0 ==> a * b * c == 0.0
  {
  }

  /** The plan with the overlap of import and export cancelled in the first n steps. */
  function Cancelled(plan: Plan, n: nat): (r: Plan)
    requires n <= |plan.gridImport| == |plan.gridExport|
    ensures r.assets == plan.assets && |r.gridImport| == |plan.gridImport| && |r.gridExport| == |plan.gridExport|
    ensures forall t :: 0 <= t < |r.gridImport| ==>
              var amount := if t < n then Overlap(plan, t) else 0.0;
              r.gridImport[t] == plan.gridImport[t] - amount && r.gridExport[t] == plan.gridExport[t] - amount
  {
    if n == 0 then plan else
    var earlier := Cancelled(plan, n - 1);
    Shifted(earlier, n - 1, -Overlap(earlier, n - 1))
  }

  lemma {:induction false} CancelSteps(site: Site, plan: Plan, n: nat)
    requires Feasible(site, plan) && n <= Steps(site) == |plan.gridImport| == |plan.gridExport| == |site.exportPrice|
    ensures Feasible(site, Cancelled(plan, n))
    ensures (forall t :: 0 <= t < n ==> site.importPrice[t] >= site.exportPrice[t]) ==>
              Objective(site, Cancelled(plan, n)) <= Objective(site, plan)
  {
    hide Feasible, Objective;
    if n > 0 {
      CancelSteps(site, plan, n - 1);
      CancelOverlap(site, Cancelled(plan, n - 1), n - 1);
    }
  }

  /** Cancelling the overlap at every step keeps the plan feasible, leaves no step that imports and
      exports, keeps every device's plan and every net flow, and costs no more when no import is
      cheaper than the export of its step. */
  lemma CancelEverywhere(site: Site, plan: Plan)
    requires Feasible(site, plan)
    ensures Steps(site) == |plan.gridImport| == |plan.gridExport| == |site.exportPrice|
    ensures
      var r := Cancelled(plan, Steps(site));
      && Feasible(site, r) && r.assets == plan.assets
      && (forall t :: 0 <= t < Steps(site) ==> r.gridImport[t] == 0.0 || r.gridExport[t] == 0.0)
      && (forall t :: 0 <= t < Steps(site) ==>
            r.gridImport[t] - r.gridExport[t] == plan.gridImport[t] - plan.gridExport[t])
      && ((forall t :: 0 <= t < Steps(site) ==> site.importPrice[t] >= site.exportPrice[t]) ==>
            Objective(site, r) <= Objective(site, plan))
  {
    hide Feasible, Objective;
    Lengths(site, plan);
    CancelSteps(site, plan, Steps(site));
  }

  /** Where importing costs more than exporting earns, no optimal plan does both at once. */
  lemma OptimumNeverImportsAndExports(site: Site, plan: Plan, t: nat)
    requires Optimal(site, plan) && t < Steps(site)
    requires site.importPrice[t] > site.exportPrice[t]
    ensures |plan.gridImport| == |plan.gridExport| == Steps(site)
    ensures plan.gridImport[t] == 0.0 || plan.gridExport[t] == 0.0
  {
    hide Objective, AssetFeasible, Balanced;
    Lengths(site, plan);
    var amount := Overlap(plan, t);
    CancelOverlap(site, plan, t);
    NothingToMove(site.importPrice[t] - site.exportPrice[t], amount, site.dtHours, Objective(site, plan),
                  Objective(site, Shifted(plan, t, -amount)));
  }

  /** Where exporting earns more than importing costs, every optimal plan runs into a grid limit:
      the condition on the prices cannot be dropped. */
  lemma ArbitrageSaturatesALimit(site: Site, plan: Plan, t: nat)
    requires Optimal(site, plan) && t < Steps(site)
    requires site.importPrice[t] < site.exportPrice[t]
    ensures |plan.gridImport| == |plan.gridExport| == Steps(site)
    ensures plan.gridImport[t] == site.importLimitKw || plan.gridExport[t] == site.exportLimitKw
  {
    hide Objective, AssetFeasible, Balanced;
    Lengths(site, plan);
    var amount := MinReal(site.importLimitKw - plan.gridImport[t], site.exportLimitKw - plan.gridExport[t]);
    ShiftStaysFeasible(site, plan, t, amount);
    ShiftObjective(site, plan, t, amount);
    NothingToMove(site.importPrice[t] - site.exportPrice[t], amount, site.dtHours, Objective(site, plan),
                  Objective(site, Shifted(plan, t, amount)));
  }

  // ---- The default prices ------------------------------------------------------------

  const DEFAULT_EXPORT_PRICE := 0.08

  function HeuristicImportPrice(hour: real): real {
    if hour < 5.0 then 0.22
    else if hour < 16.0 then 0.30
    else if hour < 21.0 then 0.36
    else 0.28
  }

  ghost predicate DefaultPrices(site: Site) {
    && |site.exportPrice| == Steps(site)
    && (forall t :: 0 <= t < Steps(site) ==> site.exportPrice[t] == DEFAULT_EXPORT_PRICE)
    && (forall t :: 0 <= t < Steps(site) ==> exists hour :: site.importPrice[t] == HeuristicImportPrice(hour))
  }

  /** On the default forecast every optimal plan has import times export zero at every step. */
  lemma DefaultOptimumHasOneWayFlow(site: Site, plan: Plan)
    requires Optimal(site, plan) && DefaultPrices(site)
    ensures |plan.gridImport| == |plan.gridExport| == Steps(site)
    ensures forall t :: 0 <= t < Steps(site) ==> plan.gridImport[t] * plan.gridExport[t] == 0.0
  {
    hide Optimal;
    assert |plan.gridImport| == |plan.gridExport| == Steps(site) by { OptimalLengths(site, plan); }
    forall t | 0 <= t < Steps(site) ensures plan.gridImport[t] * plan.gridExport[t] == 0.0 {
      OptimumNeverImportsAndExports(site, plan, t);
    }
  }

  lemma OptimalLengths(site: Site, plan: Plan)
    requires Optimal(site, plan)
    ensures |plan.gridImport| == |plan.gridExport| == Steps(site)
  {
  }

  // ---- Battery energy ----------------------------------------------------------------

  function Energy(power: seq<real>, dt: real, first: nat, end: nat): real
    requires first <= end <= |power|
    decreases end
  {
    if first == end then 0.0 else Energy(power, dt, first, end - 1) + power[end - 1] * dt
  }

  /** What is left of charged energy after both conversions. */
  function Retained(b: Asset, energy: real): real
    requires b.Battery?
  {
    b.sqrtEfficiency * b.sqrtEfficiency * energy
  }

  /** What a fall in state of charge, in percent, delivers. */
  function Released(b: Asset, fall: real): real
    requires b.Battery?
  {
    b.sqrtEfficiency * b.capacityKwh * fall / 100.0
  }

  /** The SoC recurrence read backwards: what one step discharges. */
  lemma SocStepEnergy(b: Asset, dt: real, soc: real, charge: real, discharge: real, next: real)
    requires b.Battery? && b.capacityKwh > 0.0 && b.sqrtEfficiency > 0.0
    requires SocStep(b, dt, soc, charge, discharge, next)
    ensures discharge * dt == Retained(b, charge * dt) + Released(b, soc - next)
  {
    var s, cap := b.sqrtEfficiency, b.capacityKwh;
    var out := discharge / s;
    assert out * s == discharge;
    var flow := charge * s - out;
    var x := flow * dt;
    var y := x / cap;
    assert y * cap == x;
    assert next - soc == y * 100.0;
    StepAlgebra(s, cap, dt, charge, discharge, out, y, soc, next);
  }

  lemma StepReleases(b: Asset, dt: real, soc: real, charge: real, discharge: real, next: real, charged: real,
                     fall: real)
    requires b.Battery? && b.capacityKwh > 0.0 && b.sqrtEfficiency > 0.0
    requires SocStep(b, dt, soc, charge, discharge, next)
    requires charged == charge * dt && fall == soc - next
    ensures discharge * dt == Retained(b, charged) + Released(b, fall)
  {
    SocStepEnergy(b, dt, soc, charge, discharge, next);
  }

  lemma StepAlgebra(s: real, cap: real, dt: real, charge: real, discharge: real, out: real, y: real, soc: real,
                    next: real)
    requires out * s == discharge && y * cap == (charge * s - out) * dt && next - soc == y * 100.0
    ensures discharge * dt == s * s * (charge * dt) + s * cap * (soc - next) / 100.0
  {
    assert s * cap * (soc - next) / 100.0 == -(s * (y * cap));
    assert s * ((charge * s - out) * dt) == s * s * (charge * dt) - discharge * dt;
  }

  lemma RetainedAdds(b: Asset, e: real, f: real)
    requires b.Battery?
    ensures Retained(b, e + f) == Retained(b, e) + Retained(b, f) && Retained(b, 0.0) == 0.0
  {
    var k := b.sqrtEfficiency * b.sqrtEfficiency;
    assert k * (e + f) == k * e + k * f;
  }

  lemma ReleasedAdds(b: Asset, x: real, y: real)
    requires b.Battery?
    ensures Released(b, x + y) == Released(b, x) + Released(b, y) && Released(b, 0.0) == 0.0
  {
    var k := b.sqrtEfficiency * b.capacityKwh;
    assert k * (x + y) == k * x + k * y;
  }

  lemma ReleasedMonotone(b: Asset, x: real, y: real)
    requires b.Battery? && b.capacityKwh > 0.0 && b.sqrtEfficiency > 0.0 && x <= y
    ensures Released(b, x) <= Released(b, y)
  {
    var k := b.sqrtEfficiency * b.capacityKwh;
    assert k > 0.0;
    assert k * x <= k * y;
  }

  /** Over any window of any feasible plan, the energy discharged is the squared one-way efficiency
      times the energy charged plus what the fall in state of charge releases. */
  lemma {:induction false} BatteryEnergyBalance(site: Site, b: Asset, p: AssetPlan, first: nat, end: nat)
    requires b.Battery? && b.capacityKwh > 0.0 && b.sqrtEfficiency > 0.0
    requires BatteryFeasible(site, b, p) && first <= end <= Steps(site)
    ensures Energy(p.discharge, site.dtHours, first, end) ==
            Retained(b, Energy(p.charge, site.dtHours, first, end)) + Released(b, p.soc[first] - p.soc[end])
    decreases end
  {
    hide Retained, Released, SocStep;
    if first == end {
      RetainedAdds(b, 0.0, 0.0);
      ReleasedAdds(b, 0.0, 0.0);
    } else {
      var t := end - 1;
      BatteryEnergyBalance(site, b, p, first, t);
      var e, f := Energy(p.charge, site.dtHours, first, t), p.charge[t] * site.dtHours;
      assert Energy(p.charge, site.dtHours, first, end) == e + f;
      RetainedAdds(b, e, f);
      var x, y := p.soc[first] - p.soc[t], p.soc[t] - p.soc[end];
      ReleasedAdds(b, x, y);
      assert Energy(p.discharge, site.dtHours, first, t) == Retained(b, e) + Released(b, x);
      assert x + y == p.soc[first] - p.soc[end];
      StepReleases(b, site.dtHours, p.soc[t], p.charge[t], p.discharge[t], p.soc[end], f, y);
      assert Energy(p.discharge, site.dtHours, first, end) ==
             Energy(p.discharge, site.dtHours, first, t) + p.discharge[t] * site.dtHours;
    }
  }

  /** Hence a battery never delivers more than its charge after losses plus its usable capacity,
      and with no net fall in state of charge, never more than its charge after losses. */
  lemma BatteryCannotCreateEnergy(site: Site, b: Asset, p: AssetPlan, first: nat, end: nat)
    requires b.Battery? && b.capacityKwh > 0.0 && b.sqrtEfficiency > 0.0
    requires BatteryFeasible(site, b, p) && first <= end <= Steps(site)
    ensures Energy(p.discharge, site.dtHours, first, end) <=
            Retained(b, Energy(p.charge, site.dtHours, first, end)) + Released(b, 100.0 - b.reservePct)
    ensures p.soc[end] >= p.soc[first] ==>
              Energy(p.discharge, site.dtHours, first, end) <= Retained(b, Energy(p.charge, site.dtHours, first, end))
  {
    hide Retained, Released, SocStep, Energy;
    BatteryEnergyBalance(site, b, p, first, end);
    ReleasedMonotone(b, p.soc[first] - p.soc[end], 100.0 - b.reservePct);
    if p.soc[end] >= p.soc[first] {
      ReleasedMonotone(b, p.soc[first] - p.soc[end], 0.0);
      ReleasedAdds(b, 0.0, 0.0);
    }
  }

  // ---- Physics of a whole plan -------------------------------------------------------

  /** In every feasible plan of every site, each battery obeys the energy bound over every window,
      and each controllable load runs at least its minimum time whenever it runs. */
  lemma FeasiblePlanRespectsDevices(site: Site, plan: Plan, i: nat, first: nat, end: nat)
    requires Feasible(site, plan) && i < |site.assets| && first <= end <= Steps(site)
    ensures
      var a, p := site.assets[i], plan.assets[i];
      && (a.Battery? ==> BatteryFeasible(site, a, p)
                         && Energy(p.discharge, site.dtHours, first, end) <=
                            Retained(a, Energy(p.charge, site.dtHours, first, end)) + Released(a, 100.0 - a.reservePct))
      && (a.Load? ==> LoadFeasible(site, a, p)
                      && RunsLastAtLeast(p.on, a.minimumOnSteps)
                      && a.minimumOnSteps * SumFrom(p.start, 0) <= SumFrom(p.on, 0))
  {
    hide Balanced, Retained, Released, BatteryFeasible, Satisfies, RunsLastAtLeast;
    var a, p := site.assets[i], plan.assets[i];
    assert AssetFeasible(site, a, p);
    if a.Battery? {
      BatteryCannotCreateEnergy(site, a, p, first, end);
    }
    if a.Load? {
      RunsAreLong(p.on, p.start, a.minimumOnSteps);
      StartsTimesMinimum(p.on, p.start, a.minimumOnSteps);
    }
  }
}
