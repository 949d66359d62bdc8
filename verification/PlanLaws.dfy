/** What feasible and optimal site plans have in common: energy is conserved across the site, inverters
    share the forecast, rooms and cars follow their balances, and no slack is paid for twice. */
module PlanLaws {
  import opened SitePlan
  import opened MinimumRun

  // ---- The balance of the site -------------------------------------------------------

  /** What the asset feeds into the site in step t. */
  function Supply(p: AssetPlan, t: nat): real {
    match p
    case BatteryPlan(_, discharge, _) => if t < |discharge| then discharge[t] else 0.0
    case PvPlan(output) => if t < |output| then output[t] else 0.0
    case _ => 0.0
  }

  /** What the asset takes from it; a load takes its nominal power while it is on. */
  function Demand(a: Asset, p: AssetPlan, t: nat): real {
    match p
    case BatteryPlan(charge, _, _) => if t < |charge| then charge[t] else 0.0
    case EvPlan(charge, _) => if t < |charge| then charge[t] else 0.0
    case HeatPlan(heat, _, _, _) => if t < |heat| then heat[t] else 0.0
    case LoadPlan(on, _, _) => if a.Load? && t < |on| && on[t] == 1 then a.nominalKw else 0.0
    case PvPlan(_) => 0.0
  }

  function Supplied(plans: seq<AssetPlan>, t: nat): real {
    if plans == [] then 0.0 else Supplied(plans[..|plans| - 1], t) + Supply(plans[|plans| - 1], t)
  }

  function Demanded(assets: seq<Asset>, plans: seq<AssetPlan>, t: nat): real
    requires |assets| == |plans|
  {
    if assets == [] then 0.0
    else
      var n := |assets| - 1;
      Demanded(assets[..n], plans[..n], t) + Demand(assets[n], plans[n], t)
  }

  lemma OneAssetBalances(site: Site, a: Asset, p: AssetPlan, t: nat)
    requires WellFormed(site) && t < Steps(site)
    requires a.Battery? ==> a.capacityKwh > 0.0 && a.sqrtEfficiency > 0.0
    requires AssetFeasible(site, a, p)
    ensures NetSupply(a, p, t) == Supply(p, t) - Demand(a, p, t)
    ensures Supply(p, t) >= 0.0 && (a.Load? || Demand(a, p, t) >= 0.0)
    ensures a.Battery? || a.PvInverter? || Supply(p, t) == 0.0
  {
    hide SocStep, PvShare;
  }

  lemma {:induction false} AssetsBalance(site: Site, assets: seq<Asset>, plans: seq<AssetPlan>, t: nat)
    requires WellFormed(site) && t < Steps(site) && |assets| == |plans|
    requires forall i :: 0 <= i < |assets| && assets[i].Battery? ==>
               assets[i].capacityKwh > 0.0 && assets[i].sqrtEfficiency > 0.0
    requires forall i :: 0 <= i < |assets| ==> AssetFeasible(site, assets[i], plans[i])
    ensures TotalNetSupply(assets, plans, t) == Supplied(plans, t) - Demanded(assets, plans, t)
    ensures (forall i :: 0 <= i < |assets| ==> !assets[i].Battery? && !assets[i].PvInverter?) ==>
            Supplied(plans, t) == 0.0
  {
    hide AssetFeasible, Supply, Demand, NetSupply, WellFormed;
    if assets != [] {
      var n := |assets| - 1;
      AssetsBalance(site, assets[..n], plans[..n], t);
      OneAssetBalances(site, assets[n], plans[n], t);
    }
  }

  /** Generation no inverter of the plan controls. */
  function FreeGeneration(site: Site, t: nat): real
    requires t < |site.pvGeneration|
  {
    if PvCount(site.assets) == 0 then site.pvGeneration[t] else 0.0
  }

  /** In every step of every feasible plan, what is imported, generated and discharged is what is
      exported, used by the house and used by its devices. */
  lemma SupplyMeetsDemand(site: Site, plan: Plan, t: nat)
    requires Feasible(site, plan) && t < Steps(site)
    ensures plan.gridImport[t] + FreeGeneration(site, t) + Supplied(plan.assets, t) ==
            plan.gridExport[t] + site.baseLoad[t] + Demanded(site.assets, plan.assets, t)
  {
    hide AssetFeasible, Supplied, Demanded;
    assert Balanced(site, plan, t);
    AssetsBalance(site, site.assets, plan.assets, t);
  }

  function NetImported(site: Site, plan: Plan, n: nat): real
    requires n <= |plan.gridImport| == |plan.gridExport|
  {
    if n == 0 then 0.0
    else NetImported(site, plan, n - 1) + (plan.gridImport[n - 1] - plan.gridExport[n - 1]) * site.dtHours
  }

  function UsedBy(site: Site, plan: Plan, n: nat): real
    requires n <= |site.baseLoad| && |site.assets| == |plan.assets|
  {
    if n == 0 then 0.0
    else UsedBy(site, plan, n - 1)
         + (site.baseLoad[n - 1] + Demanded(site.assets, plan.assets, n - 1)) * site.dtHours
  }

  /** Without batteries and generation, a site imports, net of its exports, exactly what the house and its
      devices use. */
  lemma {:induction false} NetImportIsUse(site: Site, plan: Plan, n: nat)
    requires Feasible(site, plan) && n <= Steps(site)
    requires forall i :: 0 <= i < |site.assets| ==> !site.assets[i].Battery? && !site.assets[i].PvInverter?
    requires forall t :: 0 <= t < Steps(site) ==> site.pvGeneration[t] == 0.0
    ensures n <= |plan.gridImport| == |plan.gridExport| && n <= |site.baseLoad| && |site.assets| == |plan.assets|
    ensures NetImported(site, plan, n) == UsedBy(site, plan, n)
  {
    hide AssetFeasible, Balanced, Supplied, Demanded;
    if n > 0 {
      NetImportIsUse(site, plan, n - 1);
      SupplyMeetsDemand(site, plan, n - 1);
      AssetsBalance(site, site.assets, plan.assets, n - 1);
      var net := plan.gridImport[n - 1] - plan.gridExport[n - 1];
      assert net == site.baseLoad[n - 1] + Demanded(site.assets, plan.assets, n - 1);
    }
  }

  // ---- Inverters ---------------------------------------------------------------------

  function PvOutput(assets: seq<Asset>, plans: seq<AssetPlan>, t: nat): real
    requires |assets| == |plans|
  {
    if assets == [] then 0.0
    else
      var n := |assets| - 1;
      PvOutput(assets[..n], plans[..n], t) + if assets[n].PvInverter? then Supply(plans[n], t) else 0.0
  }

  lemma {:induction false} PvOutputBound(site: Site, assets: seq<Asset>, plans: seq<AssetPlan>, t: nat)
    requires WellFormed(site) && t < Steps(site) && |assets| == |plans|
    requires forall i :: 0 <= i < |assets| && assets[i].PvInverter? ==> PvFeasible(site, assets[i], plans[i])
    ensures PvOutput(assets, plans, t) <= PvCount(assets) as real * PvShare(site, t)
  {
    hide PvShare;
    if assets != [] {
      var n := |assets| - 1;
      PvOutputBound(site, assets[..n], plans[..n], t);
      var share := PvShare(site, t);
      assert (PvCount(assets[..n]) + 1) as real * share == PvCount(assets[..n]) as real * share + share;
    }
  }

  /** Together the inverters of a feasible plan never use more than the forecast generation. */
  lemma InvertersShareForecast(site: Site, plan: Plan, t: nat)
    requires Feasible(site, plan) && t < Steps(site) && PvCount(site.assets) > 0
    ensures PvOutput(site.assets, plan.assets, t) <= site.pvGeneration[t]
  {
    hide PvOutput, BatteryFeasible, EvFeasible, HeatFeasible, LoadFeasible, PvFeasible, Balanced;
    forall i | 0 <= i < |site.assets| && site.assets[i].PvInverter?
      ensures PvFeasible(site, site.assets[i], plan.assets[i])
    {
      assert AssetFeasible(site, site.assets[i], plan.assets[i]);
    }
    PvOutputBound(site, site.assets, plan.assets, t);
    ShareOfAll(site.pvGeneration[t], PvCount(site.assets));
  }

  lemma ShareOfAll(total: real, n: nat)
    requires n > 0
    ensures n as real * (total / n as real) == total
    ensures total / (if n > 1 then n as real else 1.0) == total / n as real
  {
  }

  // ---- Rooms -------------------------------------------------------------------------

  function Excess(temperature: seq<real>, ambient: seq<real>, dt: real, first: nat, end: nat): real
    requires first <= end <= |ambient| && end <= |temperature|
    decreases end
  {
    if first == end then 0.0
    else Excess(temperature, ambient, dt, first, end - 1) + (temperature[end - 1] - ambient[end - 1]) * dt
  }

  /** What heating energy adds to the temperature, and what being warmer than outside takes away. */
  function Gained(h: Asset, energy: real): real
    requires h.HeatPump?
  {
    energy * h.gain
  }

  function Leaked(h: Asset, excess: real): real
    requires h.HeatPump?
  {
    excess * h.loss
  }

  /** Over any window of any feasible plan a room warms by what the heating energy brings, less what it
      loses to the outside. */
  lemma {:induction false} RoomEnergyBalance(site: Site, h: Asset, p: AssetPlan, first: nat, end: nat)
    requires h.HeatPump? && |site.ambient| == Steps(site) && HeatFeasible(site, h, p)
    requires first <= end <= Steps(site)
    ensures p.HeatPlan? && |p.temperature| == Steps(site) + 1 && |p.heat| == Steps(site)
    ensures p.temperature[end] - p.temperature[first] ==
            Gained(h, Energy(p.heat, site.dtHours, first, end))
            - Leaked(h, Excess(p.temperature, site.ambient, site.dtHours, first, end))
    decreases end
  {
    hide HeatFeasible, Gained, Leaked, IsChange;
    HeatLengths(site, h, p);
    if first == end {
      NothingGained(h);
    } else {
      var t := end - 1;
      RoomEnergyBalance(site, h, p, first, t);
      HeatStep(site, h, p, t);
      RoomStep(h, p.heat[t], p.temperature[t] - site.ambient[t], site.dtHours, p.temperature[end] - p.temperature[t],
               Energy(p.heat, site.dtHours, first, t), Excess(p.temperature, site.ambient, site.dtHours, first, t),
               Energy(p.heat, site.dtHours, first, end), Excess(p.temperature, site.ambient, site.dtHours, first, end));
    }
  }

  lemma NothingGained(h: Asset)
    requires h.HeatPump?
    ensures Gained(h, 0.0) == 0.0 && Leaked(h, 0.0) == 0.0
  {
  }

  lemma HeatLengths(site: Site, h: Asset, p: AssetPlan)
    requires h.HeatPump? && |site.ambient| == Steps(site) && HeatFeasible(site, h, p)
    ensures p.HeatPlan? && |p.temperature| == Steps(site) + 1 && |p.heat| == Steps(site)
  {
  }

  /** The temperature recurrence, as the change over one step. */
  lemma HeatStep(site: Site, h: Asset, p: AssetPlan, t: nat)
    requires h.HeatPump? && |site.ambient| == Steps(site) && HeatFeasible(site, h, p) && t < Steps(site)
    ensures p.HeatPlan? && |p.temperature| == Steps(site) + 1 && |p.heat| == Steps(site)
    ensures IsChange(h, p.heat[t], p.temperature[t] - site.ambient[t], site.dtHours,
                     p.temperature[t + 1] - p.temperature[t])
  {
  }

  predicate IsChange(h: Asset, heat: real, warmer: real, dt: real, change: real)
    requires h.HeatPump?
  {
    change == heat * h.gain * dt - warmer * h.loss * dt
  }

  lemma RoomStep(h: Asset, heat: real, warmer: real, dt: real, change: real, energy: real, excess: real, more: real,
                 further: real)
    requires h.HeatPump? && IsChange(h, heat, warmer, dt, change)
    requires more == energy + heat * dt && further == excess + warmer * dt
    ensures Gained(h, more) - Leaked(h, further) == Gained(h, energy) - Leaked(h, excess) + change
  {
    Spread(energy, heat, dt, h.gain);
    Spread(excess, warmer, dt, h.loss);
  }

  lemma Spread(a: real, b: real, dt: real, k: real)
    ensures (a + b * dt) * k == a * k + b * k * dt
  {
    var c := b * dt;
    assert (a + c) * k == a * k + c * k;
    assert c * k == b * k * dt;
  }

  // ---- What devices cost -------------------------------------------------------------

  lemma {:induction false} SumOrdered(a: seq<real>, b: seq<real>)
    requires |a| == |b| && forall t :: 0 <= t < |a| ==> a[t] <= b[t]
    ensures Sum(a) <= Sum(b)
  {
    if a != [] { SumOrdered(a[..|a| - 1], b[..|b| - 1]); }
  }

  lemma {:induction false} SumNonnegative(s: seq<real>)
    requires forall t :: 0 <= t < |s| ==> 0.0 <= s[t]
    ensures 0.0 <= Sum(s)
  {
    if s != [] { SumNonnegative(s[..|s| - 1]); }
  }

  lemma {:induction false} StartsNonnegative(s: seq<int>)
    requires Binary(s)
    ensures 0 <= SumInts(s)
  {
    if s != [] { StartsNonnegative(s[..|s| - 1]); }
  }

  /** No device's plan ever earns anything by itself, and an inverter's is free exactly when it uses its
      whole share of the forecast. */
  lemma DeviceCostIsNonnegative(site: Site, plan: Plan, i: nat)
    requires Feasible(site, plan) && i < |site.assets|
    ensures |plan.assets| == |site.assets| && AssetCost(site, site.assets[i], plan.assets[i]) >= 0.0
    ensures site.assets[i].PvInverter? ==>
              plan.assets[i].PvPlan? && Sum(plan.assets[i].output) <= Sum(PvShares(site)) &&
              (AssetCost(site, site.assets[i], plan.assets[i]) == 0.0 <==>
               Sum(plan.assets[i].output) == Sum(PvShares(site)))
  {
    hide Balanced, SocStep, Satisfies, PvShare, Sum, SumInts;
    var a, p := site.assets[i], plan.assets[i];
    assert AssetFeasible(site, a, p);
    match p {
      case BatteryPlan(charge, discharge, _) =>
        SumNonnegative(charge);
        SumNonnegative(discharge);
        Times(0.01 * (Sum(charge) + Sum(discharge)), site.dtHours);
      case EvPlan(charge, _) =>
        SumNonnegative(charge);
        Times(0.005 * Sum(charge), site.dtHours);
      case HeatPlan(heat, _, low, high) =>
        SumNonnegative(heat);
        SumNonnegative(low);
        SumNonnegative(high);
        Times(0.01 * Sum(heat), site.dtHours);
      case LoadPlan(on, start, _) =>
        StartsAreBinary(on, start, a.minimumOnSteps);
        StartsNonnegative(start);
      case PvPlan(output) =>
        SumOrdered(output, PvShares(site));
        Times(0.02 * (Sum(PvShares(site)) - Sum(output)), site.dtHours);
    }
  }

  lemma StartsAreBinary(on: seq<int>, start: seq<int>, minimum: nat)
    requires Satisfies(on, start, minimum)
    ensures Binary(start)
  {
  }

  lemma Times(a: real, dt: real)
    requires a >= 0.0 && dt > 0.0
    ensures a * dt >= 0.0 && (a * dt == 0.0 <==> a == 0.0)
  {
    if a > 0.0 { assert a * dt > 0.0; }
  }

  /** What one unit more of anything costs: a kilowatt-hour a car is short of 250, a step-degree of
      discomfort 75, a step of runtime a load lacks 20, and a kilowatt-hour through a battery, into a room,
      into a car or left in the sun one cent or two, or half a cent; a start of a load two cents. */
  lemma PenaltyRates(site: Site, a: Asset, p: AssetPlan, x: real)
    ensures a.EvCharger? && p.EvPlan? ==>
              AssetCost(site, a, p.(deficit := p.deficit + x)) == AssetCost(site, a, p) + 250.0 * x
    ensures a.Load? && p.LoadPlan? ==>
              AssetCost(site, a, p.(shortfall := p.shortfall + x)) ==
              AssetCost(site, a, p) + if a.runtimeTarget > 0 then 20.0 * x else 0.0
    ensures a.HeatPump? && p.HeatPlan? ==>
              AssetCost(site, a, p.(lowSlack := p.lowSlack + [x])) == AssetCost(site, a, p) + 75.0 * x ==
              AssetCost(site, a, p.(highSlack := p.highSlack + [x]))
    ensures a.HeatPump? && p.HeatPlan? ==>
              AssetCost(site, a, p.(heat := p.heat + [x])) == AssetCost(site, a, p) + 0.01 * (x * site.dtHours)
    ensures a.EvCharger? && p.EvPlan? ==>
              AssetCost(site, a, p.(evCharge := p.evCharge + [x])) == AssetCost(site, a, p) + 0.005 * (x * site.dtHours)
    ensures a.Battery? && p.BatteryPlan? ==>
              AssetCost(site, a, p.(charge := p.charge + [x])) == AssetCost(site, a, p) + 0.01 * (x * site.dtHours) ==
              AssetCost(site, a, p.(discharge := p.discharge + [x]))
    ensures a.PvInverter? && p.PvPlan? ==>
              AssetCost(site, a, p.(output := p.output + [x])) == AssetCost(site, a, p) - 0.02 * (x * site.dtHours)
    ensures a.Load? && p.LoadPlan? ==>
              AssetCost(site, a, p.(start := p.start + [1])) == AssetCost(site, a, p) + 0.02
  {
    hide Sum, SumInts, PvShares;
    match p {
      case BatteryPlan(charge, discharge, _) =>
        SumOneMore(charge, x);
        SumOneMore(discharge, x);
        Rate(0.01, Sum(charge) + Sum(discharge), x, site.dtHours);
      case EvPlan(charge, _) =>
        SumOneMore(charge, x);
        Rate(0.005, Sum(charge), x, site.dtHours);
      case HeatPlan(heat, _, low, high) =>
        SumOneMore(heat, x);
        SumOneMore(low, x);
        SumOneMore(high, x);
        Rate(0.01, Sum(heat), x, site.dtHours);
      case LoadPlan(_, start, _) =>
        StartsOneMore(start);
      case PvPlan(output) =>
        SumOneMore(output, x);
        Rate(0.02, Sum(PvShares(site)) - Sum(output), -x, site.dtHours);
    }
  }

  lemma SumOneMore(s: seq<real>, x: real)
    ensures Sum(s + [x]) == Sum(s) + x
  {
    assert (s + [x])[..|s|] == s;
  }

  lemma StartsOneMore(s: seq<int>)
    ensures SumInts(s + [1]) == SumInts(s) + 1
  {
    assert (s + [1])[..|s|] == s;
  }

  lemma Rate(rate: real, sum: real, x: real, dt: real)
    ensures rate * (sum + x) * dt == rate * sum * dt + rate * (x * dt)
    ensures rate * (-x * dt) == -(rate * (x * dt))
  {
    var a, b := rate * sum, rate * x;
    assert rate * (sum + x) == a + b;
    assert (a + b) * dt == a * dt + b * dt;
    assert b * dt == rate * (x * dt);
    assert -x * dt == -(x * dt);
  }

  /** The default tariff is cheapest at night, then late in the evening, then by day, and dearest from four
      to nine; it is always above what exporting earns. */
  lemma DefaultTariff(night: real, day: real, peak: real, late: real)
    requires 0.0 <= night < 5.0 <= day < 16.0 <= peak < 21.0 <= late < 24.0
    ensures DEFAULT_EXPORT_PRICE < HeuristicImportPrice(night) < HeuristicImportPrice(late) < HeuristicImportPrice(day)
            < HeuristicImportPrice(peak)
  {
  }

  // ---- Slack at an optimum -----------------------------------------------------------

  function Replaced(plan: Plan, i: nat, p: AssetPlan): Plan
    requires i < |plan.assets|
  {
    plan.(assets := plan.assets[i := p])
  }

  lemma {:induction false} NetSupplyReplaced(assets: seq<Asset>, plans: seq<AssetPlan>, i: nat, p: AssetPlan, t: nat)
    requires i < |assets| == |plans| && NetSupply(assets[i], p, t) == NetSupply(assets[i], plans[i], t)
    ensures TotalNetSupply(assets, plans[i := p], t) == TotalNetSupply(assets, plans, t)
  {
    hide NetSupply;
    var n := |assets| - 1;
    if i < n {
      NetSupplyReplaced(assets[..n], plans[..n], i, p, t);
      assert plans[i := p][..n] == plans[..n][i := p];
    } else {
      assert plans[i := p][..n] == plans[..n];
    }
  }

  lemma {:induction false} CostsReplaced(site: Site, assets: seq<Asset>, plans: seq<AssetPlan>, i: nat, p: AssetPlan)
    requires i < |assets| == |plans|
    ensures AssetCosts(site, assets, plans[i := p]) ==
            AssetCosts(site, assets, plans) - AssetCost(site, assets[i], plans[i]) + AssetCost(site, assets[i], p)
  {
    hide AssetCost;
    var n := |assets| - 1;
    if i < n {
      CostsReplaced(site, assets[..n], plans[..n], i, p);
      assert plans[i := p][..n] == plans[..n][i := p];
    } else {
      assert plans[i := p][..n] == plans[..n];
    }
  }

  /** No optimal plan of a device can be replaced by one that draws the same power for less. */
  lemma OptimalDeviceIsCheapest(site: Site, plan: Plan, i: nat, p: AssetPlan)
    requires Optimal(site, plan) && i < |site.assets|
    requires |plan.assets| == |site.assets| && AssetFeasible(site, site.assets[i], p)
    requires forall t :: 0 <= t < Steps(site) ==>
             NetSupply(site.assets[i], p, t) == NetSupply(site.assets[i], plan.assets[i], t)
    ensures AssetCost(site, site.assets[i], plan.assets[i]) <= AssetCost(site, site.assets[i], p)
  {
    hide AssetFeasible, NetSupply, AssetCost;
    var r := Replaced(plan, i, p);
    forall t | 0 <= t < Steps(site) ensures Balanced(site, r, t) {
      assert Balanced(site, plan, t);
      NetSupplyReplaced(site.assets, plan.assets, i, p, t);
    }
    assert Feasible(site, r);
    GridCostReplaced(site, plan, r, Steps(site));
    CostsReplaced(site, site.assets, plan.assets, i, p);
    assert Objective(site, plan) <= Objective(site, r);
  }

  lemma {:induction false} GridCostReplaced(site: Site, plan: Plan, r: Plan, n: nat)
    requires n <= |site.importPrice| == |site.exportPrice| == |plan.gridImport| == |plan.gridExport|
    requires r.gridImport == plan.gridImport && r.gridExport == plan.gridExport
    ensures GridCost(site, r, n) == GridCost(site, plan, n)
  {
    if n > 0 { GridCostReplaced(site, plan, r, n - 1); }
  }

  function Missing(target: real, reached: real): real {
    if target > reached then target - reached else 0.0
  }

  /** What a car still lacks at its deadline. */
  function EvLacks(site: Site, e: Asset, p: AssetPlan): real
    requires e.EvCharger? && p.EvPlan? && |p.evCharge| == Steps(site)
  {
    var deadline := if e.deadline < Steps(site) then e.deadline else Steps(site);
    Missing(e.targetEnergyKwh, Sum(p.evCharge[..deadline]) * site.dtHours * e.efficiency)
  }

  /** In an optimal plan a car's deficit is exactly what its charging leaves it short at the deadline. */
  lemma OptimalEvDeficit(site: Site, plan: Plan, i: nat)
    requires Optimal(site, plan) && i < |site.assets| && site.assets[i].EvCharger?
    ensures |plan.assets| == |site.assets| && plan.assets[i].EvPlan? && |plan.assets[i].evCharge| == Steps(site)
    ensures plan.assets[i].deficit == EvLacks(site, site.assets[i], plan.assets[i])
  {
    hide Balanced, BatteryFeasible, HeatFeasible, LoadFeasible, PvFeasible;
    assert AssetFeasible(site, site.assets[i], plan.assets[i]);
    var p := plan.assets[i].(deficit := EvLacks(site, site.assets[i], plan.assets[i]));
    OptimalDeviceIsCheapest(site, plan, i, p);
  }

  /** And a load's shortfall is exactly the on-steps its schedule lacks. */
  lemma OptimalLoadShortfall(site: Site, plan: Plan, i: nat)
    requires Optimal(site, plan) && i < |site.assets| && site.assets[i].Load? && site.assets[i].runtimeTarget > 0
    ensures |plan.assets| == |site.assets| && plan.assets[i].LoadPlan?
    ensures plan.assets[i].shortfall ==
            Missing(site.assets[i].runtimeTarget as real, SumInts(plan.assets[i].on) as real)
  {
    hide Balanced, BatteryFeasible, HeatFeasible, EvFeasible, PvFeasible, Satisfies;
    assert AssetFeasible(site, site.assets[i], plan.assets[i]);
    var l, p := site.assets[i], plan.assets[i];
    OptimalDeviceIsCheapest(site, plan, i, p.(shortfall := Missing(l.runtimeTarget as real, SumInts(p.on) as real)));
  }

  lemma {:induction false} SumUpdated(s: seq<real>, t: nat, v: real)
    requires t < |s|
    ensures Sum(s[t := v]) == Sum(s) - s[t] + v
  {
    var n := |s| - 1;
    if t < n {
      SumUpdated(s[..n], t, v);
      assert s[t := v][..n] == s[..n][t := v];
    } else {
      assert s[t := v][..n] == s[..n];
    }
  }

  /** And a room's slacks are exactly how far it is outside its comfort range. */
  lemma OptimalHeatSlack(site: Site, plan: Plan, i: nat, t: nat)
    requires Optimal(site, plan) && i < |site.assets| && site.assets[i].HeatPump? && t < Steps(site)
    ensures |plan.assets| == |site.assets| && plan.assets[i].HeatPlan?
    ensures |plan.assets[i].temperature| == Steps(site) + 1
    ensures |plan.assets[i].lowSlack| == |plan.assets[i].highSlack| == Steps(site)
    ensures plan.assets[i].lowSlack[t] == Missing(site.assets[i].comfortMinC, plan.assets[i].temperature[t + 1])
    ensures plan.assets[i].highSlack[t] == Missing(plan.assets[i].temperature[t + 1], site.assets[i].comfortMaxC)
  {
    hide Balanced, AssetFeasible, HeatFeasible, AssetCost, Missing, NetSupply;
    var h, p := site.assets[i], plan.assets[i];
    HeatOfFeasible(site, plan, i);
    LeastSlacks(site, h, p, t);
    var low, high := Missing(h.comfortMinC, p.temperature[t + 1]), Missing(p.temperature[t + 1], h.comfortMaxC);
    var cooler, warmer := p.(lowSlack := p.lowSlack[t := low]), p.(highSlack := p.highSlack[t := high]);
    SlackCost(site, h, p, t, low, high);
    HeatAsset(site, h, cooler);
    HeatAsset(site, h, warmer);
    OptimalDeviceIsCheapest(site, plan, i, cooler);
    OptimalDeviceIsCheapest(site, plan, i, warmer);
  }

  lemma HeatOfFeasible(site: Site, plan: Plan, i: nat)
    requires Feasible(site, plan) && i < |site.assets| && site.assets[i].HeatPump?
    ensures |site.ambient| == |site.pvGeneration| == Steps(site) && |plan.assets| == |site.assets|
    ensures HeatFeasible(site, site.assets[i], plan.assets[i])
  {
    hide Balanced, HeatFeasible, BatteryFeasible, EvFeasible, LoadFeasible, PvFeasible;
    assert AssetFeasible(site, site.assets[i], plan.assets[i]);
  }

  lemma HeatAsset(site: Site, h: Asset, p: AssetPlan)
    requires |site.ambient| == |site.pvGeneration| == Steps(site) && h.HeatPump?
    ensures AssetFeasible(site, h, p) <==> HeatFeasible(site, h, p)
  {
    hide HeatFeasible;
  }

  /** Either slack can be lowered to what the temperature needs, and cannot be lower. */
  lemma LeastSlacks(site: Site, h: Asset, p: AssetPlan, t: nat)
    requires h.HeatPump? && |site.ambient| == Steps(site) && HeatFeasible(site, h, p) && t < Steps(site)
    ensures p.HeatPlan? && |p.temperature| == Steps(site) + 1 && |p.lowSlack| == |p.highSlack| == Steps(site)
    ensures
      var low, high := Missing(h.comfortMinC, p.temperature[t + 1]), Missing(p.temperature[t + 1], h.comfortMaxC);
      && low <= p.lowSlack[t] && high <= p.highSlack[t]
      && HeatFeasible(site, h, p.(lowSlack := p.lowSlack[t := low]))
      && HeatFeasible(site, h, p.(highSlack := p.highSlack[t := high]))
  {
    hide HeatFeasible;
    LeastLowSlack(site, h, p, t);
    LeastHighSlack(site, h, p, t);
  }

  lemma LeastLowSlack(site: Site, h: Asset, p: AssetPlan, t: nat)
    requires h.HeatPump? && |site.ambient| == Steps(site) && HeatFeasible(site, h, p) && t < Steps(site)
    ensures p.HeatPlan? && |p.temperature| == Steps(site) + 1 && |p.lowSlack| == Steps(site)
    ensures
      var low := Missing(h.comfortMinC, p.temperature[t + 1]);
      low <= p.lowSlack[t] && HeatFeasible(site, h, p.(lowSlack := p.lowSlack[t := low]))
  {
  }

  lemma LeastHighSlack(site: Site, h: Asset, p: AssetPlan, t: nat)
    requires h.HeatPump? && |site.ambient| == Steps(site) && HeatFeasible(site, h, p) && t < Steps(site)
    ensures p.HeatPlan? && |p.temperature| == Steps(site) + 1 && |p.highSlack| == Steps(site)
    ensures
      var high := Missing(p.temperature[t + 1], h.comfortMaxC);
      high <= p.highSlack[t] && HeatFeasible(site, h, p.(highSlack := p.highSlack[t := high]))
  {
  }

  lemma SlackCost(site: Site, h: Asset, p: AssetPlan, t: nat, low: real, high: real)
    requires h.HeatPump? && p.HeatPlan? && t < |p.lowSlack| && t < |p.highSlack|
    ensures AssetCost(site, h, p.(lowSlack := p.lowSlack[t := low])) ==
            AssetCost(site, h, p) + 75.0 * (low - p.lowSlack[t])
    ensures AssetCost(site, h, p.(highSlack := p.highSlack[t := high])) ==
            AssetCost(site, h, p) + 75.0 * (high - p.highSlack[t])
    ensures forall u :: NetSupply(h, p.(lowSlack := p.lowSlack[t := low]), u) == NetSupply(h, p, u)
    ensures forall u :: NetSupply(h, p.(highSlack := p.highSlack[t := high]), u) == NetSupply(h, p, u)
  {
    hide Sum;
    SumUpdated(p.lowSlack, t, low);
    SumUpdated(p.highSlack, t, high);
  }
}
