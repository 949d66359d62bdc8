/** From device telemetry to planner constraints and to the command contract the dispatcher
    clamps to. */
module HemsAssets {
  import opened Wrappers
  import opened Rounding
  import opened SitePlan
  import MinimumRun

  /** Numeric readings by key (numeric strings already parsed), and the boolean ones used here. */
  datatype Telemetry = Telemetry(
    numbers: map<string, real>,
    vehicleConnected: Option<bool>,
    curtailmentSupported: bool,
    simulationSupported: bool)

  datatype Policy = Policy(
    batteryReservePct: real,
    evTargetSocPct: real,
    evDeadline: nat,
    comfortMinC: real,
    comfortMaxC: real,
    stepMinutes: nat)

  datatype AssetType = BatteryAsset | EvAsset | HeatPumpAsset | PvAsset | LoadAsset | OtherAsset

  /** The first of the keys that has a reading. */
  function Numeric(t: Telemetry, keys: seq<string>): Option<real> {
    if keys == [] then None
    else if keys[0] in t.numbers then Some(t.numbers[keys[0]])
    else Numeric(t, keys[1..])
  }

  /** `a or b` on optional numbers: zero counts as absent. */
  function Or(a: Option<real>, b: Option<real>): Option<real> {
    if a.Some? && a.value != 0.0 then a else b
  }

  function OrElse(a: Option<real>, b: real): real {
    if a.Some? && a.value != 0.0 then a.value else b
  }

  function MaxReal(a: real, b: real): real {
    if a > b then a else b
  }

  function AbsReal(a: real): real {
    if a < 0.0 then -a else a
  }

  // ---- Constraints -------------------------------------------------------------------

  datatype Constraints =
    | BatteryConstraints(socPct: real, capacityKwh: real, reservePct: real, maxChargeKw: real, maxDischargeKw: real)
    | EvConstraints(connected: bool, currentSocPct: Option<real>, capacityKwh: real, targetSocPct: real, deadline: nat,
                    maxChargeKw: real)
    | HeatConstraints(temperatureC: Option<real>, comfortMinC: real, comfortMaxC: real, maxPowerKw: real)
    | PvConstraints(powerRatingKw: Option<real>, curtailmentSupported: bool)
    | LoadConstraints(nominalKw: real, runtimeTarget: nat, minimumOnMinutes: nat)
    | NoConstraints

  function BatteryConstraintsOf(t: Telemetry, reservePct: real): Constraints {
    var soc := OrElse(Numeric(t, ["soc_pct"]), 50.0);
    var available := Numeric(t, ["available_capacity_kwh", "usable_capacity_kwh"]);
    var capacity :=
      if available.Some? && soc > 0.0
      then MaxReal(available.value / MaxReal(soc / 100.0, 0.05), available.value)
      else 10.0;
    var charge := Numeric(t, ["max_charge_power_kw"]);
    var discharge := Numeric(t, ["max_discharge_power_kw"]);
    var observed := AbsReal(OrElse(Numeric(t, ["power_kw"]), 0.0));
    BatteryConstraints(soc, RoundTo(capacity, 1000), reservePct,
                       RoundTo(MaxReal(MaxReal(OrElse(charge, 0.0), observed), 3.0), 1000),
                       RoundTo(MaxReal(MaxReal(OrElse(Or(discharge, charge), 0.0), observed), 3.0), 1000))
  }

  function EvConstraintsOf(t: Telemetry, policy: Policy): Constraints {
    var rated := Numeric(t, ["max_charge_kw"]);
    var amps := Numeric(t, ["max_current_a", "current_a"]);
    EvConstraints(
      t.vehicleConnected != Some(false),
      Numeric(t, ["current_soc_pct", "soc_pct"]),
      OrElse(Numeric(t, ["vehicle_battery_capacity_kwh"]), 60.0),
      policy.evTargetSocPct,
      policy.evDeadline,
      if rated.Some? then rated.value
      else if amps.Some? then RoundTo(amps.value * 230.0 / 1000.0, 1000)
      else 11.0)
  }

  function HeatConstraintsOf(t: Telemetry, policy: Policy): Constraints {
    HeatConstraints(
      Numeric(t, ["room_temperature_c", "buffer_temperature_c", "flow_temperature_c", "temperature_c"]),
      policy.comfortMinC, policy.comfortMaxC,
      MaxReal(OrElse(Numeric(t, ["electrical_power_kw", "power_kw", "thermal_output_kw"]), 0.0), 2.5))
  }

  function LoadConstraintsOf(t: Telemetry, policy: Policy): Constraints
    requires policy.stepMinutes > 0
  {
    var kw := Numeric(t, ["power_kw"]);
    var watts := Numeric(t, ["power_w"]);
    var power := if kw.Some? then kw else if watts.Some? then Some(watts.value / 1000.0) else None;
    var stepped := OrElse(Numeric(t, ["runtime_target_steps"]), 0.0);
    var target := if stepped >= 0.0 then stepped.Floor else -((-stepped).Floor);
    var hours := Numeric(t, ["runtime_target_hours", "preferred_runtime_hours"]);
    var fromHours := if hours.Some? then RoundHalfEven(hours.value * 60.0 / policy.stepMinutes as real) else 0;
    var steps :=
      if target <= 0 && hours.Some? && hours.value > 0.0 then (if fromHours > 1 then fromHours else 1) else target;
    var minutes := MaxReal(OrElse(Numeric(t, ["minimum_on_minutes", "minimum_runtime_minutes"]),
                                  policy.stepMinutes as real), policy.stepMinutes as real);
    LoadConstraints(RoundTo(MaxReal(OrElse(power, 0.25), 0.25), 10000), if steps > 0 then steps else 0, minutes.Floor)
  }

  function ConstraintsOf(kind: AssetType, t: Telemetry, policy: Policy): Constraints
    requires policy.stepMinutes > 0
  {
    match kind
    case BatteryAsset => BatteryConstraintsOf(t, policy.batteryReservePct)
    case EvAsset => EvConstraintsOf(t, policy)
    case HeatPumpAsset => HeatConstraintsOf(t, policy)
    case PvAsset => PvConstraints(Numeric(t, ["power_rating_kw"]), t.curtailmentSupported)
    case LoadAsset => LoadConstraintsOf(t, policy)
    case OtherAsset => NoConstraints
  }

  /** What the planner reads from the constraints. The one-way efficiency is the square root of
      0.92 to six digits; `maxShareKw` is the largest forecast share of an inverter. */
  function PlannerAsset(c: Constraints, policy: Policy, maxShareKw: real): Asset
    requires !c.NoConstraints? && policy.stepMinutes > 0
  {
    match c
    case BatteryConstraints(soc, capacity, reserve, charge, discharge) =>
      Battery(capacity, reserve, 0.959166, charge, discharge, soc)
    case EvConstraints(connected, current, capacity, target, deadline, charge) =>
      var energy := if current.Some? then MaxReal((target - current.value) / 100.0 * capacity, 0.0) else 0.0;
      EvCharger(charge, connected, energy, deadline, 0.95)
    case HeatConstraints(temperature, low, high, power) =>
      HeatPump(power, if temperature.Some? then temperature.value else low, 0.45, 0.08, low, high)
    case PvConstraints(rating, _) => PvInverter(OrElse(rating, MaxReal(maxShareKw, 0.0)))
    case LoadConstraints(nominal, target, minutes) =>
      Load(nominal, target, MinimumRun.MinimumOnSteps(minutes as real, policy.stepMinutes))
  }

  // ---- What the readings mean --------------------------------------------------------

  /** A reading is found exactly when some key has one, and it is that of the first such key. */
  lemma {:induction false} NumericIsFirst(t: Telemetry, keys: seq<string>)
    ensures Numeric(t, keys).None? <==> forall i :: 0 <= i < |keys| ==> keys[i] !in t.numbers
    ensures Numeric(t, keys).Some? ==>
              exists i :: 0 <= i < |keys| && keys[i] in t.numbers && Numeric(t, keys).value == t.numbers[keys[i]] &&
                          forall j :: 0 <= j < i ==> keys[j] !in t.numbers
  {
    if keys != [] {
      NumericIsFirst(t, keys[1..]);
      assert forall i :: 1 <= i < |keys| ==> keys[i] == keys[1..][i - 1];
      if keys[0] !in t.numbers && Numeric(t, keys[1..]).Some? {
        var i :| 0 <= i < |keys| - 1 && keys[1..][i] in t.numbers
                 && Numeric(t, keys[1..]).value == t.numbers[keys[1..][i]]
                 && forall j :: 0 <= j < i ==> keys[1..][j] !in t.numbers;
        assert keys[i + 1] in t.numbers;
        assert forall j :: 0 <= j < i + 1 ==> keys[j] !in t.numbers;
      }
    }
  }

  /** Not less than the reading, up to the rounding to three digits. */
  predicate Covers(rounded: real, reading: real) {
    rounded >= reading - 0.0005
  }

  lemma RoundedCovers(x: real, y: real)
    requires x <= y
    ensures Covers(RoundTo(y, 1000), x)
  {
    hide RoundTo;
    RoundToNear(y, 1000);
  }

  lemma RoundedAtLeastThree(x: real)
    requires x >= 3.0
    ensures RoundTo(x, 1000) >= 3.0
  {
    hide RoundTo;
    RoundToMonotone(3.0, x, 1000);
    RoundToOnGrid(3.0, 3000, 1000);
  }

  /** A battery may charge and discharge with at least 3 kW, with what it reports as its limits, and with
      what it is doing; without a limit for discharging that for charging counts, and without any reading it
      is 3 kW. Its capacity is at least what it reports as available, and 10 kWh when it reports nothing. */
  lemma BatteryReadings(t: Telemetry, reservePct: real)
    ensures
      var c := BatteryConstraintsOf(t, reservePct);
      var charge, discharge := Numeric(t, ["max_charge_power_kw"]), Numeric(t, ["max_discharge_power_kw"]);
      var power, available := Numeric(t, ["power_kw"]), Numeric(t, ["available_capacity_kwh", "usable_capacity_kwh"]);
      && c.reservePct == reservePct
      && c.maxChargeKw >= 3.0 && c.maxDischargeKw >= 3.0
      && (charge.Some? ==> Covers(c.maxChargeKw, charge.value))
      && (discharge.Some? && discharge.value != 0.0 ==> Covers(c.maxDischargeKw, discharge.value))
      && (discharge.None? && charge.Some? ==> Covers(c.maxDischargeKw, charge.value))
      && (power.Some? ==> Covers(c.maxChargeKw, power.value) && Covers(c.maxChargeKw, -power.value)
                          && Covers(c.maxDischargeKw, power.value) && Covers(c.maxDischargeKw, -power.value))
      && (available.Some? && c.socPct > 0.0 ==> Covers(c.capacityKwh, available.value))
      && (available.None? ==> -0.0005 <= c.capacityKwh - 10.0 <= 0.0005)
      && (charge.None? && power.None? ==> c.maxChargeKw == 3.0)
      && (charge.None? && discharge.None? && power.None? ==> c.maxDischargeKw == 3.0)
      && (Numeric(t, ["soc_pct"]).Some? && Numeric(t, ["soc_pct"]).value != 0.0 ==>
          c.socPct == Numeric(t, ["soc_pct"]).value)
  {
    hide RoundTo, Numeric;
    forall x: real, y: real | x <= y ensures Covers(RoundTo(y, 1000), x) { RoundedCovers(x, y); }
    forall x: real | x >= 3.0 ensures RoundTo(x, 1000) >= 3.0 { RoundedAtLeastThree(x); }
    RoundToNear(10.0, 1000);
    RoundToOnGrid(3.0, 3000, 1000);
  }

  /** A car needs energy exactly when it reports less charge than its target, and then the missing part of
      its capacity; the current limit counts as power at 230 V when no power limit is reported. */
  lemma EvReadings(t: Telemetry, policy: Policy, maxShareKw: real)
    requires policy.stepMinutes > 0
    ensures
      var c := EvConstraintsOf(t, policy);
      var e := PlannerAsset(c, policy, maxShareKw);
      && (e.connected <==> t.vehicleConnected != Some(false)) && e.deadline == policy.evDeadline
      && (c.currentSocPct.None? ==> e.targetEnergyKwh == 0.0)
      && (c.currentSocPct.Some? && c.currentSocPct.value >= policy.evTargetSocPct && c.capacityKwh >= 0.0 ==>
            e.targetEnergyKwh == 0.0)
      && (c.currentSocPct.Some? && c.currentSocPct.value < policy.evTargetSocPct && c.capacityKwh > 0.0 ==>
            e.targetEnergyKwh == (policy.evTargetSocPct - c.currentSocPct.value) / 100.0 * c.capacityKwh > 0.0)
      && (Numeric(t, ["max_charge_kw"]).Some? ==> e.maxChargeKw == Numeric(t, ["max_charge_kw"]).value)
      && (Numeric(t, ["max_charge_kw"]).None? && Numeric(t, ["max_current_a", "current_a"]).Some? ==>
            -0.5 <= (e.maxChargeKw - Numeric(t, ["max_current_a", "current_a"]).value * 230.0 / 1000.0) * 1000.0 <= 0.5)
  {
    hide RoundTo, Numeric;
    var c := EvConstraintsOf(t, policy);
    if Numeric(t, ["max_current_a", "current_a"]).Some? {
      RoundToNear(Numeric(t, ["max_current_a", "current_a"]).value * 230.0 / 1000.0, 1000);
    }
    if c.currentSocPct.Some? {
      Need((policy.evTargetSocPct - c.currentSocPct.value) / 100.0, c.capacityKwh);
    }
  }

  lemma Need(part: real, capacity: real)
    ensures part <= 0.0 && capacity >= 0.0 ==> part * capacity <= 0.0
    ensures part > 0.0 && capacity > 0.0 ==> part * capacity > 0.0
  {
    if part <= 0.0 && capacity >= 0.0 { assert -part * capacity >= 0.0; }
  }

  /** A heat pump may run with at least 2.5 kW and starts from its reading, else from the comfort minimum;
      a load runs whole steps of at least its minimum minutes, at no less than a quarter of a kilowatt, and
      at its reading in kW, else in W, when that is more. */
  lemma HeatAndLoadReadings(t: Telemetry, policy: Policy, maxShareKw: real)
    requires policy.stepMinutes > 0
    ensures
      var h := PlannerAsset(HeatConstraintsOf(t, policy), policy, maxShareKw);
      && h.maxPowerKw >= 2.5
      && (Numeric(t, ["electrical_power_kw", "power_kw", "thermal_output_kw"]).None? ==> h.maxPowerKw == 2.5)
      && (Numeric(t, ["electrical_power_kw", "power_kw", "thermal_output_kw"]).Some? ==>
            h.maxPowerKw == MaxReal(Numeric(t, ["electrical_power_kw", "power_kw", "thermal_output_kw"]).value, 2.5))
      && h.gain == 0.45 && h.loss == 0.08
      && h.comfortMinC == policy.comfortMinC && h.comfortMaxC == policy.comfortMaxC
      && (HeatConstraintsOf(t, policy).temperatureC.None? ==> h.temperatureC == policy.comfortMinC)
      && (HeatConstraintsOf(t, policy).temperatureC.Some? ==>
            h.temperatureC == HeatConstraintsOf(t, policy).temperatureC.value)
      && HeatConstraintsOf(t, policy).temperatureC ==
         Numeric(t, ["room_temperature_c", "buffer_temperature_c", "flow_temperature_c", "temperature_c"])
    ensures
      var l := PlannerAsset(LoadConstraintsOf(t, policy), policy, maxShareKw);
      && l.nominalKw >= 0.25 && l.minimumOnSteps >= 1
      && l.minimumOnSteps as real * policy.stepMinutes as real >= LoadConstraintsOf(t, policy).minimumOnMinutes as real
      && LoadConstraintsOf(t, policy).minimumOnMinutes >= policy.stepMinutes
      && (Numeric(t, ["power_kw"]).Some? && Numeric(t, ["power_kw"]).value >= 0.25 ==>
            -0.5 <= (l.nominalKw - Numeric(t, ["power_kw"]).value) * 10000.0 <= 0.5)
      && (Numeric(t, ["power_kw"]).None? && Numeric(t, ["power_w"]).Some? && Numeric(t, ["power_w"]).value >= 250.0 ==>
            -0.5 <= (l.nominalKw - Numeric(t, ["power_w"]).value / 1000.0) * 10000.0 <= 0.5)
  {
    hide RoundTo, Numeric;
    forall x: real | x >= 0.25 ensures RoundTo(x, 10000) >= 0.25 {
      RoundToMonotone(0.25, x, 10000);
      RoundToOnGrid(0.25, 2500, 10000);
    }
    forall x: real ensures -0.5 <= (RoundTo(x, 10000) - x) * 10000.0 <= 0.5 { RoundToNear(x, 10000); }
    var minutes := LoadConstraintsOf(t, policy).minimumOnMinutes;
    var steps := MinimumRun.MinimumOnSteps(minutes as real, policy.stepMinutes);
    MinimumRun.MinimumOnStepsIsLeast(minutes as real, policy.stepMinutes, steps);
  }

  // ---- Contracts ---------------------------------------------------------------------

  datatype Contract =
    | NumberContract(key: string, minimum: real, maximum: real)
    | SwitchContract(key: string)

  function BatteryContract(t: Telemetry, c: Constraints): Option<Contract>
    requires c.BatteryConstraints?
  {
    var charge := Or(Some(c.maxChargeKw), Numeric(t, ["max_charge_power_kw"]));
    var discharge := Or(Some(c.maxDischargeKw), Numeric(t, ["max_discharge_power_kw", "max_charge_power_kw"]));
    if charge.None? || charge.value <= 0.0 || discharge.None? || discharge.value <= 0.0 then None
    else Some(NumberContract("set_power_kw", RoundTo(-charge.value, 10000), RoundTo(discharge.value, 10000)))
  }

  function EvContract(t: Telemetry, c: Constraints): Option<Contract>
    requires c.EvConstraints?
  {
    var charge := Or(Some(c.maxChargeKw), Numeric(t, ["max_charge_kw"]));
    if charge.None? || charge.value <= 0.0 then None
    else Some(NumberContract("set_charge_kw", 0.0, RoundTo(charge.value, 10000)))
  }

  function HeatContract(t: Telemetry, c: Constraints): Option<Contract>
    requires c.HeatConstraints?
  {
    var power := Or(Some(c.maxPowerKw), Numeric(t, ["electrical_power_kw", "power_kw", "thermal_output_kw"]));
    if c.temperatureC.None? || power.None? || power.value <= 0.0 then None
    else Some(NumberContract("set_power_kw", 0.0, RoundTo(power.value, 10000)))
  }

  function PvContract(t: Telemetry, c: Constraints): Option<Contract>
    requires c.PvConstraints?
  {
    var rating := Or(c.powerRatingKw, Numeric(t, ["power_rating_kw"]));
    if !(c.curtailmentSupported || t.curtailmentSupported) || rating.None? || rating.value <= 0.0 then None
    else Some(NumberContract("set_power_kw", 0.0, RoundTo(rating.value, 10000)))
  }

  function LoadContract(t: Telemetry, c: Constraints): Option<Contract>
    requires c.LoadConstraints?
  {
    var power := Or(Some(c.nominalKw), Numeric(t, ["power_kw"]));
    if power.None? || power.value <= 0.0 then None else Some(SwitchContract("start_stop"))
  }

  function ContractOf(t: Telemetry, c: Constraints): Option<Contract> {
    match c
    case BatteryConstraints(_, _, _, _, _) => BatteryContract(t, c)
    case EvConstraints(_, _, _, _, _, _) => EvContract(t, c)
    case HeatConstraints(_, _, _, _) => HeatContract(t, c)
    case PvConstraints(_, _) => PvContract(t, c)
    case LoadConstraints(_, _, _) => LoadContract(t, c)
    case NoConstraints => None
  }

  /** A battery and a load always have a contract; a charger has one when it may charge at all, a heat pump
      when a temperature is known, and an inverter when it can be curtailed and has a rating. */
  lemma ContractIff(kind: AssetType, t: Telemetry, policy: Policy)
    requires policy.stepMinutes > 0
    ensures
      var c := ConstraintsOf(kind, t, policy);
      ContractOf(t, c).Some? <==>
      match kind
      case BatteryAsset => true
      case LoadAsset => true
      case EvAsset => c.maxChargeKw > 0.0
      case HeatPumpAsset => c.temperatureC.Some?
      case PvAsset => t.curtailmentSupported && c.powerRatingKw.Some? && c.powerRatingKw.value > 0.0
      case OtherAsset => false
  {
    hide RoundTo;
    match kind {
      case BatteryAsset =>
        BatteryReadings(t, policy.batteryReservePct);
      case LoadAsset =>
        HeatAndLoadReadings(t, policy, 0.0);
      case _ =>
    }
  }

  // ---- Eligibility -------------------------------------------------------------------

  datatype Validation = Native | NativeDisabled | Simulation | Unavailable

  datatype Device = Device(visible: bool, monitorable: bool, controllable: bool, primaryStatus: string)

  datatype Eligibility = Blocked | ReadOnly | PlanOnly | Dispatchable

  function ValidationOf(profile: string, supported: bool, nativeWritesEnabled: bool, t: Telemetry): Validation {
    if profile != "" then
      if !supported then Unavailable
      else if !nativeWritesEnabled then NativeDisabled
      else Native
    else if t.simulationSupported then Simulation
    else Unavailable
  }

  function Assess(device: Option<Device>, kind: AssetType, contract: Option<Contract>,
                  validation: Validation): Eligibility {
    if device.None? then Blocked
    else if !device.value.visible || !device.value.monitorable then Blocked
    else if device.value.primaryStatus in {"authentication_required", "manufacturer_access_required",
                                           "not_integratable"} then Blocked
    else if kind.OtherAsset? then ReadOnly
    else if !device.value.controllable || contract.None? then PlanOnly
    else if validation.NativeDisabled? || validation.Unavailable? then PlanOnly
    else if device.value.primaryStatus !in {"connected", "controllable", "optimizable"} then PlanOnly
    else Dispatchable
  }

  /** A device as it is assessed: what it reports and which write path was found for it. */
  datatype Assessed = Assessed(device: Option<Device>, kind: AssetType, telemetry: Telemetry, profile: string,
                               supported: bool)

  function EligibilityOf(a: Assessed, policy: Policy, nativeWritesEnabled: bool): Eligibility
    requires policy.stepMinutes > 0
  {
    Assess(a.device, a.kind, ContractOf(a.telemetry, ConstraintsOf(a.kind, a.telemetry, policy)),
           ValidationOf(a.profile, a.supported, nativeWritesEnabled, a.telemetry))
  }

  /** Dispatchable is exactly: a visible, monitorable and controllable device in a working state, of a known
      type, with a contract and a way to write. */
  lemma DispatchableIff(a: Assessed, policy: Policy, nativeWritesEnabled: bool)
    requires policy.stepMinutes > 0
    ensures EligibilityOf(a, policy, nativeWritesEnabled) == Dispatchable <==>
            && a.device.Some? && a.device.value.visible && a.device.value.monitorable && a.device.value.controllable
            && a.device.value.primaryStatus in {"connected", "controllable", "optimizable"}
            && !a.kind.OtherAsset? && ContractOf(a.telemetry, ConstraintsOf(a.kind, a.telemetry, policy)).Some?
            && (if a.profile != "" then a.supported && nativeWritesEnabled else a.telemetry.simulationSupported)
  {
    hide ContractOf, ConstraintsOf;
  }

  /** A device is blocked exactly when it is missing, hidden, not monitorable or waiting for access; one that
      is not blocked is only read exactly when its type is unknown. */
  lemma BlockedIff(a: Assessed, policy: Policy, nativeWritesEnabled: bool)
    requires policy.stepMinutes > 0
    ensures
      var e := EligibilityOf(a, policy, nativeWritesEnabled);
      && (e == Blocked <==>
          a.device.None? || !a.device.value.visible || !a.device.value.monitorable
          || a.device.value.primaryStatus == "authentication_required"
          || a.device.value.primaryStatus == "manufacturer_access_required"
          || a.device.value.primaryStatus == "not_integratable")
      && (e == ReadOnly <==> e != Blocked && a.kind.OtherAsset?)
  {
    hide ContractOf, ConstraintsOf;
  }

  /** A dispatchable asset always has a contract and planner constraints to go with it, a controllable
      device, and a way to write: a supported profile with native writes enabled, or a simulation. */
  lemma DispatchableHasContract(a: Assessed, policy: Policy, nativeWritesEnabled: bool)
    requires policy.stepMinutes > 0 && EligibilityOf(a, policy, nativeWritesEnabled) == Dispatchable
    ensures !a.kind.OtherAsset? && !ConstraintsOf(a.kind, a.telemetry, policy).NoConstraints?
    ensures ContractOf(a.telemetry, ConstraintsOf(a.kind, a.telemetry, policy)).Some?
    ensures a.device.Some? && a.device.value.controllable
    ensures if a.profile != "" then a.supported && nativeWritesEnabled else a.telemetry.simulationSupported
  {
  }
}
