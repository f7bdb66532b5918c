/**
 * The right-hand side of the thermal network's ODE: for a trial state
 * (N component temperatures followed by four energy accumulators) it
 * assembles every component's net heat flux into a temperature derivative
 * and records four power totals.
 */
module Odes {

  import opened Sums
  import opened BaseClasses
  import opened HeatTransfer

  /** Every switch in the conductivity matrix that throttles at these temperatures has a nonzero factor. */
  ghost predicate LinksEvaluable(components: seq<ThermalComponent>, conductivity: seq<seq<ThermalLink>>)
    requires IsSquare(conductivity, |components|)
  {
    forall i, j :: 0 <= i < |components| && 0 <= j < |components| ==>
      (Throttles(conductivity[i][j], components[i].temp, components[j].temp) ==>
         conductivity[i][j].attenuationFactor != 0.0)
  }

  /** The configuration every flux of the network can be evaluated on. */
  ghost predicate WellFormed(components: seq<ThermalComponent>, conductivity: seq<seq<ThermalLink>>,
                             pumps: seq<seq<HeatPump>>, environment: EnvironmentalConditions)
  {
    IsSquare(conductivity, |components|) && IsSquare(pumps, |components|) &&
    LinksEvaluable(components, conductivity) && environment.orbitalPeriod > 0.0
  }

  /** Heater output: full power strictly below the set point, nothing otherwise. */
  function HeaterPower(component: ThermalComponent): (p: real)
    ensures component.temp < component.heater.setTemp ==> p == component.heater.power
    ensures component.temp >= component.heater.setTemp ==> p == 0.0
  {
    if component.temp < component.heater.setTemp then component.heater.power else 0.0
  }

  /**
   * The flux into one component that does not involve any other component:
   * innate power, heater, electronics, direct and background radiation.
   */
  function LocalFlux(t: real, component: ThermalComponent, environment: EnvironmentalConditions): real
    requires environment.orbitalPeriod > 0.0
  {
    component.innatePower + HeaterPower(component) + component.electronicsPower(t)
      + IncidentRadiationFlux(t, component, environment)
      + BackgroundRadiationFlux(component, environment)
  }

  /** The local flux of every component, in order. */
  function LocalFluxes(t: real, components: seq<ThermalComponent>, environment: EnvironmentalConditions): (local: seq<real>)
    requires environment.orbitalPeriod > 0.0
    ensures |local| == |components|
    ensures forall k :: 0 <= k < |components| ==> local[k] == LocalFlux(t, components[k], environment)
  {
    seq(|components|, k requires 0 <= k < |components| => LocalFlux(t, components[k], environment))
  }

  /** Entry (i, j): conduction into component i from component j through link (i, j). */
  function ConductionMatrix(components: seq<ThermalComponent>, conductivity: seq<seq<ThermalLink>>): (m: seq<seq<real>>)
    requires IsSquare(conductivity, |components|) && LinksEvaluable(components, conductivity)
    ensures IsSquare(m, |components|) && Covers(m, |components|, |components|)
    ensures forall i, j :: 0 <= i < |components| && 0 <= j < |components| ==>
              m[i][j] == ConductionFlux(components[j], components[i], conductivity[i][j])
    // A component exchanges nothing with itself.
    ensures forall i :: 0 <= i < |components| ==> m[i][i] == 0.0
  {
    var n := |components|;
    seq(n, i requires 0 <= i < n =>
      seq(n, j requires 0 <= j < n => ConductionFlux(components[j], components[i], conductivity[i][j])))
  }

  /** Entry (i, j): power pump (i, j) moves from component i to component j, at component i's temperature. */
  function PumpMatrix(components: seq<ThermalComponent>, pumps: seq<seq<HeatPump>>): (m: seq<seq<real>>)
    requires IsSquare(pumps, |components|)
    ensures IsSquare(m, |components|) && Covers(m, |components|, |components|)
    ensures forall i, j :: 0 <= i < |components| && 0 <= j < |components| ==>
              m[i][j] == GetPower(pumps[i][j], components[i].temp)
  {
    var n := |components|;
    seq(n, i requires 0 <= i < n =>
      seq(n, j requires 0 <= j < n => GetPower(pumps[i][j], components[i].temp)))
  }

  /**
   * Net flux into component k: its local flux, conduction from every
   * component, minus what its own pumps move out, plus what every pump
   * aimed at it moves in.
   */
  function NetFlux(t: real, components: seq<ThermalComponent>, conductivity: seq<seq<ThermalLink>>,
                   pumps: seq<seq<HeatPump>>, environment: EnvironmentalConditions, k: nat): real
    requires WellFormed(components, conductivity, pumps, environment)
    requires k < |components|
  {
    var n := |components|;
    var c := ConductionMatrix(components, conductivity);
    var p := PumpMatrix(components, pumps);
    LocalFlux(t, components[k], environment) + SumTo(c[k], n) - SumTo(p[k], n) + ColumnSum(p, k, n)
  }

  /** Innate plus electronics power of the first m components (accumulator slot N). */
  function GenerationSum(t: real, components: seq<ThermalComponent>, m: nat): real
    requires m <= |components|
  {
    if m == 0 then 0.0
    else GenerationSum(t, components, m - 1) + components[m - 1].innatePower + components[m - 1].electronicsPower(t)
  }

  /** Heater output of the first m components (the heater part of accumulator slot N + 1). */
  function HeaterSum(components: seq<ThermalComponent>, m: nat): real
    requires m <= |components|
  {
    if m == 0 then 0.0 else HeaterSum(components, m - 1) + HeaterPower(components[m - 1])
  }

  /** Direct radiation absorbed by the first m components (accumulator slot N + 2). */
  function IncidentSum(t: real, components: seq<ThermalComponent>, environment: EnvironmentalConditions, m: nat): real
    requires m <= |components| && environment.orbitalPeriod > 0.0
  {
    if m == 0 then 0.0
    else IncidentSum(t, components, environment, m - 1) + IncidentRadiationFlux(t, components[m - 1], environment)
  }

  /** Background radiation exchanged by the first m components (accumulator slot N + 3). */
  function BackgroundSum(components: seq<ThermalComponent>, environment: EnvironmentalConditions, m: nat): real
    requires m <= |components|
  {
    if m == 0 then 0.0
    else BackgroundSum(components, environment, m - 1) + BackgroundRadiationFlux(components[m - 1], environment)
  }

  /** The net flux of every component, in order. */
  function NetFluxes(t: real, components: seq<ThermalComponent>, conductivity: seq<seq<ThermalLink>>,
                     pumps: seq<seq<HeatPump>>, environment: EnvironmentalConditions): (fluxes: seq<real>)
    requires WellFormed(components, conductivity, pumps, environment)
    ensures |fluxes| == |components|
    ensures forall k :: 0 <= k < |components| ==>
              fluxes[k] == NetFlux(t, components, conductivity, pumps, environment, k)
  {
    seq(|components|, k requires 0 <= k < |components| => NetFlux(t, components, conductivity, pumps, environment, k))
  }

  /**
   * Contents of fluxes[k] once rows 0 .. i-1 of the assembly loop are done:
   * finished components hold their local flux, conduction and their own
   * pumps' outflow; every component holds the inflow from those rows' pumps.
   */
  ghost function RowsDone(local: seq<real>, c: seq<seq<real>>, p: seq<seq<real>>, i: nat, k: nat): real
    requires Covers(c, |local|, |local|) && Covers(p, |local|, |local|)
    requires i <= |local| && k < |local|
  {
    var n := |local|;
    (if k < i then local[k] + SumTo(c[k], n) - SumTo(p[k], n) else 0.0) + ColumnSum(p, k, i)
  }

  /** The flux vector once rows 0 .. i-1 are done. */
  ghost predicate FluxesAfterRows(fluxes: seq<real>, local: seq<real>, c: seq<seq<real>>, p: seq<seq<real>>, i: nat)
    requires Covers(c, |local|, |local|) && Covers(p, |local|, |local|) && i <= |local|
  {
    |fluxes| == |local| && forall k :: 0 <= k < |local| ==> fluxes[k] == RowsDone(local, c, p, i, k)
  }

  /** Row i: its local flux, then its couplings, extend the finished rows by one. */
  lemma RowStep(before: seq<real>, after: seq<real>, local: seq<real>, c: seq<seq<real>>, p: seq<seq<real>>, i: nat)
    requires IsSquare(c, |local|) && IsSquare(p, |local|) && Covers(c, |local|, |local|) && Covers(p, |local|, |local|)
    requires i < |local|
    requires FluxesAfterRows(before, local, c, p, i)
    requires |after| == |local|
    requires forall k :: 0 <= k < |local| ==>
               after[k] == before[i := before[i] + local[i]][k]
                           + (if k == i then SumTo(c[i], |local|) - SumTo(p[i], |local|) else 0.0) + p[i][k]
    ensures FluxesAfterRows(after, local, c, p, i + 1)
  {
  }

  /**
   * Steps 1A to 2A of one component's turn: innate power, heater, electronics
   * and both radiation terms go into `fluxes[i]` and are recorded in the
   * accumulator slots N .. N+3 of `out`.
   */
  method AddLocalTerms(t: real, components: seq<ThermalComponent>, environment: EnvironmentalConditions,
                       i: nat, fluxes: array<real>, out: array<real>)
    requires environment.orbitalPeriod > 0.0
    requires i < fluxes.Length == |components| && |components| + 4 <= out.Length && fluxes != out
    requires out[|components|] == GenerationSum(t, components, i)
    requires out[|components| + 2] == IncidentSum(t, components, environment, i)
    requires out[|components| + 3] == BackgroundSum(components, environment, i)
    modifies fluxes, out
    ensures fluxes[..] == old(fluxes[..])[i := old(fluxes[i]) + LocalFlux(t, components[i], environment)]
    ensures out[|components|] == GenerationSum(t, components, i + 1)
    ensures out[|components| + 1] == old(out[|components| + 1]) + HeaterPower(components[i])
    ensures out[|components| + 2] == IncidentSum(t, components, environment, i + 1)
    ensures out[|components| + 3] == BackgroundSum(components, environment, i + 1)
    ensures forall m :: 0 <= m < out.Length && !(|components| <= m < |components| + 4) ==> out[m] == old(out[m])
  {
    var component := components[i];

    // Constant generation feeds slot n.
    fluxes[i] := fluxes[i] + component.innatePower;
    out[|components|] := out[|components|] + component.innatePower;

    // A heater below its set point adds its power; its total goes to slot n + 1.
    if component.temp < component.heater.setTemp {
      fluxes[i] := fluxes[i] + component.heater.power;
      out[|components| + 1] := out[|components| + 1] + component.heater.power;
    }

    // The electronics schedule at time t also feeds slot n.
    fluxes[i] := fluxes[i] + component.electronicsPower(t);
    out[|components|] := out[|components|] + component.electronicsPower(t);

    // Absorbed and emitted radiation go to slots n + 2 and n + 3.
    var incidentFlux := IncidentRadiationFlux(t, component, environment);
    var backgroundFlux := BackgroundRadiationFlux(component, environment);
    out[|components| + 2] := out[|components| + 2] + incidentFlux;
    out[|components| + 3] := out[|components| + 3] + backgroundFlux;
    fluxes[i] := fluxes[i] + (incidentFlux + backgroundFlux);
  }

  /**
   * Contents of the flux vector after columns 0 .. j-1 of row i: entry i has
   * gained the conduction and lost the pump power of those columns, and each
   * of those columns' entries has gained its pump power.
   */
  ghost predicate CouplingsDone(fluxes: seq<real>, start: seq<real>, row: seq<real>, pumped: seq<real>, i: nat, j: nat)
    requires |fluxes| == |start| == |row| == |pumped| && i < |start| && j <= |start|
  {
    forall k :: 0 <= k < |start| ==>
      fluxes[k] == start[k]
                   + (if k == i then SumTo(row, j) - SumTo(pumped, j) else 0.0)
                   + (if k < j then pumped[k] else 0.0)
  }

  /**
   * The flux vector after one column of row i: `conduction` flows into i,
   * and `pump` is moved from i to j.
   */
  function Transferred(fluxes: seq<real>, i: nat, j: nat, conduction: real, pump: real): (after: seq<real>)
    requires i < |fluxes| && j < |fluxes|
    ensures |after| == |fluxes|
    ensures forall k :: 0 <= k < |fluxes| ==>
              after[k] == fluxes[k] + (if k == i then conduction - pump else 0.0) + (if k == j then pump else 0.0)
  {
    var drained := fluxes[i := fluxes[i] + conduction - pump];
    drained[j := drained[j] + pump]
  }

  /** One more column of row i keeps the partial sums of row i. */
  lemma CouplingStep(start: seq<real>, before: seq<real>, row: seq<real>, pumped: seq<real>, i: nat, j: nat)
    requires |before| == |start| == |row| == |pumped| && i < |start| && j < |start|
    requires CouplingsDone(before, start, row, pumped, i, j)
    ensures CouplingsDone(Transferred(before, i, j, row[j], pumped[j]), start, row, pumped, i, j + 1)
  {
  }

  /**
   * Step 3 of component i's turn, for j in ascending order: conduction into i
   * from j is added to `fluxes[i]`, and pump (i, j)'s power is taken from
   * `fluxes[i]`, given to `fluxes[j]` and recorded in slot N+1 of `out`.
   */
  method AddCouplings(components: seq<ThermalComponent>, conductivity: seq<seq<ThermalLink>>,
                      pumps: seq<seq<HeatPump>>, temps: seq<real>,
                      i: nat, fluxes: array<real>, out: array<real>)
    requires IsSquare(conductivity, |components|) && IsSquare(pumps, |components|)
    requires LinksEvaluable(components, conductivity)
    requires temps == Temps(components)
    requires i < fluxes.Length == |components| && |components| + 4 <= out.Length && fluxes != out
    modifies fluxes, out
    ensures forall k :: 0 <= k < |components| ==>
              fluxes[k] == old(fluxes[k])
                           + (if k == i then SumTo(ConductionMatrix(components, conductivity)[i], |components|)
                                             - SumTo(PumpMatrix(components, pumps)[i], |components|)
                              else 0.0)
                           + PumpMatrix(components, pumps)[i][k]
    ensures out[|components| + 1] == old(out[|components| + 1]) + SumTo(PumpMatrix(components, pumps)[i], |components|)
    ensures out[|components|] == old(out[|components|])
    ensures out[|components| + 2] == old(out[|components| + 2])
    ensures out[|components| + 3] == old(out[|components| + 3])
    ensures forall m :: 0 <= m < out.Length && m != |components| + 1 ==> out[m] == old(out[m])
  {
    ghost var row := ConductionMatrix(components, conductivity)[i];
    ghost var pumped := PumpMatrix(components, pumps)[i];
    ghost var start := fluxes[..];
    assert SumTo(row, 0) == 0.0 && SumTo(pumped, 0) == 0.0;
    var j := 0;
    while j < |components|
      invariant j <= |components|
      invariant CouplingsDone(fluxes[..], start, row, pumped, i, j)
      invariant out[|components| + 1] == old(out[|components| + 1]) + SumTo(pumped, j)
      invariant forall m :: 0 <= m < out.Length && m != |components| + 1 ==> out[m] == old(out[m])
    {
      ghost var before := fluxes[..];
      var conductionFlux := ConductionFlux(components[j], components[i], conductivity[i][j]);
      var pumpFlux := GetPower(pumps[i][j], temps[i]);
      assert conductionFlux == row[j] && pumpFlux == pumped[j];
      Transfer(fluxes, out, i, j, conductionFlux, pumpFlux);
      CouplingStep(start, before, row, pumped, i, j);
      assert out[|components| + 1] == old(out[|components| + 1]) + SumTo(pumped, j + 1);
      j := j + 1;
    }
  }

  /**
   * The array updates of one column of row i: `conductionFlux` into i, and
   * `pumpFlux` from i to j, recorded in slot N+1 of `out`.
   */
  method Transfer(fluxes: array<real>, out: array<real>, i: nat, j: nat, conductionFlux: real, pumpFlux: real)
    requires i < fluxes.Length && j < fluxes.Length && fluxes.Length + 4 <= out.Length && fluxes != out
    modifies fluxes, out
    ensures fluxes[..] == Transferred(old(fluxes[..]), i, j, conductionFlux, pumpFlux)
    ensures out[fluxes.Length + 1] == old(out[fluxes.Length + 1]) + pumpFlux
    ensures forall m :: 0 <= m < out.Length && m != fluxes.Length + 1 ==> out[m] == old(out[m])
  {
    var n := fluxes.Length;
    fluxes[i] := fluxes[i] + conductionFlux;

    // Pump (i, j) moves heat from i to j.
    fluxes[i] := fluxes[i] - pumpFlux;
    fluxes[j] := fluxes[j] + pumpFlux;
    out[n + 1] := out[n + 1] + pumpFlux;
  }

  /** The first |fluxes| entries of `out` become the fluxes divided by the inertias; the rest stay as they were. */
  method DivideByInertias(out: array<real>, fluxes: seq<real>, inertias: seq<real>)
    requires |fluxes| == |inertias| <= out.Length
    requires forall k :: 0 <= k < |inertias| ==> inertias[k] != 0.0
    modifies out
    ensures forall k :: 0 <= k < |fluxes| ==> out[k] == fluxes[k] / inertias[k]
    ensures forall k :: |fluxes| <= k < out.Length ==> out[k] == old(out[k])
  {
    for k := 0 to |fluxes|
      invariant forall m :: 0 <= m < k ==> out[m] == fluxes[m] / inertias[m]
      invariant forall m :: k <= m < out.Length ==> out[m] == old(out[m])
    {
      out[k] := fluxes[k] / inertias[k];
    }
  }

  /**
   * The state of the assembly loop once components 0 .. i-1 have had their
   * turn: the flux vector holds the finished rows, the four accumulators hold
   * the partial sums, and every other slot of `out` is still zero.
   */
  ghost predicate Assembled(fluxes: seq<real>, out: seq<real>, t: real, components: seq<ThermalComponent>,
                            conductivity: seq<seq<ThermalLink>>, pumps: seq<seq<HeatPump>>,
                            environment: EnvironmentalConditions, i: nat)
    requires WellFormed(components, conductivity, pumps, environment)
    requires i <= |components|
  {
    var n := |components|;
    var p := PumpMatrix(components, pumps);
    FluxesAfterRows(fluxes, LocalFluxes(t, components, environment), ConductionMatrix(components, conductivity), p, i) &&
    |out| >= n + 4 &&
    out[n] == GenerationSum(t, components, i) &&
    out[n + 1] == HeaterSum(components, i) + MatrixSum(p, i, n) &&
    out[n + 2] == IncidentSum(t, components, environment, i) &&
    out[n + 3] == BackgroundSum(components, environment, i) &&
    forall k :: 0 <= k < |out| && !(n <= k < n + 4) ==> out[k] == 0.0
  }

  /**
   * The assembly loop over components, on zeroed `fluxes` and `out`: each
   * component in order adds its local terms and its couplings. Afterwards
   * `fluxes` holds every net flux and `out` the four accumulators.
   */
  method AccumulateFluxes(t: real, components: seq<ThermalComponent>, conductivity: seq<seq<ThermalLink>>,
                          pumps: seq<seq<HeatPump>>, environment: EnvironmentalConditions,
                          fluxes: array<real>, out: array<real>)
    requires WellFormed(components, conductivity, pumps, environment)
    requires fluxes.Length == |components| && |components| + 4 <= out.Length && fluxes != out
    requires forall k :: 0 <= k < fluxes.Length ==> fluxes[k] == 0.0
    requires forall k :: 0 <= k < out.Length ==> out[k] == 0.0
    modifies fluxes, out
    ensures forall k :: 0 <= k < |components| ==>
              fluxes[k] == NetFlux(t, components, conductivity, pumps, environment, k)
    ensures out[|components|] == GenerationSum(t, components, |components|)
    ensures out[|components| + 1] ==
              HeaterSum(components, |components|) + MatrixSum(PumpMatrix(components, pumps), |components|, |components|)
    ensures out[|components| + 2] == IncidentSum(t, components, environment, |components|)
    ensures out[|components| + 3] == BackgroundSum(components, environment, |components|)
    ensures forall k :: 0 <= k < out.Length && !(|components| <= k < |components| + 4) ==> out[k] == 0.0
  {
    var temps := Temps(components);
    AssemblyStart(fluxes[..], out[..], t, components, conductivity, pumps, environment);
    var i := 0;
    while i < |components|
      invariant i <= |components|
      invariant Assembled(fluxes[..], out[..], t, components, conductivity, pumps, environment, i)
    {
      AddComponent(t, components, conductivity, pumps, environment, temps, i, fluxes, out);
      i := i + 1;
    }
    AssemblyFinish(fluxes[..], out[..], t, components, conductivity, pumps, environment);
  }

  /** Zeroed vectors are the assembly state before any component has had its turn. */
  lemma AssemblyStart(fluxes: seq<real>, out: seq<real>, t: real, components: seq<ThermalComponent>,
                      conductivity: seq<seq<ThermalLink>>, pumps: seq<seq<HeatPump>>,
                      environment: EnvironmentalConditions)
    requires WellFormed(components, conductivity, pumps, environment)
    requires |fluxes| == |components| && |components| + 4 <= |out|
    requires forall k :: 0 <= k < |fluxes| ==> fluxes[k] == 0.0
    requires forall k :: 0 <= k < |out| ==> out[k] == 0.0
    ensures Assembled(fluxes, out, t, components, conductivity, pumps, environment, 0)
  {
  }

  /**
   * Once every component has had its turn, each flux is the component's net
   * flux and the four accumulators hold their totals.
   */
  lemma AssemblyFinish(fluxes: seq<real>, out: seq<real>, t: real, components: seq<ThermalComponent>,
                       conductivity: seq<seq<ThermalLink>>, pumps: seq<seq<HeatPump>>,
                       environment: EnvironmentalConditions)
    requires WellFormed(components, conductivity, pumps, environment)
    requires Assembled(fluxes, out, t, components, conductivity, pumps, environment, |components|)
    ensures |fluxes| == |components| && |components| + 4 <= |out|
    ensures forall k :: 0 <= k < |components| ==>
              fluxes[k] == NetFlux(t, components, conductivity, pumps, environment, k)
    ensures out[|components|] == GenerationSum(t, components, |components|)
    ensures out[|components| + 1] ==
              HeaterSum(components, |components|) + MatrixSum(PumpMatrix(components, pumps), |components|, |components|)
    ensures out[|components| + 2] == IncidentSum(t, components, environment, |components|)
    ensures out[|components| + 3] == BackgroundSum(components, environment, |components|)
    ensures forall k :: 0 <= k < |out| && !(|components| <= k < |components| + 4) ==> out[k] == 0.0
  {
  }

  /**
   * Component i's turn of the assembly loop: its local terms, then its
   * couplings, extend the finished rows by one.
   */
  method AddComponent(t: real, components: seq<ThermalComponent>, conductivity: seq<seq<ThermalLink>>,
                      pumps: seq<seq<HeatPump>>, environment: EnvironmentalConditions, temps: seq<real>,
                      i: nat, fluxes: array<real>, out: array<real>)
    requires WellFormed(components, conductivity, pumps, environment)
    requires temps == Temps(components)
    requires i < |components| && fluxes != out
    requires Assembled(fluxes[..], out[..], t, components, conductivity, pumps, environment, i)
    modifies fluxes, out
    ensures Assembled(fluxes[..], out[..], t, components, conductivity, pumps, environment, i + 1)
  {
    ghost var c := ConductionMatrix(components, conductivity);
    ghost var p := PumpMatrix(components, pumps);
    ghost var local := LocalFluxes(t, components, environment);
    ghost var fluxesBefore, outBefore, heatBefore := fluxes[..], out[..], out[|components| + 1];
    assert heatBefore == HeaterSum(components, i) + MatrixSum(p, i, |components|);
    AddLocalTerms(t, components, environment, i, fluxes, out);
    AddCouplings(components, conductivity, pumps, temps, i, fluxes, out);
    RowStep(fluxesBefore, fluxes[..], local, c, p, i);
    AssembledStep(fluxes[..], outBefore, out[..], t, components, conductivity, pumps, environment, i);
  }

  /**
   * The accumulator half of one turn: when the flux rows are finished up to
   * i + 1 and component i has added its share to the four slots, the
   * assembly state has advanced to i + 1.
   */
  lemma AssembledStep(fluxes: seq<real>, before: seq<real>, after: seq<real>, t: real,
                      components: seq<ThermalComponent>, conductivity: seq<seq<ThermalLink>>,
                      pumps: seq<seq<HeatPump>>, environment: EnvironmentalConditions, i: nat)
    requires WellFormed(components, conductivity, pumps, environment)
    requires i < |components| && |after| == |before|
    requires FluxesAfterRows(fluxes, LocalFluxes(t, components, environment), ConductionMatrix(components, conductivity),
                             PumpMatrix(components, pumps), i + 1)
    requires |components| + 4 <= |before|
    requires before[|components| + 1] == HeaterSum(components, i) + MatrixSum(PumpMatrix(components, pumps), i, |components|)
    requires after[|components|] == GenerationSum(t, components, i + 1)
    requires after[|components| + 1] == before[|components| + 1] + HeaterPower(components[i])
                                        + SumTo(PumpMatrix(components, pumps)[i], |components|)
    requires after[|components| + 2] == IncidentSum(t, components, environment, i + 1)
    requires after[|components| + 3] == BackgroundSum(components, environment, i + 1)
    requires forall k :: 0 <= k < |after| && !(|components| <= k < |components| + 4) ==> after[k] == 0.0
    ensures Assembled(fluxes, after, t, components, conductivity, pumps, environment, i + 1)
  {
    HeatSlotStep(components, PumpMatrix(components, pumps), i);
  }

  /** Component i adds its heater output and its pumps' total to accumulator slot N+1. */
  lemma HeatSlotStep(components: seq<ThermalComponent>, p: seq<seq<real>>, i: nat)
    requires i < |components| && Covers(p, |components|, |components|)
    ensures HeaterSum(components, i + 1) + MatrixSum(p, i + 1, |components|)
            == HeaterSum(components, i) + MatrixSum(p, i, |components|) + HeaterPower(components[i])
               + SumTo(p[i], |components|)
  {
  }

  /**
   * The flux assembly and division of the derivative, on the updated
   * components: each component in order adds its local terms and its
   * couplings (conduction from every component, pump transfers to every
   * component); then each flux is divided by its component's thermal inertia.
   * `size` is the length of the state vector.
   */
  method AssembleDerivative(t: real, components: seq<ThermalComponent>, conductivity: seq<seq<ThermalLink>>,
                            pumps: seq<seq<HeatPump>>, environment: EnvironmentalConditions,
                            inertias: seq<real>, size: nat)
    returns (yp: seq<real>)
    requires WellFormed(components, conductivity, pumps, environment)
    requires size >= |components| + 4
    requires |inertias| == |components|
    requires forall k :: 0 <= k < |components| ==> inertias[k] == components[k].ThermalInertia() != 0.0
    ensures yp == Derivative(t, components, conductivity, pumps, environment, size)
  {
    var n := |components|;
    var fluxes := new real[n](_ => 0.0);
    var out := new real[size](_ => 0.0);
    AccumulateFluxes(t, components, conductivity, pumps, environment, fluxes, out);

    // Each net flux over its inertia becomes a temperature rate.
    DivideByInertias(out, fluxes[..], inertias);
    yp := out[..];
    DerivativeBySlots(t, components, conductivity, pumps, environment, yp);
  }

  /**
   * The state derivative of a network: for each component its net flux over
   * its thermal inertia, then the four accumulators (power generated by
   * innate sources and electronics; heater and pump power; absorbed direct
   * radiation; background radiation), then zeros up to `size`.
   */
  function Derivative(t: real, components: seq<ThermalComponent>, conductivity: seq<seq<ThermalLink>>,
                      pumps: seq<seq<HeatPump>>, environment: EnvironmentalConditions, size: nat): (yp: seq<real>)
    requires WellFormed(components, conductivity, pumps, environment)
    requires size >= |components| + 4
    requires forall k :: 0 <= k < |components| ==> components[k].ThermalInertia() != 0.0
    ensures |yp| == size
  {
    var n := |components|;
    seq(size, k requires 0 <= k < size =>
      if k < n then NetFlux(t, components, conductivity, pumps, environment, k) / components[k].ThermalInertia()
      else if k == n then GenerationSum(t, components, n)
      else if k == n + 1 then HeaterSum(components, n) + MatrixSum(PumpMatrix(components, pumps), n, n)
      else if k == n + 2 then IncidentSum(t, components, environment, n)
      else if k == n + 3 then BackgroundSum(components, environment, n)
      else 0.0)
  }

  /** A vector with the right entries in every slot is the derivative. */
  lemma DerivativeBySlots(t: real, components: seq<ThermalComponent>, conductivity: seq<seq<ThermalLink>>,
                          pumps: seq<seq<HeatPump>>, environment: EnvironmentalConditions, yp: seq<real>)
    requires WellFormed(components, conductivity, pumps, environment)
    requires |yp| >= |components| + 4
    requires forall k :: 0 <= k < |components| ==> components[k].ThermalInertia() != 0.0
    requires forall k :: 0 <= k < |components| ==>
               yp[k] == NetFlux(t, components, conductivity, pumps, environment, k) / components[k].ThermalInertia()
    requires yp[|components|] == GenerationSum(t, components, |components|)
    requires yp[|components| + 1] ==
               HeaterSum(components, |components|) + MatrixSum(PumpMatrix(components, pumps), |components|, |components|)
    requires yp[|components| + 2] == IncidentSum(t, components, environment, |components|)
    requires yp[|components| + 3] == BackgroundSum(components, environment, |components|)
    requires forall k :: |components| + 4 <= k < |yp| ==> yp[k] == 0.0
    ensures yp == Derivative(t, components, conductivity, pumps, environment, |yp|)
  {
  }

  /**
   * The derivative of the state vector `y` at time `t`: the trial
   * temperatures y[..N] are written into the spacecraft, and the derivative
   * is assembled on the updated components.
   */
  method ThermalOde(t: real, y: seq<real>, spacecraft: ThermalArchitecture, environment: EnvironmentalConditions)
    returns (yp: seq<real>)
    requires spacecraft.Valid()
    requires |y| >= |spacecraft.components| + 4
    requires environment.orbitalPeriod > 0.0
    requires forall i :: 0 <= i < |spacecraft.components| ==> spacecraft.components[i].ThermalInertia() != 0.0
    requires LinksEvaluable(WithTemps(spacecraft.components, y), spacecraft.conductivityMatrix)
    modifies spacecraft
    // The trial state replaces every temperature and nothing else.
    ensures spacecraft.components == WithTemps(old(spacecraft.components), y)
    ensures spacecraft.ToState() == y[..|spacecraft.components|]
    ensures forall k :: 0 <= k < |spacecraft.components| ==>
              spacecraft.components[k].ThermalInertia() == old(spacecraft.components)[k].ThermalInertia()
    ensures WellFormed(spacecraft.components, spacecraft.conductivityMatrix, spacecraft.heatPumpMatrix, environment)
    // The derivative of the updated network.
    ensures yp == Derivative(t, spacecraft.components, spacecraft.conductivityMatrix, spacecraft.heatPumpMatrix,
                             environment, |y|)
  {
    var n := |spacecraft.components|;

    // The leading entries of y become the components' temperatures.
    WithTempsPrefix(spacecraft.components, y);
    WriteKeepsInertias(spacecraft.components, y);
    spacecraft.UpdateFromState(y[0..n]);
    assert y[0..n][..n] == y[..n];
    var inertias := spacecraft.ComponentThermalInertias();
    yp := AssembleDerivative(t, spacecraft.components, spacecraft.conductivityMatrix, spacecraft.heatPumpMatrix,
                             environment, inertias, |y|);
  }
}
