/**
 * Energy bookkeeping of the assembled derivative: what the pump and
 * conduction terms contribute to the sum of all net fluxes, how a diagonal
 * pump drops out, and what an inert network produces.
 */
module Conservation {

  import opened Sums
  import opened RealArith
  import opened BaseClasses
  import opened HeatTransfer
  import opened Odes

  /**
   * Summing net fluxes of the form local + row of c - row of p + column of p
   * over the first m components gives the local total, the first m rows of
   * c, minus the first m rows of p, plus the first m columns of p.
   */
  lemma {:induction false} SumOfNetFluxes(net: seq<real>, local: seq<real>, c: seq<seq<real>>, p: seq<seq<real>>,
                                          n: nat, m: nat)
    requires |net| == n && |local| == n && m <= n
    requires Covers(c, n, n) && Covers(p, n, n)
    requires forall k :: 0 <= k < n ==> net[k] == local[k] + SumTo(c[k], n) - SumTo(p[k], n) + ColumnSum(p, k, n)
    ensures SumTo(net, m) == SumTo(local, m) + MatrixSum(c, m, n) - MatrixSum(p, m, n) + ColumnTotals(p, n, m)
  {
    if m > 0 {
      SumOfNetFluxes(net, local, c, p, n, m - 1);
    }
  }

  /**
   * Pumps conserve energy: every watt a pump takes from one component it
   * gives to another, so the total net flux is the total local flux plus
   * the total conduction, whatever the pump matrix.
   */
  lemma PumpsCancel(t: real, components: seq<ThermalComponent>, conductivity: seq<seq<ThermalLink>>,
                    pumps: seq<seq<HeatPump>>, environment: EnvironmentalConditions)
    requires WellFormed(components, conductivity, pumps, environment)
    ensures SumTo(NetFluxes(t, components, conductivity, pumps, environment), |components|)
            == SumTo(LocalFluxes(t, components, environment), |components|)
               + MatrixSum(ConductionMatrix(components, conductivity), |components|, |components|)
  {
    var n := |components|;
    var p := PumpMatrix(components, pumps);
    SumOfNetFluxes(NetFluxes(t, components, conductivity, pumps, environment), LocalFluxes(t, components, environment),
                   ConductionMatrix(components, conductivity), p, n, n);
    SumExchange(p, n, n);
  }

  /** Every link is a constant-conductance link, and link (i, j) is link (j, i). */
  ghost predicate SymmetricConstantLinks(conductivity: seq<seq<ThermalLink>>, n: nat)
    requires IsSquare(conductivity, n)
  {
    forall i, j :: 0 <= i < n && 0 <= j < n ==>
      conductivity[i][j].Link? && conductivity[i][j] == conductivity[j][i]
  }

  /**
   * Through symmetric constant links, whatever conduction brings into one
   * component it takes out of another: the conduction terms sum to zero.
   */
  lemma ConductionCancels(components: seq<ThermalComponent>, conductivity: seq<seq<ThermalLink>>)
    requires IsSquare(conductivity, |components|) && LinksEvaluable(components, conductivity)
    requires SymmetricConstantLinks(conductivity, |components|)
    ensures MatrixSum(ConductionMatrix(components, conductivity), |components|, |components|) == 0.0
  {
    var n := |components|;
    var c := ConductionMatrix(components, conductivity);
    forall i, j | 0 <= i < n && 0 <= j < n
      ensures c[i][j] == -c[j][i]
    {
      ConductionAntisymmetric(components[j], components[i], conductivity[i][j]);
    }
    AntisymmetricSumsToZero(c, n);
  }

  /** The local fluxes of the first m components sum to the four accumulated totals. */
  lemma {:induction false} LocalSumByAccumulators(t: real, components: seq<ThermalComponent>,
                                                  environment: EnvironmentalConditions, m: nat)
    requires m <= |components| && environment.orbitalPeriod > 0.0
    ensures SumTo(LocalFluxes(t, components, environment), m)
            == GenerationSum(t, components, m) + HeaterSum(components, m)
               + IncidentSum(t, components, environment, m) + BackgroundSum(components, environment, m)
  {
    if m > 0 {
      LocalSumByAccumulators(t, components, environment, m - 1);
    }
  }

  /** The stored power of the first m components: thermal inertia times temperature derivative. */
  function StoredPower(yp: seq<real>, components: seq<ThermalComponent>, m: nat): real
    requires m <= |components| && m <= |yp|
  {
    if m == 0 then 0.0 else StoredPower(yp, components, m - 1) + components[m - 1].ThermalInertia() * yp[m - 1]
  }

  /** Multiplying each quotient back by its inertia recovers the dividends. */
  lemma {:induction false} StoredPowerOfQuotients(yp: seq<real>, components: seq<ThermalComponent>,
                                                  fluxes: seq<real>, m: nat)
    requires m <= |components| && m <= |yp| && m <= |fluxes|
    requires forall k :: 0 <= k < m ==>
               components[k].ThermalInertia() != 0.0 && yp[k] == fluxes[k] / components[k].ThermalInertia()
    ensures StoredPower(yp, components, m) == SumTo(fluxes, m)
  {
    if m > 0 {
      StoredPowerOfQuotients(yp, components, fluxes, m - 1);
      var inertia := components[m - 1].ThermalInertia();
      assert inertia * (fluxes[m - 1] / inertia) == fluxes[m - 1];
    }
  }

  /** Multiplying each temperature derivative back by its inertia recovers the net fluxes. */
  lemma StoredPowerIsTotalFlux(t: real, components: seq<ThermalComponent>,
                               conductivity: seq<seq<ThermalLink>>, pumps: seq<seq<HeatPump>>,
                               environment: EnvironmentalConditions, size: nat)
    requires WellFormed(components, conductivity, pumps, environment)
    requires size >= |components| + 4
    requires forall k :: 0 <= k < |components| ==> components[k].ThermalInertia() != 0.0
    ensures StoredPower(Derivative(t, components, conductivity, pumps, environment, size), components, |components|)
            == SumTo(NetFluxes(t, components, conductivity, pumps, environment), |components|)
  {
    StoredPowerOfQuotients(Derivative(t, components, conductivity, pumps, environment, size), components,
                           NetFluxes(t, components, conductivity, pumps, environment), |components|);
  }

  /**
   * The energy balance of one derivative: the power stored in all components
   * equals the recorded generation, heater and radiation totals plus the
   * conduction total. Slot N + 1 also records every pump's power, which
   * moves heat without adding any, so it is taken back out.
   */
  lemma EnergyBalance(t: real, components: seq<ThermalComponent>, conductivity: seq<seq<ThermalLink>>,
                      pumps: seq<seq<HeatPump>>, environment: EnvironmentalConditions, size: nat)
    requires WellFormed(components, conductivity, pumps, environment)
    requires size >= |components| + 4
    requires forall k :: 0 <= k < |components| ==> components[k].ThermalInertia() != 0.0
    ensures var n := |components|;
            var yp := Derivative(t, components, conductivity, pumps, environment, size);
            StoredPower(yp, components, n)
            == yp[n] + (yp[n + 1] - MatrixSum(PumpMatrix(components, pumps), n, n)) + yp[n + 2] + yp[n + 3]
               + MatrixSum(ConductionMatrix(components, conductivity), n, n)
  {
    var n := |components|;
    StoredPowerIsTotalFlux(t, components, conductivity, pumps, environment, size);
    PumpsCancel(t, components, conductivity, pumps, environment);
    LocalSumByAccumulators(t, components, environment, n);
  }

  /**
   * With symmetric constant links, the stored power is exactly the recorded
   * generation, heater and radiation totals.
   */
  lemma ClosedBalance(t: real, components: seq<ThermalComponent>, conductivity: seq<seq<ThermalLink>>,
                      pumps: seq<seq<HeatPump>>, environment: EnvironmentalConditions, size: nat)
    requires WellFormed(components, conductivity, pumps, environment)
    requires SymmetricConstantLinks(conductivity, |components|)
    requires size >= |components| + 4
    requires forall k :: 0 <= k < |components| ==> components[k].ThermalInertia() != 0.0
    ensures var n := |components|;
            var yp := Derivative(t, components, conductivity, pumps, environment, size);
            StoredPower(yp, components, n)
            == yp[n] + (yp[n + 1] - MatrixSum(PumpMatrix(components, pumps), n, n)) + yp[n + 2] + yp[n + 3]
  {
    EnergyBalance(t, components, conductivity, pumps, environment, size);
    ConductionCancels(components, conductivity);
  }

  /**
   * A pump from a component to itself takes out exactly what it puts back:
   * replacing it by any other pump leaves every net flux unchanged.
   */
  lemma DiagonalPumpNeutral(t: real, components: seq<ThermalComponent>, conductivity: seq<seq<ThermalLink>>,
                            pumps: seq<seq<HeatPump>>, environment: EnvironmentalConditions,
                            i: nat, pump: HeatPump, k: nat)
    requires WellFormed(components, conductivity, pumps, environment)
    requires i < |components| && k < |components|
    ensures WellFormed(components, conductivity, pumps[i := pumps[i][i := pump]], environment)
    ensures NetFlux(t, components, conductivity, pumps[i := pumps[i][i := pump]], environment, k)
            == NetFlux(t, components, conductivity, pumps, environment, k)
  {
    var n := |components|;
    var pumps' := pumps[i := pumps[i][i := pump]];
    var p, p' := PumpMatrix(components, pumps), PumpMatrix(components, pumps');
    assert forall r, col :: 0 <= r < n && 0 <= col < n && !(r == i && col == i) ==> p'[r][col] == p[r][col];
    SumToUpdate(p[k], p'[k], i, n);
    ColumnSumUpdate(p, p', i, k, n);
  }

  /**
   * An inert network: no component generates, no heater delivers power
   * (off, or switched on at zero power), no component radiates, every link
   * has zero conductance and every pump moves zero power at the current
   * temperature of its row's component.
   */
  ghost predicate InertNetwork(t: real, components: seq<ThermalComponent>, conductivity: seq<seq<ThermalLink>>,
                        pumps: seq<seq<HeatPump>>)
    requires IsSquare(conductivity, |components|) && IsSquare(pumps, |components|)
  {
    (forall k :: 0 <= k < |components| ==>
       components[k].innatePower == 0.0 && components[k].electronicsPower(t) == 0.0 &&
       HeaterPower(components[k]) == 0.0 &&
       (components[k].radArea == 0.0 || components[k].emissivity == 0.0)) &&
    (forall i, j :: 0 <= i < |components| && 0 <= j < |components| ==>
       conductivity[i][j].conductance == 0.0 &&
       GetPower(pumps[i][j], components[i].temp) == 0.0)
  }

  /** The inert components' local terms and accumulators are all zero. */
  lemma {:induction false} InertSums(t: real, components: seq<ThermalComponent>, environment: EnvironmentalConditions,
                                     m: nat)
    requires m <= |components| && environment.orbitalPeriod > 0.0
    requires forall k :: 0 <= k < |components| ==>
               components[k].innatePower == 0.0 && components[k].electronicsPower(t) == 0.0 &&
               HeaterPower(components[k]) == 0.0 &&
               (components[k].radArea == 0.0 || components[k].emissivity == 0.0)
    ensures GenerationSum(t, components, m) == 0.0 && HeaterSum(components, m) == 0.0
    ensures IncidentSum(t, components, environment, m) == 0.0 && BackgroundSum(components, environment, m) == 0.0
  {
    if m > 0 {
      InertSums(t, components, environment, m - 1);
    }
  }

  /** Every row and column of a zero matrix sums to zero, and so does the whole block. */
  lemma {:induction false} ZeroMatrixSums(m: seq<seq<real>>, n: nat, rows: nat)
    requires IsSquare(m, n) && rows <= n
    requires forall i, j :: 0 <= i < n && 0 <= j < n ==> m[i][j] == 0.0
    ensures Covers(m, rows, n) && MatrixSum(m, rows, n) == 0.0
    ensures forall k :: 0 <= k < n ==> SumTo(m[k], n) == 0.0 && ColumnSum(m, k, rows) == 0.0
  {
    forall k | 0 <= k < n
      ensures SumTo(m[k], n) == 0.0 && ColumnSum(m, k, rows) == 0.0
    {
      SumToZero(m[k], n);
      ColumnSumZero(m, k, rows);
    }
    if rows > 0 {
      ZeroMatrixSums(m, n, rows - 1);
    }
  }

  /** In an inert network no link conducts and no pump moves heat. */
  lemma InertCouplingsZero(t: real, components: seq<ThermalComponent>, conductivity: seq<seq<ThermalLink>>,
                           pumps: seq<seq<HeatPump>>, environment: EnvironmentalConditions)
    requires WellFormed(components, conductivity, pumps, environment)
    requires InertNetwork(t, components, conductivity, pumps)
    ensures forall i, j :: 0 <= i < |components| && 0 <= j < |components| ==>
              ConductionMatrix(components, conductivity)[i][j] == 0.0 && PumpMatrix(components, pumps)[i][j] == 0.0
  {
    var n := |components|;
    var c, p := ConductionMatrix(components, conductivity), PumpMatrix(components, pumps);
    forall i, j | 0 <= i < n && 0 <= j < n
      ensures c[i][j] == 0.0 && p[i][j] == 0.0
    {
      assert c[i][j] == ConductionFlux(components[j], components[i], conductivity[i][j]);
      assert p[i][j] == GetPower(pumps[i][j], components[i].temp);
    }
  }

  /** In an inert network every component's net flux is zero. */
  lemma InertFluxesZero(t: real, components: seq<ThermalComponent>, conductivity: seq<seq<ThermalLink>>,
                        pumps: seq<seq<HeatPump>>, environment: EnvironmentalConditions)
    requires WellFormed(components, conductivity, pumps, environment)
    requires InertNetwork(t, components, conductivity, pumps)
    ensures forall k :: 0 <= k < |components| ==> NetFlux(t, components, conductivity, pumps, environment, k) == 0.0
  {
    var n := |components|;
    InertCouplingsZero(t, components, conductivity, pumps, environment);
    ZeroMatrixSums(ConductionMatrix(components, conductivity), n, n);
    ZeroMatrixSums(PumpMatrix(components, pumps), n, n);
    forall k | 0 <= k < n
      ensures LocalFlux(t, components[k], environment) == 0.0
    {
    }
  }

  /**
   * An inert network does not change: every temperature derivative and
   * every accumulator slot is zero.
   */
  lemma InertNetworkIsStill(t: real, components: seq<ThermalComponent>, conductivity: seq<seq<ThermalLink>>,
                            pumps: seq<seq<HeatPump>>, environment: EnvironmentalConditions, size: nat)
    requires WellFormed(components, conductivity, pumps, environment)
    requires InertNetwork(t, components, conductivity, pumps)
    requires size >= |components| + 4
    requires forall k :: 0 <= k < |components| ==> components[k].ThermalInertia() != 0.0
    ensures forall k :: 0 <= k < size ==> Derivative(t, components, conductivity, pumps, environment, size)[k] == 0.0
  {
    var n := |components|;
    InertSums(t, components, environment, n);
    InertCouplingsZero(t, components, conductivity, pumps, environment);
    ZeroMatrixSums(PumpMatrix(components, pumps), n, n);
    InertFluxesZero(t, components, conductivity, pumps, environment);
    forall k | 0 <= k < n
      ensures NetFlux(t, components, conductivity, pumps, environment, k) / components[k].ThermalInertia() == 0.0
    {
      var inertia := components[k].ThermalInertia();
      assert 0.0 / inertia == 0.0;
    }
    var zeros := seq(size, k => 0.0);
    DerivativeBySlots(t, components, conductivity, pumps, environment, zeros);
  }
}
