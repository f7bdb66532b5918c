/**
 * The entity model of the lumped-node thermal network: conductive links
 * (constant or switchable), heat pumps (inert or refrigerator), heaters,
 * components, the environment's periodic forcing, and the architecture that
 * owns the components and the two N x N coupling matrices.
 */
module BaseClasses {

  import opened RealArith

  /**
   * A conductive coupling. `Link` is a plain `ThermalLink` with constant
   * conductance (W/K); `Switch` is a `ThermalSwitch` that throttles its
   * conductance by `attenuationFactor` when its holder would overheat or
   * overcool.
   */
  datatype ThermalLink =
    | Link(conductance: real)
    | Switch(conductance: real, coolLimit: real, heatLimit: real, attenuationFactor: real)

  /**
   * The switch regime in which the holder (at `selfTemp`) throttles the link:
   * the other side is hotter and the holder is already above its heat limit,
   * or the other side is colder and the holder is already below its cool limit.
   */
  predicate Throttles(link: ThermalLink, selfTemp: real, otherTemp: real)
  {
    link.Switch? &&
    ((otherTemp > selfTemp && selfTemp > link.heatLimit) ||
     (otherTemp < selfTemp && selfTemp < link.coolLimit))
  }

  /** Conductance of `link` seen from the holder at `selfTemp` facing `otherTemp`. */
  function GetConductance(link: ThermalLink, selfTemp: real, otherTemp: real): (g: real)
    requires Throttles(link, selfTemp, otherTemp) ==> link.attenuationFactor != 0.0
    // A plain link ignores both temperatures.
    ensures link.Link? ==> g == link.conductance
    // Too hot and facing a hotter body: throttled.
    ensures link.Switch? && otherTemp > selfTemp && selfTemp > link.heatLimit ==>
              g == link.conductance / link.attenuationFactor
    // Too cold and facing a colder body: throttled.
    ensures link.Switch? && otherTemp < selfTemp && selfTemp < link.coolLimit ==>
              g == link.conductance / link.attenuationFactor
    // Anything else, in particular equal temperatures, gets the full conductance.
    ensures !Throttles(link, selfTemp, otherTemp) ==> g == link.conductance
    ensures selfTemp == otherTemp ==> g == link.conductance
    // Throttling by a factor of at least one never raises a non-negative conductance.
    ensures link.conductance >= 0.0 && (link.Switch? ==> link.attenuationFactor >= 1.0) ==>
              0.0 <= g <= link.conductance
    // A conducting link stays conducting when throttled by a positive factor.
    ensures link.conductance > 0.0 && (link.Switch? ==> link.attenuationFactor > 0.0) ==> g > 0.0
  {
    match link
    case Link(c) => c
    case Switch(c, coolLimit, heatLimit, factor) =>
      if otherTemp > selfTemp && selfTemp > heatLimit then
        Attenuated(c, factor)
      else if otherTemp < selfTemp && selfTemp < coolLimit then
        Attenuated(c, factor)
      else
        c
  }

  /** Conductance `c` divided by attenuation factor `f`. */
  function Attenuated(c: real, f: real): (g: real)
    requires f != 0.0
    ensures c > 0.0 && f > 0.0 ==> g > 0.0
    ensures c >= 0.0 && f >= 1.0 ==> 0.0 <= g <= c
    ensures f * g == c
  {
    var g := c / f;
    assert f * g == c;
    if f > 0.0 then
      QuotientRange(c, f, g);
      g
    else
      g
  }

  /** The worked example: conductance 10, heat limit 300 K, factor 5, self 310 K, other 320 K. */
  lemma SwitchExample()
    ensures GetConductance(Switch(10.0, 0.0, 300.0, 5.0), 310.0, 320.0) == 2.0
  {
  }

  /**
   * An active heat mover. `Inert` is the base `HeatPump`, a placeholder that
   * moves nothing; `Refrigerator` moves `electricalPower * cop` watts while
   * its reference temperature is above `setTemp`.
   */
  datatype HeatPump =
    | Inert(electricalPower: real, cop: real, setTemp: real)
    | Refrigerator(electricalPower: real, cop: real, setTemp: real)

  /** Thermal power (W) moved by `pump` when its reference body is at `selfTemp`. */
  function GetPower(pump: HeatPump, selfTemp: real): (p: real)
    // The base pump is inert at every temperature.
    ensures pump.Inert? ==> p == 0.0
    // At or below the set point nothing is moved (the guard is strict).
    ensures selfTemp <= pump.setTemp ==> p == 0.0
    // A refrigerator above its set point moves electrical power times COP.
    ensures pump.Refrigerator? && selfTemp > pump.setTemp ==> p == pump.electricalPower * pump.cop
    // Power is moved only by a refrigerator above its set point.
    ensures p != 0.0 ==> pump.Refrigerator? && selfTemp > pump.setTemp
    // Non-negative ratings never move heat backwards.
    ensures pump.electricalPower >= 0.0 && pump.cop >= 0.0 ==> p >= 0.0
  {
    match pump
    case Inert(_, _, _) => 0.0
    case Refrigerator(power, cop, setTemp) =>
      if selfTemp > setTemp then power * cop else 0.0
  }

  /** The worked example: 50 W, COP 1, set point 160 K, at 165 K and at 155 K. */
  lemma RefrigeratorExample()
    ensures GetPower(Refrigerator(50.0, 1.0, 160.0), 165.0) == 50.0
    ensures GetPower(Refrigerator(50.0, 1.0, 160.0), 155.0) == 0.0
  {
  }

  /** An electric heater: `power` watts while its owner is below `setTemp`. */
  datatype Heater = Heater(power: real, setTemp: real)

  /**
   * A lumped thermal mass. Every field is fixed configuration except `temp`,
   * which the derivative assembler overwrites. `electronicsPower` is the
   * component's power draw from electronics as a function of time (zero for a
   * component that does not replace it).
   */
  datatype ThermalComponent = ThermalComponent(
    mass: real,
    shc: real,
    radArea: real,
    emissivity: real,
    temp: real,
    illuminationFactor: real,
    innatePower: real,
    heater: Heater,
    electronicsPower: real -> real)
  {
    /** Mass times specific heat capacity: the divisor from net power to dT/dt. */
    function ThermalInertia(): (inertia: real)
      ensures mass > 0.0 && shc > 0.0 ==> inertia > 0.0
      ensures mass == 0.0 || shc == 0.0 ==> inertia == 0.0
    {
      mass * shc
    }
  }

  /** The component list's temperatures, in list order. */
  function Temps(components: seq<ThermalComponent>): (temps: seq<real>)
    ensures |temps| == |components|
    ensures forall i :: 0 <= i < |components| ==> temps[i] == components[i].temp
  {
    seq(|components|, i requires 0 <= i < |components| => components[i].temp)
  }

  /** Only the first |components| entries of the temperatures are written. */
  lemma WithTempsPrefix(components: seq<ThermalComponent>, temps: seq<real>)
    requires |temps| >= |components|
    ensures WithTemps(components, temps[..|components|]) == WithTemps(components, temps)
  {
  }

  /** The component list with the first |components| entries of `temps` written as temperatures. */
  function WithTemps(components: seq<ThermalComponent>, temps: seq<real>): (updated: seq<ThermalComponent>)
    requires |temps| >= |components|
    ensures |updated| == |components|
    ensures forall i :: 0 <= i < |components| ==> updated[i] == components[i].(temp := temps[i])
  {
    seq(|components|, i requires 0 <= i < |components| => components[i].(temp := temps[i]))
  }

  /** The two lists agree on everything except possibly temperatures. */
  ghost predicate SameConfiguration(a: seq<ThermalComponent>, b: seq<ThermalComponent>)
  {
    |a| == |b| &&
    forall i :: 0 <= i < |a| ==> a[i].(temp := 0.0) == b[i].(temp := 0.0)
  }

  /** Writing a state vector and reading it back yields its first N entries. */
  lemma WriteThenRead(components: seq<ThermalComponent>, temps: seq<real>)
    requires |temps| >= |components|
    ensures Temps(WithTemps(components, temps)) == temps[..|components|]
  {
  }

  /** Writing back the temperatures just read changes nothing. */
  lemma ReadThenWrite(components: seq<ThermalComponent>)
    ensures WithTemps(components, Temps(components)) == components
  {
  }

  /** Writing a state vector touches only temperatures. */
  lemma WriteKeepsConfiguration(components: seq<ThermalComponent>, temps: seq<real>)
    requires |temps| >= |components|
    ensures SameConfiguration(components, WithTemps(components, temps))
  {
  }

  /** Writing a state vector leaves every thermal inertia as it was. */
  lemma WriteKeepsInertias(components: seq<ThermalComponent>, temps: seq<real>)
    requires |temps| >= |components|
    ensures forall k :: 0 <= k < |components| ==>
              WithTemps(components, temps)[k].ThermalInertia() == components[k].ThermalInertia()
  {
  }

  /**
   * After a state vector is written, the components depend only on that vector
   * and on the configuration, not on the temperatures they held before.
   */
  lemma WriteForgetsOldTemps(a: seq<ThermalComponent>, b: seq<ThermalComponent>, temps: seq<real>)
    requires SameConfiguration(a, b)
    requires |temps| >= |a|
    ensures WithTemps(a, temps) == WithTemps(b, temps)
  {
    forall i | 0 <= i < |a|
      ensures WithTemps(a, temps)[i] == WithTemps(b, temps)[i]
    {
      assert a[i].(temp := 0.0) == b[i].(temp := 0.0);
    }
  }

  /** Both matrices of an architecture are N x N. */
  ghost predicate IsSquare<T>(m: seq<seq<T>>, n: nat)
  {
    |m| == n && forall i :: 0 <= i < n ==> |m[i]| == n
  }

  /**
   * The spacecraft: its components (index = component identifier), the
   * conductivity matrix (entry i, j is the link used for conduction into i
   * from j) and the heat-pump matrix (entry i, j moves heat from i to j).
   * Only the components' temperatures ever change.
   */
  class ThermalArchitecture {
    var components: seq<ThermalComponent>
    const conductivityMatrix: seq<seq<ThermalLink>>
    const heatPumpMatrix: seq<seq<HeatPump>>

    /** Both coupling matrices are N x N for the N components. */
    ghost predicate Valid()
      reads this
    {
      IsSquare(conductivityMatrix, |components|) && IsSquare(heatPumpMatrix, |components|)
    }

    constructor (components: seq<ThermalComponent>,
                 conductivityMatrix: seq<seq<ThermalLink>>,
                 heatPumpMatrix: seq<seq<HeatPump>>)
      ensures this.components == components
      ensures this.conductivityMatrix == conductivityMatrix
      ensures this.heatPumpMatrix == heatPumpMatrix
      ensures IsSquare(conductivityMatrix, |components|) && IsSquare(heatPumpMatrix, |components|) ==> Valid()
    {
      this.components := components;
      this.conductivityMatrix := conductivityMatrix;
      this.heatPumpMatrix := heatPumpMatrix;
    }

    /** The state vector: the component temperatures in list order. */
    function ToState(): (state: seq<real>)
      reads this
      ensures |state| == |components|
      ensures forall i :: 0 <= i < |components| ==> state[i] == components[i].temp
    {
      Temps(components)
    }

    /** Overwrites each component's temperature with the matching state entry. */
    method UpdateFromState(temps: seq<real>)
      requires |temps| >= |components|
      modifies this
      ensures components == WithTemps(old(components), temps)
      ensures ToState() == temps[..|components|]
      ensures old(Valid()) ==> Valid()
    {
      var idx := 0;
      while idx < |components|
        invariant 0 <= idx <= |components| == |old(components)|
        invariant forall k :: 0 <= k < idx ==> components[k] == old(components)[k].(temp := temps[k])
        invariant forall k :: idx <= k < |components| ==> components[k] == old(components)[k]
      {
        components := components[idx := components[idx].(temp := temps[idx])];
        idx := idx + 1;
      }
    }

    /** Each component's thermal inertia, in list order. */
    function ComponentThermalInertias(): (inertias: seq<real>)
      reads this
      ensures |inertias| == |components|
      ensures forall i :: 0 <= i < |components| ==> inertias[i] == components[i].ThermalInertia()
      ensures (forall i :: 0 <= i < |components| ==> components[i].mass > 0.0 && components[i].shc > 0.0) ==>
                forall i :: 0 <= i < |components| ==> inertias[i] > 0.0
    {
      var cs := components;
      seq(|cs|, i requires 0 <= i < |cs| => cs[i].ThermalInertia())
    }
  }

  /**
   * The orbital environment: a sunlit flux (W/m^2) during the first
   * `sunlitPeriod` seconds of every `orbitalPeriod`, zero during eclipse,
   * and a fixed background temperature (K).
   */
  datatype EnvironmentalConditions = EnvironmentalConditions(
    name: string,
    sunlitRadiativeFlux: real,
    backgroundTemp: real,
    orbitalPeriod: real,
    sunlitPeriod: real)
  {
    /** Time since the start of the current orbit: t modulo the period, floored as in Python. */
    function OrbitPhase(t: real): (phase: real)
      requires orbitalPeriod > 0.0
      ensures 0.0 <= phase < orbitalPeriod
      ensures 0.0 <= t < orbitalPeriod ==> phase == t
    {
      var x := t / orbitalPeriod;
      var q := x.Floor as real;
      assert orbitalPeriod * x == t;
      ScaledLower(t, orbitalPeriod, x, q);
      ScaledUpper(t, orbitalPeriod, x, q);
      QuotientRange(t, orbitalPeriod, x);
      t - orbitalPeriod * q
    }

    /** The external flux (W/m^2) at time t: a periodic sunlit/eclipse step. */
    function IncidentRadiativeFlux(t: real): (flux: real)
      requires orbitalPeriod > 0.0
      ensures flux == sunlitRadiativeFlux || flux == 0.0
      ensures 0.0 <= t < orbitalPeriod && t < sunlitPeriod ==> flux == sunlitRadiativeFlux
      ensures 0.0 <= t < orbitalPeriod && t >= sunlitPeriod ==> flux == 0.0
    {
      if OrbitPhase(t) < sunlitPeriod then sunlitRadiativeFlux else 0.0
    }
  }

  /** Bounds on a quotient x = t / p, stated through p * x == t. */
  lemma QuotientRange(t: real, p: real, x: real)
    requires p > 0.0 && p * x == t
    ensures 0.0 <= t ==> 0.0 <= x
    ensures t < p ==> x < 1.0
  {
    assert p * (1.0 - x) == p - t;
  }

  /** A quotient x = t / p below q + 1 puts t below q * p + p. */
  lemma ScaledUpper(t: real, p: real, x: real, q: real)
    requires p > 0.0 && p * x == t
    requires x < q + 1.0
    ensures t < p * q + p
  {
    var d := q + 1.0 - x;
    MulPos(p, d);
    assert p * d == p * q + p - p * x;
    assert p * q + p - t > 0.0;
  }

  /** A quotient x = t / p at or above q puts t at or above q * p. */
  lemma ScaledLower(t: real, p: real, x: real, q: real)
    requires p > 0.0 && p * x == t
    requires q <= x
    ensures p * q <= t
  {
    var d := x - q;
    MulNonneg(p, d);
    assert p * d == p * x - p * q;
    assert t - p * q >= 0.0;
  }

  /** Shifting t by k periods shifts the floored quotient by k. */
  lemma FloorShift(t: real, p: real, k: int)
    requires p > 0.0
    ensures ((t + (k as real) * p) / p).Floor == (t / p).Floor + k
  {
    var x := t / p;
    assert p * x == t;
    var y := x + (k as real);
    assert p * y == t + (k as real) * p;
    assert (t + (k as real) * p) / p == y;
  }

  /** The orbit phase repeats after any whole number of orbits. */
  lemma PhasePeriodic(env: EnvironmentalConditions, t: real, k: int)
    requires env.orbitalPeriod > 0.0
    ensures env.OrbitPhase(t + (k as real) * env.orbitalPeriod) == env.OrbitPhase(t)
  {
    FloorShift(t, env.orbitalPeriod, k);
  }

  /** The environment's flux is periodic in the orbital period. */
  lemma IncidentFluxPeriodic(env: EnvironmentalConditions, t: real, k: int)
    requires env.orbitalPeriod > 0.0
    ensures env.IncidentRadiativeFlux(t + (k as real) * env.orbitalPeriod) == env.IncidentRadiativeFlux(t)
  {
    PhasePeriodic(env, t, k);
  }
}
