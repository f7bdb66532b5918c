/**
 * The three flux primitives. Each returns a signed power in watts, positive
 * when heat flows into the component named as the receiver.
 */
module HeatTransfer {

  import opened RealArith
  import opened BaseClasses

  /** The Stefan-Boltzmann constant, W/(m^2 K^4) (CODATA 2018 value to ten significant digits). */
  const StefanBoltzmann: real := 0.00000005670374419

  /** x to the fourth power. */
  function Fourth(x: real): real
  {
    (x * x) * (x * x)
  }

  /** The fourth power is strictly increasing on the non-negative reals. */
  lemma FourthIncreasing(a: real, b: real)
    requires 0.0 <= a < b
    ensures Fourth(a) < Fourth(b)
  {
    SquareIncreasing(a, b);
    MulNonneg(a, a);
    SquareIncreasing(a * a, b * b);
  }

  /**
   * Direct radiation absorbed by `component` at time t: the environment's
   * flux times radiative area, illuminated fraction and emissivity.
   */
  function IncidentRadiationFlux(t: real, component: ThermalComponent, environment: EnvironmentalConditions): (flux: real)
    requires environment.orbitalPeriod > 0.0
    // Nothing is absorbed in eclipse, by an unlit component, or by a non-radiating one.
    ensures environment.IncidentRadiativeFlux(t) == 0.0 ==> flux == 0.0
    ensures component.illuminationFactor == 0.0 ==> flux == 0.0
    ensures component.radArea == 0.0 || component.emissivity == 0.0 ==> flux == 0.0
  {
    environment.IncidentRadiativeFlux(t)
      * component.radArea
      * component.illuminationFactor
      * component.emissivity
  }

  /** Absorbed direct radiation repeats every orbital period. */
  lemma IncidentRadiationPeriodic(t: real, k: int, component: ThermalComponent, environment: EnvironmentalConditions)
    requires environment.orbitalPeriod > 0.0
    ensures IncidentRadiationFlux(t + (k as real) * environment.orbitalPeriod, component, environment)
            == IncidentRadiationFlux(t, component, environment)
  {
    IncidentFluxPeriodic(environment, t, k);
  }

  /** The area that exchanges radiation with the background: the unlit part of the radiative area. */
  function BackgroundRadiatingArea(component: ThermalComponent): real
  {
    component.radArea * (1.0 - component.illuminationFactor)
  }

  /**
   * Net radiation exchanged with the background (Stefan-Boltzmann law),
   * through the unlit part of the radiative area only.
   */
  function BackgroundRadiationFlux(component: ThermalComponent, environment: EnvironmentalConditions): (flux: real)
    // No exchange at the background temperature.
    ensures component.temp == environment.backgroundTemp ==> flux == 0.0
    // A fully lit component has no area facing the background.
    ensures component.illuminationFactor == 1.0 ==> flux == 0.0
    ensures component.radArea == 0.0 || component.emissivity == 0.0 ==> flux == 0.0
  {
    StefanBoltzmann
      * (Fourth(environment.backgroundTemp) - Fourth(component.temp))
      * BackgroundRadiatingArea(component)
      * component.emissivity
  }

  /**
   * Above the background temperature a radiating component loses heat; below
   * it, it gains heat.
   */
  lemma BackgroundRadiationSign(component: ThermalComponent, environment: EnvironmentalConditions)
    requires 0.0 <= environment.backgroundTemp && 0.0 <= component.temp
    requires BackgroundRadiatingArea(component) * component.emissivity > 0.0
    ensures component.temp > environment.backgroundTemp ==>
              BackgroundRadiationFlux(component, environment) < 0.0
    ensures component.temp < environment.backgroundTemp ==>
              BackgroundRadiationFlux(component, environment) > 0.0
  {
    var tb, tc := environment.backgroundTemp, component.temp;
    var a, e := BackgroundRadiatingArea(component), component.emissivity;
    var d := Fourth(tb) - Fourth(tc);
    assert BackgroundRadiationFlux(component, environment) == (StefanBoltzmann * d) * (a * e);
    if tc > tb {
      FourthIncreasing(tb, tc);
      MulPosNeg(StefanBoltzmann, d);
      MulPosNeg(a * e, StefanBoltzmann * d);
    } else if tc < tb {
      FourthIncreasing(tc, tb);
      MulPos(StefanBoltzmann, d);
      MulPos(StefanBoltzmann * d, a * e);
    }
  }

  /**
   * Conductive flux from `component1` into `component2` through `link`. The
   * link's conductance is evaluated with `component2` as its holder ("self")
   * and `component1` as the other side.
   */
  function ConductionFlux(component1: ThermalComponent, component2: ThermalComponent, link: ThermalLink): (flux: real)
    requires Throttles(link, component2.temp, component1.temp) ==> link.attenuationFactor != 0.0
    // No flow between equal temperatures or through a zero-conductance link.
    ensures component1.temp == component2.temp ==> flux == 0.0
    ensures link.conductance == 0.0 ==> flux == 0.0
  {
    GetConductance(link, component2.temp, component1.temp) * (component1.temp - component2.temp)
  }

  /** Heat flows from hot to cold through a link that conducts. */
  lemma ConductionDirection(component1: ThermalComponent, component2: ThermalComponent, link: ThermalLink)
    requires link.conductance > 0.0 && (link.Switch? ==> link.attenuationFactor > 0.0)
    ensures component1.temp > component2.temp ==> ConductionFlux(component1, component2, link) > 0.0
    ensures component1.temp < component2.temp ==> ConductionFlux(component1, component2, link) < 0.0
  {
    var g := GetConductance(link, component2.temp, component1.temp);
    var d := component1.temp - component2.temp;
    assert ConductionFlux(component1, component2, link) == g * d;
    if d > 0.0 {
      MulPos(g, d);
    } else if d < 0.0 {
      MulPosNeg(g, d);
    }
  }

  /**
   * Through one constant-conductance link, the flux from a to b is the
   * negated flux from b to a.
   */
  lemma ConductionAntisymmetric(a: ThermalComponent, b: ThermalComponent, link: ThermalLink)
    requires link.Link?
    ensures ConductionFlux(a, b, link) == -ConductionFlux(b, a, link)
  {
  }

  /**
   * Through a switch the two directions differ, because the holder is always
   * the receiving side: a 320 K source and a 310 K holder with heat limit
   * 300 K see the throttled conductance 2, while the reverse call sees the
   * full conductance 10.
   */
  lemma SwitchConductionAsymmetric(a: ThermalComponent, b: ThermalComponent)
    requires a.temp == 320.0 && b.temp == 310.0
    ensures ConductionFlux(a, b, Switch(10.0, 0.0, 300.0, 5.0)) == 20.0
    ensures ConductionFlux(b, a, Switch(10.0, 0.0, 300.0, 5.0)) == -100.0
  {
  }
}
