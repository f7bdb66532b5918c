# Spacecraft thermal network: the ODE right-hand side

A verified Dafny model of the core of a lumped-node spacecraft thermal
simulator. The spacecraft is a list of thermal components (mass, specific
heat, radiative area, emissivity, temperature, illumination fraction,
intrinsic power, a heater and an electronics power schedule). Two N x N
matrices couple them: a conductivity matrix of links, each a constant
`ThermalLink` or a throttling `ThermalSwitch`, and a heat-pump matrix
whose entries are an inert `HeatPump` or a thresholded `Refrigerator`. An
orbit alternates a sunlit phase and an eclipse.

`thermal_ode(t, y, spacecraft, environment)` takes the state vector `y`. It
holds the N component temperatures followed by four energy accumulators.
The function writes the trial temperatures into the spacecraft and then
walks the components in order. Each component adds to its own entry of a
flux array:

- its innate power, its heater output and its electronics power;
- its incident and background radiation;
- the conduction from every component.

Each pump entry (i, j) then takes heat from i and gives it to j. Finally
each flux is divided by the component's thermal inertia. Along the way,
four slots of the result record the generation, heater plus pump, incident
and background power totals.

The model has six modules:

| file | module | contents |
|---|---|---|
| `base_classes.dfy` | `BaseClasses` | links, pumps, heaters and components as datatypes; the architecture as a class whose `components` field is reassigned when the state is written; the periodic environment |
| `heat_transfer.dfy` | `HeatTransfer` | the three flux primitives, with their zero, sign and symmetry facts |
| `odes.dfy` | `Odes` | the derivative assembler, imperative over arrays, in the source's order; its specification function `Derivative`, which gives every slot of the result in closed form |
| `conservation.dfy` | `Conservation` | energy bookkeeping of the derivative: pumps cancel, symmetric constant links cancel, the energy balance, a neutral diagonal pump, an inert network |
| `sums.dfy` | `Sums` | prefix sums of vectors, row and column sums of matrices, and the exchange of summation order |
| `real_arith.dfy` | `RealArith` | sign facts about products of reals |

`Odes.ThermalOde` mirrors `thermal_ode`:

1. It writes the state with `UpdateFromState`.
2. It reads the inertias with `ComponentThermalInertias`.
3. It runs the assembly loop on two zeroed arrays, `fluxes` (size N) and
   `yp` (here `out`, as long as `y`).
4. It divides the fluxes by the inertias.

The loop body is split into the source's own steps:

- `AddLocalTerms` covers steps 1A to 2A.
- `AddCouplings` covers step 3, the inner j loop.
- `Transfer` does the array updates of one (i, j) pair.

Every method is proved against the specification functions. Every
derivative slot is thereby tied to a closed-form sum over components or
over all (i, j) pump entries.

Physical quantities are exact reals. Python's `t % orbital_period` floors,
so it is written `t - P * Floor(t / P)`. The Stefan-Boltzmann constant is
its CODATA 2018 value; the proofs only use that it is positive.

## Model

| member | source | states |
|---|---|---|
| BaseClasses.GetConductance | base_classes.py:10-37 | A plain link returns its conductance whatever the temperatures. A switch returns conductance / attenuation when the other side is hotter and the holder is above its heat limit, or when the other side is colder and the holder is below its cool limit. Otherwise, including at equal temperatures, it returns the full conductance. The attenuation factor must be nonzero only when a throttling branch is taken. |
| BaseClasses.SwitchExample | base_classes.py:30-31 | Conductance 10, heat limit 300, factor 5, holder at 310 K, other side at 320 K gives conductance 2. |
| BaseClasses.GetPower | base_classes.py:52-72 | The base pump moves 0 at every temperature. A refrigerator moves electrical power x COP exactly when its temperature is strictly above the set point, and 0 otherwise, including at the set point. |
| BaseClasses.RefrigeratorExample | base_classes.py:62-72 | 50 W, COP 1, set point 160 K: 50 W at 165 K and 0 at 155 K. |
| BaseClasses.ThermalComponent.ThermalInertia | base_classes.py:94-96 | Mass x specific heat is positive when both are positive, and zero when either is zero. |
| BaseClasses.Temps | base_classes.py:109-112 | The state vector has one entry per component: its temperature, in list order. |
| BaseClasses.WithTemps | base_classes.py:114-117 | Writing a state vector replaces component i's temperature by entry i, and changes nothing else. |
| BaseClasses.WriteThenRead | base_classes.py:109-117 | Writing v and then reading the state yields v[0..N). |
| BaseClasses.ReadThenWrite | base_classes.py:109-117 | Writing back the state just read leaves every component unchanged. |
| BaseClasses.WriteKeepsConfiguration | base_classes.py:114-117 | Writing a state vector touches only temperatures. |
| BaseClasses.WriteKeepsInertias | base_classes.py:114-121 | Writing a state vector leaves every thermal inertia unchanged. |
| BaseClasses.WriteForgetsOldTemps | base_classes.py:114-117 | After a write, the components depend only on the configuration and the written vector, not on earlier temperatures. |
| BaseClasses.WithTempsPrefix | odes.py:43 | Writing y[0:N] has the same effect as writing all of y. |
| BaseClasses.ThermalArchitecture.constructor | base_classes.py:103-107 | The architecture holds the given components and matrices. It is valid (both matrices N x N) whenever the given matrices are square of the component count. |
| BaseClasses.ThermalArchitecture.ToState | base_classes.py:109-112 | The state is the list of component temperatures. |
| BaseClasses.ThermalArchitecture.UpdateFromState | base_classes.py:114-117 | The loop assigns each component's temperature from the vector. The new component list is the old one with those temperatures written, and reading the state back yields v[0..N). A valid architecture stays valid. |
| BaseClasses.ThermalArchitecture.ComponentThermalInertias | base_classes.py:119-121 | One entry per component: its thermal inertia, in order. All entries are positive when every mass and specific heat is. |
| BaseClasses.EnvironmentalConditions.OrbitPhase | base_classes.py:133 | Python's floored `t % P` for P > 0 lies in [0, P), and is t itself on [0, P). |
| BaseClasses.EnvironmentalConditions.IncidentRadiativeFlux | base_classes.py:132-136 | The flux is either the sunlit flux or 0. During the first orbit it is the sunlit flux before the sunlit period ends, and 0 after. |
| BaseClasses.PhasePeriodic | base_classes.py:133 | The orbit phase at t + kP equals the phase at t, for every integer k. |
| BaseClasses.IncidentFluxPeriodic | base_classes.py:132-136 | The environment's flux at t + kP equals its flux at t. |
| HeatTransfer.IncidentRadiationFlux | heat_transfer.py:32-37 | Absorbed direct radiation is 0 in eclipse. It is also 0 for an unlit component, and for a component with zero radiative area or emissivity. |
| HeatTransfer.IncidentRadiationPeriodic | heat_transfer.py:32-37 | Absorbed direct radiation repeats every orbital period. |
| HeatTransfer.BackgroundRadiationFlux | heat_transfer.py:60-67 | Background exchange is 0 at the background temperature. It is also 0 for a fully lit component, since only the unlit area radiates to the background, and 0 for zero area or emissivity. |
| HeatTransfer.BackgroundRadiationSign | heat_transfer.py:60-67 | Assume non-negative temperatures and a positive unlit area x emissivity. Then a component hotter than the background loses heat, and a colder one gains heat. |
| HeatTransfer.ConductionFlux | heat_transfer.py:91-93 | The flux is 0 between equal temperatures or through zero conductance. The definition evaluates the link with the receiver (component2) as its holder; HeatTransfer.SwitchConductionAsymmetric and the diagonal and entry clauses of Odes.ConductionMatrix show what that convention means for a switch. |
| HeatTransfer.ConductionDirection | heat_transfer.py:91-93 | Through a conducting link, heat flows from the hotter to the colder component. |
| HeatTransfer.ConductionAntisymmetric | heat_transfer.py:91-93 | Through one constant link, the flux from a to b is minus the flux from b to a. |
| HeatTransfer.SwitchConductionAsymmetric | heat_transfer.py:91-93 | Through a switch the two directions can differ: 320 K into a 310 K holder gives 20 W, the reverse gives -100 W. |
| Odes.HeaterPower | odes.py:58-60 | The heater gives full power strictly below its set point, and nothing at or above it. |
| Odes.ConductionMatrix | odes.py:75-78 | Entry (i, j) is the conduction into i from j through link (i, j). Every diagonal entry is 0. |
| Odes.PumpMatrix | odes.py:82 | Entry (i, j) is pump (i, j)'s power at component i's temperature. |
| Odes.AddLocalTerms | odes.py:53-72 | fluxes[i] gains the component's local flux. Slots N, N+2 and N+3 advance their prefix sums by one component. Slot N+1 gains the heater output. Nothing else in `out` changes. |
| Odes.Transfer | odes.py:76-85 | fluxes[i] gains the conduction and loses the pump power, fluxes[j] gains the pump power, and slot N+1 records it. |
| Odes.AddCouplings | odes.py:75-85 | fluxes[i] gains row i's conduction and loses row i's pump total. Every fluxes[k] gains pump (i, k). Slot N+1 gains row i's pump total. No other slot changes. |
| Odes.AddComponent | odes.py:52-85 | One turn of the outer loop extends the finished rows and the four accumulators by component i. |
| Odes.AccumulateFluxes | odes.py:52-85 | After the loop, fluxes[k] is component k's net flux. Slot N holds total innate plus electronics power. Slot N+1 holds total heater power plus the sum over all (i, j) of pump power. Slot N+2 holds total incident radiation, N+3 total background radiation, and every other slot stays 0. |
| Odes.DivideByInertias | odes.py:88 | Entry k becomes flux k divided by inertia k, for k < N; later entries keep their values. |
| Odes.AssembleDerivative | odes.py:49-91 | The array computation returns exactly the specification function `Derivative`, slot by slot. |
| Odes.ThermalOde | odes.py:40-91 | The trial temperatures replace the old ones and nothing else. Reading the state back yields y[0:N], and inertias are unchanged. The result, as long as y, is the derivative of the updated network, so it depends on t and y only. |
| Conservation.SumOfNetFluxes | odes.py:75-85 | Net fluxes of the assembled form sum to the local total, plus the conduction rows, minus the pump rows, plus the pump columns. |
| Conservation.PumpsCancel | odes.py:82-85 | Whatever the pump matrix, the net fluxes sum to the local fluxes plus the total conduction: pumps move heat without creating any. |
| Conservation.ConductionCancels | odes.py:75-78 | When every link is constant and link (i, j) is link (j, i), the conduction terms sum to 0. |
| Conservation.LocalSumByAccumulators | odes.py:53-72 | The local fluxes sum to the generation, heater, incident and background totals. |
| Conservation.StoredPowerOfQuotients | odes.py:88 | Multiplying each quotient back by its nonzero inertia and summing recovers the sum of the fluxes. |
| Conservation.StoredPowerIsTotalFlux | odes.py:88 | The sum of inertia x temperature derivative over all components is the sum of all net fluxes. |
| Conservation.EnergyBalance | odes.py:52-88 | The stored power equals slot N, plus slot N+1 minus its pump part, plus slots N+2 and N+3, plus the conduction total. |
| Conservation.ClosedBalance | odes.py:52-88 | With symmetric constant links, the stored power equals the recorded generation, heater and radiation totals. |
| Conservation.DiagonalPumpNeutral | odes.py:82-84 | Replacing pump (i, i) by any other pump leaves every component's net flux unchanged. |
| Conservation.InertNetworkIsStill | odes.py:49-91 | Suppose no component has innate or electronics power, every heater delivers 0 (it is off, or on with zero power), no component radiates, every conductance is 0 and every pump's power at its row component's temperature is 0. Then every temperature derivative and every accumulator slot is 0. |

## Left out

- The simulator driver (`solve_ivp` integration, plotting, files), the component and spacecraft prefabs, and the per-component electronics schedules. Those modules are not part of this model. Electronics power is a total function of time carried by each component. A schedule that raises an error for a time outside its range (component_prefabs.py:81) is not modelled.
- Floating-point rounding and numpy array mechanics. Quantities are exact reals, though the loop order is kept.
- The Stefan-Boltzmann constant's role is captured only by its positivity. Its value is stated but plays no part in any proof.
- Odes.ThermalOde requires every thermal inertia to be nonzero. For a zero inertia numpy would produce an infinite or undefined quotient, which exact reals cannot represent.
- Odes.ThermalOde requires that every switch the current temperatures throttle has a nonzero attenuation factor. With a zero factor the source raises a division-by-zero error in that branch (base_classes.py:31, base_classes.py:34). It does so after odes.py:43 has already written the new temperatures into the spacecraft. That error path, and the partly updated state it leaves, are not modelled.
- Odes.ThermalOde requires y to have at least N + 4 entries. Following the code, a longer `y` is accepted and its extra result slots stay 0. For N >= 1 a shorter `y` makes the source fail with an index error. When |y| < N the error comes from the state write after it has set the first |y| temperatures (base_classes.py:116-117). When N <= |y| < N + 4 it comes from the first missing recording slot (odes.py:55-71) after all N temperatures have been written. That error path and the state it leaves are not modelled. With no components the loop never runs and the source returns all zeros of the length of `y` for any `y`, the empty one included. The model still requires |y| >= 4 there.
- Odes.ThermalOde models the `np.allclose` check after the state write as a postcondition: reading the state back gives y[0:N] exactly.
- Components are values in a list, so a single component object placed at two list positions, whose temperature writes would alias, is not modelled.
- The outer loop body of `thermal_ode` is split into the helper methods `AddLocalTerms`, `AddCouplings` and `Transfer`. They perform the same updates in the same order.
- BaseClasses.EnvironmentalConditions.IncidentRadiativeFlux states the step function directly only on the first orbit. Later orbits follow from BaseClasses.IncidentFluxPeriodic.
- The comment on the heat pump's `set_temp` field says the pump turns off above that temperature. The refrigerator's code and docstring pump only above it, and the model follows the code.
