# FMI 1.0 co-simulation driver, modelled in Dafny

This project models `fmi1_cs_simulate`, the routine of the FMU Compliance
Checker that simulates an FMI 1.0 co-simulation FMU. The routine:

- decides which transport (MIME type) the slave is started with, or gives up
  when the FMU asks for a simulator that has to be started by hand;
- resolves the simulated window: the default start time, the end time and
  the step size, with the checker's overrides;
- instantiates and initializes the slave;
- steps it over the time grid, writing one CSV row per step and snapping a
  step that falls within a thousandth of a step of the end time onto it;
- terminates and frees the slave, and reports success, warning or error.

The FMI Library and the CSV writer are foreign code. Their answers come from
an `Oracle` value: fixed answers for instantiate, initialize and terminate,
and functions giving the answer to the k-th `fmiDoStep` and the k-th CSV
write. Every call the driver makes on the slave or the writer is recorded,
in order, in a ghost trace of `Call` values.

Files:

- `fmi1_types.dfy` (module `Fmi1Types`): the status codes, the FMU kinds,
  the checker settings (`Config`), what the model description declares
  (`ModelDescription`), the oracle and the calls.
- `fmi1_cs_spec.dfy` (module `Fmi1CsSpec`): the reference semantics:
  - transport selection (`SelectMimeType`);
  - window resolution (`ResolveWindow`);
  - the time grid (`GridPoint`) and the end-time clamp (`Clamp`, `SampleTime`);
  - the step loop (`Loop`);
  - the whole run (`Run`), giving the reported status and the call trace.
- `fmi1_cs_sim.dfy` (module `Fmi1CsSim`): the driver itself (`Simulate`). It
  is an imperative method with the source's local variables, its `while`
  loop, `break`s and early returns. It is proved to report the status of
  `Run` and to make exactly the calls of `Run`.
- `fmi1_cs_lemmas.dfy` (module `Fmi1CsLemmas`): what the driver guarantees,
  proved about `Run` and `Loop`, and therefore about `Simulate`.

Times are real numbers, so floating-point rounding is not modelled.

## Model

| member | source | states |
|---|---|---|
| Fmi1CsSim.Simulate | src/FMI1/fmi1_cs_sim.c:14-117 | The driver reports exactly the status of the reference run `Run`, and makes exactly its calls, in the same order. |
| Fmi1CsSpec.SelectMimeType | src/FMI1/fmi1_cs_sim.c:33-47 | The slave is only started with the shared-library or the Modelica transport. No transport is chosen only for a non-empty declared MIME type that is neither of the two. |
| Fmi1CsSpec.ResolveWindow | src/FMI1/fmi1_cs_sim.c:48-56 | The window starts at the default start time. It ends at the stop-time override when that is positive, and at the default stop time otherwise. The step is the step-size override when that is positive; otherwise numSteps steps of the derived size reach the end time exactly. |
| Fmi1CsSpec.GridPointLinear | src/FMI1/fmi1_cs_sim.c:78-97 | Before the k-th step, when no earlier step was snapped, the current time is tstart + k*h. |
| Fmi1CsSpec.ClampedIsLast | src/FMI1/fmi1_cs_sim.c:78-97 | A step snapped onto the end time is the last one: the next grid point lies past the end time. |
| Fmi1CsLemmas.GridMonotone | src/FMI1/fmi1_cs_sim.c:78-97 | With a positive step, each later grid point lies at least one step beyond an earlier one. |
| Fmi1CsLemmas.LoopCallsAreSteps | src/FMI1/fmi1_cs_sim.c:78-98 | The loop calls nothing but fmiDoStep and the CSV writer. |
| Fmi1CsLemmas.LoopPairs | src/FMI1/fmi1_cs_sim.c:78-98 | Each iteration makes a new-step call of the resolved step size, then a write at the same time. The i-th iteration runs at the i-th grid time, clamped. |
| Fmi1CsLemmas.LoopStepsInWindow | src/FMI1/fmi1_cs_sim.c:78-81 | Every iteration starts at a grid point that has not passed the end time. |
| Fmi1CsLemmas.LoopStepsSucceed | src/FMI1/fmi1_cs_sim.c:85-96 | Every iteration but the last saw a step that passed (ok or warning) and a write that succeeded. |
| Fmi1CsLemmas.LoopEnds | src/FMI1/fmi1_cs_sim.c:78-98 | The loop fails exactly when its last iteration's step or write failed. Otherwise it stopped because the next grid point lies past the end time. |
| Fmi1CsLemmas.LoopTimesOnGrid | src/FMI1/fmi1_cs_sim.c:78-97 | Every step time but the last is its unsnapped grid point, below the clamp zone. The last is its grid point, clamped. |
| Fmi1CsLemmas.LoopTimesInWindow | src/FMI1/fmi1_cs_sim.c:78-97 | The step times lie within [tstart, tend] and strictly increase. |
| Fmi1CsLemmas.LoopOverFullGrid | src/FMI1/fmi1_cs_sim.c:78-98 | When the n-th grid point is the end time and the first n+1 iterations succeed, the loop takes exactly n+1 steps, each on its grid point, and does not fail. |
| Fmi1CsLemmas.WellPosedIffNonZeroStep | src/FMI1/fmi1_cs_sim.c:48-56 | Once a step size can be computed, the precondition of the model excludes only a step size of zero. |
| Fmi1CsLemmas.ZeroStepNeverLeavesLoop | src/FMI1/fmi1_cs_sim.c:78-97 | With a zero step over a window that has not ended, the loop condition holds before every iteration, and every step is taken at the same time. |
| Fmi1CsLemmas.TransportRejected | src/FMI1/fmi1_cs_sim.c:33-47 | No transport is chosen exactly when the FMU is not standalone and declares a non-empty MIME type other than the two supported ones. Exactly then the run makes no call, and it reports success. |
| Fmi1CsLemmas.InstantiateThenInitialize | src/FMI1/fmi1_cs_sim.c:58-67 | The first call instantiates the slave with the fixed instance name, the FMU location, the chosen transport, timeout 0, not visible and not interactive. After a successful instantiation, the second call initializes it with the default start time, a defined stop time and the resolved end time. |
| Fmi1CsLemmas.InstantiateFailure | src/FMI1/fmi1_cs_sim.c:61-65 | A failed instantiation reports an error after that single call. Nothing is initialized, stepped, written, terminated or freed. |
| Fmi1CsLemmas.InitializeFailure | src/FMI1/fmi1_cs_sim.c:67-114 | An initialization that neither succeeds nor warns reports an error and makes no step and no write. It still terminates and frees the slave: the run has four calls, ending with terminate and free. |
| Fmi1CsLemmas.CleanupExactlyOnce | src/FMI1/fmi1_cs_sim.c:108-114 | Every run that instantiated the slave ends with terminate and then free, and neither occurs earlier. A run that did not instantiate calls neither. |
| Fmi1CsLemmas.RunStepTimes | src/FMI1/fmi1_cs_sim.c:67-98 | A run that fails before the loop takes no step. Otherwise its steps are those of the loop. |
| Fmi1CsLemmas.StepsPairedWithWrites | src/FMI1/fmi1_cs_sim.c:78-98 | Between initialize and terminate, the calls are pairs of a new step of the resolved step size and a write at that step's time. So every step is followed by exactly one write at its time. |
| Fmi1CsLemmas.SampleTimesInWindow | src/FMI1/fmi1_cs_sim.c:78-98 | The run's step times lie within the window and strictly increase. All but the last lie on tstart + k*h below the clamp zone, so only the last can be snapped onto the end time. The last is its grid time, clamped. A run without error stopped because the next grid point lies past the end time. |
| Fmi1CsLemmas.GridFromNumSteps | src/FMI1/fmi1_cs_sim.c:51-98 | With the step derived from N = numSteps over a non-empty window, and every step and write succeeding, the run takes exactly N+1 steps, at tstart + k*h for k = 0..N. The last is exactly the end time, and the run reports what instantiation reported. |
| Fmi1CsLemmas.ReversedWindowSkipsLoop | src/FMI1/fmi1_cs_sim.c:55-78 | A window that ends before it starts skips the loop. The run instantiates, initializes, terminates and frees, takes no step, and reports what instantiation reported. |
| Fmi1CsLemmas.FailureEndsRun | src/FMI1/fmi1_cs_sim.c:85-103 | A step that does not pass, or a write that fails, ends the loop at that iteration, and the run reports an error. |
| Fmi1CsLemmas.OutcomeClassification | src/FMI1/fmi1_cs_sim.c:61-116 | A run reports an error exactly when the transport was accepted and one of these failed: instantiation, initialization, or some step or write. Otherwise it reports success for a rejected transport, and what instantiation reported (success or warning) for an accepted one. |
| Fmi1CsLemmas.TerminateStatusIgnored | src/FMI1/fmi1_cs_sim.c:108-116 | The status returned by fmiTerminateSlave changes neither the calls nor the reported status. |
| Fmi1CsLemmas.LastSampleCanMissEnd | src/FMI1/fmi1_cs_sim.c:78-97 | With the window [0, 1], step 0.3 and every call succeeding, the run steps at 0, 0.3, 0.6 and 0.9. It never steps at the end time, because 0.9 lies outside the clamp zone. |

## Left out

- The FMI Library and CSV-writer calls are foreign. Their answers come from the oracle; their effects on the slave and on the output file are not modelled.
- The status of fmiTerminateSlave is only logged (line 110). It is an oracle field that nothing in the model reads.
- Logging is not modelled. This includes the message at line 44, whose format has a `%s` with no argument.
- The GUID fetched at line 21 is never used, so it is not modelled.
- The instance name is written into the shared checker data at line 58. The model passes the same constant name to instantiate but does not model that write.
- Times and step sizes are exact reals, and the clamp factor 1e-3 is exactly 0.001. The accumulation of rounding errors in `tcur += hstep` is not modelled, so the model's grid points are exact.
- `numSteps` is a natural number in the model.
- Fmi1CsSim.Simulate: requires `Admissible`. This excludes two cases of an accepted transport:
  - no positive step size and `numSteps == 0`: the source divides by zero at line 55;
  - a derived step size of zero, which happens exactly when the window has zero length: the source's loop then runs for as long as the calls succeed (see `ZeroStepNeverLeavesLoop`).

  A window that ends before it starts is included: the source then skips the loop (see `ReversedWindowSkipsLoop`).
- Fmi1CsSpec.Run: has the same `Admissible` precondition as `Simulate`, for the same reasons.
- The source comment at line 80 says that the last step should fall on the end time. The code only snaps a time that lies within a thousandth of a step below the end time. The model follows the code; `LastSampleCanMissEnd` shows a window whose last step does not reach the end time.
