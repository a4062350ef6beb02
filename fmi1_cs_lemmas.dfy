/** Properties of the FMI 1.0 co-simulation driver: what gating, window
    resolution, the step loop and the outcome classification guarantee. */
module Fmi1CsLemmas {
  import opened Fmi1Types
  import opened Fmi1CsSpec

  // ---------------------------------------------------------------------
  // Traces and the time grid
  // ---------------------------------------------------------------------

  /** The step times of two traces one after the other. */
  lemma {:induction false} StepTimesAppend(a: seq<Call>, b: seq<Call>)
    ensures StepTimes(a + b) == StepTimes(a) + StepTimes(b)
  {
    if a == [] {
      assert a + b == b;
    } else {
      var head := if a[0].DoStep? then [a[0].t] else [];
      assert (a + b)[0] == a[0];
      assert (a + b)[1..] == a[1..] + b;
      assert StepTimes(a + b) == head + StepTimes(a[1..] + b);
      StepTimesAppend(a[1..], b);
      assert StepTimes(a) == head + StepTimes(a[1..]);
      assert head + (StepTimes(a[1..]) + StepTimes(b)) == (head + StepTimes(a[1..])) + StepTimes(b);
    }
  }

  /** Grid points grow with the step index. */
  lemma {:induction false} GridMonotone(w: Window, i: nat, j: nat)
    requires w.h > 0.0
    requires i < j
    ensures GridPoint(w, i) + w.h <= GridPoint(w, j)
  {
    if i + 1 < j {
      GridMonotone(w, i, j - 1);
    }
  }

  /** A step size derived from a non-empty window is positive. */
  lemma PositiveQuotient(a: real, b: real)
    requires a > 0.0 && b > 0.0
    ensures a / b > 0.0
  {
  }

  // ---------------------------------------------------------------------
  // The step loop
  // ---------------------------------------------------------------------

  /** The loop calls only the step and the CSV writer. */
  lemma {:induction false} LoopCallsAreSteps(w: Window, o: Oracle, k: nat)
    requires Progresses(w, k)
    decreases Remaining(w, k)
    ensures forall c :: c in Loop(w, o, k).calls ==> c.DoStep? || c.WriteCsv?
  {
    LoopUnfold(w, o, k);
    if GridPoint(w, k) <= w.tend && Succeeded(o, k) {
      RemainingDecreases(w, k);
      LoopCallsAreSteps(w, o, k + 1);
    }
  }

  /** The steps and writes of the loop from the k-th step on: a step call
      followed by a write at the same time per iteration, the i-th at the
      clamped i-th grid time. */
  lemma {:induction false} LoopPairs(w: Window, o: Oracle, k: nat)
    requires Progresses(w, k)
    decreases Remaining(w, k)
    ensures StepWritePairs(Loop(w, o, k).calls, w.h)
    ensures forall i :: 0 <= i < |StepTimes(Loop(w, o, k).calls)| ==>
      StepTimes(Loop(w, o, k).calls)[i] == SampleTime(w, k + i)
  {
    LoopUnfold(w, o, k);
    var e := Loop(w, o, k);
    if GridPoint(w, k) <= w.tend {
      var tc := SampleTime(w, k);
      var here := [DoStep(tc, w.h, true), WriteCsv(tc)];
      assert StepTimes(here) == [tc] by {
        assert here[1..] == [WriteCsv(tc)];
        assert StepTimes([WriteCsv(tc)]) == [] + StepTimes([]);
      }
      if Succeeded(o, k) {
        RemainingDecreases(w, k);
        LoopPairs(w, o, k + 1);
        var rest := Loop(w, o, k + 1);
        assert e.calls == here + rest.calls;
        assert e.calls[2..] == rest.calls;
        var rs := StepTimes(rest.calls);
        StepTimesAppend(here, rest.calls);
        var ts := StepTimes(e.calls);
        assert ts == [tc] + rs;
        forall i | 0 <= i < |ts| ensures ts[i] == SampleTime(w, k + i) {
          if i > 0 {
            assert ts[i] == rs[i - 1];
          }
        }
      } else {
        assert e.calls == here;
        assert e.calls[2..] == [];
      }
    }
  }

  /** The step times of the loop from the k-th step on, one iteration
      unfolded: none past the end time, the clamped k-th grid time alone when
      the k-th iteration fails, and otherwise followed by those of the rest. */
  lemma LoopStepTimes(w: Window, o: Oracle, k: nat)
    requires Progresses(w, k)
    ensures GridPoint(w, k) > w.tend ==> StepTimes(Loop(w, o, k).calls) == []
    ensures GridPoint(w, k) <= w.tend && !Succeeded(o, k) ==>
      StepTimes(Loop(w, o, k).calls) == [SampleTime(w, k)]
    ensures GridPoint(w, k) <= w.tend && Succeeded(o, k) ==>
      StepTimes(Loop(w, o, k).calls) == [SampleTime(w, k)] + StepTimes(Loop(w, o, k + 1).calls)
  {
    LoopUnfold(w, o, k);
    if GridPoint(w, k) <= w.tend {
      var tc := SampleTime(w, k);
      var here := [DoStep(tc, w.h, true), WriteCsv(tc)];
      assert StepTimes(here) == [tc] by {
        assert here[1..] == [WriteCsv(tc)];
        assert StepTimes([WriteCsv(tc)]) == [] + StepTimes([]);
      }
      if Succeeded(o, k) {
        StepTimesAppend(here, Loop(w, o, k + 1).calls);
      }
    }
  }

  /** Every iteration the loop from the k-th step on takes starts at a grid
      point inside the window. */
  lemma {:induction false} LoopStepsInWindow(w: Window, o: Oracle, k: nat)
    requires Progresses(w, k)
    decreases Remaining(w, k)
    ensures forall j :: k <= j < k + |StepTimes(Loop(w, o, k).calls)| ==> GridPoint(w, j) <= w.tend
  {
    LoopStepTimes(w, o, k);
    if GridPoint(w, k) <= w.tend && Succeeded(o, k) {
      RemainingDecreases(w, k);
      LoopStepsInWindow(w, o, k + 1);
    }
  }

  /** Every iteration but the last of the loop from the k-th step on
      succeeded. */
  lemma {:induction false} LoopStepsSucceed(w: Window, o: Oracle, k: nat)
    requires Progresses(w, k)
    decreases Remaining(w, k)
    ensures forall j :: k <= j < k + |StepTimes(Loop(w, o, k).calls)| - 1 ==> Succeeded(o, j)
  {
    LoopStepTimes(w, o, k);
    if GridPoint(w, k) <= w.tend && Succeeded(o, k) {
      RemainingDecreases(w, k);
      LoopStepsSucceed(w, o, k + 1);
    }
  }

  /** How the loop from the k-th step on ends: it fails exactly when its
      last iteration failed, and otherwise it stopped because the next grid
      point lies past the end time. */
  lemma {:induction false} LoopEnds(w: Window, o: Oracle, k: nat)
    requires Progresses(w, k)
    decreases Remaining(w, k)
    ensures
      var e := Loop(w, o, k);
      var n := |StepTimes(e.calls)|;
      && (Failed(e) <==> n > 0 && !Succeeded(o, k + n - 1))
      && (!Failed(e) ==> GridPoint(w, k + n) > w.tend)
  {
    LoopUnfold(w, o, k);
    LoopStepTimes(w, o, k);
    if GridPoint(w, k) <= w.tend && Succeeded(o, k) {
      RemainingDecreases(w, k);
      LoopEnds(w, o, k + 1);
    }
  }

  /** The loop's step times: all but the last are grid points short of the
      clamp zone, and the last is its grid point clamped. */
  lemma LoopTimesOnGrid(w: Window, o: Oracle)
    requires Progresses(w, 0)
    ensures forall i :: 0 <= i < |StepTimes(Loop(w, o, 0).calls)| - 1 ==>
      StepTimes(Loop(w, o, 0).calls)[i] == GridPoint(w, i) < w.tend - 0.001 * w.h
    ensures |StepTimes(Loop(w, o, 0).calls)| > 0 ==>
      StepTimes(Loop(w, o, 0).calls)[|StepTimes(Loop(w, o, 0).calls)| - 1] ==
        SampleTime(w, |StepTimes(Loop(w, o, 0).calls)| - 1)
  {
    var ts := StepTimes(Loop(w, o, 0).calls);
    LoopPairs(w, o, 0);
    LoopStepsInWindow(w, o, 0);
    forall i | 0 <= i < |ts| - 1
      ensures ts[i] == GridPoint(w, i) && ts[i] < w.tend - 0.001 * w.h
    {
      assert ts[i] == SampleTime(w, 0 + i);
      assert GridPoint(w, i + 1) <= w.tend;
      GridAdvance(w, i);
    }
  }

  /** The loop's step times stay within the window and strictly increase. */
  lemma LoopTimesInWindow(w: Window, o: Oracle)
    requires Progresses(w, 0)
    ensures forall i :: 0 <= i < |StepTimes(Loop(w, o, 0).calls)| ==>
      w.tstart <= StepTimes(Loop(w, o, 0).calls)[i] <= w.tend
    ensures forall i, j :: 0 <= i < j < |StepTimes(Loop(w, o, 0).calls)| ==>
      StepTimes(Loop(w, o, 0).calls)[i] < StepTimes(Loop(w, o, 0).calls)[j]
  {
    var ts := StepTimes(Loop(w, o, 0).calls);
    LoopTimesOnGrid(w, o);
    LoopStepsInWindow(w, o, 0);
    forall i | 0 <= i < |ts| ensures w.tstart <= GridPoint(w, i) {
      if i > 0 {
        GridMonotone(w, 0, i);
      }
    }
    forall i, j | 0 <= i < j < |ts| ensures ts[i] < ts[j] {
      GridMonotone(w, i, j);
    }
  }

  /** A loop whose n-th grid point is the end time and whose first n+1
      iterations all succeed takes exactly those n+1 steps, each at its grid
      point, and does not fail. */
  lemma LoopOverFullGrid(w: Window, o: Oracle, n: nat)
    requires w.h > 0.0
    requires GridPoint(w, n) == w.tend
    requires forall k: nat :: k <= n ==> Succeeded(o, k)
    ensures !Failed(Loop(w, o, 0))
    ensures |StepTimes(Loop(w, o, 0).calls)| == n + 1
    ensures forall k :: 0 <= k <= n ==> StepTimes(Loop(w, o, 0).calls)[k] == GridPoint(w, k)
  {
    var ts := StepTimes(Loop(w, o, 0).calls);
    LoopStepsInWindow(w, o, 0);
    LoopEnds(w, o, 0);
    // no grid point after the n-th lies in the window
    GridAdvance(w, n);
    assert |ts| <= n + 1;
    // every grid point before the n-th lies a full step below the end time
    forall j: nat | j < n ensures GridPoint(w, j) + w.h <= w.tend {
      GridMonotone(w, j, n);
    }
    assert |ts| == n + 1;
    LoopPairs(w, o, 0);
  }

  // ---------------------------------------------------------------------
  // Settings the driver cannot run with
  // ---------------------------------------------------------------------

  /** Once a step size can be computed, the only settings the model leaves
      out are those that make it zero. */
  lemma WellPosedIffNonZeroStep(cfg: Config, md: ModelDescription)
    requires StepSizeDefined(cfg)
    ensures WellPosed(cfg, md) <==> ResolveWindow(cfg, md).h != 0.0
  {
  }

  /** With a zero step size over a window that has not ended, every grid
      point is the start time, so the loop condition holds before every
      iteration and every step is taken at the same time: the loop runs for
      as long as the slave and the writer succeed. */
  lemma {:induction false} ZeroStepNeverLeavesLoop(w: Window, k: nat)
    requires w.h == 0.0 && w.tstart <= w.tend
    ensures GridPoint(w, k) == w.tstart <= w.tend
    ensures SampleTime(w, k) == SampleTime(w, 0)
  {
    if k > 0 {
      ZeroStepNeverLeavesLoop(w, k - 1);
    }
  }

  // ---------------------------------------------------------------------
  // Gating and instantiation
  // ---------------------------------------------------------------------

  /** A run makes no call at all exactly when the FMU is not standalone and
      requests a simulator other than the two the checker starts itself; such
      a run reports success. */
  lemma TransportRejected(cfg: Config, md: ModelDescription, o: Oracle)
    requires Admissible(cfg, md)
    ensures SelectMimeType(cfg.kind, md.mimeType).None? <==>
      cfg.kind != CsStandalone && md.mimeType.Some? &&
      md.mimeType.value != "" && md.mimeType.value != SharedLibraryMime && md.mimeType.value != ModelicaMime
    ensures Run(cfg, md, o).calls == [] <==> SelectMimeType(cfg.kind, md.mimeType).None?
    ensures SelectMimeType(cfg.kind, md.mimeType).None? ==> Run(cfg, md, o).status == JmSuccess
  {
  }

  /** An accepted run first instantiates the slave, with the shared-library
      transport for a standalone FMU or a missing or empty MIME type and with
      the declared MIME type otherwise; once instantiated it initializes the
      slave with the default start time, a defined stop time and the resolved
      end time. */
  lemma InstantiateThenInitialize(cfg: Config, md: ModelDescription, o: Oracle)
    requires Admissible(cfg, md)
    requires SelectMimeType(cfg.kind, md.mimeType).Some?
    ensures
      var mime := if cfg.kind == CsStandalone || md.mimeType.None? || md.mimeType.value == ""
                  then SharedLibraryMime else md.mimeType.value;
      var r := Run(cfg, md, o);
      |r.calls| > 0 && r.calls[0] == Instantiate(InstanceName, cfg.location, mime, 0.0, false, false)
    ensures o.instantiate != JmError ==>
      var tend := if cfg.stopTime > 0.0 then cfg.stopTime else md.defaultStop;
      var r := Run(cfg, md, o);
      |r.calls| > 1 && r.calls[1] == Initialize(md.defaultStart, true, tend)
  {
  }

  /** A failed instantiation ends the run with an error after that one call:
      nothing is initialized, stepped, written, terminated or freed. */
  lemma InstantiateFailure(cfg: Config, md: ModelDescription, o: Oracle)
    requires Admissible(cfg, md)
    requires SelectMimeType(cfg.kind, md.mimeType).Some?
    requires o.instantiate == JmError
    ensures Run(cfg, md, o).status == JmError
    ensures |Run(cfg, md, o).calls| == 1 && Run(cfg, md, o).calls[0].Instantiate?
  {
  }

  /** A failed initialization reports an error, takes no step and writes
      nothing, and still terminates and frees the slave. */
  lemma InitializeFailure(cfg: Config, md: ModelDescription, o: Oracle)
    requires Admissible(cfg, md)
    requires SelectMimeType(cfg.kind, md.mimeType).Some?
    requires o.instantiate != JmError
    requires !IsOkStatus(o.initialize)
    ensures Run(cfg, md, o).status == JmError
    ensures forall c :: c in Run(cfg, md, o).calls ==> !c.DoStep? && !c.WriteCsv?
    ensures |Run(cfg, md, o).calls| == 4 && Run(cfg, md, o).calls[2..] == [Terminate, FreeInstance]
  {
  }

  /** Terminate and free are each called exactly once, as the last two calls,
      in every run that instantiated the slave, and never otherwise. */
  lemma CleanupExactlyOnce(cfg: Config, md: ModelDescription, o: Oracle)
    requires Admissible(cfg, md)
    ensures
      var calls := Run(cfg, md, o).calls;
      var instantiated := SelectMimeType(cfg.kind, md.mimeType).Some? && o.instantiate != JmError;
      && (instantiated ==>
            && |calls| >= 2
            && calls[|calls| - 2..] == [Terminate, FreeInstance]
            && Terminate !in calls[..|calls| - 2]
            && FreeInstance !in calls[..|calls| - 2])
      && (!instantiated ==> Terminate !in calls && FreeInstance !in calls)
  {
    var calls := Run(cfg, md, o).calls;
    if SelectMimeType(cfg.kind, md.mimeType).Some? && o.instantiate != JmError {
      var w := ResolveWindow(cfg, md);
      var started := [Instantiate(InstanceName, cfg.location, SelectMimeType(cfg.kind, md.mimeType).value, 0.0, false, false),
                      Initialize(w.tstart, true, w.tend)];
      var cleanup := [Terminate, FreeInstance];
      RunInstantiated(cfg, md, o);
      if IsOkStatus(o.initialize) {
        var l := Loop(w, o, 0).calls;
        LoopCallsAreSteps(w, o, 0);
        assert calls == (started + l) + cleanup;
        assert calls[..|calls| - 2] == started + l;
        assert calls[|calls| - 2..] == cleanup;
      } else {
        assert calls == started + cleanup;
        assert calls[..|calls| - 2] == started;
      }
    }
  }

  // ---------------------------------------------------------------------
  // The step loop inside a run
  // ---------------------------------------------------------------------

  /** The steps of a run are those of its loop; a run that does not reach
      the loop takes none. */
  lemma RunStepTimes(cfg: Config, md: ModelDescription, o: Oracle)
    requires Admissible(cfg, md)
    ensures !ReachesLoop(cfg, md, o) ==> StepTimes(Run(cfg, md, o).calls) == []
    ensures ReachesLoop(cfg, md, o) ==>
      StepTimes(Run(cfg, md, o).calls) == StepTimes(Loop(ResolveWindow(cfg, md), o, 0).calls)
  {
    var calls := Run(cfg, md, o).calls;
    if SelectMimeType(cfg.kind, md.mimeType).Some? {
      var w := ResolveWindow(cfg, md);
      var mime := SelectMimeType(cfg.kind, md.mimeType).value;
      var inst := Instantiate(InstanceName, cfg.location, mime, 0.0, false, false);
      var init := Initialize(w.tstart, true, w.tend);
      var started := [inst, init];
      var cleanup := [Terminate, FreeInstance];
      assert StepTimes([inst]) == [] by {
        assert [inst][1..] == [];
      }
      assert StepTimes(started) == [] by {
        assert started[1..] == [init];
        assert [init][1..] == [];
      }
      assert StepTimes(cleanup) == [] by {
        assert cleanup[1..] == [FreeInstance];
        assert [FreeInstance][1..] == [];
      }
      if o.instantiate != JmError {
        if IsOkStatus(o.initialize) {
          var l := Loop(w, o, 0).calls;
          RunInstantiated(cfg, md, o);
          assert calls == (started + l) + cleanup;
          StepTimesAppend(started, l);
          StepTimesAppend(started + l, cleanup);
        } else {
          assert calls == started + cleanup;
          StepTimesAppend(started, cleanup);
        }
      }
    }
  }

  /** Between initialization and termination, a run that reaches the loop
      makes nothing but pairs of a step call of the resolved step size and a
      write at the time of that step, so every step is followed by exactly
      one write at its time. */
  lemma StepsPairedWithWrites(cfg: Config, md: ModelDescription, o: Oracle)
    requires Admissible(cfg, md)
    requires ReachesLoop(cfg, md, o)
    ensures
      var calls := Run(cfg, md, o).calls;
      && |calls| >= 4
      && StepWritePairs(calls[2..|calls| - 2], ResolveWindow(cfg, md).h)
      && StepTimes(calls[2..|calls| - 2]) == StepTimes(calls)
  {
    var w := ResolveWindow(cfg, md);
    var calls := Run(cfg, md, o).calls;
    var started := [Instantiate(InstanceName, cfg.location, SelectMimeType(cfg.kind, md.mimeType).value, 0.0, false, false),
                    Initialize(w.tstart, true, w.tend)];
    var l := Loop(w, o, 0).calls;
    RunInstantiated(cfg, md, o);
    assert calls == started + l + [Terminate, FreeInstance];
    assert calls[2..|calls| - 2] == l;
    LoopPairs(w, o, 0);
    RunStepTimes(cfg, md, o);
  }

  /** The times a run steps at: they strictly increase and stay within the
      window; all but the last lie on the grid tstart + k*h and short of the
      clamp zone, so only the last can be snapped to the end time; the last is
      its grid time clamped; and a run without error stops only once the
      next grid point lies past the end time. */
  lemma SampleTimesInWindow(cfg: Config, md: ModelDescription, o: Oracle)
    requires Admissible(cfg, md)
    requires ReachesLoop(cfg, md, o)
    ensures forall i :: 0 <= i < |StepTimes(Run(cfg, md, o).calls)| ==>
      ResolveWindow(cfg, md).tstart <= StepTimes(Run(cfg, md, o).calls)[i] <= ResolveWindow(cfg, md).tend
    ensures forall i, j :: 0 <= i < j < |StepTimes(Run(cfg, md, o).calls)| ==>
      StepTimes(Run(cfg, md, o).calls)[i] < StepTimes(Run(cfg, md, o).calls)[j]
    ensures forall i :: 0 <= i < |StepTimes(Run(cfg, md, o).calls)| - 1 ==>
      StepTimes(Run(cfg, md, o).calls)[i] == GridPoint(ResolveWindow(cfg, md), i)
                                         < ResolveWindow(cfg, md).tend - 0.001 * ResolveWindow(cfg, md).h
    ensures |StepTimes(Run(cfg, md, o).calls)| > 0 ==>
      StepTimes(Run(cfg, md, o).calls)[|StepTimes(Run(cfg, md, o).calls)| - 1] ==
        SampleTime(ResolveWindow(cfg, md), |StepTimes(Run(cfg, md, o).calls)| - 1)
    ensures Run(cfg, md, o).status != JmError ==>
      GridPoint(ResolveWindow(cfg, md), |StepTimes(Run(cfg, md, o).calls)|) > ResolveWindow(cfg, md).tend
  {
    var w := ResolveWindow(cfg, md);
    RunStepTimes(cfg, md, o);
    RunInstantiated(cfg, md, o);
    LoopTimesOnGrid(w, o);
    LoopTimesInWindow(w, o);
    LoopEnds(w, o, 0);
  }

  /** With the step size derived from N = numSteps > 0 over a non-empty
      window, and every step and write succeeding, the run takes exactly N+1
      steps, at tstart + k*h for k = 0..N, the last exactly at the end time,
      and reports what instantiation reported. */
  lemma GridFromNumSteps(cfg: Config, md: ModelDescription, o: Oracle)
    requires SelectMimeType(cfg.kind, md.mimeType).Some?
    requires cfg.stepSize <= 0.0 && cfg.numSteps > 0
    requires ResolveWindow(cfg, md).tend > md.defaultStart
    requires o.instantiate != JmError && IsOkStatus(o.initialize)
    requires forall k: nat :: k <= cfg.numSteps ==> Succeeded(o, k)
    ensures Admissible(cfg, md)
    ensures |StepTimes(Run(cfg, md, o).calls)| == cfg.numSteps + 1
    ensures forall k :: 0 <= k <= cfg.numSteps ==>
      StepTimes(Run(cfg, md, o).calls)[k] == md.defaultStart + (k as real) * ResolveWindow(cfg, md).h
    ensures StepTimes(Run(cfg, md, o).calls)[cfg.numSteps] == ResolveWindow(cfg, md).tend
    ensures Run(cfg, md, o).status == o.instantiate
  {
    var w := ResolveWindow(cfg, md);
    var n := cfg.numSteps;
    PositiveQuotient(w.tend - w.tstart, n as real);
    assert WellPosed(cfg, md);
    RunStepTimes(cfg, md, o);
    RunInstantiated(cfg, md, o);
    LoopOverFullGrid(w, o, n);
    var ts := StepTimes(Run(cfg, md, o).calls);
    forall k | 0 <= k < |ts| ensures ts[k] == w.tstart + (k as real) * w.h {
      GridPointLinear(w, k);
    }
  }

  /** A window that ends before it starts skips the loop: the slave is
      instantiated, initialized, terminated and freed, takes no step, and the
      run reports what instantiation reported. */
  lemma ReversedWindowSkipsLoop(cfg: Config, md: ModelDescription, o: Oracle)
    requires Admissible(cfg, md)
    requires ReachesLoop(cfg, md, o)
    requires ResolveWindow(cfg, md).tend < md.defaultStart
    ensures |Run(cfg, md, o).calls| == 4
    ensures StepTimes(Run(cfg, md, o).calls) == []
    ensures Run(cfg, md, o).status == o.instantiate
  {
    var w := ResolveWindow(cfg, md);
    LoopUnfold(w, o, 0);
    RunInstantiated(cfg, md, o);
    RunStepTimes(cfg, md, o);
  }

  /** A step that does not pass or a write that fails at the j-th iteration
      makes it the last iteration, and the run reports an error. */
  lemma FailureEndsRun(cfg: Config, md: ModelDescription, o: Oracle, j: nat)
    requires Admissible(cfg, md)
    requires j < |StepTimes(Run(cfg, md, o).calls)|
    requires !Succeeded(o, j)
    ensures |StepTimes(Run(cfg, md, o).calls)| == j + 1
    ensures Run(cfg, md, o).status == JmError
  {
    RunStepTimes(cfg, md, o);
    LoopStepsSucceed(ResolveWindow(cfg, md), o, 0);
    LoopEnds(ResolveWindow(cfg, md), o, 0);
  }

  /** A run reports an error exactly when the transport was accepted and
      instantiation failed, initialization did not pass, or some step or
      write of the loop failed; otherwise it reports success for a rejected
      transport and what instantiation reported for an accepted one. So an
      error, once recorded, is never taken back. */
  lemma OutcomeClassification(cfg: Config, md: ModelDescription, o: Oracle)
    requires Admissible(cfg, md)
    ensures Run(cfg, md, o).status == JmError <==>
      SelectMimeType(cfg.kind, md.mimeType).Some? &&
      (o.instantiate == JmError || !IsOkStatus(o.initialize) ||
       exists j :: 0 <= j < |StepTimes(Run(cfg, md, o).calls)| && !Succeeded(o, j))
    ensures Run(cfg, md, o).status != JmError ==>
      Run(cfg, md, o).status == if SelectMimeType(cfg.kind, md.mimeType).None? then JmSuccess else o.instantiate
  {
    var ts := StepTimes(Run(cfg, md, o).calls);
    RunStepTimes(cfg, md, o);
    if ReachesLoop(cfg, md, o) {
      var w := ResolveWindow(cfg, md);
      LoopStepsSucceed(w, o, 0);
      LoopEnds(w, o, 0);
      if Failed(Loop(w, o, 0)) {
        assert !Succeeded(o, |ts| - 1);
      }
    }
  }

  /** The loop does not look at the status terminate reports. */
  lemma {:induction false} LoopIgnoresTerminate(w: Window, o: Oracle, s: FmiStatus, k: nat)
    requires Progresses(w, k)
    decreases Remaining(w, k)
    ensures Loop(w, o.(terminate := s), k) == Loop(w, o, k)
  {
    LoopUnfold(w, o, k);
    LoopUnfold(w, o.(terminate := s), k);
    if GridPoint(w, k) <= w.tend && Succeeded(o, k) {
      RemainingDecreases(w, k);
      LoopIgnoresTerminate(w, o, s, k + 1);
    }
  }

  /** The status fmiTerminateSlave reports is only logged: it changes neither
      the calls nor the reported status of a run. */
  lemma TerminateStatusIgnored(cfg: Config, md: ModelDescription, o: Oracle, s: FmiStatus)
    requires Admissible(cfg, md)
    ensures Run(cfg, md, o.(terminate := s)) == Run(cfg, md, o)
  {
    if SelectMimeType(cfg.kind, md.mimeType).Some? {
      LoopIgnoresTerminate(ResolveWindow(cfg, md), o, s, 0);
    }
  }

  /** The clamp only moves a time onto the end time when it falls within a
      thousandth of a step of it: with the window [0, 1] and step 0.3, and
      every call succeeding, the run steps at 0, 0.3, 0.6 and 0.9 and never
      at the end time. */
  lemma LastSampleCanMissEnd(o: Oracle)
    requires o.instantiate == JmSuccess && o.initialize == Ok
    requires forall k: nat :: Succeeded(o, k)
    ensures
      var cfg := Config(CsTool, "model.fmu", 1.0, 0.3, 0);
      var md := ModelDescription(Some(SharedLibraryMime), 0.0, 10.0);
      Admissible(cfg, md) &&
      StepTimes(Run(cfg, md, o).calls) == [0.0, 0.3, 0.6, 0.9]
  {
    var cfg := Config(CsTool, "model.fmu", 1.0, 0.3, 0);
    var md := ModelDescription(Some(SharedLibraryMime), 0.0, 10.0);
    var w := ResolveWindow(cfg, md);
    assert w == Window(0.0, 1.0, 0.3);
    var ts := StepTimes(Run(cfg, md, o).calls);
    SampleTimesInWindow(cfg, md, o);
    OutcomeClassification(cfg, md, o);
    RunStepTimes(cfg, md, o);
    LoopStepsInWindow(w, o, 0);
    LoopEnds(w, o, 0);
    assert GridPoint(w, 1) == 0.3 && GridPoint(w, 2) == 0.6;
    assert GridPoint(w, 3) == 0.9 && GridPoint(w, 4) == 1.2;
    forall j: nat | 3 < j ensures GridPoint(w, j) > w.tend {
      GridMonotone(w, 3, j);
    }
    forall j: nat | j < 3 ensures GridPoint(w, j) < 0.9 {
      GridMonotone(w, j, 3);
    }
    assert |ts| > 0 ==> GridPoint(w, |ts| - 1) <= w.tend;
    assert |ts| == 4;
    assert ts[0] == 0.0 && ts[1] == 0.3 && ts[2] == 0.6 && ts[3] == 0.9;
  }
}
