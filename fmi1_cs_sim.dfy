/** The simulation driver for FMI 1.0 co-simulation FMUs, step by step as the
    checker runs it. The slave and the CSV writer are foreign: their answers
    come from the oracle, and the calls made on them are recorded in a ghost
    trace. */
module Fmi1CsSim {
  import opened Fmi1Types
  import opened Fmi1CsSpec

  /** Drives one co-simulation slave through instantiate, initialize, the
      step loop, terminate and free, and reports the run's status. */
  method Simulate(cfg: Config, md: ModelDescription, o: Oracle)
    returns (status: JmStatus, ghost calls: seq<Call>)
    requires Admissible(cfg, md)
    ensures status == Run(cfg, md, o).status
    ensures calls == Run(cfg, md, o).calls
  {
    var jmstatus := JmSuccess;
    var timeout, visible, interactive := 0.0, false, false;
    var tstart := md.defaultStart;
    var tcur := tstart;
    var tend := md.defaultStop;
    var stopTimeDefined := true;
    calls := [];

    var mimeType: string;
    if cfg.kind == CsStandalone || md.mimeType.None? || md.mimeType.value == "" {
      mimeType := SharedLibraryMime;
    } else {
      mimeType := md.mimeType.value;
      if mimeType != SharedLibraryMime && mimeType != ModelicaMime {
        // the FMU asks for a simulator that has to be started by hand
        assert Run(cfg, md, o) == Outcome(JmSuccess, []);
        return JmSuccess, calls;
      }
    }
    if cfg.stopTime > 0.0 {
      tend := cfg.stopTime;
    }
    var hstep: real;
    if cfg.stepSize > 0.0 {
      hstep := cfg.stepSize;
    } else {
      hstep := (tend - tstart) / (cfg.numSteps as real);
    }
    assert SelectMimeType(cfg.kind, md.mimeType) == Some(mimeType);
    ghost var w := ResolveWindow(cfg, md);
    assert w == Window(tstart, tend, hstep);

    jmstatus := o.instantiate;
    calls := calls + [Instantiate(InstanceName, cfg.location, mimeType, timeout, visible, interactive)];
    if jmstatus == JmError {
      assert Run(cfg, md, o) == Outcome(JmError, calls);
      return JmError, calls;
    }

    var fmistatus := o.initialize;
    calls := calls + [Initialize(tstart, stopTimeDefined, tend)];
    if IsOkStatus(fmistatus) {
      fmistatus := Ok;
    } else {
      fmistatus := Fatal;
      jmstatus := JmError;
    }

    ghost var started := calls;
    assert started == [Instantiate(InstanceName, cfg.location, mimeType, 0.0, false, false),
                       Initialize(w.tstart, true, w.tend)];
    var k: nat := 0;  // the number of steps taken so far
    while tcur <= tend && fmistatus == Ok
      invariant hstep == w.h && tstart == w.tstart && tend == w.tend && Progresses(w, k)
      invariant IsOkStatus(o.initialize) ==> fmistatus == Ok && jmstatus == o.instantiate
      invariant !IsOkStatus(o.initialize) ==> fmistatus == Fatal && jmstatus == JmError && calls == started
      invariant tcur == GridPoint(w, k) || (tcur > tend && GridPoint(w, k) > tend)
      invariant IsOkStatus(o.initialize) ==> Prepend(started, Loop(w, o, 0)) == Prepend(calls, Loop(w, o, k))
      decreases Remaining(w, k)
    {
      RemainingDecreases(w, k);
      var newStep := true;
      if tcur >= tend - 0.001 * hstep {
        // the last step is taken at the end time
        ClampedIsLast(w, k);
        tcur := tend;
      }
      assert tcur == SampleTime(w, k);
      fmistatus := o.doStep(k);
      var written := o.writeCsv(k);
      if !written || !IsOkStatus(fmistatus) {
        LoopStop(w, o, k, calls);
      } else {
        LoopAdvance(w, o, k, calls);
      }
      calls := calls + [DoStep(tcur, hstep, newStep), WriteCsv(tcur)];
      if !written {
        jmstatus := JmError;
        break;
      }
      if IsOkStatus(fmistatus) {
        fmistatus := Ok;
      } else {
        break;
      }
      tcur := tcur + hstep;
      k := k + 1;
    }

    if IsOkStatus(o.initialize) && fmistatus == Ok && jmstatus != JmError {
      // the loop ran out of time
      LoopUnfold(w, o, k);
    }
    assert IsOkStatus(o.initialize) ==>
      started + Loop(w, o, 0).calls == calls &&
      (Failed(Loop(w, o, 0)) <==> jmstatus == JmError || !IsOkStatus(fmistatus));

    if !IsOkStatus(fmistatus) {
      jmstatus := JmError;
    }

    // fmiTerminateSlave: a status other than ok is only logged
    var terminateStatus := o.terminate;
    calls := calls + [Terminate, FreeInstance];
    RunInstantiated(cfg, md, o);
    if IsOkStatus(o.initialize) {
      assert calls == started + Loop(w, o, 0).calls + [Terminate, FreeInstance];
    } else {
      assert calls == started + [Terminate, FreeInstance];
    }
    return jmstatus, calls;
  }
}
