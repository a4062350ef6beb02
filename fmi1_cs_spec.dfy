/** Reference semantics of the FMI 1.0 co-simulation driver: which transport
    is chosen, which window is simulated, which calls are made in which order
    and what the run reports. */
module Fmi1CsSpec {
  import opened Fmi1Types

  /** MIME-type gating: the transport the slave is instantiated with, or None
      when the FMU asks for a simulator the checker cannot start itself. */
  function SelectMimeType(kind: FmuKind, declared: Option<string>): (r: Option<string>)
    ensures r.Some? ==> r.value == SharedLibraryMime || r.value == ModelicaMime
    ensures r.None? ==> declared.Some? && declared.value !in {"", SharedLibraryMime, ModelicaMime}
  {
    if kind == CsStandalone || declared.None? || declared.value == "" then
      Some(SharedLibraryMime)
    else if declared.value != SharedLibraryMime && declared.value != ModelicaMime then
      None
    else
      declared
  }

  /** The simulated window: start time, end time and step size. */
  datatype Window = Window(tstart: real, tend: real, h: real)

  /** The step size can be computed: given outright, or derived from a
      positive number of steps. */
  predicate StepSizeDefined(cfg: Config) {
    cfg.stepSize > 0.0 || cfg.numSteps > 0
  }

  /** Window resolution: the default experiment, with the end time and the
      step size overridden by positive settings. */
  function ResolveWindow(cfg: Config, md: ModelDescription): (w: Window)
    requires StepSizeDefined(cfg)
    ensures w.tstart == md.defaultStart
    ensures cfg.stopTime > 0.0 ==> w.tend == cfg.stopTime
    ensures cfg.stopTime <= 0.0 ==> w.tend == md.defaultStop
    ensures cfg.stepSize > 0.0 ==> w.h == cfg.stepSize
    ensures cfg.stepSize <= 0.0 ==> GridPoint(w, cfg.numSteps) == w.tend
  {
    var tend := if cfg.stopTime > 0.0 then cfg.stopTime else md.defaultStop;
    var h := if cfg.stepSize > 0.0 then cfg.stepSize
             else (tend - md.defaultStart) / (cfg.numSteps as real);
    var w := Window(md.defaultStart, tend, h);
    GridPointLinear(w, cfg.numSteps);
    w
  }

  /** The settings describe a run that ends: a step size can be computed,
      and it is positive or the window ends before it starts (so that the
      loop is skipped). */
  predicate WellPosed(cfg: Config, md: ModelDescription) {
    && StepSizeDefined(cfg)
    && (ResolveWindow(cfg, md).h > 0.0 || ResolveWindow(cfg, md).tend < md.defaultStart)
  }

  /** What the driver needs of its settings: a well-posed window whenever the
      transport is accepted (a rejected transport computes no window). */
  predicate Admissible(cfg: Config, md: ModelDescription) {
    SelectMimeType(cfg.kind, md.mimeType).Some? ==> WellPosed(cfg, md)
  }

  /** The current time before the k-th step, when no earlier step was
      snapped: the start time advanced k times by the step size. */
  function GridPoint(w: Window, k: nat): real {
    if k == 0 then w.tstart else GridPoint(w, k - 1) + w.h
  }

  /** The grid in closed form. */
  lemma {:induction false} GridPointLinear(w: Window, k: nat)
    ensures GridPoint(w, k) == w.tstart + (k as real) * w.h
  {
    if k > 0 {
      GridPointLinear(w, k - 1);
      assert (k as real) * w.h == ((k - 1) as real) * w.h + w.h;
    }
  }

  /** The end-time clamp: a time within a thousandth of a step below the end
      time is moved onto the end time. */
  function Clamp(w: Window, t: real): real {
    if t >= w.tend - 0.001 * w.h then w.tend else t
  }

  /** The time the k-th step is taken at and written at. */
  function SampleTime(w: Window, k: nat): real {
    Clamp(w, GridPoint(w, k))
  }

  /** The loop from the k-th step on ends: the step size is positive, or
      the k-th grid point already lies past the end time. */
  predicate Progresses(w: Window, k: nat) {
    w.h > 0.0 || GridPoint(w, k) > w.tend
  }

  /** An upper bound on the steps still to come from the k-th on. */
  function Remaining(w: Window, k: nat): nat {
    if w.h <= 0.0 then 0
    else
      var m := ((w.tend - w.tstart) / w.h).Floor + 1 - k;
      if m < 0 then 0 else m
  }

  /** A grid point that still lies in the window leaves a positive bound. */
  lemma RemainingDecreases(w: Window, k: nat)
    requires w.h > 0.0
    requires GridPoint(w, k) <= w.tend
    ensures Remaining(w, k + 1) < Remaining(w, k)
  {
    GridPointLinear(w, k);
    var q := (w.tend - w.tstart) / w.h;
    assert q * w.h == w.tend - w.tstart;
    assert ((k as real) - q) * w.h <= 0.0;
    assert (k as real) <= q;
  }

  /** How the step loop ended: the calls it made, the last step status it
      holds (Ok once normalised) and whether the result sink failed. */
  datatype LoopExit = LoopExit(calls: seq<Call>, status: FmiStatus, sinkFailed: bool)

  /** The loop reports a failure: a sink failure or a step status that does
      not pass. */
  predicate Failed(e: LoopExit) {
    e.sinkFailed || !IsOkStatus(e.status)
  }

  /** The k-th answers of the step and of the CSV writer both let the loop go on. */
  predicate Succeeded(o: Oracle, k: nat) {
    o.writeCsv(k) && IsOkStatus(o.doStep(k))
  }

  /** The step loop from the k-th step on: while the current time has not
      passed the end time, take a step at the (clamped) current time, write
      the result at that time, stop on a sink failure or on a step status
      that does not pass, and advance by one step. */
  function Loop(w: Window, o: Oracle, k: nat): LoopExit
    requires Progresses(w, k)
    decreases Remaining(w, k)
  {
    var t := GridPoint(w, k);
    if !(t <= w.tend) then LoopExit([], Ok, false)
    else
      var tc := Clamp(w, t);
      var here := [DoStep(tc, w.h, true), WriteCsv(tc)];
      var status := o.doStep(k);
      if !o.writeCsv(k) then LoopExit(here, status, true)
      else if !IsOkStatus(status) then LoopExit(here, status, false)
      else
        RemainingDecreases(w, k);
        var rest := Loop(w, o, k + 1);
        LoopExit(here + rest.calls, rest.status, rest.sinkFailed)
  }

  /** The grid advances by one step size per step. */
  lemma GridAdvance(w: Window, k: nat)
    ensures GridPoint(w, k + 1) == GridPoint(w, k) + w.h
  {
  }

  /** A snapped step is the last one: the next grid point lies past the end. */
  lemma ClampedIsLast(w: Window, k: nat)
    requires w.h > 0.0
    requires GridPoint(w, k) >= w.tend - 0.001 * w.h
    ensures GridPoint(w, k + 1) > w.tend
  {
    GridAdvance(w, k);
  }

  /** One step of the loop, unfolded. */
  lemma LoopUnfold(w: Window, o: Oracle, k: nat)
    requires Progresses(w, k)
    ensures GridPoint(w, k) > w.tend ==> Loop(w, o, k) == LoopExit([], Ok, false)
    ensures GridPoint(w, k) <= w.tend ==>
      var here := [DoStep(SampleTime(w, k), w.h, true), WriteCsv(SampleTime(w, k))];
      Loop(w, o, k) ==
        if !o.writeCsv(k) then LoopExit(here, o.doStep(k), true)
        else if !IsOkStatus(o.doStep(k)) then LoopExit(here, o.doStep(k), false)
        else LoopExit(here + Loop(w, o, k + 1).calls, Loop(w, o, k + 1).status, Loop(w, o, k + 1).sinkFailed)
  {
  }

  /** The loop exit e, with calls made before it in front of its own. */
  function Prepend(before: seq<Call>, e: LoopExit): LoopExit {
    LoopExit(before + e.calls, e.status, e.sinkFailed)
  }

  /** A step that passes moves its two calls from the rest of the loop to the
      calls already made. */
  lemma LoopAdvance(w: Window, o: Oracle, k: nat, before: seq<Call>)
    requires w.h > 0.0
    requires GridPoint(w, k) <= w.tend
    requires Succeeded(o, k)
    ensures Prepend(before, Loop(w, o, k)) ==
      Prepend(before + [DoStep(SampleTime(w, k), w.h, true), WriteCsv(SampleTime(w, k))], Loop(w, o, k + 1))
  {
    LoopUnfold(w, o, k);
    var here := [DoStep(SampleTime(w, k), w.h, true), WriteCsv(SampleTime(w, k))];
    assert before + (here + Loop(w, o, k + 1).calls) == (before + here) + Loop(w, o, k + 1).calls;
  }

  /** A step that fails ends the loop with its two calls. */
  lemma LoopStop(w: Window, o: Oracle, k: nat, before: seq<Call>)
    requires w.h > 0.0
    requires GridPoint(w, k) <= w.tend
    requires !Succeeded(o, k)
    ensures Prepend(before, Loop(w, o, k)) ==
      LoopExit(before + [DoStep(SampleTime(w, k), w.h, true), WriteCsv(SampleTime(w, k))],
               o.doStep(k), !o.writeCsv(k))
  {
    LoopUnfold(w, o, k);
  }

  /** The run gets as far as the step loop: the transport is accepted, the
      slave is instantiated and its initialization passes. */
  predicate ReachesLoop(cfg: Config, md: ModelDescription, o: Oracle) {
    SelectMimeType(cfg.kind, md.mimeType).Some? && o.instantiate != JmError && IsOkStatus(o.initialize)
  }

  /** What a run reports and the calls it makes, in order. */
  datatype Outcome = Outcome(status: JmStatus, calls: seq<Call>)

  /** The whole run: gating, instantiation, initialization, the step loop,
      classification of the outcome, then termination and freeing of the
      instance whenever it was instantiated. */
  function Run(cfg: Config, md: ModelDescription, o: Oracle): Outcome
    requires Admissible(cfg, md)
  {
    match SelectMimeType(cfg.kind, md.mimeType)
    case None => Outcome(JmSuccess, [])
    case Some(mime) =>
      var w := ResolveWindow(cfg, md);
      var instantiate := [Instantiate(InstanceName, cfg.location, mime, 0.0, false, false)];
      if o.instantiate == JmError then Outcome(JmError, instantiate)
      else
        var started := instantiate + [Initialize(w.tstart, true, w.tend)];
        var cleanup := [Terminate, FreeInstance];
        if !IsOkStatus(o.initialize) then Outcome(JmError, started + cleanup)
        else
          var e := Loop(w, o, 0);
          Outcome(if Failed(e) then JmError else o.instantiate, started + e.calls + cleanup)
  }

  /** A run whose slave was instantiated: instantiate and initialize, the
      step loop when initialization passed, then terminate and free. */
  lemma RunInstantiated(cfg: Config, md: ModelDescription, o: Oracle)
    requires Admissible(cfg, md)
    requires SelectMimeType(cfg.kind, md.mimeType).Some?
    requires o.instantiate != JmError
    ensures
      var w := ResolveWindow(cfg, md);
      var started := [Instantiate(InstanceName, cfg.location, SelectMimeType(cfg.kind, md.mimeType).value, 0.0, false, false),
                      Initialize(w.tstart, true, w.tend)];
      Run(cfg, md, o) ==
        if !IsOkStatus(o.initialize) then Outcome(JmError, started + [Terminate, FreeInstance])
        else Outcome(if Failed(Loop(w, o, 0)) then JmError else o.instantiate,
                     started + Loop(w, o, 0).calls + [Terminate, FreeInstance])
  {
  }

  /** The calls split into pairs of a new step of size h and a write at the
      time of that step. */
  predicate StepWritePairs(calls: seq<Call>, h: real) {
    if calls == [] then true
    else
      && |calls| >= 2
      && calls[0].DoStep? && calls[0].h == h && calls[0].newStep
      && calls[1] == WriteCsv(calls[0].t)
      && StepWritePairs(calls[2..], h)
  }

  /** The times of the step calls in a trace, in order. */
  function StepTimes(calls: seq<Call>): seq<real> {
    if calls == [] then []
    else (if calls[0].DoStep? then [calls[0].t] else []) + StepTimes(calls[1..])
  }
}
