/** One request through the failover gateway, as the sequence of registry calls it makes, and
    what every sequential run of requests guarantees.

    A request carries the outcome of each backend call it might make and the clock reading of
    each registry call it might make, in program order; which of them happen is decided here. */
module RequestRouting {
  import opened Common
  import opened CircuitRegistries
  import opened CircuitHistories

  /** How `_run_modal_operation` can end. */
  datatype Outcome = Ok | Failed | Saturated

  datatype Force = Unforced | ForceModal | ForceCloudRun

  /** The backend a response names. */
  datatype Backend = Modal | CloudRun | NoBackend

  datatype Ticks = Ticks(
    ready: real, due: real, probe: real, record: real, statusDue: real, statusRecord: real, open: real,
    callRecord: real, callStatusDue: real, callStatusRecord: real, callOpen: real)
  {
    predicate Ordered() {
      && ready <= due <= probe <= record <= statusDue <= statusRecord <= open
      && open <= callRecord <= callStatusDue <= callStatusRecord <= callOpen
    }
  }

  datatype Request = Request(
    channel: Channel,
    force: Force,
    canary: Outcome,
    probe: Outcome,
    call: Outcome,
    callCanary: Outcome,
    fallbackOk: bool,
    ticks: Ticks)

  /** A channel's circuit part-way through a request, and the registry calls made so far. */
  datatype Progress = Progress(c: Circuit, events: Trace)

  function Do(g: Progress, ch: Channel, op: Op, now: real, p: SanePolicy): Progress {
    Progress(Apply(g.c, op, now, p), g.events + [Event(ch, op, now)])
  }

  function LogStatus(g: Progress, ch: Channel, due: real, record: real, p: SanePolicy): Progress {
    if StatusCheckDue(g.c, due) then Do(g, ch, StatusCheck, record, p) else g
  }

  /** A Modal failure: evidence, and an opening when the threshold is reached and a canary fails. */
  function FailureStep(g: Progress, ch: Channel, canary: Outcome, record: real, statusDue: real, statusRecord: real,
                       open: real, p: SanePolicy): Progress
  {
    var g1 := Do(g, ch, RecordFailure, record, p);
    if !FailureVerdict(g.c, record, p) then g1
    else
      var g2 := LogStatus(g1, ch, statusDue, statusRecord, p);
      if canary.Failed? then Do(g2, ch, Open, open, p) else g2
  }

  function RefreshOpen(g: Progress, r: Request, p: SanePolicy): Progress {
    if !RecoveryDue(g.c, r.ticks.ready, p) || !ProbeDue(g.c, r.ticks.due) then g
    else
      var g1 := Do(g, r.channel, ProbeAttempt, r.ticks.probe, p);
      match if r.canary.Ok? then r.probe else r.canary
      case Ok => Do(g1, r.channel, RecoverySuccess, r.ticks.record, p)
      case Saturated => g1
      case Failed => Do(g1, r.channel, RecoveryFailure, r.ticks.record, p)
  }

  function RefreshClosed(g: Progress, r: Request, p: SanePolicy): Progress {
    if !ProbeDue(g.c, r.ticks.due) then g
    else
      var g1 := Do(g, r.channel, ProbeAttempt, r.ticks.probe, p);
      match r.probe
      case Ok => Do(g1, r.channel, RecordSuccess, r.ticks.record, p)
      case Saturated => g1
      case Failed =>
        var t := r.ticks;
        FailureStep(g1, r.channel, r.canary, t.record, t.statusDue, t.statusRecord, t.open, p)
  }

  function Refresh(g: Progress, r: Request, p: SanePolicy): Progress {
    if g.c.isOpen then RefreshOpen(g, r, p) else RefreshClosed(g, r, p)
  }

  function Fallback(r: Request): Backend {
    if r.fallbackOk then CloudRun else NoBackend
  }

  /** The Modal call of an unforced request. */
  function Call(g: Progress, r: Request, p: SanePolicy): (Progress, Backend) {
    match r.call
    case Ok => (Do(g, r.channel, RecordSuccess, r.ticks.callRecord, p), Modal)
    case Saturated => (g, NoBackend)
    case Failed =>
      var t := r.ticks;
      var g1 := FailureStep(g, r.channel, r.callCanary, t.callRecord, t.callStatusDue, t.callStatusRecord, t.callOpen, p);
      (g1, if FailureVerdict(g.c, t.callRecord, p) && r.callCanary.Failed? then Fallback(r) else NoBackend)
  }

  function Route(c: Circuit, r: Request, p: SanePolicy): (Progress, Backend) {
    match r.force
    case ForceCloudRun => (Progress(c, []), Fallback(r))
    case ForceModal =>
      if r.call.Ok? then (Do(Progress(c, []), r.channel, RecordSuccess, r.ticks.callRecord, p), Modal)
      else (Progress(c, []), NoBackend)
    case Unforced =>
      var g := Refresh(Progress(c, []), r, p);
      if g.c.isOpen then (g, Fallback(r)) else Call(g, r, p)
  }

  // ----- the routing functions on the registry object -----

  method LogModalStatusAfterThreshold(registry: CircuitRegistry, ch: Channel, due: real, record: real,
                                      p: SanePolicy, ghost events: Trace)
    modifies registry.At(ch)
    ensures registry.At(ch).View()
         == LogStatus(Progress(old(registry.At(ch).View()), events), ch, due, record, p).c
  {
    if due - registry.At(ch).lastStatusCheckAt >= STATUS_CHECK_INTERVAL_SECONDS {
      registry.RecordModalStatusCheck(ch, p, record);
    }
  }

  method RefreshModalCircuit(registry: CircuitRegistry, r: Request, p: SanePolicy)
    modifies registry.At(r.channel)
    ensures registry.At(r.channel).View()
         == Refresh(Progress(old(registry.At(r.channel).View()), []), r, p).c
  {
    var circuit := registry.At(r.channel);
    if circuit.isOpen {
      RefreshOpenModalCircuit(registry, r, p);
      return;
    }
    if !(r.ticks.due - circuit.lastProbeAt >= PROBE_INTERVAL_SECONDS) {
      return;
    }
    registry.RecordProbeAttempt(r.channel, p, r.ticks.probe);
    if r.probe.Ok? {
      registry.RecordSuccess(r.channel, p, r.ticks.record);
    } else if r.probe.Failed? {
      var reached := registry.RecordFailure(r.channel, p, r.ticks.record);
      if reached {
        LogModalStatusAfterThreshold(registry, r.channel, r.ticks.statusDue, r.ticks.statusRecord, p, []);
        if r.canary.Failed? {
          registry.Open(r.channel, p, r.ticks.open);
        }
      }
    }
  }

  method RefreshOpenModalCircuit(registry: CircuitRegistry, r: Request, p: SanePolicy)
    modifies registry.At(r.channel)
    ensures registry.At(r.channel).View()
         == RefreshOpen(Progress(old(registry.At(r.channel).View()), []), r, p).c
  {
    var circuit := registry.At(r.channel);
    if !(circuit.isOpen && r.ticks.ready - circuit.openedAt >= p.minOpen) {
      return;
    }
    if !(r.ticks.due - circuit.lastProbeAt >= PROBE_INTERVAL_SECONDS) {
      return;
    }
    registry.RecordProbeAttempt(r.channel, p, r.ticks.probe);
    var outcome := r.canary;
    if outcome.Ok? {
      outcome := r.probe;
    }
    match outcome {
      case Ok => var _ := registry.RecordRecoverySuccess(r.channel, p, r.ticks.record);
      case Saturated =>
      case Failed => registry.RecordRecoveryFailure(r.channel, p, r.ticks.record);
    }
  }

  method RouteToBackend(registry: CircuitRegistry, r: Request, p: SanePolicy) returns (backend: Backend)
    modifies registry.At(r.channel)
    ensures registry.At(r.channel).View() == Route(old(registry.At(r.channel).View()), r, p).0.c
    ensures backend == Route(old(registry.At(r.channel).View()), r, p).1
  {
    if r.force.ForceCloudRun? {
      return if r.fallbackOk then CloudRun else NoBackend;
    }
    if r.force.Unforced? {
      RefreshModalCircuit(registry, r, p);
      if registry.At(r.channel).isOpen {
        return if r.fallbackOk then CloudRun else NoBackend;
      }
    }
    ghost var events := Refresh(Progress(old(registry.At(r.channel).View()), []), r, p).events;
    match r.call {
      case Ok =>
        registry.RecordSuccess(r.channel, p, r.ticks.callRecord);
        backend := Modal;
      case Saturated =>
        backend := NoBackend;
      case Failed =>
        backend := NoBackend;
        if r.force.Unforced? {
          var reached := registry.RecordFailure(r.channel, p, r.ticks.callRecord);
          if reached {
            events := events + [Event(r.channel, RecordFailure, r.ticks.callRecord)];
            LogModalStatusAfterThreshold(
              registry, r.channel, r.ticks.callStatusDue, r.ticks.callStatusRecord, p, events);
            if r.callCanary.Failed? {
              registry.Open(r.channel, p, r.ticks.callOpen);
              backend := if r.fallbackOk then CloudRun else NoBackend;
            }
          }
        }
    }
  }

  // ----- sequential runs are traces of locked calls -----

  /** The registry calls of a run of requests, one request after the other. */
  function TraceOf(rs: seq<Request>, p: SanePolicy): Trace {
    if rs == [] then []
    else
      var n := |rs| - 1;
      TraceOf(rs[..n], p) + Route(StateAfter(rs[..n], rs[n].channel, p), rs[n], p).0.events
  }

  function StateAfter(rs: seq<Request>, ch: Channel, p: SanePolicy): Circuit {
    if rs == [] then INITIAL
    else
      var n := |rs| - 1;
      var c := StateAfter(rs[..n], ch, p);
      if rs[n].channel == ch then Route(c, rs[n], p).0.c else c
  }

  /** Requests do not overlap and the clock never goes back. */
  ghost predicate Sequential(rs: seq<Request>) {
    && (forall i :: 0 <= i < |rs| ==> rs[i].ticks.Ordered())
    && (forall i, j :: 0 <= i < j < |rs| ==> rs[i].ticks.callOpen <= rs[j].ticks.ready)
  }

  /** The time of the channel's latest opening. */
  function LastOpening(trace: Trace, ch: Channel): Option<real> {
    if trace == [] then None
    else
      var e := trace[|trace| - 1];
      if e.channel == ch && e.op.Open? then Some(e.at) else LastOpening(trace[..|trace| - 1], ch)
  }

  /** How long a channel stays on the fallback at the least. */
  function MinimumDwell(p: SanePolicy): real {
    p.minOpen + PROBE_INTERVAL_SECONDS * (p.recoverySuccesses - 1) as real
  }

  predicate ChangesState(before: Circuit, e: Event, ch: Channel, p: SanePolicy) {
    e.channel == ch && (e.op.Open? || (before.isOpen && !Apply(before, e.op, e.at, p).isOpen))
  }

  /** One more event on a channel keeps its distance: openings and closings from the last opening,
      probes from the last probe, status checks from the last status check. */
  predicate KeepsDistance(before: Circuit, lastOpening: Option<real>, e: Event, ch: Channel, p: SanePolicy) {
    && (ChangesState(before, e, ch, p) && lastOpening.Some? ==> e.at >= lastOpening.value + MinimumDwell(p))
    && (e.channel == ch && e.op.ProbeAttempt? ==> e.at >= before.lastProbeAt + PROBE_INTERVAL_SECONDS)
    && (e.channel == ch && e.op.StatusCheck? ==> e.at >= before.lastStatusCheckAt + STATUS_CHECK_INTERVAL_SECONDS)
  }

  ghost predicate WellSpaced(trace: Trace, ch: Channel, p: SanePolicy) {
    trace == [] ||
    var n := |trace| - 1;
    && WellSpaced(trace[..n], ch, p)
    && KeepsDistance(Run(trace[..n], ch, p), LastOpening(trace[..n], ch), trace[n], ch, p)
  }

  /** While open, each step of the streak has cost at least one probe interval; once closed,
      the dwell has been served. */
  ghost predicate Dwelling(c: Circuit, lastOpening: Option<real>, p: SanePolicy, now: real) {
    && 0 <= c.streak < p.recoverySuccesses
    && (c.isOpen ==> lastOpening == Some(c.openedAt))
    && (c.isOpen && c.streak >= 1 ==>
          c.lastProbeAt >= c.openedAt + p.minOpen + PROBE_INTERVAL_SECONDS * (c.streak - 1) as real)
    && (!c.isOpen && lastOpening.Some? ==> lastOpening.value + MinimumDwell(p) <= now)
  }

  /** What one request at a time respects, and arbitrary interleavings of locked calls need not. */
  predicate Legal(c: Circuit, op: Op, now: real, p: SanePolicy) {
    match op
    case Open => !c.isOpen
    case ProbeAttempt => now >= c.lastProbeAt + PROBE_INTERVAL_SECONDS
    case StatusCheck => now >= c.lastStatusCheckAt + STATUS_CHECK_INTERVAL_SECONDS
    case RecoverySuccess =>
      && c.isOpen && c.lastProbeAt <= now
      && c.lastProbeAt >= c.openedAt + p.minOpen + PROBE_INTERVAL_SECONDS * c.streak as real
    case _ => true
  }

  lemma LegalStepDwells(c: Circuit, e: Event, last: Option<real>, p: SanePolicy, now: real)
    requires Dwelling(c, last, p, now) && now <= e.at && Legal(c, e.op, e.at, p)
    ensures Dwelling(Apply(c, e.op, e.at, p), if e.op.Open? then Some(e.at) else last, p, e.at)
    ensures KeepsDistance(c, last, e, e.channel, p)
  {
  }

  /** Part of a request has been carried out: the trace so far leads to its circuit, its calls
      are on its channel and in time order, and the dwell has been respected. */
  ghost predicate Coherent(base: Trace, g: Progress, r: Request, p: SanePolicy, now: real) {
    && Run(base + g.events, r.channel, p) == g.c
    && InOrder(g.events, r.channel, r.ticks.ready, now)
    && WellSpaced(base + g.events, r.channel, p)
    && Dwelling(g.c, LastOpening(base + g.events, r.channel), p, now)
  }

  ghost predicate InOrder(events: Trace, ch: Channel, start: real, end: real) {
    && (forall e <- events :: e.channel == ch && start <= e.at <= end)
    && Timed(events)
  }

  lemma InOrderSnoc(events: Trace, e: Event, start: real, end: real)
    requires InOrder(events, e.channel, start, end) && start <= e.at && end <= e.at
    ensures InOrder(events + [e], e.channel, start, e.at)
  {
    var events' := events + [e];
    forall i, j | 0 <= i < j < |events'| ensures events'[i].at <= events'[j].at {
      assert events'[i] == events[i] && events[i] in events;
      assert j < |events| ==> events'[j] == events[j];
    }
  }

  lemma DoKeepsCoherent(base: Trace, g: Progress, r: Request, p: SanePolicy, now: real, op: Op, now': real)
    requires Coherent(base, g, r, p, now) && r.ticks.ready <= now <= now' && Legal(g.c, op, now', p)
    ensures Coherent(base, Do(g, r.channel, op, now', p), r, p, now')
  {
    var e := Event(r.channel, op, now');
    RunSnoc(base + g.events, e, p);
    InOrderSnoc(g.events, e, r.ticks.ready, now);
    LegalStepDwells(g.c, e, LastOpening(base + g.events, r.channel), p, now);
    assert base + (g.events + [e]) == base + g.events + [e];
  }

  lemma RunSnoc(trace: Trace, e: Event, p: SanePolicy)
    ensures Run(trace + [e], e.channel, p) == Apply(Run(trace, e.channel, p), e.op, e.at, p)
    ensures LastOpening(trace + [e], e.channel) == if e.op.Open? then Some(e.at) else LastOpening(trace, e.channel)
    ensures WellSpaced(trace + [e], e.channel, p) <==>
            && WellSpaced(trace, e.channel, p)
            && KeepsDistance(Run(trace, e.channel, p), LastOpening(trace, e.channel), e, e.channel, p)
  {
    assert (trace + [e])[..|trace|] == trace;
  }

  lemma CoherentLater(base: Trace, g: Progress, r: Request, p: SanePolicy, now: real, now': real)
    requires Coherent(base, g, r, p, now) && now <= now'
    ensures Coherent(base, g, r, p, now')
  {
  }

  lemma LogStatusIsTraced(base: Trace, g: Progress, r: Request, p: SanePolicy, now: real, due: real, record: real)
    requires Coherent(base, g, r, p, now) && r.ticks.ready <= now <= due <= record
    ensures Coherent(base, LogStatus(g, r.channel, due, record, p), r, p, record)
  {
    if StatusCheckDue(g.c, due) {
      DoKeepsCoherent(base, g, r, p, now, StatusCheck, record);
    }
  }

  lemma RefreshOpenIsTraced(base: Trace, g: Progress, r: Request, p: SanePolicy)
    requires r.ticks.Ordered() && Coherent(base, g, r, p, r.ticks.ready)
    ensures Coherent(base, RefreshOpen(g, r, p), r, p, r.ticks.open)
  {
    var t := r.ticks;
    if RecoveryDue(g.c, t.ready, p) && ProbeDue(g.c, t.due) {
      DoKeepsCoherent(base, g, r, p, t.ready, ProbeAttempt, t.probe);
      var g1 := Do(g, r.channel, ProbeAttempt, t.probe, p);
      match if r.canary.Ok? then r.probe else r.canary {
        case Ok =>
          DoKeepsCoherent(base, g1, r, p, t.probe, RecoverySuccess, t.record);
        case Saturated =>
          CoherentLater(base, g1, r, p, t.probe, t.open);
        case Failed =>
          DoKeepsCoherent(base, g1, r, p, t.probe, RecoveryFailure, t.record);
      }
    }
  }

  lemma FailureStepIsTraced(base: Trace, g: Progress, r: Request, now: real, canary: Outcome, record: real,
                            statusDue: real, statusRecord: real, open: real, p: SanePolicy)
    requires Coherent(base, g, r, p, now)
    requires r.ticks.ready <= now <= record <= statusDue <= statusRecord <= open
    ensures Coherent(base, FailureStep(g, r.channel, canary, record, statusDue, statusRecord, open, p), r, p, open)
  {
    DoKeepsCoherent(base, g, r, p, now, RecordFailure, record);
    var g1 := Do(g, r.channel, RecordFailure, record, p);
    if !FailureVerdict(g.c, record, p) {
      CoherentLater(base, g1, r, p, record, open);
    } else {
      ConfirmationIsTraced(base, g1, r, record, canary, statusDue, statusRecord, open, p);
    }
  }

  lemma ConfirmationIsTraced(base: Trace, g: Progress, r: Request, now: real, canary: Outcome,
                             statusDue: real, statusRecord: real, open: real, p: SanePolicy)
    requires Coherent(base, g, r, p, now) && !g.c.isOpen
    requires r.ticks.ready <= now <= statusDue <= statusRecord <= open
    ensures var g' := LogStatus(g, r.channel, statusDue, statusRecord, p);
            Coherent(base, if canary.Failed? then Do(g', r.channel, Open, open, p) else g', r, p, open)
  {
    LogStatusIsTraced(base, g, r, p, now, statusDue, statusRecord);
    var g' := LogStatus(g, r.channel, statusDue, statusRecord, p);
    if canary.Failed? {
      DoKeepsCoherent(base, g', r, p, statusRecord, Open, open);
    } else {
      CoherentLater(base, g', r, p, statusRecord, open);
    }
  }

  lemma RefreshClosedIsTraced(base: Trace, g: Progress, r: Request, p: SanePolicy)
    requires r.ticks.Ordered() && Coherent(base, g, r, p, r.ticks.ready)
    ensures Coherent(base, RefreshClosed(g, r, p), r, p, r.ticks.open)
  {
    var t := r.ticks;
    if ProbeDue(g.c, t.due) {
      DoKeepsCoherent(base, g, r, p, t.ready, ProbeAttempt, t.probe);
      var g1 := Do(g, r.channel, ProbeAttempt, t.probe, p);
      match r.probe {
        case Ok =>
          DoKeepsCoherent(base, g1, r, p, t.probe, RecordSuccess, t.record);
        case Saturated =>
          CoherentLater(base, g1, r, p, t.probe, t.open);
        case Failed =>
          FailureStepIsTraced(base, g1, r, t.probe, r.canary, t.record, t.statusDue, t.statusRecord, t.open, p);
      }
    }
  }

  lemma RefreshIsTraced(base: Trace, g: Progress, r: Request, p: SanePolicy)
    requires r.ticks.Ordered() && Coherent(base, g, r, p, r.ticks.ready)
    ensures Coherent(base, Refresh(g, r, p), r, p, r.ticks.open)
  {
    if g.c.isOpen {
      RefreshOpenIsTraced(base, g, r, p);
    } else {
      RefreshClosedIsTraced(base, g, r, p);
    }
  }

  lemma CallIsTraced(base: Trace, g: Progress, r: Request, p: SanePolicy)
    requires r.ticks.Ordered() && Coherent(base, g, r, p, r.ticks.open)
    ensures Coherent(base, Call(g, r, p).0, r, p, r.ticks.callOpen)
  {
    var t := r.ticks;
    if r.call.Ok? {
      DoKeepsCoherent(base, g, r, p, t.open, RecordSuccess, t.callRecord);
    } else if r.call.Failed? {
      FailureStepIsTraced(
        base, g, r, t.open, r.callCanary, t.callRecord, t.callStatusDue, t.callStatusRecord, t.callOpen, p);
    }
  }

  lemma RouteIsTraced(base: Trace, r: Request, p: SanePolicy)
    requires r.ticks.Ordered() && WellSpaced(base, r.channel, p)
    requires Dwelling(Run(base, r.channel, p), LastOpening(base, r.channel), p, r.ticks.ready)
    ensures Coherent(base, Route(Run(base, r.channel, p), r, p).0, r, p, r.ticks.callOpen)
  {
    var g := Progress(Run(base, r.channel, p), []);
    assert base + [] == base;
    assert Coherent(base, g, r, p, r.ticks.ready);
    if r.force.Unforced? {
      RefreshIsTraced(base, g, r, p);
      CallIsTraced(base, Refresh(g, r, p), r, p);
    } else {
      DoKeepsCoherent(base, g, r, p, r.ticks.ready, RecordSuccess, r.ticks.callRecord);
    }
  }

  lemma {:induction false} OtherChannelUntouched(base: Trace, events: Trace, ch: Channel, p: SanePolicy)
    requires forall e <- events :: e.channel != ch
    ensures Run(base + events, ch, p) == Run(base, ch, p)
    ensures LastOpening(base + events, ch) == LastOpening(base, ch)
    ensures WellSpaced(base + events, ch, p) <==> WellSpaced(base, ch, p)
  {
    if events == [] {
      assert base + events == base;
    } else {
      var n := |events| - 1;
      assert (base + events)[..|base| + n] == base + events[..n];
      assert events[n] in events;
      OtherChannelUntouched(base, events[..n], ch, p);
    }
  }

  lemma TimedConcat(base: Trace, events: Trace, ch: Channel, start: real, end: real)
    requires Timed(base) && InOrder(events, ch, start, end) && forall e <- base :: e.at <= start
    ensures Timed(base + events)
  {
    var trace := base + events;
    forall i, j | 0 <= i < j < |trace| ensures trace[i].at <= trace[j].at {
      if i < |base| <= j {
        assert base[i] in base && events[j - |base|] in events;
      }
    }
  }

  /** The time before which everything in a run has happened. */
  ghost predicate DoneBy(rs: seq<Request>, now: real) {
    rs != [] ==> rs[|rs| - 1].ticks.callOpen <= now
  }

  /** A sequential run is one particular interleaving of locked calls, so everything proved of
      all interleavings holds of it; beyond that, it respects the dwell. */
  lemma {:induction false} RunIsTrace(rs: seq<Request>, ch: Channel, p: SanePolicy, now: real)
    requires Sequential(rs) && DoneBy(rs, now)
    ensures StateAfter(rs, ch, p) == Run(TraceOf(rs, p), ch, p)
    ensures Timed(TraceOf(rs, p))
    ensures forall e <- TraceOf(rs, p) :: e.at <= now
    ensures WellSpaced(TraceOf(rs, p), ch, p)
    ensures Dwelling(StateAfter(rs, ch, p), LastOpening(TraceOf(rs, p), ch), p, now)
  {
    if rs != [] {
      var n := |rs| - 1;
      var r := rs[n];
      var base := TraceOf(rs[..n], p);
      RunIsTrace(rs[..n], ch, p, r.ticks.ready);
      RunIsTrace(rs[..n], r.channel, p, r.ticks.ready);
      RouteIsTraced(base, r, p);
      var events := Route(StateAfter(rs[..n], r.channel, p), r, p).0.events;
      TimedConcat(base, events, r.channel, r.ticks.ready, r.ticks.callOpen);
      if r.channel != ch {
        OtherChannelUntouched(base, events, ch, p);
      }
    }
  }
}
