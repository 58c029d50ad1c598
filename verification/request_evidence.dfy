/** Why circuits open: every remembered attempt is one backend operation that some request really
    performed, and every opening is the last call of the request whose failure justified it. */
module RequestEvidence {
  import opened Common
  import opened CircuitRegistries
  import opened CircuitHistories
  import opened RequestRouting

  // ----- what a request performs -----

  /** One request of a run as it was served: the circuit it found, the circuit and the registry
      calls at the end of its refresh, and all its registry calls. */
  datatype Served = Served(before: Circuit, refreshed: Progress, calls: Trace)

  /** Forced requests skip the refresh. */
  function Refreshed(c: Circuit, r: Request, p: SanePolicy): Progress {
    if r.force.Unforced? then Refresh(Progress(c, []), r, p) else Progress(c, [])
  }

  predicate Serves(s: Served, r: Request, p: SanePolicy) {
    s.refreshed == Refreshed(s.before, r, p) && s.calls == Route(s.before, r, p).0.events
  }

  /** The request ran a worker probe: it was due, and on an open circuit the canary succeeded first. */
  predicate ProbeRan(s: Served, r: Request, p: SanePolicy) {
    && r.force.Unforced? && ProbeDue(s.before, r.ticks.due)
    && (s.before.isOpen ==> RecoveryDue(s.before, r.ticks.ready, p) && r.canary.Ok?)
  }

  /** The request called Modal: it was forced to, or its refresh left the circuit closed. */
  predicate CallRan(s: Served, r: Request) {
    r.force.ForceModal? || (r.force.Unforced? && !s.refreshed.c.isOpen)
  }

  predicate EndsAs(outcome: Outcome, succeeded: bool) {
    outcome == if succeeded then Ok else Failed
  }

  /** Where, among its calls, the request records how its probe ended: on an open circuit only a
      success is an attempt. */
  predicate RecordsProbe(s: Served, r: Request, p: SanePolicy, i: int, succeeded: bool) {
    i == 1 && ProbeRan(s, r, p) && EndsAs(r.probe, succeeded) && (s.before.isOpen ==> succeeded)
  }

  /** Where the request records how its Modal call ended: of a forced call only the success is. */
  predicate RecordsCall(s: Served, r: Request, i: int, succeeded: bool) {
    && i == |s.refreshed.events| && CallRan(s, r)
    && EndsAs(r.call, succeeded) && (r.force.ForceModal? ==> succeeded)
  }

  predicate IsRecord(e: Event, succeeded: bool) {
    if succeeded then e.op.RecordSuccess? || e.op.RecoverySuccess? else e.op.RecordFailure?
  }

  lemma CallExtends(g: Progress, r: Request, p: SanePolicy, calls: Trace)
    requires calls == Call(g, r, p).0.events
    ensures g.events <= calls
    ensures r.call.Saturated? ==> calls == g.events
    ensures !r.call.Saturated? ==> |g.events| < |calls|
    ensures !r.call.Saturated? ==>
              calls[|g.events|] == Event(r.channel, if r.call.Ok? then RecordSuccess else RecordFailure, r.ticks.callRecord)
    ensures forall i :: |g.events| < i < |calls| ==> calls[i].op.StatusCheck? || calls[i].op.Open?
  {
  }

  lemma OpenProbesAreRecorded(s: Served, r: Request, p: SanePolicy, i: int, succeeded: bool)
    requires r.force.Unforced? && s.before.isOpen && s.refreshed == RefreshOpen(Progress(s.before, []), r, p)
    ensures (0 <= i < |s.refreshed.events| && IsRecord(s.refreshed.events[i], succeeded))
       <==> RecordsProbe(s, r, p, i, succeeded)
  {
  }

  lemma FailureIsRecorded(g: Progress, ch: Channel, canary: Outcome, record: real, statusDue: real,
                          statusRecord: real, open: real, p: SanePolicy, events: Trace)
    requires events == FailureStep(g, ch, canary, record, statusDue, statusRecord, open, p).events
    ensures g.events + [Event(ch, RecordFailure, record)] <= events
    ensures forall i :: |g.events| < i < |events| ==> events[i].op.StatusCheck? || events[i].op.Open?
  {
  }

  lemma ClosedProbesAreRecorded(s: Served, r: Request, p: SanePolicy, i: int, succeeded: bool)
    requires r.force.Unforced? && !s.before.isOpen && s.refreshed == RefreshClosed(Progress(s.before, []), r, p)
    ensures (0 <= i < |s.refreshed.events| && IsRecord(s.refreshed.events[i], succeeded))
       <==> RecordsProbe(s, r, p, i, succeeded)
  {
    var g, t := Progress(s.before, []), r.ticks;
    if ProbeDue(s.before, t.due) && r.probe.Failed? {
      var g1 := Do(g, r.channel, ProbeAttempt, t.probe, p);
      FailureIsRecorded(g1, r.channel, r.canary, t.record, t.statusDue, t.statusRecord, t.open, p, s.refreshed.events);
    }
  }

  lemma CallsAreRecorded(g: Progress, r: Request, p: SanePolicy, calls: Trace, i: int, succeeded: bool)
    requires calls == Call(g, r, p).0.events && i >= |g.events|
    ensures (i < |calls| && IsRecord(calls[i], succeeded)) <==> i == |g.events| && EndsAs(r.call, succeeded)
  {
    CallExtends(g, r, p, calls);
  }

  /** A request records attempts exactly where it performed operations: one record for a probe that
      ran and one for a call that ran, and none for a saturated operation. */
  lemma RecordsAreOperations(s: Served, r: Request, p: SanePolicy, i: int, succeeded: bool)
    requires Serves(s, r, p)
    ensures (0 <= i < |s.calls| && IsRecord(s.calls[i], succeeded))
       <==> RecordsProbe(s, r, p, i, succeeded) || RecordsCall(s, r, i, succeeded)
  {
    if r.force.Unforced? {
      if s.before.isOpen {
        OpenProbesAreRecorded(s, r, p, i, succeeded);
      } else {
        ClosedProbesAreRecorded(s, r, p, i, succeeded);
      }
      if !s.refreshed.c.isOpen {
        CallExtends(s.refreshed, r, p, s.calls);
        if i >= |s.refreshed.events| {
          CallsAreRecorded(s.refreshed, r, p, s.calls, i, succeeded);
        } else if i >= 0 {
          assert s.calls[i] == s.refreshed.events[i];
        }
      }
    }
  }

  predicate OnChannel(events: Trace, ch: Channel) {
    forall e <- events :: e.channel == ch
  }

  lemma FailureStepStaysOnChannel(g: Progress, ch: Channel, canary: Outcome, record: real, statusDue: real,
                                  statusRecord: real, open: real, p: SanePolicy)
    requires OnChannel(g.events, ch)
    ensures OnChannel(FailureStep(g, ch, canary, record, statusDue, statusRecord, open, p).events, ch)
  {
  }

  lemma RefreshStaysOnChannel(c: Circuit, r: Request, p: SanePolicy)
    ensures OnChannel(Refreshed(c, r, p).events, r.channel)
  {
    var g, t := Progress(c, []), r.ticks;
    if r.force.Unforced? && !c.isOpen && ProbeDue(c, t.due) && r.probe.Failed? {
      var g1 := Do(g, r.channel, ProbeAttempt, t.probe, p);
      FailureStepStaysOnChannel(g1, r.channel, r.canary, t.record, t.statusDue, t.statusRecord, t.open, p);
    }
  }

  lemma CallsStayOnChannel(s: Served, r: Request, p: SanePolicy)
    requires Serves(s, r, p)
    ensures OnChannel(s.calls, r.channel)
  {
    var g, t := s.refreshed, r.ticks;
    RefreshStaysOnChannel(s.before, r, p);
    FailureStepStaysOnChannel(g, r.channel, r.callCanary, t.callRecord, t.callStatusDue, t.callStatusRecord, t.callOpen, p);
  }

  // ----- where the calls of a request are in a run -----

  /** The calls of the first requests of a run, one after the other. */
  function CallsIn(run: seq<Served>): Trace {
    if run == [] then [] else CallsIn(run[..|run| - 1]) + run[|run| - 1].calls
  }

  ghost predicate ServedAt(rs: seq<Request>, run: seq<Served>, p: SanePolicy, n: nat) {
    && n < |rs| && n < |run|
    && run[n].before == Run(CallsIn(run[..n]), rs[n].channel, p)
    && Serves(run[n], rs[n], p)
  }

  /** How the requests of a run were served, one after the other. */
  ghost predicate IsRun(rs: seq<Request>, run: seq<Served>, p: SanePolicy) {
    |run| == |rs| && forall n: nat :: n < |rs| ==> ServedAt(rs, run, p, n)
  }

  /** Sequential requests are served with the calls of `TraceOf`. */
  lemma {:induction false} RunIsServed(rs: seq<Request>, p: SanePolicy) returns (run: seq<Served>)
    requires Sequential(rs)
    ensures IsRun(rs, run, p) && CallsIn(run) == TraceOf(rs, p)
  {
    if rs == [] {
      run := [];
    } else {
      var n := |rs| - 1;
      var earlier := RunIsServed(rs[..n], p);
      var c := StateAfter(rs[..n], rs[n].channel, p);
      RunIsTrace(rs[..n], rs[n].channel, p, rs[n].ticks.ready);
      var last := Served(c, Refreshed(c, rs[n], p), Route(c, rs[n], p).0.events);
      run := earlier + [last];
      LastServed(rs, earlier, last, p);
    }
  }

  lemma LastServed(rs: seq<Request>, earlier: seq<Served>, last: Served, p: SanePolicy)
    requires rs != [] && IsRun(rs[..|rs| - 1], earlier, p)
    requires last.before == Run(CallsIn(earlier), rs[|rs| - 1].channel, p) && Serves(last, rs[|rs| - 1], p)
    ensures IsRun(rs, earlier + [last], p) && CallsIn(earlier + [last]) == CallsIn(earlier) + last.calls
  {
    var run, k := earlier + [last], |rs| - 1;
    assert run[..k] == earlier;
    forall n: nat | n < |rs| ensures ServedAt(rs, run, p, n) {
      if n < k {
        assert ServedAt(rs[..k], earlier, p, n);
        assert run[..n] == earlier[..n];
      }
    }
  }

  lemma ServedStep(rs: seq<Request>, run: seq<Served>, p: SanePolicy)
    requires Sequential(rs) && rs != [] && run != []
    requires var n, m := |rs| - 1, |run| - 1;
             CallsIn(run[..m]) == TraceOf(rs[..n], p) && Serves(run[m], rs[n], p)
             && run[m].before == Run(CallsIn(run[..m]), rs[n].channel, p)
    ensures CallsIn(run) == TraceOf(rs, p)
  {
    var n := |rs| - 1;
    RunIsTrace(rs[..n], rs[n].channel, p, rs[n].ticks.ready);
  }

  /** There is no other way: the calls of any served prefix are those of `TraceOf`. */
  lemma {:induction false} ServedTrace(rs: seq<Request>, run: seq<Served>, p: SanePolicy, m: nat)
    requires Sequential(rs) && IsRun(rs, run, p) && m <= |rs|
    ensures CallsIn(run[..m]) == TraceOf(rs[..m], p)
  {
    if m > 0 {
      ServedTrace(rs, run, p, m - 1);
      assert ServedAt(rs, run, p, m - 1);
      var rs', run' := rs[..m], run[..m];
      assert run'[..m - 1] == run[..m - 1] && rs'[..m - 1] == rs[..m - 1];
      ServedStep(rs', run', p);
    }
  }

  /** The request that makes the j-th call of a run. */
  function RequestAt(run: seq<Served>, j: nat): nat
    requires j < |CallsIn(run)|
  {
    var n := |run| - 1;
    if j < |CallsIn(run[..n])| then RequestAt(run[..n], j) else n
  }

  /** How many calls the requests before the n-th make. */
  function CallsBefore(run: seq<Served>, n: nat): nat
    requires n <= |run|
  {
    |CallsIn(run[..n])|
  }

  /** The j-th call of a run is one particular call of one request. */
  lemma {:induction false} RequestMakesCall(run: seq<Served>, j: nat)
    requires j < |CallsIn(run)|
    ensures var n := RequestAt(run, j);
            && n < |run| && CallsBefore(run, n) <= j < CallsBefore(run, n) + |run[n].calls|
            && CallsIn(run[..n]) + run[n].calls <= CallsIn(run)
            && CallsIn(run)[j] == run[n].calls[j - CallsBefore(run, n)]
  {
    var n := |run| - 1;
    if j < |CallsIn(run[..n])| {
      RequestMakesCall(run[..n], j);
      var k := RequestAt(run[..n], j);
      assert run[..n][..k] == run[..k];
    }
  }

  /** Call j of the run records how a probe or Modal call of its request, which ran, ended. */
  ghost predicate Performed(rs: seq<Request>, run: seq<Served>, p: SanePolicy, ch: Channel, j: nat, succeeded: bool) {
    && j < |CallsIn(run)|
    && var n := RequestAt(run, j);
    && n < |run| && n < |rs| && rs[n].channel == ch && CallsBefore(run, n) <= j
    && var i := j - CallsBefore(run, n);
       RecordsProbe(run[n], rs[n], p, i, succeeded) || RecordsCall(run[n], rs[n], i, succeeded)
  }

  lemma RecordIsPerformed(rs: seq<Request>, run: seq<Served>, p: SanePolicy, j: nat, succeeded: bool)
    requires IsRun(rs, run, p) && j < |CallsIn(run)| && IsRecord(CallsIn(run)[j], succeeded)
    ensures Performed(rs, run, p, CallsIn(run)[j].channel, j, succeeded)
  {
    RequestMakesCall(run, j);
    var n := RequestAt(run, j);
    RunRecord(rs, run, p, n, j - CallsBefore(run, n), CallsIn(run)[j], succeeded);
  }

  lemma RunRecord(rs: seq<Request>, run: seq<Served>, p: SanePolicy, n: nat, i: nat, e: Event, succeeded: bool)
    requires IsRun(rs, run, p) && n < |rs| && i < |run[n].calls| && run[n].calls[i] == e && IsRecord(e, succeeded)
    ensures e.channel == rs[n].channel
    ensures RecordsProbe(run[n], rs[n], p, i, succeeded) || RecordsCall(run[n], rs[n], i, succeeded)
  {
    assert ServedAt(rs, run, p, n);
    ServedRecord(run[n], rs[n], p, i, e, succeeded);
  }

  lemma ServedRecord(s: Served, r: Request, p: SanePolicy, i: nat, e: Event, succeeded: bool)
    requires Serves(s, r, p) && i < |s.calls| && s.calls[i] == e && IsRecord(e, succeeded)
    ensures e.channel == r.channel
    ensures RecordsProbe(s, r, p, i, succeeded) || RecordsCall(s, r, i, succeeded)
  {
    RecordsAreOperations(s, r, p, i, succeeded);
    CallsStayOnChannel(s, r, p);
    assert s.calls[i] in s.calls;
  }

  // ----- where the attempts of a log were recorded -----

  /** The positions in the trace of the calls that recorded the attempts of `FullLog`. */
  function LogPositions(trace: Trace, ch: Channel, p: SanePolicy): seq<nat> {
    if trace == [] then []
    else
      var n := |trace| - 1;
      var positions := LogPositions(trace[..n], ch, p);
      if trace[n].channel != ch then positions
      else if trace[n].op.RecordSuccess? || trace[n].op.RecordFailure? then positions + [n]
      else if EndsInRecovery(trace, ch, p) then [n]
      else positions
  }

  /** One position for each attempt, ascending, so that no call accounts for two attempts. */
  ghost predicate Located(positions: seq<nat>, trace: Trace, log: seq<Attempt>, ch: Channel) {
    && |positions| == |log|
    && (forall i, j :: 0 <= i < j < |positions| ==> positions[i] < positions[j])
    && (forall i :: 0 <= i < |positions| ==> LocatedAt(positions[i], trace, log[i], ch))
  }

  predicate LocatedAt(at: nat, trace: Trace, a: Attempt, ch: Channel) {
    at < |trace| && trace[at].channel == ch && trace[at].at == a.at && IsRecord(trace[at], a.succeeded)
  }

  lemma {:induction false} LogIsLocated(trace: Trace, ch: Channel, p: SanePolicy)
    ensures Located(LogPositions(trace, ch, p), trace, FullLog(trace, ch, p), ch)
  {
    if trace != [] {
      var n := |trace| - 1;
      LogIsLocated(trace[..n], ch, p);
      var positions, log := LogPositions(trace[..n], ch, p), FullLog(trace[..n], ch, p);
      forall i | 0 <= i < |positions| ensures LocatedAt(positions[i], trace, log[i], ch) && positions[i] < n {
        assert LocatedAt(positions[i], trace[..n], log[i], ch);
      }
    }
  }

  /** At any moment of a run, the attempts a channel remembers since its last recovery are, one for
      one and in order, probes and Modal calls that requests of the channel performed and that ended
      as recorded; saturated operations and operations that never ran account for none. */
  lemma AttemptsAreGenuine(rs: seq<Request>, run: seq<Served>, p: SanePolicy, ch: Channel, m: nat)
    requires IsRun(rs, run, p) && m <= |CallsIn(run)|
    ensures var past := CallsIn(run)[..m];
            var positions, log := LogPositions(past, ch, p), FullLog(past, ch, p);
            && Located(positions, past, log, ch)
            && forall i :: 0 <= i < |log| ==> Performed(rs, run, p, ch, positions[i], log[i].succeeded)
  {
    var past := CallsIn(run)[..m];
    var positions, log := LogPositions(past, ch, p), FullLog(past, ch, p);
    LogIsLocated(past, ch, p);
    forall i | 0 <= i < |log| ensures Performed(rs, run, p, ch, positions[i], log[i].succeeded) {
      assert LocatedAt(positions[i], past, log[i], ch);
      RecordIsPerformed(rs, run, p, positions[i], log[i].succeeded);
    }
  }

  // ----- openings -----

  /** Call i opens the channel right after the failure that follows `before`, which had a positive
      verdict on the circuit `c`; only a status check is in between. */
  ghost predicate OpensAfter(c: Circuit, before: Trace, calls: Trace, ch: Channel, p: SanePolicy, at: real, i: nat) {
    && |before| < i < |calls|
    && calls[..|before| + 1] == before + [Event(ch, RecordFailure, at)]
    && (forall x :: |before| < x < i ==> calls[x].op.StatusCheck?)
    && FailureVerdict(c, at, p)
  }

  lemma FailureStepShape(g: Progress, ch: Channel, canary: Outcome, record: real, statusDue: real,
                         statusRecord: real, open: real, p: SanePolicy, calls: Trace, i: nat)
    requires calls == FailureStep(g, ch, canary, record, statusDue, statusRecord, open, p).events
    requires |g.events| <= i < |calls| && calls[i].op.Open?
    ensures OpensAfter(g.c, g.events, calls, ch, p, record, i) && canary.Failed? && i == |calls| - 1
    ensures FailureStep(g, ch, canary, record, statusDue, statusRecord, open, p).c.isOpen
  {
  }

  /** The refresh opens only as its last call, after the failed probe of a closed circuit. */
  lemma RefreshShape(c: Circuit, r: Request, p: SanePolicy, g: Progress, i: nat)
    requires g == Refresh(Progress(c, []), r, p) && i < |g.events| && g.events[i].op.Open?
    ensures !c.isOpen && ProbeDue(c, r.ticks.due) && r.probe.Failed? && r.canary.Failed? && g.c.isOpen
    ensures OpensAfter(Apply(c, ProbeAttempt, r.ticks.probe, p), [Event(r.channel, ProbeAttempt, r.ticks.probe)],
                       g.events, r.channel, p, r.ticks.record, i)
  {
    var t := r.ticks;
    if !c.isOpen && ProbeDue(c, t.due) && r.probe.Failed? {
      var g1 := Do(Progress(c, []), r.channel, ProbeAttempt, t.probe, p);
      FailureStepShape(g1, r.channel, r.canary, t.record, t.statusDue, t.statusRecord, t.open, p, g.events, i);
    }
  }

  /** The Modal call opens only as its last call, after its own failure. */
  lemma CallShape(g: Progress, r: Request, p: SanePolicy, calls: Trace, i: nat)
    requires calls == Call(g, r, p).0.events && |g.events| <= i < |calls| && calls[i].op.Open?
    ensures r.call.Failed? && r.callCanary.Failed?
    ensures OpensAfter(g.c, g.events, calls, r.channel, p, r.ticks.callRecord, i)
  {
    if r.call.Failed? {
      var t := r.ticks;
      FailureStepShape(g, r.channel, r.callCanary, t.callRecord, t.callStatusDue, t.callStatusRecord, t.callOpen, p, calls, i);
    }
  }

  /** The request's records of failed operations whose confirming canary then ran and failed. */
  predicate Confirmed(s: Served, r: Request, p: SanePolicy, k: int) {
    && r.force.Unforced?
    && ((RecordsProbe(s, r, p, k, false) && r.canary.Failed?) || (RecordsCall(s, r, k, false) && r.callCanary.Failed?))
  }

  /** The calls before the failure behind an opening, and the circuit they lead to. */
  lemma OpeningShape(s: Served, r: Request, p: SanePolicy, i: nat) returns (g: Progress, at: real)
    requires Serves(s, r, p) && i < |s.calls| && s.calls[i].op.Open?
    ensures Confirmed(s, r, p, |g.events|) && OpensAfter(g.c, g.events, s.calls, r.channel, p, at, i)
    ensures (g == Do(Progress(s.before, []), r.channel, ProbeAttempt, r.ticks.probe, p) && at == r.ticks.record)
         || (g == s.refreshed && at == r.ticks.callRecord)
  {
    if r.force.Unforced? {
      if s.refreshed.c.isOpen {
        RefreshShape(s.before, r, p, s.refreshed, i);
        g, at := Do(Progress(s.before, []), r.channel, ProbeAttempt, r.ticks.probe, p), r.ticks.record;
      } else {
        CallExtends(s.refreshed, r, p, s.calls);
        if i < |s.refreshed.events| {
          assert s.refreshed.events[i] == s.calls[i];
          RefreshShape(s.before, r, p, s.refreshed, i);
        }
        CallShape(s.refreshed, r, p, s.calls, i);
        g, at := s.refreshed, r.ticks.callRecord;
      }
    }
  }

  /** What is known of the run before a request. */
  ghost predicate InRun(base: Trace, c: Circuit, r: Request, p: SanePolicy) {
    && r.ticks.Ordered() && WellSpaced(base, r.channel, p) && c == Run(base, r.channel, p)
    && Dwelling(c, LastOpening(base, r.channel), p, r.ticks.ready)
    && Timed(base) && (forall e <- base :: e.at <= r.ticks.ready)
  }

  /** The run so far is in time order up to `at` and leads to the circuit `g`. */
  ghost predicate LeadsTo(base: Trace, g: Progress, ch: Channel, p: SanePolicy, at: real) {
    && Run(base + g.events, ch, p) == g.c
    && Timed(base + g.events) && forall e <- base + g.events :: e.at <= at
  }

  lemma RefreshInRun(base: Trace, c: Circuit, r: Request, p: SanePolicy, g: Progress)
    requires InRun(base, c, r, p) && g == Refresh(Progress(c, []), r, p)
    ensures LeadsTo(base, g, r.channel, p, r.ticks.callRecord)
  {
    var start := Progress(c, []);
    assert base + [] == base;
    assert Coherent(base, start, r, p, r.ticks.ready);
    RefreshIsTraced(base, start, r, p);
    TimedConcat(base, g.events, r.channel, r.ticks.ready, r.ticks.open);
  }

  lemma ProbeInRun(base: Trace, c: Circuit, r: Request, p: SanePolicy)
    requires InRun(base, c, r, p)
    ensures LeadsTo(base, Do(Progress(c, []), r.channel, ProbeAttempt, r.ticks.probe, p), r.channel, p, r.ticks.record)
  {
    var probe := Event(r.channel, ProbeAttempt, r.ticks.probe);
    RunSnoc(base, probe, p);
    TimedSnoc(base, probe);
    assert [] + [probe] == [probe];
  }

  lemma OpeningInRun(base: Trace, s: Served, r: Request, p: SanePolicy, g: Progress, at: real)
    requires InRun(base, s.before, r, p) && Serves(s, r, p) && r.force.Unforced?
    requires (g == Do(Progress(s.before, []), r.channel, ProbeAttempt, r.ticks.probe, p) && at == r.ticks.record)
          || (g == s.refreshed && at == r.ticks.callRecord)
    ensures LeadsTo(base, g, r.channel, p, at)
  {
    if g == s.refreshed && at == r.ticks.callRecord {
      RefreshInRun(base, s.before, r, p, g);
    } else {
      ProbeInRun(base, s.before, r, p);
    }
  }

  lemma TimedSnoc(base: Trace, e: Event)
    requires Timed(base) && forall x <- base :: x.at <= e.at
    ensures Timed(base + [e])
  {
    var trace := base + [e];
    forall i, j | 0 <= i < j < |trace| ensures trace[i].at <= trace[j].at {
      assert base[i] in base;
    }
  }

  /** Call j opens the channel right after its failure at call k, with at most a status check in
      between, and that failure met the policy on everything logged since the last recovery. */
  ghost predicate FollowsEvidence(trace: Trace, ch: Channel, p: SanePolicy, k: int, j: int) {
    && 0 <= k < j < |trace|
    && trace[k] == Event(ch, RecordFailure, trace[k].at)
    && SufficesAt(trace, ch, p, k)
    && (forall x :: k < x < j ==> trace[x].op.StatusCheck?)
  }

  ghost predicate SufficesAt(trace: Trace, ch: Channel, p: SanePolicy, k: nat)
    requires k < |trace|
  {
    EnoughEvidence(FullLog(trace[..k + 1], ch, p), trace[k].at, p)
  }

  /** The failures on which the opening at call j rests. */
  ghost function EvidenceFor(trace: Trace, ch: Channel, p: SanePolicy, j: nat): set<nat> {
    set k: nat | k < j && FollowsEvidence(trace, ch, p, k, j)
  }

  lemma EvidenceStands(past: Trace, trace: Trace, ch: Channel, p: SanePolicy, k: nat, j: nat)
    requires past <= trace && k in EvidenceFor(past, ch, p, j)
    ensures k in EvidenceFor(trace, ch, p, j)
  {
    assert trace[..k + 1] == past[..k + 1];
  }

  lemma VerdictSuffices(before: Trace, trace: Trace, ch: Channel, p: SanePolicy, at: real)
    requires Timed(before) && (forall e <- before :: e.at <= at) && FailureVerdict(Run(before, ch, p), at, p)
    requires |before| < |trace| && trace[..|before| + 1] == before + [Event(ch, RecordFailure, at)]
    ensures trace[|before|] == Event(ch, RecordFailure, at) && SufficesAt(trace, ch, p, |before|)
  {
    var failure := Event(ch, RecordFailure, at);
    assert trace[|before|] == trace[..|before| + 1][|before|] == failure;
    VerdictIsWholeLogTest(before, ch, p, at);
    assert (before + [failure])[..|before|] == before;
    assert FullLog(before + [failure], ch, p) == FullLog(before, ch, p) + [Attempt(at, false)];
  }

  lemma Spliced(base: Trace, before: Trace, calls: Trace, e: Event)
    requires |before| < |calls| && calls[..|before| + 1] == before + [e]
    ensures (base + calls)[..|base + before| + 1] == base + before + [e]
  {
    assert (base + calls)[..|base + before| + 1] == base + calls[..|before| + 1];
  }

  lemma StatusChecksBetween(base: Trace, calls: Trace, k: nat, i: nat)
    requires i < |calls| && forall x :: k < x < i ==> calls[x].op.StatusCheck?
    ensures forall x :: |base| + k < x < |base| + i ==> (base + calls)[x].op.StatusCheck?
  {
    forall x | |base| + k < x < |base| + i ensures (base + calls)[x].op.StatusCheck? {
      assert (base + calls)[x] == calls[x - |base|];
    }
  }

  /** A failure with a positive verdict is sufficient evidence for the opening after it. */
  lemma VerdictIsEvidence(base: Trace, g: Progress, calls: Trace, ch: Channel, p: SanePolicy, at: real, i: nat)
    requires LeadsTo(base, g, ch, p, at) && OpensAfter(g.c, g.events, calls, ch, p, at, i)
    ensures |base + g.events| in EvidenceFor(base + calls, ch, p, |base| + i)
  {
    Spliced(base, g.events, calls, Event(ch, RecordFailure, at));
    VerdictSuffices(base + g.events, base + calls, ch, p, at);
    StatusChecksBetween(base, calls, |g.events|, i);
    assert FollowsEvidence(base + calls, ch, p, |base + g.events|, |base| + i);
  }

  lemma OpeningCause(base: Trace, s: Served, r: Request, p: SanePolicy, i: nat) returns (g: Progress, at: real)
    requires InRun(base, s.before, r, p) && Serves(s, r, p) && i < |s.calls| && s.calls[i].op.Open?
    ensures Confirmed(s, r, p, |g.events|)
    ensures OpensAfter(g.c, g.events, s.calls, r.channel, p, at, i) && LeadsTo(base, g, r.channel, p, at)
  {
    g, at := OpeningShape(s, r, p, i);
    OpeningInRun(base, s, r, p, g, at);
  }

  /** The opening at position j was made by request n, right after a failure at position k of the
      run that the same request recorded, that met the policy on everything logged since the last
      recovery, and that a canary of this request confirmed by failing. */
  ghost predicate OpeningJustified(rs: seq<Request>, run: seq<Served>, p: SanePolicy, k: nat, j: nat) {
    && j < |CallsIn(run)|
    && var n := RequestAt(run, j);
    && n < |rs| && n < |run| && CallsBefore(run, n) <= k
    && k in EvidenceFor(CallsIn(run), rs[n].channel, p, j)
    && Confirmed(run[n], rs[n], p, k - CallsBefore(run, n))
  }

  lemma ServedInOrder(rs: seq<Request>, run: seq<Served>, p: SanePolicy, n: nat)
    requires Sequential(rs) && IsRun(rs, run, p) && n < |rs|
    ensures InRun(CallsIn(run[..n]), run[n].before, rs[n], p) && Serves(run[n], rs[n], p)
  {
    ServedTrace(rs, run, p, n);
    assert ServedAt(rs, run, p, n);
    RunIsTrace(rs[..n], rs[n].channel, p, rs[n].ticks.ready);
  }

  lemma RunOpeningCause(rs: seq<Request>, run: seq<Served>, p: SanePolicy, n: nat, base: Trace, i: nat)
    returns (g: Progress, at: real)
    requires Sequential(rs) && IsRun(rs, run, p) && n < |rs| && base == CallsIn(run[..n])
    requires i < |run[n].calls| && run[n].calls[i].op.Open?
    ensures Confirmed(run[n], rs[n], p, |g.events|)
    ensures OpensAfter(g.c, g.events, run[n].calls, rs[n].channel, p, at, i) && LeadsTo(base, g, rs[n].channel, p, at)
  {
    ServedInOrder(rs, run, p, n);
    g, at := OpeningCause(base, run[n], rs[n], p, i);
  }

  lemma RunOpens(rs: seq<Request>, run: seq<Served>, p: SanePolicy, n: nat, base: Trace, i: nat) returns (k: nat)
    requires Sequential(rs) && IsRun(rs, run, p) && n < |rs| && base == CallsIn(run[..n])
    requires i < |run[n].calls| && run[n].calls[i].op.Open?
    ensures Confirmed(run[n], rs[n], p, k)
    ensures |base| + k in EvidenceFor(base + run[n].calls, rs[n].channel, p, |base| + i)
  {
    var g, at := RunOpeningCause(rs, run, p, n, base, i);
    VerdictIsEvidence(base, g, run[n].calls, rs[n].channel, p, at, i);
    k := |g.events|;
  }

  lemma JustifiedInRun(rs: seq<Request>, run: seq<Served>, p: SanePolicy, n: nat, base: Trace, k: nat, i: nat)
    requires n < |rs| && n < |run| && base == CallsIn(run[..n]) && base + run[n].calls <= CallsIn(run)
    requires |base| + i < |CallsIn(run)| && n == RequestAt(run, |base| + i)
    requires Confirmed(run[n], rs[n], p, k) && |base| + k in EvidenceFor(base + run[n].calls, rs[n].channel, p, |base| + i)
    ensures OpeningJustified(rs, run, p, |base| + k, |base| + i)
  {
    EvidenceStands(base + run[n].calls, CallsIn(run), rs[n].channel, p, |base| + k, |base| + i);
  }

  /** Every opening of a sequential run, first or later, is justified by its own request. */
  lemma EveryOpeningIsJustified(rs: seq<Request>, run: seq<Served>, p: SanePolicy, j: nat) returns (k: nat)
    requires Sequential(rs) && IsRun(rs, run, p) && j < |CallsIn(run)| && CallsIn(run)[j].op.Open?
    ensures OpeningJustified(rs, run, p, k, j)
  {
    RequestMakesCall(run, j);
    var n := RequestAt(run, j);
    var base := CallsIn(run[..n]);
    var i := RunOpens(rs, run, p, n, base, j - |base|);
    k := |base| + i;
    JustifiedInRun(rs, run, p, n, base, i, j - |base|);
  }

  // ----- confirmed failures open -----

  lemma SufficesIsVerdict(before: Trace, trace: Trace, ch: Channel, p: SanePolicy, at: real)
    requires Timed(before) && (forall e <- before :: e.at <= at) && !Run(before, ch, p).isOpen
    requires |before| < |trace| && trace[..|before| + 1] == before + [Event(ch, RecordFailure, at)]
    requires SufficesAt(trace, ch, p, |before|)
    ensures FailureVerdict(Run(before, ch, p), at, p)
  {
    var failure := Event(ch, RecordFailure, at);
    assert trace[|before|] == trace[..|before| + 1][|before|] == failure;
    VerdictIsWholeLogTest(before, ch, p, at);
    assert (before + [failure])[..|before|] == before;
    assert FullLog(before + [failure], ch, p) == FullLog(before, ch, p) + [Attempt(at, false)];
  }

  lemma FailureStepOpens(g: Progress, ch: Channel, canary: Outcome, record: real, statusDue: real,
                         statusRecord: real, open: real, p: SanePolicy)
    requires FailureVerdict(g.c, record, p) && canary.Failed?
    ensures var g' := FailureStep(g, ch, canary, record, statusDue, statusRecord, open, p);
            g'.c.isOpen && |g'.events| > |g.events| + 1 && g'.events[|g'.events| - 1].op.Open?
  {
  }

  /** What leads to the request's k-th call: its probe attempt, or its whole refresh. */
  function LeadUp(s: Served, r: Request, p: SanePolicy, probe: bool): Progress {
    if probe then Do(Progress(s.before, []), r.channel, ProbeAttempt, r.ticks.probe, p) else s.refreshed
  }

  function RecordTime(r: Request, probe: bool): real {
    if probe then r.ticks.record else r.ticks.callRecord
  }

  lemma ProbeFailureOpens(s: Served, r: Request, p: SanePolicy) returns (i: nat)
    requires Serves(s, r, p) && RecordsProbe(s, r, p, 1, false) && r.canary.Failed?
    requires FailureVerdict(LeadUp(s, r, p, true).c, r.ticks.record, p)
    ensures 1 < i < |s.calls| && s.calls[i].op.Open?
  {
    var t := r.ticks;
    FailureStepOpens(LeadUp(s, r, p, true), r.channel, r.canary, t.record, t.statusDue, t.statusRecord, t.open, p);
    i := |s.calls| - 1;
  }

  lemma CallFailureOpens(s: Served, r: Request, p: SanePolicy) returns (i: nat)
    requires Serves(s, r, p) && r.force.Unforced? && RecordsCall(s, r, |s.refreshed.events|, false) && r.callCanary.Failed?
    requires FailureVerdict(s.refreshed.c, r.ticks.callRecord, p)
    ensures |s.refreshed.events| < i < |s.calls| && s.calls[i].op.Open?
  {
    var t := r.ticks;
    FailureStepOpens(s.refreshed, r.channel, r.callCanary, t.callRecord, t.callStatusDue, t.callStatusRecord, t.callOpen, p);
    i := |s.calls| - 1;
  }

  lemma ProbeFailureShape(s: Served, r: Request, p: SanePolicy)
    requires Serves(s, r, p) && RecordsProbe(s, r, p, 1, false)
    ensures |s.calls| >= 2
    ensures s.calls[..2] == LeadUp(s, r, p, true).events + [Event(r.channel, RecordFailure, r.ticks.record)]
  {
    var g, t := LeadUp(s, r, p, true), r.ticks;
    FailureIsRecorded(g, r.channel, r.canary, t.record, t.statusDue, t.statusRecord, t.open, p, s.refreshed.events);
    if !s.refreshed.c.isOpen {
      CallExtends(s.refreshed, r, p, s.calls);
    }
    assert s.refreshed.events <= s.calls;
  }

  lemma CallFailureShape(s: Served, r: Request, p: SanePolicy)
    requires Serves(s, r, p) && r.force.Unforced? && RecordsCall(s, r, |s.refreshed.events|, false)
    ensures |s.calls| > |s.refreshed.events|
    ensures s.calls[..|s.refreshed.events| + 1]
         == s.refreshed.events + [Event(r.channel, RecordFailure, r.ticks.callRecord)]
  {
    CallExtends(s.refreshed, r, p, s.calls);
  }

  lemma LeadUpInRun(base: Trace, s: Served, r: Request, p: SanePolicy, probe: bool)
    requires InRun(base, s.before, r, p) && Serves(s, r, p) && r.force.Unforced?
    ensures LeadsTo(base, LeadUp(s, r, p, probe), r.channel, p, RecordTime(r, probe))
  {
    OpeningInRun(base, s, r, p, LeadUp(s, r, p, probe), RecordTime(r, probe));
  }

  /** The record of the failure, as part of the request's calls. */
  lemma FailureShape(s: Served, r: Request, p: SanePolicy, k: nat) returns (probe: bool)
    requires Serves(s, r, p) && Confirmed(s, r, p, k)
    ensures k == |LeadUp(s, r, p, probe).events| && k < |s.calls|
    ensures s.calls[..k + 1] == LeadUp(s, r, p, probe).events + [Event(r.channel, RecordFailure, RecordTime(r, probe))]
    ensures if probe then RecordsProbe(s, r, p, 1, false) && r.canary.Failed?
            else RecordsCall(s, r, |s.refreshed.events|, false) && r.callCanary.Failed?
  {
    probe := RecordsProbe(s, r, p, k, false) && r.canary.Failed?;
    if probe {
      ProbeFailureShape(s, r, p);
    } else {
      CallFailureShape(s, r, p);
    }
  }

  lemma SplicedHead(base: Trace, before: Trace, calls: Trace)
    requires |before| <= |calls| && calls[..|before|] == before
    ensures (base + calls)[..|base + before|] == base + before
  {
  }

  /** The evidence in the run is the verdict at the failure. */
  lemma VerdictAtFailure(base: Trace, g: Progress, calls: Trace, ch: Channel, p: SanePolicy, at: real)
    requires LeadsTo(base, g, ch, p, at) && |g.events| < |calls|
    requires calls[..|g.events| + 1] == g.events + [Event(ch, RecordFailure, at)]
    requires SufficesAt(base + calls, ch, p, |base + g.events|)
    requires !Run((base + calls)[..|base + g.events|], ch, p).isOpen
    ensures FailureVerdict(g.c, at, p)
  {
    Spliced(base, g.events, calls, Event(ch, RecordFailure, at));
    assert calls[..|g.events|] == calls[..|g.events| + 1][..|g.events|];
    SplicedHead(base, g.events, calls);
    SufficesIsVerdict(base + g.events, base + calls, ch, p, at);
  }

  lemma VerdictOpens(s: Served, r: Request, p: SanePolicy, probe: bool) returns (i: nat)
    requires Serves(s, r, p) && r.force.Unforced?
    requires if probe then RecordsProbe(s, r, p, 1, false) && r.canary.Failed?
             else RecordsCall(s, r, |s.refreshed.events|, false) && r.callCanary.Failed?
    requires FailureVerdict(LeadUp(s, r, p, probe).c, RecordTime(r, probe), p)
    ensures |LeadUp(s, r, p, probe).events| < i < |s.calls| && s.calls[i].op.Open?
  {
    if probe {
      i := ProbeFailureOpens(s, r, p);
    } else {
      i := CallFailureOpens(s, r, p);
    }
  }

  lemma RunFailureShape(rs: seq<Request>, run: seq<Served>, p: SanePolicy, n: nat, k: nat) returns (probe: bool)
    requires Sequential(rs) && IsRun(rs, run, p) && n < |rs| && Confirmed(run[n], rs[n], p, k)
    ensures var g, at := LeadUp(run[n], rs[n], p, probe), RecordTime(rs[n], probe);
            && LeadsTo(CallsIn(run[..n]), g, rs[n].channel, p, at)
            && k == |g.events| < |run[n].calls|
            && run[n].calls[..k + 1] == g.events + [Event(rs[n].channel, RecordFailure, at)]
    ensures if probe then RecordsProbe(run[n], rs[n], p, 1, false) && rs[n].canary.Failed?
            else RecordsCall(run[n], rs[n], |run[n].refreshed.events|, false) && rs[n].callCanary.Failed?
  {
    ServedInOrder(rs, run, p, n);
    probe := FailureShape(run[n], rs[n], p, k);
    LeadUpInRun(CallsIn(run[..n]), run[n], rs[n], p, probe);
  }

  lemma RunVerdictOpens(rs: seq<Request>, run: seq<Served>, p: SanePolicy, n: nat, probe: bool) returns (i: nat)
    requires IsRun(rs, run, p) && n < |rs| && rs[n].force.Unforced?
    requires if probe then RecordsProbe(run[n], rs[n], p, 1, false) && rs[n].canary.Failed?
             else RecordsCall(run[n], rs[n], |run[n].refreshed.events|, false) && rs[n].callCanary.Failed?
    requires FailureVerdict(LeadUp(run[n], rs[n], p, probe).c, RecordTime(rs[n], probe), p)
    ensures |LeadUp(run[n], rs[n], p, probe).events| < i < |run[n].calls| && run[n].calls[i].op.Open?
  {
    assert ServedAt(rs, run, p, n);
    i := VerdictOpens(run[n], rs[n], p, probe);
  }

  lemma SufficesInPart(part: Trace, trace: Trace, ch: Channel, p: SanePolicy, k: nat)
    requires part <= trace && k < |part| && SufficesAt(trace, ch, p, k) && !Run(trace[..k], ch, p).isOpen
    ensures SufficesAt(part, ch, p, k) && !Run(part[..k], ch, p).isOpen
  {
    assert part[..k + 1] == trace[..k + 1] && part[..k] == trace[..k];
  }

  lemma VerdictInRun(trace: Trace, base: Trace, g: Progress, calls: Trace, ch: Channel, p: SanePolicy, at: real)
    requires base + calls <= trace && LeadsTo(base, g, ch, p, at) && |g.events| < |calls|
    requires calls[..|g.events| + 1] == g.events + [Event(ch, RecordFailure, at)]
    requires SufficesAt(trace, ch, p, |base + g.events|) && !Run(trace[..|base + g.events|], ch, p).isOpen
    ensures FailureVerdict(g.c, at, p)
  {
    SufficesInPart(base + calls, trace, ch, p, |base + g.events|);
    VerdictAtFailure(base, g, calls, ch, p, at);
  }

  /** Conversely, a closed circuit does open: when a request records, at call k, a failed operation that
      met the policy on everything logged since the last recovery, and its canary failed, a later call
      of the same request opens the circuit. */
  lemma ConfirmedFailureOpens(rs: seq<Request>, run: seq<Served>, p: SanePolicy, n: nat, k: nat) returns (j: nat)
    requires Sequential(rs) && IsRun(rs, run, p) && n < |rs| && k < |run[n].calls| && Confirmed(run[n], rs[n], p, k)
    requires CallsIn(run[..n]) + run[n].calls <= CallsIn(run)
    requires SufficesAt(CallsIn(run), rs[n].channel, p, CallsBefore(run, n) + k)
    requires !Run(CallsIn(run)[..CallsBefore(run, n) + k], rs[n].channel, p).isOpen
    ensures k < j < |run[n].calls| && run[n].calls[j].op.Open?
  {
    var base, calls := CallsIn(run[..n]), run[n].calls;
    var probe := RunFailureShape(rs, run, p, n, k);
    var g := LeadUp(run[n], rs[n], p, probe);
    assert |base| + k == |base + g.events|;
    VerdictInRun(CallsIn(run), base, g, calls, rs[n].channel, p, RecordTime(rs[n], probe));
    j := RunVerdictOpens(rs, run, p, n, probe);
  }
}
