/** What every sequential run of gateway requests guarantees: answers match the reported state,
    circuits stay open long enough, and recovery succeeds. */
module RequestSafety {
  import opened Common
  import opened CircuitRegistries
  import opened CircuitHistories
  import opened RequestRouting
  import opened RequestEvidence

  // ----- answers -----

  /** For an unforced request the answer is decided by the state reported in the same response:
      the fallback serves exactly the unhealthy channel, Modal exactly the healthy one. */
  lemma AnswerMatchesReportedState(c: Circuit, r: Request, p: SanePolicy)
    requires r.force.Unforced?
    ensures var (g, backend) := Route(c, r, p);
            && (backend == CloudRun <==> g.c.isOpen && r.fallbackOk)
            && (backend == Modal <==> !g.c.isOpen && r.call.Ok?)
  {
    var g := Refresh(Progress(c, []), r, p);
    if !g.c.isOpen && r.call.Failed? {
      FailureStepState(g, r.channel, r.callCanary, r.ticks.callRecord, r.ticks.callStatusDue,
                       r.ticks.callStatusRecord, r.ticks.callOpen, p);
    }
  }

  lemma FailureStepState(g: Progress, ch: Channel, canary: Outcome, record: real, statusDue: real,
                         statusRecord: real, open: real, p: SanePolicy)
    requires !g.c.isOpen
    ensures FailureStep(g, ch, canary, record, statusDue, statusRecord, open, p).c.isOpen
       <==> FailureVerdict(g.c, record, p) && canary.Failed?
  {
  }

  /** A forced backend never moves the circuit between open and closed. */
  lemma ForcingNeverSwitches(c: Circuit, r: Request, p: SanePolicy)
    requires !r.force.Unforced?
    ensures Route(c, r, p).0.c.isOpen == c.isOpen && Route(c, r, p).0.c.openedAt == c.openedAt
    ensures r.force.ForceCloudRun? || !r.call.Ok? ==> Route(c, r, p).0 == Progress(c, [])
    ensures Route(c, r, p).1.CloudRun? <==> r.force.ForceCloudRun? && r.fallbackOk
    ensures Route(c, r, p).1.Modal? <==> r.force.ForceModal? && r.call.Ok?
  {
  }

  /** After a failure that reaches the threshold, the status page is checked exactly when the last check
      is at least 60 seconds ago; below the threshold it never is. */
  lemma StatusCheckedExactly(g: Progress, ch: Channel, canary: Outcome, record: real, statusDue: real,
                             statusRecord: real, open: real, p: SanePolicy)
    ensures var calls, k := FailureStep(g, ch, canary, record, statusDue, statusRecord, open, p).events, |g.events|;
            && |calls| > k
            && ((exists i :: k < i < |calls| && calls[i].op.StatusCheck?)
                <==> FailureVerdict(g.c, record, p) && statusDue - g.c.lastStatusCheckAt >= 60.0)
  {
    var calls, k := FailureStep(g, ch, canary, record, statusDue, statusRecord, open, p).events, |g.events|;
    if FailureVerdict(g.c, record, p) && StatusCheckDue(g.c, statusDue) {
      assert calls[k + 1].op.StatusCheck?;
    }
  }

  // ----- dwell -----

  lemma {:induction false} LastOpeningIsLatest(trace: Trace, ch: Channel, i: nat)
    requires Timed(trace) && i < |trace| && trace[i].channel == ch && trace[i].op.Open?
    ensures LastOpening(trace, ch).Some? && LastOpening(trace, ch).value >= trace[i].at
  {
    if i < |trace| - 1 {
      LastOpeningIsLatest(trace[..|trace| - 1], ch, i);
    }
  }

  lemma {:induction false} WellSpacedPrefix(trace: Trace, ch: Channel, p: SanePolicy, n: nat)
    requires WellSpaced(trace, ch, p) && n <= |trace|
    ensures WellSpaced(trace[..n], ch, p)
  {
    if n == |trace| {
      assert trace[..n] == trace;
    } else {
      WellSpacedPrefix(trace[..|trace| - 1], ch, p, n);
      assert trace[..|trace| - 1][..n] == trace[..n];
    }
  }

  lemma SpacedAt(trace: Trace, ch: Channel, p: SanePolicy, j: nat)
    requires WellSpaced(trace, ch, p) && j < |trace|
    ensures KeepsDistance(Run(trace[..j], ch, p), LastOpening(trace[..j], ch), trace[j], ch, p)
  {
    WellSpacedPrefix(trace, ch, p, j + 1);
    assert trace[..j + 1][..j] == trace[..j];
  }

  lemma RunIsSpaced(rs: seq<Request>, run: seq<Served>, ch: Channel, p: SanePolicy)
    requires Sequential(rs) && IsRun(rs, run, p)
    ensures Timed(CallsIn(run)) && WellSpaced(CallsIn(run), ch, p)
  {
    ServedTrace(rs, run, p, |rs|);
    assert rs[..|rs|] == rs && run[..|rs|] == run;
    RunIsTrace(rs, ch, p, if rs == [] then 0.0 else rs[|rs| - 1].ticks.callOpen);
  }

  /** In every sequential run, forced requests included, a channel that opened at one moment neither
      closes nor opens again before min_open_seconds + 15 (K - 1) seconds have passed. */
  lemma DwellIsServed(rs: seq<Request>, run: seq<Served>, ch: Channel, p: SanePolicy, i: nat, j: nat)
    requires Sequential(rs) && IsRun(rs, run, p) && i < j < |CallsIn(run)|
    requires CallsIn(run)[i].channel == ch && CallsIn(run)[i].op.Open?
    requires ChangesState(Run(CallsIn(run)[..j], ch, p), CallsIn(run)[j], ch, p)
    ensures CallsIn(run)[j].at >= CallsIn(run)[i].at + MinimumDwell(p)
  {
    RunIsSpaced(rs, run, ch, p);
    LastOpeningIsLatest(CallsIn(run)[..j], ch, i);
    SpacedAt(CallsIn(run), ch, p, j);
  }

  /** The stored timers are never behind the latest probe and the latest status check. */
  lemma {:induction false} TimersAreLatest(trace: Trace, ch: Channel, p: SanePolicy, i: nat)
    requires Timed(trace) && i < |trace| && trace[i].channel == ch
    ensures trace[i].op.ProbeAttempt? ==> Run(trace, ch, p).lastProbeAt >= trace[i].at
    ensures trace[i].op.StatusCheck? ==> Run(trace, ch, p).lastStatusCheckAt >= trace[i].at
  {
    if i < |trace| - 1 {
      TimersAreLatest(trace[..|trace| - 1], ch, p, i);
    }
  }

  /** In every sequential run, probes of a channel are at least 15 seconds apart and status-page
      checks at least 60. */
  lemma ProbesAndChecksAreSpaced(rs: seq<Request>, run: seq<Served>, ch: Channel, p: SanePolicy, i: nat, j: nat)
    requires Sequential(rs) && IsRun(rs, run, p) && i < j < |CallsIn(run)|
    requires CallsIn(run)[i].channel == ch && CallsIn(run)[j].channel == ch && CallsIn(run)[i].op == CallsIn(run)[j].op
    ensures CallsIn(run)[i].op.ProbeAttempt? ==> CallsIn(run)[j].at >= CallsIn(run)[i].at + PROBE_INTERVAL_SECONDS
    ensures CallsIn(run)[i].op.StatusCheck? ==> CallsIn(run)[j].at >= CallsIn(run)[i].at + STATUS_CHECK_INTERVAL_SECONDS
  {
    RunIsSpaced(rs, run, ch, p);
    TimersAreLatest(CallsIn(run)[..j], ch, p, i);
    SpacedAt(CallsIn(run), ch, p, j);
  }

  // ----- recovery -----

  /** One recovery round of an open channel, by its outcomes: it runs when the minimum open time and a
      probe interval are over; two successes extend the streak or close the circuit, a failure of
      either starts the streak over, and saturation leaves it alone. */
  lemma RecoveryRoundExactly(c: Circuit, r: Request, p: SanePolicy)
    requires c.isOpen && r.force.Unforced?
    ensures var c' := Refreshed(c, r, p).c;
            var due := r.ticks.ready - c.openedAt >= p.minOpen && r.ticks.due - c.lastProbeAt >= 15.0;
            && (!due ==> c' == c)
            && (due ==> c'.lastProbeAt == r.ticks.probe)
            && (due && r.canary.Ok? && r.probe.Ok? ==>
                  && (c'.isOpen <==> c.streak + 1 < p.recoverySuccesses)
                  && c'.streak == if c'.isOpen then c.streak + 1 else 0)
            && (due && (r.canary.Failed? || (r.canary.Ok? && r.probe.Failed?)) ==> c'.isOpen && c'.streak == 0)
            && (due && (r.canary.Saturated? || (r.canary.Ok? && r.probe.Saturated?)) ==> c'.isOpen && c'.streak == c.streak)
  {
  }

  predicate Healthy(r: Request) {
    r.force.Unforced? && r.canary.Ok? && r.probe.Ok? && r.callCanary.Ok?
  }

  /** The request arrives late enough to run a recovery round. */
  predicate Eligible(c: Circuit, r: Request, p: SanePolicy) {
    RecoveryDue(c, r.ticks.ready, p) && ProbeDue(c, r.ticks.due)
  }

  /** How many of the later requests found the channel open and eligible for a recovery round. */
  function EligibleRounds(before: seq<Request>, later: seq<Request>, ch: Channel, p: SanePolicy): nat {
    if later == [] then 0
    else
      var n := |later| - 1;
      EligibleRounds(before, later[..n], ch, p)
      + if later[n].channel == ch && Eligible(StateAfter(before + later[..n], ch, p), later[n], p) then 1 else 0
  }

  lemma HealthyStep(c: Circuit, r: Request, p: SanePolicy)
    requires Healthy(r)
    ensures var c' := Route(c, r, p).0.c;
            if !c.isOpen then !c'.isOpen
            else if !Eligible(c, r, p) then c' == c
            else if CompletesRecovery(c, p) then !c'.isOpen
            else c'.isOpen && c'.streak == c.streak + 1
  {
    var g := Refresh(Progress(c, []), r, p);
    if !g.c.isOpen && r.call.Failed? {
      FailureStepState(g, r.channel, r.callCanary, r.ticks.callRecord, r.ticks.callStatusDue,
                       r.ticks.callStatusRecord, r.ticks.callOpen, p);
    }
  }

  lemma StreakIsBelowK(rs: seq<Request>, ch: Channel, p: SanePolicy)
    requires Sequential(rs)
    ensures 0 <= StateAfter(rs, ch, p).streak < p.recoverySuccesses
  {
    RunIsTrace(rs, ch, p, if rs == [] then 0.0 else rs[|rs| - 1].ticks.callOpen);
  }

  /** Once probes and canaries succeed, an open channel stays open exactly until the eligible
      round that completes its streak, however many ineligible requests and requests for the
      other channel come in between. */
  lemma {:induction false} RecoversOnKthEligibleRound(before: seq<Request>, later: seq<Request>, ch: Channel, p: SanePolicy)
    requires Sequential(before) && StateAfter(before, ch, p).isOpen
    requires forall r <- later :: r.channel == ch ==> Healthy(r)
    ensures var streak := StateAfter(before, ch, p).streak + EligibleRounds(before, later, ch, p);
            var c := StateAfter(before + later, ch, p);
            && (c.isOpen <==> streak < p.recoverySuccesses)
            && (c.isOpen ==> c.streak == streak)
  {
    if later == [] {
      assert before + later == before;
      StreakIsBelowK(before, ch, p);
    } else {
      var n := |later| - 1;
      var run := before + later;
      var c := StateAfter(before + later[..n], ch, p);
      assert run[..|run| - 1] == before + later[..n] && run[|run| - 1] == later[n];
      RecoversOnKthEligibleRound(before, later[..n], ch, p);
      if later[n].channel == ch {
        assert later[n] in later;
        HealthyStep(c, later[n], p);
        assert StateAfter(run, ch, p) == Route(c, later[n], p).0.c;
      } else {
        assert StateAfter(run, ch, p) == c;
      }
    }
  }
}
