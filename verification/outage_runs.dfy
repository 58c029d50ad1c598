/** A concrete outage and its recovery: the bound on how long a circuit stays open is met exactly,
    for every policy whose threshold can be reached at all. */
module OutageRuns {
  import opened Common
  import opened CircuitRegistries
  import opened CircuitHistories
  import opened RequestRouting

  function Instant(t: real): Ticks {
    Ticks(t, t, t, t, t, t, t, t, t, t, t)
  }

  /** A request whose Modal call fails and whose canary confirms it. */
  function FailingCall(ch: Channel, t: real): Request {
    Request(ch, Unforced, Failed, Failed, Failed, Failed, true, Instant(t))
  }

  /** A request that finds canary and worker healthy, and no free executor for its own call. */
  function RecoveryRound(ch: Channel, t: real): Request {
    Request(ch, Unforced, Ok, Ok, Saturated, Ok, true, Instant(t))
  }

  lemma StillSequential(rs: seq<Request>, r: Request)
    requires Sequential(rs) && DoneBy(rs, r.ticks.ready) && r.ticks.Ordered()
    ensures Sequential(rs + [r])
  {
    var rs' := rs + [r];
    forall i, j | 0 <= i < j < |rs'| ensures rs'[i].ticks.callOpen <= rs'[j].ticks.ready {
      if i < j - 1 && j == |rs| {
        assert rs[i].ticks.callOpen <= rs[j - 1].ticks.ready;
        assert rs[j - 1].ticks.Ordered();
      }
    }
  }

  lemma TraceGrows(rs: seq<Request>, r: Request, p: SanePolicy)
    ensures var g := Route(StateAfter(rs, r.channel, p), r, p).0;
            && StateAfter(rs + [r], r.channel, p) == g.c
            && TraceOf(rs + [r], p) == TraceOf(rs, p) + g.events
  {
    assert (rs + [r])[..|rs|] == rs;
  }

  /** One more request at the end of a run. */
  lemma RunGrows(rs: seq<Request>, r: Request, p: SanePolicy)
    requires Sequential(rs) && DoneBy(rs, r.ticks.ready) && r.ticks.Ordered()
    ensures var g := Route(StateAfter(rs, r.channel, p), r, p).0;
            && StateAfter(rs + [r], r.channel, p) == g.c
            && TraceOf(rs + [r], p) == TraceOf(rs, p) + g.events
    ensures Sequential(rs + [r])
  {
    StillSequential(rs, r);
    TraceGrows(rs, r, p);
  }

  // ----- the outage -----

  function FailedAttempts(t: real, n: nat): (s: seq<Attempt>)
    ensures |s| == n
  {
    if n == 0 then [] else FailedAttempts(t, n - 1) + [Attempt(t, false)]
  }

  lemma {:induction false} FailedAttemptsCount(t: real, n: nat, window: real)
    requires window > 0.0
    ensures Failures(FailedAttempts(t, n)) == n
    ensures Recent(FailedAttempts(t, n), t - window) == FailedAttempts(t, n)
  {
    if n > 0 {
      FailedAttemptsCount(t, n - 1, window);
      assert FailedAttempts(t, n)[..n - 1] == FailedAttempts(t, n - 1);
    }
  }

  /** The channel after n failures at time t and no probe. */
  function Failing(t: real, n: nat, p: SanePolicy): Circuit {
    var opens := n == p.failureMinCount;
    Circuit(FailedAttempts(t, n), opens, if opens then t else 0.0, 0.0, 0.0, 0)
  }

  /** Failures alone make the full rate. */
  lemma FailuresReachThreshold(attempts: seq<Attempt>, p: SanePolicy)
    requires Failures(attempts) == |attempts| && p.failureRate <= 1.0
    ensures ThresholdReached(attempts, p) <==> |attempts| >= p.failureMinCount
  {
    if |attempts| >= p.failureMinCount {
      FullRate(|attempts| as real);
    }
  }

  lemma FullRate(x: real)
    requires x > 0.0
    ensures x / x == 1.0
  {
  }

  lemma FailureRecorded(t: real, n: nat, p: SanePolicy)
    requires n < p.failureMinCount && p.failureRate <= 1.0
    ensures var c := Failing(t, n, p);
            && Apply(c, RecordFailure, t, p) == c.(attempts := FailedAttempts(t, n + 1))
            && (FailureVerdict(c, t, p) <==> n + 1 == p.failureMinCount)
  {
    FailedAttemptsCount(t, n + 1, p.failureWindow);
    FailuresReachThreshold(FailedAttempts(t, n + 1), p);
  }

  /** What the registry is asked when one more call fails. */
  function FailureEvents(ch: Channel, t: real, n: nat, p: SanePolicy): Trace {
    [Event(ch, RecordFailure, t)] + if n == p.failureMinCount then [Event(ch, Open, t)] else []
  }

  lemma FailingCallStep(ch: Channel, t: real, n: nat, p: SanePolicy)
    requires 0.0 <= t < PROBE_INTERVAL_SECONDS && n < p.failureMinCount && p.failureRate <= 1.0
    ensures var g := Route(Failing(t, n, p), FailingCall(ch, t), p).0;
            && g.c == Failing(t, n + 1, p)
            && g.events == FailureEvents(ch, t, n + 1, p)
  {
    FailureRecorded(t, n, p);
  }

  /** The trace ends with the opening of the channel. */
  predicate EndsInOpening(trace: Trace, ch: Channel, t: real) {
    trace != [] && trace[|trace| - 1] == Event(ch, Open, t)
  }

  lemma OneMoreFailure(earlier: seq<Request>, ch: Channel, t: real, n: nat, p: SanePolicy) returns (rs: seq<Request>)
    requires 0.0 <= t < PROBE_INTERVAL_SECONDS && n < p.failureMinCount && p.failureRate <= 1.0
    requires Sequential(earlier) && DoneBy(earlier, t) && StateAfter(earlier, ch, p) == Failing(t, n, p)
    ensures Sequential(rs) && DoneBy(rs, t) && StateAfter(rs, ch, p) == Failing(t, n + 1, p)
    ensures TraceOf(rs, p) == TraceOf(earlier, p) + FailureEvents(ch, t, n + 1, p)
  {
    FailingCallStep(ch, t, n, p);
    RunGrows(earlier, FailingCall(ch, t), p);
    rs := earlier + [FailingCall(ch, t)];
  }

  lemma {:induction false} OutageOpens(ch: Channel, t: real, n: nat, p: SanePolicy) returns (rs: seq<Request>)
    requires 0.0 <= t < PROBE_INTERVAL_SECONDS && n <= p.failureMinCount && p.failureRate <= 1.0
    ensures Sequential(rs) && DoneBy(rs, t) && StateAfter(rs, ch, p) == Failing(t, n, p)
    ensures n == p.failureMinCount ==> EndsInOpening(TraceOf(rs, p), ch, t)
  {
    if n == 0 {
      rs := [];
    } else {
      var earlier := OutageOpens(ch, t, n - 1, p);
      rs := OneMoreFailure(earlier, ch, t, n - 1, p);
    }
  }

  // ----- the recovery -----

  /** The moment of the k-th recovery round, counted from zero. */
  function RoundTime(t: real, k: nat, p: SanePolicy): real {
    t + p.minOpen + PROBE_INTERVAL_SECONDS * k as real
  }

  /** The channel k rounds into its recovery. */
  predicate Recovering(c: Circuit, t: real, k: nat, p: SanePolicy) {
    && c.isOpen && c.openedAt == t && c.streak == k
    && c.lastProbeAt == if k == 0 then 0.0 else RoundTime(t, k - 1, p)
  }

  lemma RoundStep(c: Circuit, ch: Channel, t: real, k: nat, p: SanePolicy)
    requires Recovering(c, t, k, p) && t + p.minOpen >= PROBE_INTERVAL_SECONDS
    ensures var g, now := Route(c, RecoveryRound(ch, RoundTime(t, k, p)), p).0, RoundTime(t, k, p);
            && g.events == [Event(ch, ProbeAttempt, now), Event(ch, RecoverySuccess, now)]
            && (k + 1 < p.recoverySuccesses ==> Recovering(g.c, t, k + 1, p))
  {
  }

  /** One more recovery round, which does not complete the streak unless it is the K-th. */
  lemma OneMoreRound(earlier: seq<Request>, ch: Channel, t: real, k: nat, p: SanePolicy) returns (rs: seq<Request>)
    requires 0.0 <= p.minOpen && t + p.minOpen >= PROBE_INTERVAL_SECONDS
    requires Sequential(earlier) && DoneBy(earlier, RoundTime(t, k, p)) && Recovering(StateAfter(earlier, ch, p), t, k, p)
    ensures Sequential(rs) && DoneBy(rs, RoundTime(t, k, p))
    ensures k + 1 < p.recoverySuccesses ==> Recovering(StateAfter(rs, ch, p), t, k + 1, p)
    ensures var now := RoundTime(t, k, p);
            TraceOf(rs, p) == TraceOf(earlier, p) + [Event(ch, ProbeAttempt, now), Event(ch, RecoverySuccess, now)]
  {
    var r := RecoveryRound(ch, RoundTime(t, k, p));
    RoundStep(StateAfter(earlier, ch, p), ch, t, k, p);
    RunGrows(earlier, r, p);
    rs := earlier + [r];
  }

  lemma {:induction false} RoundsAdvance(ch: Channel, t: real, k: nat, p: SanePolicy)
    returns (rs: seq<Request>, outage: Trace)
    requires 0.0 <= t < PROBE_INTERVAL_SECONDS <= t + p.minOpen && 0.0 <= p.minOpen
    requires p.failureRate <= 1.0 && k < p.recoverySuccesses
    ensures Sequential(rs) && DoneBy(rs, RoundTime(t, k, p)) && Recovering(StateAfter(rs, ch, p), t, k, p)
    ensures EndsInOpening(outage, ch, t) && outage <= TraceOf(rs, p)
  {
    if k == 0 {
      rs := OutageOpens(ch, t, p.failureMinCount, p);
      outage := TraceOf(rs, p);
    } else {
      var earlier;
      earlier, outage := RoundsAdvance(ch, t, k - 1, p);
      rs := OneMoreRound(earlier, ch, t, k - 1, p);
    }
  }

  // ----- the bound is met -----

  /** The trace opens the channel at one call and closes it at its last, the minimum later. */
  ghost predicate MeetsDwellBound(trace: Trace, ch: Channel, p: SanePolicy) {
    var j := |trace| - 1;
    exists i ::
      && 0 <= i < j && trace[i].channel == ch && trace[i].op.Open?
      && ChangesState(Run(trace[..j], ch, p), trace[j], ch, p)
      && trace[j].at == trace[i].at + MinimumDwell(p)
  }

  lemma RoundCloses(outage: Trace, base: Trace, ch: Channel, t: real, p: SanePolicy)
    requires Run(base, ch, p).isOpen && CompletesRecovery(Run(base, ch, p), p)
    requires EndsInOpening(outage, ch, t) && outage <= base
    ensures var now := RoundTime(t, p.recoverySuccesses - 1, p);
            MeetsDwellBound(base + [Event(ch, ProbeAttempt, now), Event(ch, RecoverySuccess, now)], ch, p)
  {
    var now := RoundTime(t, p.recoverySuccesses - 1, p);
    var probe := Event(ch, ProbeAttempt, now);
    var trace := base + [probe, Event(ch, RecoverySuccess, now)];
    RunSnoc(base, probe, p);
    assert trace[..|trace| - 1] == base + [probe];
    assert trace[|outage| - 1] == outage[|outage| - 1];
  }

  /** The dwell bound cannot be raised: under every policy whose failure rate can be reached, some
      sequential run opens a circuit and closes it exactly the minimum later. */
  lemma DwellBoundIsMet(ch: Channel, p: SanePolicy) returns (rs: seq<Request>)
    requires p.failureRate <= 1.0 && p.minOpen > 0.0
    ensures Sequential(rs) && MeetsDwellBound(TraceOf(rs, p), ch, p)
  {
    var t := if p.minOpen >= PROBE_INTERVAL_SECONDS then 0.0 else PROBE_INTERVAL_SECONDS - p.minOpen;
    var k := p.recoverySuccesses - 1;
    var earlier, outage := RoundsAdvance(ch, t, k, p);
    RunIsTrace(earlier, ch, p, RoundTime(t, k, p));
    RoundCloses(outage, TraceOf(earlier, p), ch, t, p);
    rs := OneMoreRound(earlier, ch, t, k, p);
  }
}
