/** Safety of the circuit breaker over every interleaving of locked registry calls.
    The history functions below look only at the events, never at the trimmed state. */
module CircuitHistories {
  import opened Common
  import opened CircuitRegistries

  datatype Event = Event(channel: Channel, op: Op, at: real)

  type Trace = seq<Event>

  /** The registry's clock is read under the lock, so events carry nondecreasing times. */
  ghost predicate Timed(trace: Trace) {
    forall i, j :: 0 <= i < j < |trace| ==> trace[i].at <= trace[j].at
  }

  /** The state of one channel after every event of the trace has been applied in order. */
  function Run(trace: Trace, ch: Channel, p: SanePolicy): Circuit {
    if trace == [] then INITIAL
    else
      var n := |trace| - 1;
      var before := Run(trace[..n], ch, p);
      if trace[n].channel == ch then Apply(before, trace[n].op, trace[n].at, p) else before
  }

  predicate IsReset(op: Op) {
    op.RecordSuccess? || op.RecordFailure? || op.Open? || op.RecoveryFailure?
  }

  /** How many recovery successes the channel has seen since its last resetting call. */
  function SinceReset(trace: Trace, ch: Channel): nat {
    if trace == [] then 0
    else
      var n := |trace| - 1;
      var before := SinceReset(trace[..n], ch);
      if trace[n].channel != ch then before
      else if IsReset(trace[n].op) then 0
      else if trace[n].op.RecoverySuccess? then before + 1
      else before
  }

  /** n modulo k, by repeated subtraction. */
  function Remainder(n: nat, k: nat): (r: nat)
    requires k >= 1
    ensures r < k
  {
    if n < k then n else Remainder(n - k, k)
  }

  /** The last event is the channel's K-th, 2K-th, ... uninterrupted recovery success. */
  predicate EndsInRecovery(trace: Trace, ch: Channel, p: SanePolicy) {
    && trace != []
    && trace[|trace| - 1].channel == ch
    && trace[|trace| - 1].op.RecoverySuccess?
    && Remainder(SinceReset(trace, ch), p.recoverySuccesses) == 0
  }

  /** Every attempt recorded on the channel since its last recovery, nothing trimmed. */
  function FullLog(trace: Trace, ch: Channel, p: SanePolicy): seq<Attempt> {
    if trace == [] then []
    else
      var n := |trace| - 1;
      var log := FullLog(trace[..n], ch, p);
      if trace[n].channel != ch then log
      else if trace[n].op.RecordSuccess? then log + [Attempt(trace[n].at, true)]
      else if trace[n].op.RecordFailure? then log + [Attempt(trace[n].at, false)]
      else if EndsInRecovery(trace, ch, p) then [Attempt(trace[n].at, true)]
      else log
  }

  function AttemptsSince(log: seq<Attempt>, cutoff: real): nat {
    if log == [] then 0
    else AttemptsSince(log[..|log| - 1], cutoff) + if log[|log| - 1].at >= cutoff then 1 else 0
  }

  function FailuresSince(log: seq<Attempt>, cutoff: real): (n: nat)
    ensures n <= AttemptsSince(log, cutoff)
  {
    if log == [] then 0
    else
      var last := log[|log| - 1];
      FailuresSince(log[..|log| - 1], cutoff) + if last.at >= cutoff && !last.succeeded then 1 else 0
  }

  /** The count-and-rate test of the policy, applied to an untrimmed log. */
  predicate EnoughEvidence(log: seq<Attempt>, now: real, p: SanePolicy) {
    var failures, attempts := FailuresSince(log, now - p.failureWindow), AttemptsSince(log, now - p.failureWindow);
    failures >= p.failureMinCount && FailureShare(failures, attempts) >= p.failureRate
  }

  // ----- the recovery streak -----

  lemma {:induction false} RemainderSuccessor(n: nat, k: nat)
    requires k >= 1
    ensures Remainder(n + 1, k) == if Remainder(n, k) + 1 == k then 0 else Remainder(n, k) + 1
  {
    if n >= k {
      RemainderSuccessor(n - k, k);
    }
  }

  /** The stored streak is the number of uninterrupted recovery successes, modulo K. */
  lemma {:induction false} StreakCountsRecoveries(trace: Trace, ch: Channel, p: SanePolicy)
    ensures Run(trace, ch, p).streak == Remainder(SinceReset(trace, ch), p.recoverySuccesses)
    ensures 0 <= Run(trace, ch, p).streak < p.recoverySuccesses
  {
    if trace != [] {
      var n := |trace| - 1;
      StreakCountsRecoveries(trace[..n], ch, p);
      RemainderSuccessor(SinceReset(trace[..n], ch), p.recoverySuccesses);
    }
  }

  /** An open circuit closes on one event exactly when that event completes a run of K
      recovery successes on its channel with no resetting call among them. */
  lemma ClosesExactlyOnCompletedStreak(trace: Trace, ch: Channel, p: SanePolicy)
    requires trace != [] && Run(trace[..|trace| - 1], ch, p).isOpen
    ensures !Run(trace, ch, p).isOpen <==> EndsInRecovery(trace, ch, p)
    ensures EndsInRecovery(trace, ch, p) ==> SinceReset(trace, ch) >= p.recoverySuccesses
  {
    var n := |trace| - 1;
    StreakCountsRecoveries(trace[..n], ch, p);
    RemainderSuccessor(SinceReset(trace[..n], ch), p.recoverySuccesses);
  }

  predicate ResetFree(rest: Trace, ch: Channel) {
    forall e <- rest :: e.channel == ch ==> !IsReset(e.op)
  }

  function RecoverySuccesses(rest: Trace, ch: Channel): nat {
    if rest == [] then 0
    else
      var last := rest[|rest| - 1];
      RecoverySuccesses(rest[..|rest| - 1], ch) + if last.channel == ch && last.op.RecoverySuccess? then 1 else 0
  }

  /** After an opening, as long as nothing resets the streak, the circuit is open exactly until
      the K-th recovery success, whatever other calls are interleaved. */
  lemma {:induction false} OpenUntilKthSuccess(before: Trace, opening: Event, rest: Trace, p: SanePolicy)
    requires opening.op == Open && ResetFree(rest, opening.channel)
    ensures Run(before + [opening] + rest, opening.channel, p).isOpen
       <==> RecoverySuccesses(rest, opening.channel) < p.recoverySuccesses
    ensures RecoverySuccesses(rest, opening.channel) < p.recoverySuccesses
       ==> Run(before + [opening] + rest, opening.channel, p).streak == RecoverySuccesses(rest, opening.channel)
  {
    var trace := before + [opening] + rest;
    var n := |trace| - 1;
    if rest == [] {
      assert trace[..n] == before;
    } else {
      assert trace[..n] == before + [opening] + rest[..|rest| - 1];
      OpenUntilKthSuccess(before, opening, rest[..|rest| - 1], p);
      StreakCountsRecoveries(trace[..n], opening.channel, p);
    }
  }

  // ----- the sliding window -----

  lemma {:induction false} RecentRecent(s: seq<Attempt>, c: real, c': real)
    requires c <= c'
    ensures Recent(Recent(s, c), c') == Recent(s, c')
  {
    if s != [] {
      var n := |s| - 1;
      RecentRecent(s[..n], c, c');
      var kept := Recent(s[..n], c);
      assert (kept + [s[n]])[..|kept|] == kept;
    }
  }

  lemma RecentSnoc(s: seq<Attempt>, a: Attempt, c: real)
    ensures Recent(s + [a], c) == if a.at >= c then Recent(s, c) + [a] else Recent(s, c)
  {
    assert (s + [a])[..|s|] == s;
  }

  lemma {:induction false} LogIsPast(trace: Trace, ch: Channel, p: SanePolicy, now: real)
    requires forall e <- trace :: e.at <= now
    ensures forall a <- FullLog(trace, ch, p) :: a.at <= now
  {
    if trace != [] {
      LogIsPast(trace[..|trace| - 1], ch, p, now);
    }
  }

  /** The part of a log that lies within the window of its latest attempt. */
  function Window(log: seq<Attempt>, window: real): seq<Attempt> {
    if log == [] then [] else Recent(log, log[|log| - 1].at - window)
  }

  lemma WindowOfSnoc(log: seq<Attempt>, a: Attempt, window: real)
    ensures Window(log + [a], window) == Recent(log + [a], a.at - window)
  {
  }

  /** The trimmed list in the registry is exactly the part of the untrimmed log that lies
      within the window of the latest recorded attempt. */
  lemma {:induction false} WindowRefinesFullLog(trace: Trace, ch: Channel, p: SanePolicy)
    requires Timed(trace)
    ensures Run(trace, ch, p).attempts == Window(FullLog(trace, ch, p), p.failureWindow)
  {
    if trace != [] {
      var n := |trace| - 1;
      var e := trace[n];
      WindowRefinesFullLog(trace[..n], ch, p);
      if e.channel == ch && (e.op.RecordSuccess? || e.op.RecordFailure?) {
        AttemptKeepsWindow(trace, ch, p);
      } else if e.channel == ch && e.op.RecoverySuccess? {
        RecoveryKeepsWindow(trace, ch, p);
      } else {
        OtherEventKeepsLog(trace, ch, p);
      }
    }
  }

  lemma RecoveryKeepsWindow(trace: Trace, ch: Channel, p: SanePolicy)
    requires trace != [] && trace[|trace| - 1].channel == ch && trace[|trace| - 1].op.RecoverySuccess?
    requires var before := trace[..|trace| - 1];
             Run(before, ch, p).attempts == Window(FullLog(before, ch, p), p.failureWindow)
    ensures Run(trace, ch, p).attempts == Window(FullLog(trace, ch, p), p.failureWindow)
  {
    RecoveryIsLogged(trace, ch, p);
    SingletonIsRecent(Attempt(trace[|trace| - 1].at, true), p.failureWindow);
  }

  /** A recovery success restarts both the list and the log, or changes neither. */
  lemma RecoveryIsLogged(trace: Trace, ch: Channel, p: SanePolicy)
    requires trace != [] && trace[|trace| - 1].channel == ch && trace[|trace| - 1].op.RecoverySuccess?
    ensures var before, restart := trace[..|trace| - 1], [Attempt(trace[|trace| - 1].at, true)];
            || (Run(trace, ch, p).attempts == restart && FullLog(trace, ch, p) == restart)
            || (Run(trace, ch, p).attempts == Run(before, ch, p).attempts && FullLog(trace, ch, p) == FullLog(before, ch, p))
  {
    CompletionIsHistoric(trace, ch, p);
  }

  lemma OtherEventKeepsLog(trace: Trace, ch: Channel, p: SanePolicy)
    requires trace != []
    requires var e := trace[|trace| - 1];
             e.channel != ch || !(e.op.RecordSuccess? || e.op.RecordFailure? || e.op.RecoverySuccess?)
    ensures Run(trace, ch, p).attempts == Run(trace[..|trace| - 1], ch, p).attempts
    ensures FullLog(trace, ch, p) == FullLog(trace[..|trace| - 1], ch, p)
  {
  }

  /** The K-th success, by the stored streak, is the K-th success by the event history. */
  lemma CompletionIsHistoric(trace: Trace, ch: Channel, p: SanePolicy)
    requires trace != []
    requires trace[|trace| - 1].channel == ch && trace[|trace| - 1].op.RecoverySuccess?
    ensures CompletesRecovery(Run(trace[..|trace| - 1], ch, p), p) <==> EndsInRecovery(trace, ch, p)
  {
    var n := |trace| - 1;
    StreakCountsRecoveries(trace[..n], ch, p);
    RemainderSuccessor(SinceReset(trace[..n], ch), p.recoverySuccesses);
  }

  lemma SingletonIsRecent(a: Attempt, window: real)
    requires window > 0.0
    ensures Window([a], window) == [a]
  {
    RecentSnoc([], a, a.at - window);
    assert [] + [a] == [a];
  }

  lemma WindowsOverlap(attempts: seq<Attempt>, log: seq<Attempt>, window: real, cutoff: real)
    requires attempts == Window(log, window)
    requires log != [] ==> log[|log| - 1].at - window <= cutoff
    ensures Recent(attempts, cutoff) == Recent(log, cutoff)
  {
    if log != [] {
      RecentRecent(log, log[|log| - 1].at - window, cutoff);
    }
  }

  /** Appending to the trimmed list and trimming again keeps it the window of the full log. */
  lemma WindowSnoc(attempts: seq<Attempt>, log: seq<Attempt>, a: Attempt, window: real)
    requires attempts == Window(log, window) && window > 0.0
    requires forall x <- log :: x.at <= a.at
    ensures Recent(attempts + [a], a.at - window) == Recent(log + [a], a.at - window)
    ensures Recent(attempts + [a], a.at - window) == Window(log + [a], window)
  {
    if log != [] {
      assert log[|log| - 1] in log;
    }
    WindowsOverlap(attempts, log, window, a.at - window);
    RecentSnoc(log, a, a.at - window);
    RecentSnoc(attempts, a, a.at - window);
    WindowOfSnoc(log, a, window);
  }

  lemma LogIsPastAt(trace: Trace, ch: Channel, p: SanePolicy)
    requires Timed(trace) && trace != []
    ensures forall x <- FullLog(trace[..|trace| - 1], ch, p) :: x.at <= trace[|trace| - 1].at
  {
    var before := trace[..|trace| - 1];
    forall e <- before ensures e.at <= trace[|trace| - 1].at {}
    LogIsPast(before, ch, p, trace[|trace| - 1].at);
  }

  lemma AttemptKeepsWindow(trace: Trace, ch: Channel, p: SanePolicy)
    requires Timed(trace) && trace != []
    requires var e := trace[|trace| - 1]; e.channel == ch && (e.op.RecordSuccess? || e.op.RecordFailure?)
    requires var before := trace[..|trace| - 1];
             Run(before, ch, p).attempts == Window(FullLog(before, ch, p), p.failureWindow)
    ensures Run(trace, ch, p).attempts == Window(FullLog(trace, ch, p), p.failureWindow)
  {
    var before, e := trace[..|trace| - 1], trace[|trace| - 1];
    LogIsPastAt(trace, ch, p);
    AttemptIsLogged(trace, ch, p);
    WindowSnoc(Run(before, ch, p).attempts, FullLog(before, ch, p), Attempt(e.at, e.op.RecordSuccess?), p.failureWindow);
  }

  lemma AttemptIsLogged(trace: Trace, ch: Channel, p: SanePolicy)
    requires trace != []
    requires var e := trace[|trace| - 1]; e.channel == ch && (e.op.RecordSuccess? || e.op.RecordFailure?)
    ensures var before, e := trace[..|trace| - 1], trace[|trace| - 1];
            var a := Attempt(e.at, e.op.RecordSuccess?);
            && FullLog(trace, ch, p) == FullLog(before, ch, p) + [a]
            && Run(trace, ch, p).attempts == Recent(Run(before, ch, p).attempts + [a], e.at - p.failureWindow)
  {
  }

  lemma {:induction false} CountsOfRecent(log: seq<Attempt>, cutoff: real)
    ensures |Recent(log, cutoff)| == AttemptsSince(log, cutoff)
    ensures Failures(Recent(log, cutoff)) == FailuresSince(log, cutoff)
  {
    if log != [] {
      var n := |log| - 1;
      CountsOfRecent(log[..n], cutoff);
      var kept := Recent(log[..n], cutoff);
      assert (kept + [log[n]])[..|kept|] == kept;
    }
  }

  /** What `record_failure` answers is the policy's test over the whole log since the last recovery. */
  lemma VerdictIsWholeLogTest(trace: Trace, ch: Channel, p: SanePolicy, now: real)
    requires Timed(trace) && forall e <- trace :: e.at <= now
    ensures FailureVerdict(Run(trace, ch, p), now, p)
       <==> !Run(trace, ch, p).isOpen && EnoughEvidence(FullLog(trace, ch, p) + [Attempt(now, false)], now, p)
  {
    var a := Attempt(now, false);
    WindowRefinesFullLog(trace, ch, p);
    LogIsPast(trace, ch, p, now);
    WindowSnoc(Run(trace, ch, p).attempts, FullLog(trace, ch, p), a, p.failureWindow);
    ThresholdIsEvidence(Apply(Run(trace, ch, p), RecordFailure, now, p).attempts, FullLog(trace, ch, p) + [a], now, p);
  }

  lemma ThresholdIsEvidence(attempts: seq<Attempt>, log: seq<Attempt>, now: real, p: SanePolicy)
    requires attempts == Recent(log, now - p.failureWindow)
    ensures ThresholdReached(attempts, p) <==> EnoughEvidence(log, now, p)
  {
    CountsOfRecent(log, now - p.failureWindow);
  }

  /** The positions of the attempts in a log since a moment, and of the failed ones among them. */
  ghost function AttemptedSince(log: seq<Attempt>, cutoff: real): set<int> {
    set i | 0 <= i < |log| && log[i].at >= cutoff
  }

  ghost function FailedSince(log: seq<Attempt>, cutoff: real): set<int> {
    set i | 0 <= i < |log| && log[i].at >= cutoff && !log[i].succeeded
  }

  lemma {:induction false} AttemptsAreCounted(log: seq<Attempt>, cutoff: real)
    ensures |AttemptedSince(log, cutoff)| == AttemptsSince(log, cutoff)
  {
    if log == [] {
      assert AttemptedSince(log, cutoff) == {};
    } else {
      var n := |log| - 1;
      AttemptsAreCounted(log[..n], cutoff);
      assert AttemptedSince(log, cutoff) == AttemptedSince(log[..n], cutoff) + if log[n].at >= cutoff then {n} else {};
    }
  }

  lemma {:induction false} FailuresAreCountedSince(log: seq<Attempt>, cutoff: real)
    ensures |FailedSince(log, cutoff)| == FailuresSince(log, cutoff)
  {
    if log == [] {
      assert FailedSince(log, cutoff) == {};
    } else {
      var n := |log| - 1;
      FailuresAreCountedSince(log[..n], cutoff);
      var before, last := FailedSince(log[..n], cutoff), log[n].at >= cutoff && !log[n].succeeded;
      assert forall i :: i in FailedSince(log, cutoff) <==> i in before || (i == n && last);
      assert FailedSince(log, cutoff) == before + if last then {n} else {};
    }
  }

  lemma ShareCounts(failures: nat, attempts: nat, p: SanePolicy)
    requires failures <= attempts
    ensures (failures >= p.failureMinCount && FailureShare(failures, attempts) >= p.failureRate)
       <==> EnoughFailed(failures, attempts, p)
  {
    if failures >= p.failureMinCount {
      ShareReaches(failures, attempts, p.failureRate);
    }
  }

  /** The policy's test on a log, by counting positions and multiplying out the rate. */
  lemma EvidenceCounts(log: seq<Attempt>, now: real, p: SanePolicy)
    ensures EnoughEvidence(log, now, p) <==>
              EnoughFailed(|FailedSince(log, now - p.failureWindow)|, |AttemptedSince(log, now - p.failureWindow)|, p)
  {
    AttemptsAreCounted(log, now - p.failureWindow);
    FailuresAreCountedSince(log, now - p.failureWindow);
    ShareCounts(FailuresSince(log, now - p.failureWindow), AttemptsSince(log, now - p.failureWindow), p);
  }

  /** The verdict on a failure, by counting positions of the untrimmed log: enough attempts within the
      window failed, and they are at least the failure rate of all attempts within the window. */
  lemma VerdictCountsWholeLog(trace: Trace, ch: Channel, p: SanePolicy, now: real)
    requires Timed(trace) && forall e <- trace :: e.at <= now
    ensures var log, cutoff := FullLog(trace, ch, p) + [Attempt(now, false)], now - p.failureWindow;
            FailureVerdict(Run(trace, ch, p), now, p)
            <==> !Run(trace, ch, p).isOpen && EnoughFailed(|FailedSince(log, cutoff)|, |AttemptedSince(log, cutoff)|, p)
  {
    VerdictIsWholeLogTest(trace, ch, p, now);
    EvidenceCounts(FullLog(trace, ch, p) + [Attempt(now, false)], now, p);
  }

  lemma {:induction false} LogAscends(trace: Trace, ch: Channel, p: SanePolicy)
    requires Timed(trace)
    ensures Ascending(FullLog(trace, ch, p))
  {
    if trace != [] {
      var n := |trace| - 1;
      LogAscends(trace[..n], ch, p);
      LogIsPastAt(trace, ch, p);
      var log := FullLog(trace[..n], ch, p);
      forall i | 0 <= i < |log| ensures log[i].at <= trace[n].at {
        assert log[i] in log;
      }
    }
  }

  /** The stored list is a final part of the untrimmed log since the last recovery, cut exactly at the
      window of the latest attempt. */
  lemma WindowIsSuffix(trace: Trace, ch: Channel, p: SanePolicy) returns (k: nat)
    requires Timed(trace)
    ensures var log := FullLog(trace, ch, p);
            && k <= |log| && Run(trace, ch, p).attempts == log[k..]
            && (log != [] ==> CutsAt(log, log[|log| - 1].at - p.failureWindow, k))
  {
    var log := FullLog(trace, ch, p);
    WindowRefinesFullLog(trace, ch, p);
    LogAscends(trace, ch, p);
    k := 0;
    if log != [] {
      k := RecentIsSuffix(log, log[|log| - 1].at - p.failureWindow);
    }
  }

  // ----- the registry object performs traces -----

  /** One locked call on the registry object. */
  method Perform(registry: CircuitRegistry, e: Event, p: SanePolicy)
    requires registry.Valid()
    modifies registry.At(e.channel)
    ensures registry.At(e.channel).View() == Apply(old(registry.At(e.channel).View()), e.op, e.at, p)
  {
    match e.op {
      case RecordSuccess => registry.RecordSuccess(e.channel, p, e.at);
      case RecordFailure => var _ := registry.RecordFailure(e.channel, p, e.at);
      case Open => registry.Open(e.channel, p, e.at);
      case RecoverySuccess => var _ := registry.RecordRecoverySuccess(e.channel, p, e.at);
      case RecoveryFailure => registry.RecordRecoveryFailure(e.channel, p, e.at);
      case ProbeAttempt => registry.RecordProbeAttempt(e.channel, p, e.at);
      case StatusCheck => registry.RecordModalStatusCheck(e.channel, p, e.at);
    }
  }

  /** Any interleaving of calls on a new registry object leaves each channel in the state `Run` gives. */
  method Replay(trace: Trace, p: SanePolicy) returns (registry: CircuitRegistry)
    ensures registry.Valid() && fresh(registry)
    ensures forall ch :: registry.At(ch).View() == Run(trace, ch, p)
  {
    registry := new CircuitRegistry();
    for i := 0 to |trace|
      invariant fresh(registry) && registry.Valid() && fresh(registry.current) && fresh(registry.frontier)
      invariant forall ch :: registry.At(ch).View() == Run(trace[..i], ch, p)
    {
      assert trace[..i + 1][..i] == trace[..i];
      Perform(registry, trace[i], p);
    }
    assert trace[..|trace|] == trace;
  }
}
