/** The per-channel circuit breaker: one value-level step per locked registry method,
    and the registry object whose methods perform those steps in place. */
module CircuitRegistries {
  import opened Common

  const PROBE_INTERVAL_SECONDS: real := 15.0
  const STATUS_CHECK_INTERVAL_SECONDS: real := 60.0

  datatype Attempt = Attempt(at: real, succeeded: bool)

  datatype Policy = Policy(
    failureMinCount: nat,
    failureRate: real,
    failureWindow: real,
    minOpen: real,
    recoverySuccesses: nat)
  {
    /** What `modal_circuit_policy_from_env` guarantees of the policies it builds. */
    predicate Sane() {
      failureMinCount >= 1 && recoverySuccesses >= 1 && failureWindow > 0.0
    }
  }

  type SanePolicy = p: Policy | p.Sane() witness Policy(10, 0.5, 60.0, 60.0, 3)

  /** The value of a channel's circuit at one moment. */
  datatype Circuit = Circuit(
    attempts: seq<Attempt>,
    isOpen: bool,
    openedAt: real,
    lastProbeAt: real,
    lastStatusCheckAt: real,
    streak: int)

  const INITIAL: Circuit := Circuit([], false, 0.0, 0.0, 0.0, 0)

  datatype Op =
    | RecordSuccess
    | RecordFailure
    | Open
    | RecoverySuccess
    | RecoveryFailure
    | ProbeAttempt
    | StatusCheck

  /** The entries not older than `cutoff`, in order. */
  function Recent(attempts: seq<Attempt>, cutoff: real): (kept: seq<Attempt>)
  {
    if attempts == [] then []
    else
      var n := |attempts| - 1;
      var kept := Recent(attempts[..n], cutoff);
      if attempts[n].at >= cutoff then kept + [attempts[n]] else kept
  }

  function Failures(attempts: seq<Attempt>): (n: nat)
    ensures n <= |attempts|
  {
    if attempts == [] then 0
    else
      var n := |attempts| - 1;
      Failures(attempts[..n]) + if attempts[n].succeeded then 0 else 1
  }

  function FailureShare(failures: nat, attempts: nat): real
    requires attempts > 0
  {
    failures as real / attempts as real
  }

  /** The positions of the failed attempts. */
  ghost function FailedAt(attempts: seq<Attempt>): set<int> {
    set i | 0 <= i < |attempts| && !attempts[i].succeeded
  }

  lemma {:induction false} FailuresAreCounted(attempts: seq<Attempt>)
    ensures |FailedAt(attempts)| == Failures(attempts)
  {
    if attempts == [] {
      assert FailedAt(attempts) == {};
    } else {
      var n := |attempts| - 1;
      FailuresAreCounted(attempts[..n]);
      assert FailedAt(attempts) == FailedAt(attempts[..n]) + if attempts[n].succeeded then {} else {n};
    }
  }

  lemma ShareReaches(failures: nat, attempts: nat, rate: real)
    requires attempts > 0
    ensures FailureShare(failures, attempts) >= rate <==> failures as real >= rate * attempts as real
  {
    var f, n := failures as real, attempts as real;
    assert f == f / n * n;
    if f / n >= rate {
      ScaleUp(rate, f / n, n);
    } else {
      ScaleStrictly(f / n, rate, n);
    }
  }

  lemma ScaleUp(a: real, b: real, n: real)
    requires a <= b && n > 0.0
    ensures a * n <= b * n
  {
  }

  lemma ScaleStrictly(a: real, b: real, n: real)
    requires a < b && n > 0.0
    ensures a * n < b * n
  {
  }

  /** The failed attempts are at least the minimum number, and at least the failure rate of all. */
  ghost predicate EnoughFailed(failed: int, all: int, p: SanePolicy) {
    failed >= p.failureMinCount && failed as real >= p.failureRate * all as real
  }

  /** The threshold, by counting the failed attempts and multiplying out the rate. */
  lemma ThresholdCounts(attempts: seq<Attempt>, p: SanePolicy)
    ensures ThresholdReached(attempts, p) <==> EnoughFailed(|FailedAt(attempts)|, |attempts|, p)
  {
    FailuresAreCounted(attempts);
    if Failures(attempts) >= p.failureMinCount {
      ShareReaches(Failures(attempts), |attempts|, p.failureRate);
    }
  }

  /** Which entries `Recent` keeps, and how often. */
  lemma {:induction false} RecentKeeps(attempts: seq<Attempt>, cutoff: real)
    ensures forall a :: multiset(Recent(attempts, cutoff))[a] == if a.at >= cutoff then multiset(attempts)[a] else 0
  {
    if attempts != [] {
      var n := |attempts| - 1;
      RecentKeeps(attempts[..n], cutoff);
      assert attempts == attempts[..n] + [attempts[n]];
    }
  }

  ghost predicate Ascending(attempts: seq<Attempt>) {
    forall i, j :: 0 <= i < j < |attempts| ==> attempts[i].at <= attempts[j].at
  }

  /** The entries from position k on are those not older than the cutoff. */
  ghost predicate CutsAt(attempts: seq<Attempt>, cutoff: real, k: nat) {
    && k <= |attempts|
    && (forall i :: 0 <= i < k ==> attempts[i].at < cutoff)
    && (forall i :: k <= i < |attempts| ==> attempts[i].at >= cutoff)
  }

  lemma SuffixGrows(attempts: seq<Attempt>, cutoff: real, k: nat)
    requires attempts != [] && attempts[|attempts| - 1].at >= cutoff
    requires var before := attempts[..|attempts| - 1]; CutsAt(before, cutoff, k) && Recent(before, cutoff) == before[k..]
    ensures CutsAt(attempts, cutoff, k) && Recent(attempts, cutoff) == attempts[k..]
  {
    var n := |attempts| - 1;
    assert attempts[..n][k..] + [attempts[n]] == attempts[k..];
    forall i | k <= i < |attempts| ensures attempts[i].at >= cutoff {
      assert i < n ==> attempts[..n][i] == attempts[i];
    }
  }

  lemma SuffixEnds(attempts: seq<Attempt>, cutoff: real)
    requires Ascending(attempts) && attempts != [] && attempts[|attempts| - 1].at < cutoff
    ensures CutsAt(attempts, cutoff, |attempts|)
  {
    var n := |attempts| - 1;
    forall i | 0 <= i < |attempts| ensures attempts[i].at < cutoff {
      assert i < n ==> attempts[i].at <= attempts[n].at;
    }
  }

  lemma {:induction false} NoneRecent(attempts: seq<Attempt>, cutoff: real)
    requires forall a <- attempts :: a.at < cutoff
    ensures Recent(attempts, cutoff) == []
  {
    if attempts != [] {
      NoneRecent(attempts[..|attempts| - 1], cutoff);
    }
  }

  /** Of entries in time order, exactly a final part is recent. */
  lemma {:induction false} RecentIsSuffix(attempts: seq<Attempt>, cutoff: real) returns (k: nat)
    requires Ascending(attempts)
    ensures CutsAt(attempts, cutoff, k) && Recent(attempts, cutoff) == attempts[k..]
  {
    k := |attempts|;
    if attempts != [] {
      if attempts[|attempts| - 1].at < cutoff {
        SuffixEnds(attempts, cutoff);
        NoneRecent(attempts, cutoff);
      } else {
        k := RecentIsSuffix(attempts[..|attempts| - 1], cutoff);
        SuffixGrows(attempts, cutoff, k);
      }
    }
  }

  predicate ThresholdReached(attempts: seq<Attempt>, p: SanePolicy) {
    if Failures(attempts) < p.failureMinCount then false
    else FailureShare(Failures(attempts), |attempts|) >= p.failureRate
  }

  /** A recovery success that completes the required streak. */
  predicate CompletesRecovery(c: Circuit, p: SanePolicy) {
    c.streak + 1 >= p.recoverySuccesses
  }

  /** The effect of one locked registry method on its channel, with the clock reading it took. */
  function Apply(c: Circuit, op: Op, now: real, p: SanePolicy): Circuit {
    match op
    case RecordSuccess =>
      c.(attempts := Recent(c.attempts + [Attempt(now, true)], now - p.failureWindow), streak := 0)
    case RecordFailure =>
      c.(attempts := Recent(c.attempts + [Attempt(now, false)], now - p.failureWindow), streak := 0)
    case Open =>
      c.(isOpen := true, openedAt := now, streak := 0)
    case RecoverySuccess =>
      if CompletesRecovery(c, p)
      then c.(attempts := [Attempt(now, true)], isOpen := false, openedAt := 0.0, streak := 0)
      else c.(streak := c.streak + 1)
    case RecoveryFailure => c.(streak := 0)
    case ProbeAttempt => c.(lastProbeAt := now)
    case StatusCheck => c.(lastStatusCheckAt := now)
  }

  /** What `record_failure` answers: whether this failure makes the channel a candidate for opening. */
  predicate FailureVerdict(c: Circuit, now: real, p: SanePolicy) {
    !c.isOpen && ThresholdReached(Apply(c, RecordFailure, now, p).attempts, p)
  }

  predicate ProbeDue(c: Circuit, now: real) {
    now - c.lastProbeAt >= PROBE_INTERVAL_SECONDS
  }

  predicate RecoveryDue(c: Circuit, now: real, p: SanePolicy) {
    c.isOpen && now - c.openedAt >= p.minOpen
  }

  predicate StatusCheckDue(c: Circuit, now: real) {
    now - c.lastStatusCheckAt >= STATUS_CHECK_INTERVAL_SECONDS
  }

  class ChannelCircuit {
    var attempts: seq<Attempt>
    var isOpen: bool
    var openedAt: real
    var lastProbeAt: real
    var lastStatusCheckAt: real
    var recoverySuccesses: int

    constructor ()
      ensures View() == INITIAL
    {
      attempts, isOpen, openedAt := [], false, 0.0;
      lastProbeAt, lastStatusCheckAt, recoverySuccesses := 0.0, 0.0, 0;
    }

    function View(): Circuit
      reads this
    {
      Circuit(attempts, isOpen, openedAt, lastProbeAt, lastStatusCheckAt, recoverySuccesses)
    }

    /** Appends an attempt and trims the list. */
    method AddAttempt(now: real, succeeded: bool, windowSeconds: real)
      modifies this`attempts
      ensures attempts == Recent(old(attempts) + [Attempt(now, succeeded)], now - windowSeconds)
    {
      attempts := attempts + [Attempt(now, succeeded)];
      TrimAttempts(now, windowSeconds);
    }

    method TrimAttempts(now: real, windowSeconds: real)
      modifies this`attempts
      ensures attempts == Recent(old(attempts), now - windowSeconds)
      ensures forall a :: multiset(attempts)[a] == if a.at >= now - windowSeconds then multiset(old(attempts))[a] else 0
    {
      RecentKeeps(attempts, now - windowSeconds);
      var cutoff := now - windowSeconds;
      var kept: seq<Attempt> := [];
      for i := 0 to |attempts|
        invariant kept == Recent(attempts[..i], cutoff)
      {
        assert attempts[..i + 1][..i] == attempts[..i];
        if attempts[i].at >= cutoff {
          kept := kept + [attempts[i]];
        }
      }
      assert attempts[..|attempts|] == attempts;
      attempts := kept;
    }

    method ReachesThreshold(p: SanePolicy) returns (reached: bool)
      ensures reached <==> ThresholdReached(attempts, p)
      ensures reached <==> EnoughFailed(|FailedAt(attempts)|, |attempts|, p)
    {
      ThresholdCounts(attempts, p);
      var failures: nat := 0;
      for i := 0 to |attempts|
        invariant failures == Failures(attempts[..i])
      {
        assert attempts[..i + 1][..i] == attempts[..i];
        if !attempts[i].succeeded {
          failures := failures + 1;
        }
      }
      assert attempts[..|attempts|] == attempts;
      if failures < p.failureMinCount {
        return false;
      }
      return FailureShare(failures, |attempts|) >= p.failureRate;
    }
  }

  class CircuitRegistry {
    const current: ChannelCircuit
    const frontier: ChannelCircuit

    ghost predicate Valid() {
      current != frontier
    }

    function At(channel: Channel): ChannelCircuit {
      if channel.Current? then current else frontier
    }

    constructor ()
      ensures Valid() && fresh(current) && fresh(frontier)
      ensures current.View() == INITIAL && frontier.View() == INITIAL
    {
      current := new ChannelCircuit();
      frontier := new ChannelCircuit();
    }

    method RecordSuccess(channel: Channel, p: SanePolicy, now: real)
      modifies At(channel)
      ensures At(channel).View() == Apply(old(At(channel).View()), Op.RecordSuccess, now, p)
      ensures At(channel).View() == old(At(channel).View()).(attempts := At(channel).attempts, streak := 0)
    {
      var circuit := At(channel);
      circuit.AddAttempt(now, true, p.failureWindow);
      circuit.recoverySuccesses := 0;
    }

    method RecordFailure(channel: Channel, p: SanePolicy, now: real) returns (reached: bool)
      modifies At(channel)
      ensures At(channel).View() == Apply(old(At(channel).View()), Op.RecordFailure, now, p)
      ensures reached <==> FailureVerdict(old(At(channel).View()), now, p)
      ensures reached <==> !At(channel).isOpen && EnoughFailed(|FailedAt(At(channel).attempts)|, |At(channel).attempts|, p)
      ensures At(channel).View() == old(At(channel).View()).(attempts := At(channel).attempts, streak := 0)
    {
      var circuit := At(channel);
      circuit.recoverySuccesses := 0;
      circuit.AddAttempt(now, false, p.failureWindow);
      if circuit.isOpen {
        return false;
      }
      reached := circuit.ReachesThreshold(p);
    }

    method Open(channel: Channel, p: SanePolicy, now: real)
      modifies At(channel)
      ensures At(channel).View() == Apply(old(At(channel).View()), Op.Open, now, p)
      ensures At(channel).View() == old(At(channel).View()).(isOpen := true, openedAt := now, streak := 0)
    {
      var circuit := At(channel);
      circuit.isOpen := true;
      circuit.openedAt := now;
      circuit.recoverySuccesses := 0;
    }

    method RecordRecoverySuccess(channel: Channel, p: SanePolicy, now: real) returns (recovered: bool)
      modifies At(channel)
      ensures At(channel).View() == Apply(old(At(channel).View()), Op.RecoverySuccess, now, p)
      ensures recovered <==> CompletesRecovery(old(At(channel).View()), p)
      ensures recovered <==> old(At(channel).recoverySuccesses) + 1 >= p.recoverySuccesses
      ensures recovered ==>
                At(channel).View()
                == old(At(channel).View()).(attempts := [Attempt(now, true)], isOpen := false, openedAt := 0.0, streak := 0)
      ensures !recovered ==> At(channel).View() == old(At(channel).View()).(streak := old(At(channel).recoverySuccesses) + 1)
    {
      var circuit := At(channel);
      circuit.recoverySuccesses := circuit.recoverySuccesses + 1;
      if circuit.recoverySuccesses < p.recoverySuccesses {
        return false;
      }
      circuit.isOpen := false;
      circuit.openedAt := 0.0;
      circuit.recoverySuccesses := 0;
      circuit.attempts := [];
      circuit.attempts := circuit.attempts + [Attempt(now, true)];
      return true;
    }

    method RecordRecoveryFailure(channel: Channel, p: SanePolicy, now: real)
      modifies At(channel)
      ensures At(channel).View() == Apply(old(At(channel).View()), Op.RecoveryFailure, now, p)
      ensures At(channel).View() == old(At(channel).View()).(streak := 0)
    {
      At(channel).recoverySuccesses := 0;
    }

    method RecordProbeAttempt(channel: Channel, p: SanePolicy, now: real)
      modifies At(channel)
      ensures At(channel).View() == Apply(old(At(channel).View()), Op.ProbeAttempt, now, p)
      ensures At(channel).View() == old(At(channel).View()).(lastProbeAt := now)
    {
      At(channel).lastProbeAt := now;
    }

    method RecordModalStatusCheck(channel: Channel, p: SanePolicy, now: real)
      modifies At(channel)
      ensures At(channel).View() == Apply(old(At(channel).View()), Op.StatusCheck, now, p)
      ensures At(channel).View() == old(At(channel).View()).(lastStatusCheckAt := now)
    {
      At(channel).lastStatusCheckAt := now;
    }
  }
}
