/** Requests that overlap: every registry access of a request is a step of its own, and the steps of
    several requests on one channel interleave freely. One request alone does what `Route` says;
    overlapping ones can close a circuit early, and the exact discipline that prevents it is stated
    for all interleavings. */
module OverlappingRequests {
  import opened Common
  import opened CircuitRegistries
  import opened CircuitHistories
  import opened RequestRouting
  import opened OutageRuns

  // ----- one registry access at a time -----

  /** Where a request is: the registry access it makes next. */
  datatype Place =
    | Entry
    | ReadyCheck | RecoveryDueCheck | NoteRecoveryProbe | RecordRecovery
    | DueCheck | NoteProbe | RecordProbe | ProbeStatusDue | NoteProbeStatus | OpenAfterProbe
    | OpenCheck
    | RecordCall | CallStatusDue | NoteCallStatus | OpenAfterCall
    | Done(backend: Backend)
  {
    /** How far the request still has to go at the most. */
    function Remaining(): nat {
      match this
      case Entry => 12
      case ReadyCheck => 11 case RecoveryDueCheck => 10 case NoteRecoveryProbe => 9 case RecordRecovery => 8
      case DueCheck => 11 case NoteProbe => 10 case RecordProbe => 9
      case ProbeStatusDue => 8 case NoteProbeStatus => 7 case OpenAfterProbe => 6
      case OpenCheck => 5
      case RecordCall => 4 case CallStatusDue => 3 case NoteCallStatus => 2 case OpenAfterCall => 1
      case Done(_) => 0
    }

    /** The clock reading of the access when the request runs alone. */
    function Clock(t: Ticks): real {
      match this
      case Entry => t.ready case ReadyCheck => t.ready
      case RecoveryDueCheck => t.due case DueCheck => t.due
      case NoteRecoveryProbe => t.probe case NoteProbe => t.probe
      case RecordRecovery => t.record case RecordProbe => t.record
      case ProbeStatusDue => t.statusDue case NoteProbeStatus => t.statusRecord case OpenAfterProbe => t.open
      case OpenCheck => t.open
      case RecordCall => t.callRecord case CallStatusDue => t.callStatusDue
      case NoteCallStatus => t.callStatusRecord case OpenAfterCall => t.callOpen
      case Done(_) => t.callOpen
    }
  }

  /** What an access leads to: the next place, and the registry update it made, if any. */
  datatype Move = Move(next: Place, op: Option<Op>)

  function AfterProbeStatus(r: Request): Place {
    if r.canary.Failed? then OpenAfterProbe else OpenCheck
  }

  function AfterCallStatus(r: Request): Place {
    if r.callCanary.Failed? then OpenAfterCall else Done(NoBackend)
  }

  function RecoveryOutcome(r: Request): Outcome {
    if r.canary.Ok? then r.probe else r.canary
  }

  /** The refresh of a request, access by access. */
  function RefreshAccess(c: Circuit, at: Place, r: Request, now: real, p: SanePolicy): Move
    requires at.Remaining() > 5 && !at.Entry?
  {
    match at
    case ReadyCheck => Move(if RecoveryDue(c, now, p) then RecoveryDueCheck else OpenCheck, None)
    case RecoveryDueCheck => Move(if ProbeDue(c, now) then NoteRecoveryProbe else OpenCheck, None)
    case NoteRecoveryProbe =>
      Move(if RecoveryOutcome(r).Saturated? then OpenCheck else RecordRecovery, Some(ProbeAttempt))
    case RecordRecovery => Move(OpenCheck, Some(if RecoveryOutcome(r).Ok? then RecoverySuccess else RecoveryFailure))
    case DueCheck => Move(if ProbeDue(c, now) then NoteProbe else OpenCheck, None)
    case NoteProbe => Move(if r.probe.Saturated? then OpenCheck else RecordProbe, Some(ProbeAttempt))
    case RecordProbe =>
      if r.probe.Ok? then Move(OpenCheck, Some(RecordSuccess))
      else Move(if FailureVerdict(c, now, p) then ProbeStatusDue else OpenCheck, Some(RecordFailure))
    case ProbeStatusDue => Move(if StatusCheckDue(c, now) then NoteProbeStatus else AfterProbeStatus(r), None)
    case NoteProbeStatus => Move(AfterProbeStatus(r), Some(StatusCheck))
    case OpenAfterProbe => Move(OpenCheck, Some(Open))
  }

  /** The Modal call of a request, access by access. */
  function CallAccess(c: Circuit, at: Place, r: Request, now: real, p: SanePolicy): Move
    requires 0 < at.Remaining() <= 5
  {
    match at
    case OpenCheck => Move(if c.isOpen then Done(Fallback(r)) else RecordCall, None)
    case RecordCall =>
      if r.call.Ok? then Move(Done(Modal), Some(RecordSuccess))
      else if r.call.Saturated? || r.force.ForceModal? then Move(Done(NoBackend), None)
      else Move(if FailureVerdict(c, now, p) then CallStatusDue else Done(NoBackend), Some(RecordFailure))
    case CallStatusDue => Move(if StatusCheckDue(c, now) then NoteCallStatus else AfterCallStatus(r), None)
    case NoteCallStatus => Move(AfterCallStatus(r), Some(StatusCheck))
    case OpenAfterCall => Move(Done(Fallback(r)), Some(Open))
  }

  function Access(c: Circuit, at: Place, r: Request, now: real, p: SanePolicy): Move {
    if at.Done? then Move(at, None)
    else if at.Entry? then
      match r.force
      case ForceCloudRun => Move(Done(Fallback(r)), None)
      case ForceModal => Move(RecordCall, None)
      case Unforced => Move(if c.isOpen then ReadyCheck else DueCheck, None)
    else if at.Remaining() > 5 then RefreshAccess(c, at, r, now, p)
    else CallAccess(c, at, r, now, p)
  }

  // ----- one request alone -----

  function Advance(g: Progress, ch: Channel, m: Move, now: real, p: SanePolicy): Progress {
    if m.op.Some? then Do(g, ch, m.op.value, now, p) else g
  }

  lemma RefreshAccessAdvances(c: Circuit, at: Place, r: Request, now: real, p: SanePolicy)
    requires at.Remaining() > 5 && !at.Entry?
    ensures RefreshAccess(c, at, r, now, p).next.Remaining() < at.Remaining()
  {
  }

  lemma CallAccessAdvances(c: Circuit, at: Place, r: Request, now: real, p: SanePolicy)
    requires 0 < at.Remaining() <= 5
    ensures CallAccess(c, at, r, now, p).next.Remaining() < at.Remaining()
  {
  }

  lemma AccessAdvances(c: Circuit, at: Place, r: Request, now: real, p: SanePolicy)
    requires !at.Done?
    ensures Access(c, at, r, now, p).next.Remaining() < at.Remaining()
  {
    if !at.Entry? {
      if at.Remaining() > 5 {
        RefreshAccessAdvances(c, at, r, now, p);
      } else {
        CallAccessAdvances(c, at, r, now, p);
      }
    }
  }

  /** The request makes its accesses one after the other, at its own clock readings. */
  function Alone(g: Progress, at: Place, r: Request, p: SanePolicy): (Progress, Backend)
    decreases at.Remaining()
  {
    if at.Done? then (g, at.backend)
    else
      AccessAdvances(g.c, at, r, at.Clock(r.ticks), p);
      var m := Access(g.c, at, r, at.Clock(r.ticks), p);
      Alone(Advance(g, r.channel, m, at.Clock(r.ticks), p), m.next, r, p)
  }

  /** How a request goes on once its refresh is over. */
  function Answer(g: Progress, r: Request, p: SanePolicy): (Progress, Backend) {
    if g.c.isOpen then (g, Fallback(r)) else Call(g, r, p)
  }

  lemma StatusThenCall(g: Progress, r: Request, p: SanePolicy)
    ensures var g' := LogStatus(g, r.channel, r.ticks.callStatusDue, r.ticks.callStatusRecord, p);
            Alone(g, CallStatusDue, r, p)
            == if r.callCanary.Failed? then (Do(g', r.channel, Open, r.ticks.callOpen, p), Fallback(r)) else (g', NoBackend)
  {
    var g' := LogStatus(g, r.channel, r.ticks.callStatusDue, r.ticks.callStatusRecord, p);
    assert Alone(g', AfterCallStatus(r), r, p)
        == if r.callCanary.Failed? then (Do(g', r.channel, Open, r.ticks.callOpen, p), Fallback(r)) else (g', NoBackend);
    if StatusCheckDue(g.c, r.ticks.callStatusDue) {
      assert Alone(g, CallStatusDue, r, p) == Alone(g, NoteCallStatus, r, p);
    }
  }

  lemma CallAlone(g: Progress, r: Request, p: SanePolicy)
    requires r.force.Unforced?
    ensures Alone(g, RecordCall, r, p) == Call(g, r, p)
  {
    if r.call.Failed? {
      StatusThenCall(Do(g, r.channel, RecordFailure, r.ticks.callRecord, p), r, p);
    }
  }

  lemma AnswerAlone(g: Progress, r: Request, p: SanePolicy)
    requires r.force.Unforced?
    ensures Alone(g, OpenCheck, r, p) == Answer(g, r, p)
  {
    CallAlone(g, r, p);
  }

  lemma StatusThenAnswer(g: Progress, r: Request, p: SanePolicy)
    requires r.force.Unforced?
    ensures var g' := LogStatus(g, r.channel, r.ticks.statusDue, r.ticks.statusRecord, p);
            Alone(g, ProbeStatusDue, r, p)
            == Answer(if r.canary.Failed? then Do(g', r.channel, Open, r.ticks.open, p) else g', r, p)
  {
    var g' := LogStatus(g, r.channel, r.ticks.statusDue, r.ticks.statusRecord, p);
    var g'' := if r.canary.Failed? then Do(g', r.channel, Open, r.ticks.open, p) else g';
    AnswerAlone(g'', r, p);
    assert Alone(g', AfterProbeStatus(r), r, p) == Alone(g'', OpenCheck, r, p);
    if StatusCheckDue(g.c, r.ticks.statusDue) {
      assert Alone(g, ProbeStatusDue, r, p) == Alone(g, NoteProbeStatus, r, p);
    }
  }

  lemma ClosedAlone(g: Progress, r: Request, p: SanePolicy)
    requires r.force.Unforced?
    ensures Alone(g, DueCheck, r, p) == Answer(RefreshClosed(g, r, p), r, p)
  {
    AnswerAlone(g, r, p);
    if ProbeDue(g.c, r.ticks.due) {
      ProbeAlone(Do(g, r.channel, ProbeAttempt, r.ticks.probe, p), r, p);
      assert Alone(g, DueCheck, r, p) == Alone(g, NoteProbe, r, p);
    }
  }

  lemma ProbeAlone(g1: Progress, r: Request, p: SanePolicy)
    requires r.force.Unforced?
    ensures Alone(g1, if r.probe.Saturated? then OpenCheck else RecordProbe, r, p)
         == match r.probe
            case Ok => Answer(Do(g1, r.channel, RecordSuccess, r.ticks.record, p), r, p)
            case Saturated => Answer(g1, r, p)
            case Failed =>
              var t := r.ticks;
              Answer(FailureStep(g1, r.channel, r.canary, t.record, t.statusDue, t.statusRecord, t.open, p), r, p)
  {
    match r.probe {
      case Ok => AnswerAlone(Do(g1, r.channel, RecordSuccess, r.ticks.record, p), r, p);
      case Saturated => AnswerAlone(g1, r, p);
      case Failed =>
        var g2 := Do(g1, r.channel, RecordFailure, r.ticks.record, p);
        AnswerAlone(g2, r, p);
        StatusThenAnswer(g2, r, p);
    }
  }

  lemma OpenAlone(g: Progress, r: Request, p: SanePolicy)
    requires r.force.Unforced? && g.c.isOpen
    ensures Alone(g, ReadyCheck, r, p) == Answer(RefreshOpen(g, r, p), r, p)
  {
    AnswerAlone(g, r, p);
    if RecoveryDue(g.c, r.ticks.ready, p) && ProbeDue(g.c, r.ticks.due) {
      RecoveryAlone(Do(g, r.channel, ProbeAttempt, r.ticks.probe, p), r, p);
      assert Alone(g, RecoveryDueCheck, r, p) == Alone(g, NoteRecoveryProbe, r, p);
    }
  }

  lemma RecoveryAlone(g1: Progress, r: Request, p: SanePolicy)
    requires r.force.Unforced?
    ensures Alone(g1, if RecoveryOutcome(r).Saturated? then OpenCheck else RecordRecovery, r, p)
         == match RecoveryOutcome(r)
            case Ok => Answer(Do(g1, r.channel, RecoverySuccess, r.ticks.record, p), r, p)
            case Saturated => Answer(g1, r, p)
            case Failed => Answer(Do(g1, r.channel, RecoveryFailure, r.ticks.record, p), r, p)
  {
    AnswerAlone(g1, r, p);
    AnswerAlone(Do(g1, r.channel, RecoverySuccess, r.ticks.record, p), r, p);
    AnswerAlone(Do(g1, r.channel, RecoveryFailure, r.ticks.record, p), r, p);
  }

  /** A request that no other overlaps does exactly what the routing step says. */
  lemma AloneIsRoute(c: Circuit, r: Request, p: SanePolicy)
    ensures Alone(Progress(c, []), Entry, r, p) == Route(c, r, p)
  {
    var g := Progress(c, []);
    if r.force.Unforced? {
      if c.isOpen {
        OpenAlone(g, r, p);
      } else {
        ClosedAlone(g, r, p);
      }
    }
  }

  // ----- several requests on one channel -----

  /** The channel's circuit, where each request is, and the registry updates made so far. */
  datatype World = World(c: Circuit, places: seq<Place>, calls: Trace)

  /** Which request makes the next access, and when. */
  type Schedule = seq<(nat, real)>

  function Step(w: World, rs: seq<Request>, i: nat, now: real, p: SanePolicy): World {
    if i >= |rs| || i >= |w.places| then w
    else
      var m := Access(w.c, w.places[i], rs[i], now, p);
      var g := Advance(Progress(w.c, w.calls), rs[i].channel, m, now, p);
      World(g.c, w.places[i := m.next], g.events)
  }

  function Execute(w: World, rs: seq<Request>, schedule: Schedule, p: SanePolicy): World {
    if schedule == [] then w
    else
      var (i, now) := schedule[|schedule| - 1];
      Step(Execute(w, rs, schedule[..|schedule| - 1], p), rs, i, now, p)
  }

  ghost predicate SameChannel(rs: seq<Request>, ch: Channel) {
    forall r <- rs :: r.channel == ch
  }

  /** However requests overlap, what they do to the registry is an interleaving of locked calls. */
  lemma {:induction false} OverlapIsTrace(base: Trace, ch: Channel, w: World, rs: seq<Request>, schedule: Schedule, p: SanePolicy)
    requires SameChannel(rs, ch) && Run(base + w.calls, ch, p) == w.c
    ensures var w' := Execute(w, rs, schedule, p); Run(base + w'.calls, ch, p) == w'.c
  {
    if schedule != [] {
      var n := |schedule| - 1;
      OverlapIsTrace(base, ch, w, rs, schedule[..n], p);
      StepIsTraced(base, ch, Execute(w, rs, schedule[..n], p), rs, schedule[n].0, schedule[n].1, p);
    }
  }

  lemma StepIsTraced(base: Trace, ch: Channel, w: World, rs: seq<Request>, i: nat, now: real, p: SanePolicy)
    requires SameChannel(rs, ch) && Run(base + w.calls, ch, p) == w.c
    ensures var w' := Step(w, rs, i, now, p); Run(base + w'.calls, ch, p) == w'.c
  {
    if i < |rs| && i < |w.places| {
      assert rs[i] in rs;
      var m := Access(w.c, w.places[i], rs[i], now, p);
      if m.op.Some? {
        var e := Event(ch, m.op.value, now);
        RunSnoc(base + w.calls, e, p);
        assert base + (w.calls + [e]) == base + w.calls + [e];
      }
    }
  }

  lemma {:induction false} ExecuteConcat(w: World, rs: seq<Request>, s: Schedule, s': Schedule, p: SanePolicy)
    ensures Execute(w, rs, s + s', p) == Execute(Execute(w, rs, s, p), rs, s', p)
  {
    if s' == [] {
      assert s + s' == s;
    } else {
      var n := |s'| - 1;
      assert (s + s')[..|s| + n] == s + s'[..n];
      ExecuteConcat(w, rs, s, s'[..n], p);
    }
  }

  // ----- overlapping recovery rounds close early -----

  function Rounds(ch: Channel, now: real, k: nat): (rs: seq<Request>)
    ensures |rs| == k && forall i :: 0 <= i < k ==> rs[i] == RecoveryRound(ch, now)
  {
    seq(k, i => RecoveryRound(ch, now))
  }

  /** The first m of k requests have passed both checks; the others have not begun. */
  function Checked(k: nat, m: nat): (places: seq<Place>)
    ensures |places| == k && forall i :: 0 <= i < k ==> places[i] == if i < m then NoteRecoveryProbe else Entry
  {
    seq(k, i => if i < m then NoteRecoveryProbe else Entry)
  }

  /** The first m of k requests have recorded a recovery success. */
  function Recorded(k: nat, m: nat): (places: seq<Place>)
    ensures |places| == k && forall i :: 0 <= i < k ==> places[i] == if i < m then OpenCheck else NoteRecoveryProbe
  {
    seq(k, i => if i < m then OpenCheck else NoteRecoveryProbe)
  }

  ghost predicate AllAt(s: Schedule, now: real) {
    forall x <- s :: x.1 == now
  }

  /** One more access at the end of a schedule. */
  lemma ExecuteOne(w: World, rs: seq<Request>, s: Schedule, i: nat, now: real, p: SanePolicy) returns (s': Schedule)
    requires AllAt(s, now)
    ensures Execute(w, rs, s', p) == Step(Execute(w, rs, s, p), rs, i, now, p) && AllAt(s', now)
  {
    s' := s + [(i, now)];
    assert s'[..|s|] == s;
  }

  lemma ExecuteThree(w: World, rs: seq<Request>, s: Schedule, i: nat, now: real, p: SanePolicy) returns (s': Schedule)
    requires AllAt(s, now)
    ensures Execute(w, rs, s', p) == Step(Step(Step(Execute(w, rs, s, p), rs, i, now, p), rs, i, now, p), rs, i, now, p)
    ensures AllAt(s', now)
  {
    s' := ExecuteOne(w, rs, s, i, now, p);
    s' := ExecuteOne(w, rs, s', i, now, p);
    s' := ExecuteOne(w, rs, s', i, now, p);
  }

  lemma CheckSteps(w: World, ch: Channel, now: real, k: nat, m: nat, p: SanePolicy)
    requires m < k && w.places == Checked(k, m) && RecoveryDue(w.c, now, p) && ProbeDue(w.c, now)
    ensures var rs := Rounds(ch, now, k);
            Step(Step(Step(w, rs, m, now, p), rs, m, now, p), rs, m, now, p) == w.(places := Checked(k, m + 1))
  {
    var rs := Rounds(ch, now, k);
    var w1 := Step(w, rs, m, now, p);
    assert w1 == w.(places := w.places[m := ReadyCheck]);
    var w2 := Step(w1, rs, m, now, p);
    assert w2 == w.(places := w.places[m := RecoveryDueCheck]);
    assert Checked(k, m + 1) == w.places[m := NoteRecoveryProbe];
  }

  /** Any number of requests can pass both checks before one of them notes its probe. */
  lemma {:induction false} AllPassChecks(c: Circuit, ch: Channel, now: real, k: nat, m: nat, p: SanePolicy)
    returns (s: Schedule)
    requires m <= k && RecoveryDue(c, now, p) && ProbeDue(c, now)
    ensures Execute(World(c, Checked(k, 0), []), Rounds(ch, now, k), s, p) == World(c, Checked(k, m), [])
    ensures AllAt(s, now)
  {
    s := [];
    if m > 0 {
      var w, rs := World(c, Checked(k, 0), []), Rounds(ch, now, k);
      var s0 := AllPassChecks(c, ch, now, k, m - 1, p);
      s := ExecuteThree(w, rs, s0, m - 1, now, p);
      CheckSteps(World(c, Checked(k, m - 1), []), ch, now, k, m - 1, p);
    }
  }

  /** The circuit after m recovery successes in the same instant. */
  predicate Advanced(c: Circuit, t: real, m: nat, p: SanePolicy) {
    if m < p.recoverySuccesses then c.isOpen && c.openedAt == t && c.streak == m else !c.isOpen
  }

  lemma RecordSteps(w: World, ch: Channel, now: real, t: real, k: nat, m: nat, p: SanePolicy)
    requires m < k <= p.recoverySuccesses && w.places == Recorded(k, m) && Advanced(w.c, t, m, p)
    ensures var rs := Rounds(ch, now, k);
            var w' := Step(Step(w, rs, m, now, p), rs, m, now, p);
            w'.places == Recorded(k, m + 1) && Advanced(w'.c, t, m + 1, p)
  {
    var rs := Rounds(ch, now, k);
    var w1 := Step(w, rs, m, now, p);
    assert w1.c == Apply(w.c, ProbeAttempt, now, p) && w1.places == w.places[m := RecordRecovery];
    var w2 := Step(w1, rs, m, now, p);
    assert w2.c == Apply(w1.c, RecoverySuccess, now, p);
    assert w2.places == Recorded(k, m + 1);
  }

  lemma {:induction false} AllRecord(w: World, ch: Channel, now: real, t: real, k: nat, m: nat, p: SanePolicy)
    returns (s: Schedule)
    requires m <= k <= p.recoverySuccesses && w.places == Recorded(k, 0) && Advanced(w.c, t, 0, p)
    ensures var w' := Execute(w, Rounds(ch, now, k), s, p);
            w'.places == Recorded(k, m) && Advanced(w'.c, t, m, p)
    ensures AllAt(s, now)
  {
    s := [];
    if m > 0 {
      var rs := Rounds(ch, now, k);
      var s0 := AllRecord(w, ch, now, t, k, m - 1, p);
      s := ExecuteOne(w, rs, s0, m - 1, now, p);
      s := ExecuteOne(w, rs, s, m - 1, now, p);
      RecordSteps(Execute(w, rs, s0, p), ch, now, t, k, m - 1, p);
    }
  }

  /** K recovery rounds that all pass both checks before one of them notes its probe close a
      circuit the moment its minimum open time is over. */
  lemma OverlapCloses(c: Circuit, ch: Channel, now: real, p: SanePolicy) returns (s: Schedule)
    requires RecoveryDue(c, now, p) && ProbeDue(c, now) && c.streak == 0
    ensures var k := p.recoverySuccesses;
            !Execute(World(c, Checked(k, 0), []), Rounds(ch, now, k), s, p).c.isOpen
    ensures AllAt(s, now)
  {
    var k := p.recoverySuccesses;
    var rs, w := Rounds(ch, now, k), World(c, Checked(k, 0), []);
    var s1 := AllPassChecks(c, ch, now, k, k, p);
    assert Checked(k, k) == Recorded(k, 0);
    var s2 := AllRecord(World(c, Recorded(k, 0), []), ch, now, c.openedAt, k, k, p);
    ExecuteConcat(w, rs, s1, s2, p);
    s := s1 + s2;
  }

  /** A genuine outage that opens the channel at time t. */
  lemma Outage(ch: Channel, t: real, p: SanePolicy) returns (rs: seq<Request>, c: Circuit)
    requires 0.0 <= t < PROBE_INTERVAL_SECONDS && p.failureRate <= 1.0
    ensures Sequential(rs) && DoneBy(rs, t) && LastOpening(TraceOf(rs, p), ch) == Some(t)
    ensures c == StateAfter(rs, ch, p) && c.isOpen && c.openedAt == t && c.streak == 0 && c.lastProbeAt == 0.0
  {
    rs := OutageOpens(ch, t, p.failureMinCount, p);
    c := StateAfter(rs, ch, p);
  }

  /** Executing the schedule from the circuit `c` closes it at the very end of the minimum open time. */
  ghost predicate ClosesEarly(c: Circuit, ch: Channel, t: real, s: Schedule, p: SanePolicy) {
    var k, now := p.recoverySuccesses, t + p.minOpen;
    && AllAt(s, now) && now < t + MinimumDwell(p)
    && c.isOpen && !Execute(World(c, Checked(k, 0), []), Rounds(ch, now, k), s, p).c.isOpen
  }

  lemma RoundsCloseEarly(c: Circuit, ch: Channel, t: real, p: SanePolicy) returns (s: Schedule)
    requires c.isOpen && c.openedAt == t && c.streak == 0 && c.lastProbeAt == 0.0
    requires p.recoverySuccesses >= 2 && PROBE_INTERVAL_SECONDS <= t + p.minOpen
    ensures ClosesEarly(c, ch, t, s, p)
  {
    s := OverlapCloses(c, ch, t + p.minOpen, p);
    DwellIsLonger(p);
  }

  /** The dwell bound needs requests not to overlap. Whenever more than one recovery success is
      required, there is an outage after which as many overlapping requests, all served when the
      minimum open time ends, close the circuit before the bound. */
  lemma OverlappingRoundsCutDwell(ch: Channel, p: SanePolicy)
    returns (rs: seq<Request>, c: Circuit, t: real, s: Schedule)
    requires p.recoverySuccesses >= 2 && p.failureRate <= 1.0 && p.minOpen > 0.0
    ensures Sequential(rs) && DoneBy(rs, t) && LastOpening(TraceOf(rs, p), ch) == Some(t)
    ensures c == StateAfter(rs, ch, p) && ClosesEarly(c, ch, t, s, p)
  {
    t := if p.minOpen >= PROBE_INTERVAL_SECONDS then 0.0 else PROBE_INTERVAL_SECONDS - p.minOpen;
    rs, c := Outage(ch, t, p);
    s := RoundsCloseEarly(c, ch, t, p);
  }

  lemma DwellIsLonger(p: SanePolicy)
    requires p.recoverySuccesses >= 2
    ensures p.minOpen < MinimumDwell(p)
  {
  }

  // ----- the discipline under which every interleaving serves the dwell -----

  /** A probe was noted since the channel's last recovery success. */
  predicate ProbedSince(trace: Trace, ch: Channel) {
    trace != [] &&
    var n := |trace| - 1;
    if trace[n].channel == ch && trace[n].op.ProbeAttempt? then true
    else if trace[n].channel == ch && trace[n].op.RecoverySuccess? then false
    else ProbedSince(trace[..n], ch)
  }

  /** What a locked call must respect: probes keep their interval, and a recovery success on an open
      circuit has a probe of its own that was noted after the minimum open time. */
  predicate Disciplined(trace: Trace, e: Event, ch: Channel, p: SanePolicy) {
    var c := Run(trace, ch, p);
    e.channel == ch ==>
      && (e.op.ProbeAttempt? ==> e.at >= c.lastProbeAt + PROBE_INTERVAL_SECONDS)
      && (e.op.RecoverySuccess? && c.isOpen ==> ProbedSince(trace, ch) && c.lastProbeAt >= c.openedAt + p.minOpen)
  }

  ghost predicate AlwaysDisciplined(trace: Trace, ch: Channel, p: SanePolicy) {
    forall i :: 0 <= i < |trace| ==> Disciplined(trace[..i], trace[i], ch, p)
  }

  /** The probe that the channel's latest recovery success rested on. */
  function RoundProbe(trace: Trace, ch: Channel, p: SanePolicy): real {
    if trace == [] then 0.0
    else
      var n := |trace| - 1;
      if trace[n].channel == ch && trace[n].op.RecoverySuccess? then Run(trace[..n], ch, p).lastProbeAt
      else RoundProbe(trace[..n], ch, p)
  }

  /** Each success of the streak has cost a probe interval. */
  predicate Costs(c: Circuit, roundProbe: real, probed: bool, p: SanePolicy, now: real) {
    && 0 <= c.streak < p.recoverySuccesses
    && c.lastProbeAt >= roundProbe + (if probed then PROBE_INTERVAL_SECONDS else 0.0)
    && (probed ==> c.lastProbeAt <= now)
    && (c.isOpen && c.streak >= 1 ==> roundProbe >= c.openedAt + p.minOpen + PROBE_INTERVAL_SECONDS * (c.streak - 1) as real)
  }

  lemma CostsStep(c: Circuit, op: Op, at: real, roundProbe: real, probed: bool, p: SanePolicy, now: real)
    requires Costs(c, roundProbe, probed, p, now) && now <= at
    requires op.ProbeAttempt? ==> at >= c.lastProbeAt + PROBE_INTERVAL_SECONDS
    requires op.RecoverySuccess? && c.isOpen ==> probed && c.lastProbeAt >= c.openedAt + p.minOpen
    ensures var c' := Apply(c, op, at, p);
            && Costs(c', if op.RecoverySuccess? then c.lastProbeAt else roundProbe,
                     op.ProbeAttempt? || (probed && !op.RecoverySuccess?), p, at)
            && (c.isOpen && !c'.isOpen ==> at >= c.openedAt + MinimumDwell(p))
  {
  }

  lemma DisciplinedStep(trace: Trace, e: Event, ch: Channel, p: SanePolicy, now: real)
    requires Costs(Run(trace, ch, p), RoundProbe(trace, ch, p), ProbedSince(trace, ch), p, now)
    requires now <= e.at && Disciplined(trace, e, ch, p)
    ensures Costs(Run(trace + [e], ch, p), RoundProbe(trace + [e], ch, p), ProbedSince(trace + [e], ch), p, e.at)
    ensures Run(trace, ch, p).isOpen && !Run(trace + [e], ch, p).isOpen ==>
              e.at >= Run(trace, ch, p).openedAt + MinimumDwell(p)
  {
    assert (trace + [e])[..|trace|] == trace;
    if e.channel == ch {
      CostsStep(Run(trace, ch, p), e.op, e.at, RoundProbe(trace, ch, p), ProbedSince(trace, ch), p, now);
    }
  }

  /** Discipline and time order of a prefix and of the call after it. */
  lemma DisciplinedPrefix(trace: Trace, ch: Channel, p: SanePolicy, j: nat)
    requires Timed(trace) && AlwaysDisciplined(trace, ch, p) && j < |trace|
    ensures Timed(trace[..j]) && (forall e <- trace[..j] :: e.at <= trace[j].at)
    ensures AlwaysDisciplined(trace[..j], ch, p) && Disciplined(trace[..j], trace[j], ch, p)
    ensures trace[..j + 1] == trace[..j] + [trace[j]]
  {
    forall i | 0 <= i < j ensures Disciplined(trace[..j][..i], trace[..j][i], ch, p) {
      assert trace[..j][..i] == trace[..i];
      assert Disciplined(trace[..i], trace[i], ch, p);
    }
  }

  lemma {:induction false} DisciplineCosts(trace: Trace, ch: Channel, p: SanePolicy, now: real)
    requires Timed(trace) && (forall e <- trace :: e.at <= now) && AlwaysDisciplined(trace, ch, p)
    ensures Costs(Run(trace, ch, p), RoundProbe(trace, ch, p), ProbedSince(trace, ch), p, now)
  {
    if trace != [] {
      var n := |trace| - 1;
      DisciplinedPrefix(trace, ch, p, n);
      assert trace[..n + 1] == trace;
      DisciplineCosts(trace[..n], ch, p, trace[n].at);
      DisciplinedStep(trace[..n], trace[n], ch, p, trace[n].at);
    }
  }

  /** Over every interleaving of locked calls, by overlapping requests or not, in which each recovery
      success on an open circuit has a properly spaced probe of its own, noted once the minimum open
      time was over, no circuit closes before the dwell bound. */
  lemma OwnProbesServeDwell(trace: Trace, ch: Channel, p: SanePolicy, j: nat)
    requires Timed(trace) && AlwaysDisciplined(trace, ch, p) && j < |trace|
    requires Run(trace[..j], ch, p).isOpen && !Run(trace[..j + 1], ch, p).isOpen
    ensures trace[j].at >= Run(trace[..j], ch, p).openedAt + MinimumDwell(p)
  {
    DisciplinedPrefix(trace, ch, p, j);
    DisciplineCosts(trace[..j], ch, p, trace[j].at);
    DisciplinedStep(trace[..j], trace[j], ch, p, trace[j].at);
  }
}
