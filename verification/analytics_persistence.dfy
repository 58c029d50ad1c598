/** Recording calculate analytics under repeated, concurrent and crashing deliveries, against a
    store whose request table has a unique request_uuid. Deliveries interleave at every statement;
    rows become visible to others only when their transaction commits. */
module AnalyticsPersistence {
  import opened Common

  datatype Availability = Supported | DeprecatedAllowlisted | Unsupported

  datatype Summary = Summary(variableName: string, availability: Availability)

  /** The part of an analytics context that decides what is stored. */
  datatype Event = Event(uuid: string, record: bool, summaries: seq<Summary>)

  type RowId = nat
  type DeliveryId = nat

  datatype RequestRow = RequestRow(
    uuid: string, visitId: RowId, distinctVariables: nat, unsupportedVariables: nat, deprecatedVariables: nat)

  datatype VariableRow = VariableRow(requestId: RowId, storedName: string, truncated: bool, availability: Availability)

  /** The committed tables and their id counters. A visit row is known by the delivery that wrote it. */
  datatype Store = Store(
    visits: map<RowId, DeliveryId>,
    requests: map<RowId, RequestRow>,
    variables: seq<VariableRow>,
    nextVisit: RowId,
    nextRequest: RowId)

  /** Where one delivery of an event is in `record_analytics`, with its uncommitted rows. */
  datatype Stage =
    | Started
    | NotRecorded
    | VisitFlushed(visitId: RowId)
    | RequestFlushed(visitId: RowId, requestId: RowId)
    | Ready(visitId: RowId, pendingRequest: Option<RowId>)
    | RolledBack
    | ReturnedNormally
    | GaveUp

  datatype Delivery = Delivery(event: Event, stage: Stage)

  datatype System = System(store: Store, deliveries: map<DeliveryId, Delivery>)

  const INITIAL: System := System(Store(map[], map[], [], 0, 0), map[])

  datatype Step =
    | Deliver(id: DeliveryId, event: Event)
    | CheckExists(id: DeliveryId)
    | FlushVisit(id: DeliveryId)
    | FlushRequest(id: DeliveryId)
    | AddVariables(id: DeliveryId)
    | Commit(id: DeliveryId, acknowledged: bool)
    | IntegrityError(id: DeliveryId)
    | Recheck(id: DeliveryId)
    | Crash(id: DeliveryId)

  // ----- rows -----

  const MAX_STORED_VARIABLE_NAME_LENGTH: nat := 250

  /** The stored name and whether it was cut. */
  function StoredVariableName(name: string): (stored: (string, bool))
    ensures stored.1 <==> |name| > MAX_STORED_VARIABLE_NAME_LENGTH
    ensures !stored.1 ==> stored.0 == name
    ensures stored.1 ==> stored.0 == name[..250] + "..."
    ensures |stored.0| <= MAX_STORED_VARIABLE_NAME_LENGTH + 3
  {
    if |name| <= MAX_STORED_VARIABLE_NAME_LENGTH then (name, false)
    else (name[..MAX_STORED_VARIABLE_NAME_LENGTH] + "...", true)
  }

  function BuildVariables(requestId: RowId, summaries: seq<Summary>): (rows: seq<VariableRow>)
    ensures |rows| == |summaries|
    ensures forall i :: 0 <= i < |rows| ==>
              && rows[i].requestId == requestId
              && (rows[i].storedName, rows[i].truncated) == StoredVariableName(summaries[i].variableName)
              && rows[i].availability == summaries[i].availability
  {
    if summaries == [] then []
    else
      var n := |summaries| - 1;
      var (stored, truncated) := StoredVariableName(summaries[n].variableName);
      BuildVariables(requestId, summaries[..n]) + [VariableRow(requestId, stored, truncated, summaries[n].availability)]
  }

  function NamesWith(summaries: seq<Summary>, availability: Availability): set<string> {
    set s <- summaries | s.availability == availability :: s.variableName
  }

  function BuildRequest(event: Event, visitId: RowId): RequestRow {
    RequestRow(
      event.uuid,
      visitId,
      |set s <- event.summaries :: s.variableName|,
      |NamesWith(event.summaries, Unsupported)|,
      |NamesWith(event.summaries, DeprecatedAllowlisted)|)
  }

  /** Availability is a property of the variable name, so the two special groups do not overlap. */
  lemma RequestCountsFit(event: Event, visitId: RowId)
    requires forall s <- event.summaries, t <- event.summaries :: s.variableName == t.variableName ==> s.availability == t.availability
    ensures var row := BuildRequest(event, visitId);
            row.unsupportedVariables + row.deprecatedVariables <= row.distinctVariables <= |event.summaries|
  {
    var all := set s <- event.summaries :: s.variableName;
    var unsupported := NamesWith(event.summaries, Unsupported);
    var deprecated := NamesWith(event.summaries, DeprecatedAllowlisted);
    assert unsupported !! deprecated;
    SubsetIsSmaller(unsupported + deprecated, all);
    NamesAtMost(event.summaries);
  }

  lemma {:induction false} SubsetIsSmaller(a: set<string>, b: set<string>)
    requires a <= b
    ensures |a| <= |b|
  {
    if a != {} {
      var x :| x in a;
      SubsetIsSmaller(a - {x}, b - {x});
    }
  }

  lemma {:induction false} NamesAtMost(summaries: seq<Summary>)
    ensures |set s <- summaries :: s.variableName| <= |summaries|
  {
    if summaries == [] {
      assert (set s <- summaries :: s.variableName) == {};
    } else {
      var n := |summaries| - 1;
      NamesAtMost(summaries[..n]);
      assert (set s <- summaries :: s.variableName)
          == (set s <- summaries[..n] :: s.variableName) + {summaries[n].variableName};
    }
  }

  /** The stored variable rows of one request, in insertion order. */
  function VariablesOf(variables: seq<VariableRow>, requestId: RowId): seq<VariableRow> {
    if variables == [] then []
    else
      var n := |variables| - 1;
      VariablesOf(variables[..n], requestId) + if variables[n].requestId == requestId then [variables[n]] else []
  }

  predicate Recorded(store: Store, uuid: string) {
    exists r <- store.requests :: store.requests[r].uuid == uuid
  }

  /** `_calculate_request_exists`. */
  predicate RequestExists(store: Store, event: Event) {
    event.record && Recorded(store, event.uuid)
  }

  // ----- steps -----

  predicate Enabled(s: System, step: Step) {
    if step.Deliver? then step.id !in s.deliveries
    else
      && step.id in s.deliveries
      && var d := s.deliveries[step.id];
      match step
      case CheckExists(_) => d.stage.Started?
      case FlushVisit(_) => d.stage.NotRecorded?
      case FlushRequest(_) => d.stage.VisitFlushed?
      case AddVariables(_) => d.stage.RequestFlushed?
      case Commit(_, _) => d.stage.Ready?
      case IntegrityError(_) => d.stage.NotRecorded? || d.stage.VisitFlushed? || d.stage.RequestFlushed? || d.stage.Ready?
      case Recheck(_) => d.stage.RolledBack?
      case Crash(_) => !d.stage.ReturnedNormally? && !d.stage.GaveUp?
      case Deliver(_, _) => false
  }

  /** The transaction commits its rows together, unless the unique key is already taken. */
  function CommitStore(store: Store, id: DeliveryId, d: Delivery): Store
    requires d.stage.Ready?
  {
    var visits := store.visits[d.stage.visitId := id];
    match d.stage.pendingRequest
    case None => store.(visits := visits)
    case Some(r) =>
      store.(visits := visits,
             requests := store.requests[r := BuildRequest(d.event, d.stage.visitId)],
             variables := store.variables + BuildVariables(r, d.event.summaries))
  }

  function NextStage(s: System, step: Step): Stage
    requires Enabled(s, step) && !step.Deliver?
  {
    var d := s.deliveries[step.id];
    match step
    case CheckExists(_) => if RequestExists(s.store, d.event) then ReturnedNormally else NotRecorded
    case FlushVisit(_) => VisitFlushed(s.store.nextVisit)
    case FlushRequest(_) =>
      if !d.event.record then Ready(d.stage.visitId, None)
      else if Recorded(s.store, d.event.uuid) then RolledBack
      else RequestFlushed(d.stage.visitId, s.store.nextRequest)
    case AddVariables(_) => Ready(d.stage.visitId, Some(d.stage.requestId))
    case Commit(_, acknowledged) =>
      if RequestExists(s.store, d.event) then RolledBack
      else if acknowledged then ReturnedNormally else GaveUp
    case IntegrityError(_) => RolledBack
    case Recheck(_) => if RequestExists(s.store, d.event) then ReturnedNormally else GaveUp
    case Crash(_) => GaveUp
  }

  function NextStore(s: System, step: Step): Store
    requires Enabled(s, step) && !step.Deliver?
  {
    var d := s.deliveries[step.id];
    match step
    case FlushVisit(_) => s.store.(nextVisit := s.store.nextVisit + 1)
    case FlushRequest(_) =>
      if d.event.record && !Recorded(s.store, d.event.uuid) then s.store.(nextRequest := s.store.nextRequest + 1) else s.store
    case Commit(_, _) => if RequestExists(s.store, d.event) then s.store else CommitStore(s.store, step.id, d)
    case _ => s.store
  }

  function Next(s: System, step: Step): System {
    if !Enabled(s, step) then s
    else if step.Deliver? then s.(deliveries := s.deliveries[step.id := Delivery(step.event, Started)])
    else System(NextStore(s, step), s.deliveries[step.id := s.deliveries[step.id].(stage := NextStage(s, step))])
  }

  function Run(steps: seq<Step>): System {
    if steps == [] then INITIAL else Next(Run(steps[..|steps| - 1]), steps[|steps| - 1])
  }

  // ----- invariant -----

  /** The visit id an unfinished transaction has been given. */
  function VisitHeld(stage: Stage): Option<RowId> {
    if stage.VisitFlushed? || stage.RequestFlushed? || stage.Ready? then Some(stage.visitId) else None
  }

  function RequestHeld(stage: Stage): Option<RowId> {
    if stage.RequestFlushed? then Some(stage.requestId) else if stage.Ready? then stage.pendingRequest else None
  }

  /** Ids handed out are below the counter; an uncommitted one is not in the table, and belongs to
      one delivery only. */
  ghost predicate IdsFresh(committed: set<RowId>, next: RowId, held: map<DeliveryId, Option<RowId>>) {
    && (forall r <- committed :: r < next)
    && (forall d <- held :: held[d].Some? ==> held[d].value < next && held[d].value !in committed)
    && (forall d <- held, d' <- held :: held[d].Some? && held[d] == held[d'] ==> d == d')
  }

  function VisitsHeld(s: System): map<DeliveryId, Option<RowId>> {
    map d <- s.deliveries :: VisitHeld(s.deliveries[d].stage)
  }

  function RequestsHeld(s: System): map<DeliveryId, Option<RowId>> {
    map d <- s.deliveries :: RequestHeld(s.deliveries[d].stage)
  }

  ghost predicate StagesMatchEvents(s: System) {
    forall d <- s.deliveries :: var x := s.deliveries[d];
      && (x.stage.RequestFlushed? ==> x.event.record)
      && (x.stage.Ready? ==> (x.stage.pendingRequest.Some? <==> x.event.record))
      && (x.stage.ReturnedNormally? && x.event.record ==> Recorded(s.store, x.event.uuid))
  }

  ghost predicate UuidsUnique(store: Store) {
    forall r <- store.requests, r' <- store.requests :: store.requests[r].uuid == store.requests[r'].uuid ==> r == r'
  }

  /** Each request row, its visit and its variable rows are what one recording delivery built. */
  ghost predicate RowComplete(s: System, r: RowId)
    requires r in s.store.requests
  {
    var v := s.store.requests[r].visitId;
    && v in s.store.visits && s.store.visits[v] in s.deliveries
    && var e := s.deliveries[s.store.visits[v]].event;
       && e.record
       && s.store.requests[r] == BuildRequest(e, v)
       && VariablesOf(s.store.variables, r) == BuildVariables(r, e.summaries)
  }

  /** A committed visit of a recording delivery is the visit of a request with its uuid. */
  ghost predicate VisitHasRequest(s: System, v: RowId)
    requires v in s.store.visits
  {
    && s.store.visits[v] in s.deliveries
    && var e := s.deliveries[s.store.visits[v]].event;
       e.record ==> exists r <- s.store.requests :: s.store.requests[r].visitId == v && s.store.requests[r].uuid == e.uuid
  }

  ghost predicate Invariant(s: System) {
    && IdsFresh(s.store.visits.Keys, s.store.nextVisit, VisitsHeld(s))
    && IdsFresh(s.store.requests.Keys, s.store.nextRequest, RequestsHeld(s))
    && StagesMatchEvents(s)
    && UuidsUnique(s.store)
    && (forall row <- s.store.variables :: row.requestId in s.store.requests)
    && (forall r <- s.store.requests :: RowComplete(s, r))
    && (forall v <- s.store.visits :: VisitHasRequest(s, v))
  }

  lemma {:induction false} VariablesConcat(a: seq<VariableRow>, b: seq<VariableRow>, r: RowId)
    ensures VariablesOf(a + b, r) == VariablesOf(a, r) + VariablesOf(b, r)
  {
    if b == [] {
      assert a + b == a;
    } else {
      assert (a + b)[..|a + b| - 1] == a + b[..|b| - 1];
      VariablesConcat(a, b[..|b| - 1], r);
    }
  }

  lemma {:induction false} VariablesAll(rows: seq<VariableRow>, r: RowId)
    requires forall row <- rows :: row.requestId == r
    ensures VariablesOf(rows, r) == rows
  {
    if rows != [] {
      var n := |rows| - 1;
      assert rows[n] in rows && rows == rows[..n] + [rows[n]];
      forall row <- rows[..n] ensures row.requestId == r {
        assert row in rows;
      }
      VariablesAll(rows[..n], r);
    }
  }

  lemma {:induction false} VariablesNone(rows: seq<VariableRow>, r: RowId)
    requires forall row <- rows :: row.requestId != r
    ensures VariablesOf(rows, r) == []
  {
    if rows != [] {
      var n := |rows| - 1;
      assert rows[n] in rows && rows == rows[..n] + [rows[n]];
      forall row <- rows[..n] ensures row.requestId != r {
        assert row in rows;
      }
      VariablesNone(rows[..n], r);
    }
  }

  /** Committing a request appends exactly its own rows to the variable table. */
  lemma CommitVariables(store: Store, id: DeliveryId, d: Delivery, r: RowId)
    requires d.stage.Ready? && d.stage.pendingRequest.Some? && d.stage.pendingRequest.value !in store.requests
    requires forall row <- store.variables :: row.requestId in store.requests
    requires r in CommitStore(store, id, d).requests
    ensures VariablesOf(CommitStore(store, id, d).variables, r)
         == if r == d.stage.pendingRequest.value then BuildVariables(r, d.event.summaries) else VariablesOf(store.variables, r)
  {
    var n := d.stage.pendingRequest.value;
    var rows := BuildVariables(n, d.event.summaries);
    VariablesConcat(store.variables, rows, r);
    if r == n {
      VariablesNone(store.variables, r);
      VariablesAll(rows, r);
    } else {
      VariablesNone(rows, r);
    }
  }

  /** Events never change, and only a commit touches the tables. */
  lemma NextKeepsTables(s: System, step: Step)
    ensures forall d <- s.deliveries :: d in Next(s, step).deliveries && Next(s, step).deliveries[d].event == s.deliveries[d].event
    ensures Commits(s, step) || (Next(s, step).store.visits == s.store.visits
                                 && Next(s, step).store.requests == s.store.requests
                                 && Next(s, step).store.variables == s.store.variables)
  {
  }

  /** This step makes a transaction's rows visible. */
  predicate Commits(s: System, step: Step) {
    step.Commit? && Enabled(s, step) && !RequestExists(s.store, s.deliveries[step.id].event)
  }

  /** A transaction keeps or drops its id, takes the next one, or moves it into the table. */
  lemma FreshAfter(committed: set<RowId>, next: RowId, held: map<DeliveryId, Option<RowId>>, d: DeliveryId,
                   committed': set<RowId>, next': RowId, h: Option<RowId>)
    requires IdsFresh(committed, next, held)
    requires || (committed' == committed && next' == next && (h == None || (d in held && h == held[d])))
             || (committed' == committed && next' == next + 1 && h == Some(next))
             || (d in held && held[d].Some? && committed' == committed + {held[d].value} && next' == next && h == None)
    ensures IdsFresh(committed', next', held[d := h])
  {
  }

  lemma OneDeliveryMoves(s: System, step: Step)
    requires Enabled(s, step)
    ensures var stage' := Next(s, step).deliveries[step.id].stage;
            && VisitsHeld(Next(s, step)) == VisitsHeld(s)[step.id := VisitHeld(stage')]
            && RequestsHeld(Next(s, step)) == RequestsHeld(s)[step.id := RequestHeld(stage')]
  {
  }

  lemma NextKeepsVisitIds(s: System, step: Step)
    requires IdsFresh(s.store.visits.Keys, s.store.nextVisit, VisitsHeld(s)) && Enabled(s, step)
    ensures var s' := Next(s, step); IdsFresh(s'.store.visits.Keys, s'.store.nextVisit, VisitsHeld(s'))
  {
    var s' := Next(s, step);
    var h := VisitHeld(s'.deliveries[step.id].stage);
    OneDeliveryMoves(s, step);
    if Commits(s, step) {
      assert s'.store.visits.Keys == s.store.visits.Keys + {s.deliveries[step.id].stage.visitId};
    }
    FreshAfter(s.store.visits.Keys, s.store.nextVisit, VisitsHeld(s), step.id, s'.store.visits.Keys, s'.store.nextVisit, h);
  }

  lemma NextKeepsRequestIds(s: System, step: Step)
    requires IdsFresh(s.store.requests.Keys, s.store.nextRequest, RequestsHeld(s)) && Enabled(s, step)
    ensures var s' := Next(s, step); IdsFresh(s'.store.requests.Keys, s'.store.nextRequest, RequestsHeld(s'))
  {
    var s' := Next(s, step);
    var h := RequestHeld(s'.deliveries[step.id].stage);
    OneDeliveryMoves(s, step);
    if Commits(s, step) && s.deliveries[step.id].stage.pendingRequest.Some? {
      assert s'.store.requests.Keys == s.store.requests.Keys + {s.deliveries[step.id].stage.pendingRequest.value};
    }
    FreshAfter(s.store.requests.Keys, s.store.nextRequest, RequestsHeld(s), step.id, s'.store.requests.Keys,
               s'.store.nextRequest, h);
  }

  lemma NextKeepsStages(s: System, step: Step)
    requires Invariant(s)
    ensures StagesMatchEvents(Next(s, step))
  {
    var s' := Next(s, step);
    if Commits(s, step) {
      CommittedIdsAreNew(s, step);
    }
    forall uuid | Recorded(s.store, uuid) ensures Recorded(s'.store, uuid) {
      var r :| r in s.store.requests && s.store.requests[r].uuid == uuid;
      assert r in s'.store.requests && s'.store.requests[r].uuid == uuid;
    }
    if Commits(s, step) && s.deliveries[step.id].event.record {
      var r := s.deliveries[step.id].stage.pendingRequest.value;
      assert r in s'.store.requests && s'.store.requests[r].uuid == s.deliveries[step.id].event.uuid;
    }
  }

  /** The ids a committing transaction brings are new to the tables. */
  lemma CommittedIdsAreNew(s: System, step: Step)
    requires Invariant(s) && Commits(s, step)
    ensures var d := s.deliveries[step.id];
            && d.stage.visitId !in s.store.visits
            && (d.stage.pendingRequest.Some? <==> d.event.record)
            && (d.stage.pendingRequest.Some? ==> d.stage.pendingRequest.value !in s.store.requests)
  {
    assert VisitsHeld(s)[step.id] == Some(s.deliveries[step.id].stage.visitId);
    assert RequestsHeld(s)[step.id] == s.deliveries[step.id].stage.pendingRequest;
  }

  lemma CommitKeepsUuids(s: System, step: Step)
    requires Invariant(s) && Commits(s, step)
    ensures UuidsUnique(Next(s, step).store)
    ensures forall row <- Next(s, step).store.variables :: row.requestId in Next(s, step).store.requests
  {
    CommittedIdsAreNew(s, step);
    var d := s.deliveries[step.id];
    if d.stage.pendingRequest.Some? {
      var n := d.stage.pendingRequest.value;
      var requests := s.store.requests[n := BuildRequest(d.event, d.stage.visitId)];
      assert Next(s, step).store.requests == requests;
      forall r <- requests, r' <- requests | requests[r].uuid == requests[r'].uuid ensures r == r' {
        assert r in s.store.requests ==> s.store.requests[r].uuid != d.event.uuid;
        assert r' in s.store.requests ==> s.store.requests[r'].uuid != d.event.uuid;
      }
    }
  }

  lemma CommitKeepsRow(s: System, step: Step, r: RowId)
    requires Invariant(s) && Commits(s, step) && r in Next(s, step).store.requests
    ensures RowComplete(Next(s, step), r)
  {
    CommittedIdsAreNew(s, step);
    var d := s.deliveries[step.id];
    var s' := Next(s, step);
    assert s'.store == CommitStore(s.store, step.id, d);
    if d.stage.pendingRequest.Some? {
      CommitVariables(s.store, step.id, d, r);
    }
    if r in s.store.requests {
      assert RowComplete(s, r);
    }
  }

  lemma CommitKeepsVisit(s: System, step: Step, v: RowId)
    requires Invariant(s) && Commits(s, step) && v in Next(s, step).store.visits
    ensures VisitHasRequest(Next(s, step), v)
  {
    CommittedIdsAreNew(s, step);
    var d := s.deliveries[step.id];
    var s' := Next(s, step);
    assert s'.store == CommitStore(s.store, step.id, d);
    if v == d.stage.visitId {
      if d.event.record {
        var n := d.stage.pendingRequest.value;
        assert s'.store.requests[n].visitId == v && s'.store.requests[n].uuid == d.event.uuid;
      }
    } else {
      assert VisitHasRequest(s, v);
      var e := s.deliveries[s.store.visits[v]].event;
      if e.record {
        var r :| r in s.store.requests && s.store.requests[r].visitId == v && s.store.requests[r].uuid == e.uuid;
        assert r in s'.store.requests && s'.store.requests[r] == s.store.requests[r];
      }
    }
  }

  lemma NextKeepsInvariant(s: System, step: Step)
    requires Invariant(s)
    ensures Invariant(Next(s, step))
  {
    var s' := Next(s, step);
    if Enabled(s, step) {
      NextKeepsVisitIds(s, step);
      NextKeepsRequestIds(s, step);
    }
    NextKeepsStages(s, step);
    NextKeepsTables(s, step);
    if Commits(s, step) {
      CommitKeepsUuids(s, step);
      forall r <- s'.store.requests ensures RowComplete(s', r) {
        CommitKeepsRow(s, step, r);
      }
      forall v <- s'.store.visits ensures VisitHasRequest(s', v) {
        CommitKeepsVisit(s, step, v);
      }
    } else {
      forall r <- s'.store.requests ensures RowComplete(s', r) {
        assert RowComplete(s, r);
      }
      forall v <- s'.store.visits ensures VisitHasRequest(s', v) {
        assert VisitHasRequest(s, v);
      }
    }
  }

  lemma {:induction false} RunKeepsInvariant(steps: seq<Step>)
    ensures Invariant(Run(steps))
  {
    if steps != [] {
      RunKeepsInvariant(steps[..|steps| - 1]);
      NextKeepsInvariant(Run(steps[..|steps| - 1]), steps[|steps| - 1]);
    }
  }

  /** `record_analytics` when nothing interferes and nothing fails: the statements in program
      order. A recorded request makes it a no-op; otherwise it commits one visit and, for a
      recording event, one request row with its variable rows. */
  method RecordAnalytics(s: System, id: DeliveryId) returns (s': System)
    requires id in s.deliveries && s.deliveries[id].stage.Started?
    ensures s'.deliveries == s.deliveries[id := s.deliveries[id].(stage := ReturnedNormally)]
    ensures var event := s.deliveries[id].event;
            var v, r := s.store.nextVisit, s.store.nextRequest;
            if RequestExists(s.store, event) then s'.store == s.store
            else && s'.store.visits == s.store.visits[v := id]
                 && s'.store.requests == (if event.record then s.store.requests[r := BuildRequest(event, v)] else s.store.requests)
                 && s'.store.variables == (if event.record then s.store.variables + BuildVariables(r, event.summaries) else s.store.variables)
  {
    s' := Next(s, CheckExists(id));
    if s'.deliveries[id].stage.ReturnedNormally? {
      return;
    }
    s' := Next(s', FlushVisit(id));
    s' := FlushRows(s', id);
    s' := Next(s', Commit(id, true));
  }

  method FlushRows(s: System, id: DeliveryId) returns (s': System)
    requires id in s.deliveries && s.deliveries[id].stage.VisitFlushed?
    requires !RequestExists(s.store, s.deliveries[id].event)
    ensures var d := s.deliveries[id];
            var request := if d.event.record then Some(s.store.nextRequest) else None;
            && s'.deliveries == s.deliveries[id := d.(stage := Ready(d.stage.visitId, request))]
            && s'.store == s.store.(nextRequest := s.store.nextRequest + if d.event.record then 1 else 0)
  {
    s' := Next(s, FlushRequest(id));
    if s'.deliveries[id].stage.RequestFlushed? {
      s' := Next(s', AddVariables(id));
    }
  }

  // ----- exactly once -----

  /** Every delivery under this uuid carries the same recording event, as redeliveries do. */
  ghost predicate Redeliveries(s: System, event: Event) {
    event.record && forall d <- s.deliveries :: s.deliveries[d].event.uuid == event.uuid ==> s.deliveries[d].event == event
  }

  /** The committed visit was written by a delivery of the event. */
  predicate WrittenFor(s: System, v: RowId, event: Event)
    requires v in s.store.visits
  {
    s.store.visits[v] in s.deliveries && s.deliveries[s.store.visits[v]].event == event
  }

  /** In every reachable state there is at most one request row per uuid; its visit was written by a
      delivery of the event; it has one variable row per summary, in order; and there is one as soon
      as any delivery has returned. */
  lemma ExactlyOnce(steps: seq<Step>, event: Event)
    requires Redeliveries(Run(steps), event)
    ensures var s := Run(steps);
            && UuidsUnique(s.store)
            && (forall r <- s.store.requests :: s.store.requests[r].uuid == event.uuid ==>
                  var v := s.store.requests[r].visitId;
                  && v in s.store.visits && WrittenFor(s, v, event)
                  && s.store.requests[r] == BuildRequest(event, v)
                  && VariablesOf(s.store.variables, r) == BuildVariables(r, event.summaries))
            && (forall d <- s.deliveries :: s.deliveries[d].event == event && s.deliveries[d].stage.ReturnedNormally?
                  ==> Recorded(s.store, event.uuid))
  {
    RunKeepsInvariant(steps);
    var s := Run(steps);
    forall r <- s.store.requests | s.store.requests[r].uuid == event.uuid
      ensures s.store.requests[r].visitId in s.store.visits && WrittenFor(s, s.store.requests[r].visitId, event)
      ensures s.store.requests[r] == BuildRequest(event, s.store.requests[r].visitId)
      ensures VariablesOf(s.store.variables, r) == BuildVariables(r, event.summaries)
    {
      assert RowComplete(s, r);
    }
  }

  /** What a committed request row says of its event: the number of distinct variables, of the
      unsupported ones among them and of the deprecated ones, each counted by name. */
  lemma CommittedCounts(steps: seq<Step>, event: Event, r: RowId)
    requires Redeliveries(Run(steps), event)
    requires r in Run(steps).store.requests && Run(steps).store.requests[r].uuid == event.uuid
    ensures var row := Run(steps).store.requests[r];
            && row.distinctVariables == |set s <- event.summaries :: s.variableName|
            && row.unsupportedVariables == |set s <- event.summaries | s.availability == Unsupported :: s.variableName|
            && row.deprecatedVariables == |set s <- event.summaries | s.availability == DeprecatedAllowlisted :: s.variableName|
  {
    ExactlyOnce(steps, event);
    assert Run(steps).store.requests[r] == BuildRequest(event, Run(steps).store.requests[r].visitId);
    SameNames(event.summaries);
  }

  lemma SameNames(summaries: seq<Summary>)
    ensures NamesWith(summaries, Unsupported) == set s <- summaries | s.availability == Unsupported :: s.variableName
    ensures NamesWith(summaries, DeprecatedAllowlisted)
         == set s <- summaries | s.availability == DeprecatedAllowlisted :: s.variableName
  {
  }

  /** A delivery whose transaction was rolled back returns normally if and only if its request has been
      recorded by then; otherwise the error is raised again. */
  lemma RolledBackReturns(s: System, id: DeliveryId)
    requires id in s.deliveries && s.deliveries[id].stage.RolledBack?
    ensures var event, stage := s.deliveries[id].event, Next(s, Recheck(id)).deliveries[id].stage;
            && (stage.ReturnedNormally? <==> event.record && exists r <- s.store.requests :: s.store.requests[r].uuid == event.uuid)
            && (!stage.ReturnedNormally? ==> stage.GaveUp?)
            && Next(s, Recheck(id)).store == s.store
  {
  }

  /** No visit is left over from a delivery that lost the race: a committed visit of a delivery under
      a uuid is the visit its request row names. */
  lemma OneVisitPerRequest(steps: seq<Step>, event: Event, v: RowId)
    requires Redeliveries(Run(steps), event)
    requires v in Run(steps).store.visits && WrittenFor(Run(steps), v, event)
    ensures var requests := Run(steps).store.requests;
            && Recorded(Run(steps).store, event.uuid)
            && forall r <- requests :: requests[r].uuid == event.uuid ==> requests[r].visitId == v
  {
    RunKeepsInvariant(steps);
    var s := Run(steps);
    assert VisitHasRequest(s, v);
    var r :| r in s.store.requests && s.store.requests[r].visitId == v && s.store.requests[r].uuid == event.uuid;
  }

  /** Committed effects are never undone, whatever happens to any delivery afterwards. */
  lemma {:induction false} RecordedForever(steps: seq<Step>, later: seq<Step>, uuid: string)
    requires Recorded(Run(steps).store, uuid)
    ensures Recorded(Run(steps + later).store, uuid)
  {
    if later == [] {
      assert steps + later == steps;
    } else {
      var run := steps + later;
      assert run[..|run| - 1] == steps + later[..|later| - 1];
      RecordedForever(steps, later[..|later| - 1], uuid);
      RunKeepsInvariant(run[..|run| - 1]);
      NextKeepsRecorded(Run(run[..|run| - 1]), run[|run| - 1], uuid);
    }
  }

  lemma NextKeepsRecorded(s: System, step: Step, uuid: string)
    requires Invariant(s) && Recorded(s.store, uuid)
    ensures Recorded(Next(s, step).store, uuid)
  {
    var r :| r in s.store.requests && s.store.requests[r].uuid == uuid;
    if Commits(s, step) {
      CommittedIdsAreNew(s, step);
    }
    assert r in Next(s, step).store.requests && Next(s, step).store.requests[r].uuid == uuid;
  }
}
