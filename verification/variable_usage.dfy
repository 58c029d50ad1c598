/** Variable-usage analytics: a household payload is walked into occurrences, which are grouped by
    (variable, entity type, source) into mutable accumulators and reported in sorted order. */
module VariableUsage {
  import opened Common

  datatype Source = HouseholdInput | RequestedOutput | MixedSource | Axis {
    function Text(): string {
      match this
      case Axis => "axis"
      case HouseholdInput => "household_input"
      case MixedSource => "mixed"
      case RequestedOutput => "requested_output"
    }

    /** The position of the enum's text in string order. */
    function Rank(): nat {
      match this
      case Axis => 0
      case HouseholdInput => 1
      case MixedSource => 2
      case RequestedOutput => 3
    }
  }

  datatype Granularity = ByYear | ByMonth | ByDay | MixedPeriods | NoPeriods | UnknownPeriods

  datatype Availability = Supported | DeprecatedAllowlisted | Unsupported

  // ----- payloads -----

  datatype Leaf = Null | NonNull(json: string)
  datatype PeriodData = Periods(entries: seq<(string, Leaf)>) | NullData | OtherData(json: string)
  datatype EntityData = Variables(variables: seq<(string, PeriodData)>) | NotVariables
  datatype AxisSpec = AxisSpec(name: Option<string>, period: Option<string>, otherFields: string) | NotAnAxis
  datatype AxisEntry = Single(axis: AxisSpec) | Parallel(axes: seq<AxisSpec>)
  datatype GroupData = Entities(entities: seq<(string, EntityData)>) | AxisList(entries: seq<AxisEntry>) | OtherGroup

  type Household = seq<(string, GroupData)>

  /** The entity key of each known variable (if it has one), the entity type of each group name,
      and the allowlist of deprecated variables. */
  datatype System = System(variables: map<string, Option<string>>, groups: map<string, string>, deprecated: set<string>)

  const VARIABLE_BLACKLIST: set<string> := {"members"}

  // ----- occurrences -----

  datatype UsageKey = UsageKey(name: string, entityType: string, source: Source)

  datatype Occurrence =
    | EntityUse(key: UsageKey, group: string, entity: string, periods: seq<string>, granularity: Granularity)
    | AxisUse(key: UsageKey, period: Option<string>)

  predicate Digits(s: string) {
    forall c <- s :: '0' <= c <= '9'
  }

  /** The text without the one trailing line feed that an end-of-string match tolerates. */
  function Chomped(s: string): string {
    if s != "" && s[|s| - 1] == '\n' then s[..|s| - 1] else s
  }

  function PeriodGranularity(period: string): Granularity {
    var s := Chomped(period);
    if |s| == 4 && Digits(s) then ByYear
    else if |s| == 7 && Digits(s[..4]) && s[4] == '-' && Digits(s[5..]) then ByMonth
    else if |s| == 10 && Digits(s[..4]) && s[4] == '-' && Digits(s[5..7]) && s[7] == '-' && Digits(s[8..]) then ByDay
    else UnknownPeriods
  }

  /** The one granularity of a non-empty set, or mixed. */
  function OneOrMixed(granularities: set<Granularity>): Granularity
    requires granularities != {}
  {
    if exists g <- granularities :: granularities == {g} then
      var g :| g in granularities && granularities == {g};
      g
    else MixedPeriods
  }

  function PeriodNames(entries: seq<(string, Leaf)>): (names: seq<string>)
    ensures |names| == |entries|
    ensures forall i :: 0 <= i < |names| ==> names[i] == entries[i].0
  {
    if entries == [] then [] else PeriodNames(entries[..|entries| - 1]) + [entries[|entries| - 1].0]
  }

  function PeriodsOf(data: PeriodData): seq<string> {
    if data.Periods? then PeriodNames(data.entries) else []
  }

  function GranularityOf(data: PeriodData): Granularity {
    if !data.Periods? then UnknownPeriods
    else
      var periods := PeriodsOf(data);
      if periods == [] then NoPeriods
      else
        var granularities := set p <- periods :: PeriodGranularity(p);
        assert periods[0] in periods && PeriodGranularity(periods[0]) in granularities;
        OneOrMixed(granularities)
  }

  predicate HasNull(entries: seq<(string, Leaf)>, isNull: bool) {
    exists i :: 0 <= i < |entries| && entries[i].1.Null? == isNull
  }

  function SourceOf(data: PeriodData): Source {
    match data
    case NullData => RequestedOutput
    case OtherData(_) => HouseholdInput
    case Periods(entries) =>
      if entries == [] then RequestedOutput
      else if HasNull(entries, true) && HasNull(entries, false) then MixedSource
      else if HasNull(entries, true) then RequestedOutput
      else HouseholdInput
  }

  function EntityType(name: string, group: string, system: System): string {
    if name in system.variables && system.variables[name].Some? && system.variables[name].value != ""
    then system.variables[name].value
    else if group in system.groups then system.groups[group]
    else "unknown"
  }

  function UsesInEntity(group: string, entity: string, variables: seq<(string, PeriodData)>, system: System): seq<Occurrence> {
    if variables == [] then []
    else
      var n := |variables| - 1;
      var (name, data) := variables[n];
      UsesInEntity(group, entity, variables[..n], system)
      + if name in VARIABLE_BLACKLIST then []
        else [EntityUse(UsageKey(name, EntityType(name, group, system), SourceOf(data)), group, entity, PeriodsOf(data), GranularityOf(data))]
  }

  function UsesInGroup(group: string, entities: seq<(string, EntityData)>, system: System): seq<Occurrence> {
    if entities == [] then []
    else
      var n := |entities| - 1;
      var (entity, data) := entities[n];
      UsesInGroup(group, entities[..n], system)
      + if data.Variables? then UsesInEntity(group, entity, data.variables, system) else []
  }

  /** `_extract_entity_group_variables`, as a walk. */
  function EntityUses(h: Household, system: System): seq<Occurrence> {
    if h == [] then []
    else
      var n := |h| - 1;
      var (group, data) := h[n];
      EntityUses(h[..n], system)
      + if group != "axes" && data.Entities? then UsesInGroup(group, data.entities, system) else []
  }

  function UsesOfAxes(axes: seq<AxisSpec>, system: System): seq<Occurrence> {
    if axes == [] then []
    else
      var n := |axes| - 1;
      UsesOfAxes(axes[..n], system)
      + if axes[n].AxisSpec? && axes[n].name.Some? && axes[n].name.value != ""
        then [AxisUse(UsageKey(axes[n].name.value, EntityType(axes[n].name.value, "axes", system), Axis), axes[n].period)]
        else []
  }

  function UsesOfEntries(entries: seq<AxisEntry>, system: System): seq<Occurrence> {
    if entries == [] then []
    else
      var n := |entries| - 1;
      UsesOfEntries(entries[..n], system)
      + UsesOfAxes(if entries[n].Parallel? then entries[n].axes else [entries[n].axis], system)
  }

  /** `_extract_axis_variables`, as a walk. */
  function AxisUses(h: Household, system: System): seq<Occurrence> {
    if h == [] then []
    else if h[0].0 == "axes" then (if h[0].1.AxisList? then UsesOfEntries(h[0].1.entries, system) else [])
    else AxisUses(h[1..], system)
  }

  function Occurrences(h: Household, system: System): seq<Occurrence> {
    EntityUses(h, system) + AxisUses(h, system)
  }

  // ----- grouping -----

  datatype Totals = Totals(entities: set<(string, string)>, periods: set<string>, granularities: set<Granularity>, count: nat)

  const NOTHING: Totals := Totals({}, {}, {}, 0)

  function Weight(o: Occurrence): nat {
    if o.EntityUse? && |o.periods| > 1 then |o.periods| else 1
  }

  function Add(t: Totals, o: Occurrence): Totals {
    match o
    case EntityUse(_, group, entity, periods, granularity) =>
      Totals(t.entities + {(group, entity)}, t.periods + (set p <- periods), t.granularities + {granularity}, t.count + Weight(o))
    case AxisUse(_, None) => t.(granularities := t.granularities + {NoPeriods}, count := t.count + 1)
    case AxisUse(_, Some(period)) =>
      t.(periods := t.periods + {period}, granularities := t.granularities + {PeriodGranularity(period)}, count := t.count + 1)
  }

  /** The fold of one group's own occurrences. */
  function Fold(uses: seq<Occurrence>, key: UsageKey): Totals {
    if uses == [] then NOTHING
    else
      var last := uses[|uses| - 1];
      var t := Fold(uses[..|uses| - 1], key);
      if last.key == key then Add(t, last) else t
  }

  function KeysOf(uses: seq<Occurrence>): set<UsageKey> {
    set o <- uses :: o.key
  }

  datatype Summary = Summary(
    key: UsageKey, granularity: Granularity, entityCount: nat, periodCount: nat, occurrenceCount: nat, availability: Availability)

  /** `_to_summary`: counts only, none of the identifiers. */
  function ToSummary(key: UsageKey, t: Totals, system: System): Summary {
    Summary(
      key,
      if t.granularities == {} then NoPeriods else OneOrMixed(t.granularities),
      |t.entities|, |t.periods|, t.count,
      if key.name in system.variables then Supported
      else if key.name in system.deprecated then DeprecatedAllowlisted
      else Unsupported)
  }

  // ----- sort order -----

  predicate TextLess(a: string, b: string) {
    b != "" && (a == "" || a[0] < b[0] || (a[0] == b[0] && TextLess(a[1..], b[1..])))
  }

  lemma {:induction false} TextLessTrichotomy(a: string, b: string)
    ensures a == b || TextLess(a, b) || TextLess(b, a)
    ensures !(TextLess(a, b) && TextLess(b, a)) && (a == b ==> !TextLess(a, b))
  {
    if a != "" && b != "" && a[0] == b[0] {
      TextLessTrichotomy(a[1..], b[1..]);
      if a[1..] == b[1..] {
        assert a == [a[0]] + a[1..] && b == [b[0]] + b[1..];
      }
    }
  }

  lemma {:induction false} TextLessTransitive(a: string, b: string, c: string)
    requires TextLess(a, b) && TextLess(b, c)
    ensures TextLess(a, c)
  {
    if a != "" && a[0] == b[0] && b[0] == c[0] {
      TextLessTransitive(a[1..], b[1..], c[1..]);
    }
  }

  predicate KeyLess(a: UsageKey, b: UsageKey) {
    TextLess(a.name, b.name)
    || (a.name == b.name && (TextLess(a.entityType, b.entityType)
                             || (a.entityType == b.entityType && a.source.Rank() < b.source.Rank())))
  }

  /** Sources are ranked as their texts sort. */
  lemma RankIsTextOrder(a: Source, b: Source)
    ensures a.Rank() < b.Rank() <==> TextLess(a.Text(), b.Text())
  {
    assert a.Text()[0] < b.Text()[0] || a == b || b.Text()[0] < a.Text()[0];
    TextLessTrichotomy(a.Text(), b.Text());
  }

  lemma KeyLessTrichotomy(a: UsageKey, b: UsageKey)
    ensures a == b || KeyLess(a, b) || KeyLess(b, a)
    ensures !(KeyLess(a, b) && KeyLess(b, a)) && !KeyLess(a, a)
  {
    TextLessTrichotomy(a.name, b.name);
    TextLessTrichotomy(a.entityType, b.entityType);
    TextLessTrichotomy(a.name, a.name);
    TextLessTrichotomy(a.entityType, a.entityType);
  }

  lemma KeyLessTransitive(a: UsageKey, b: UsageKey, c: UsageKey)
    requires KeyLess(a, b) && KeyLess(b, c)
    ensures KeyLess(a, c)
  {
    if TextLess(a.name, b.name) && TextLess(b.name, c.name) {
      TextLessTransitive(a.name, b.name, c.name);
    } else if a.name == b.name == c.name && TextLess(a.entityType, b.entityType) && TextLess(b.entityType, c.entityType) {
      TextLessTransitive(a.entityType, b.entityType, c.entityType);
    }
  }

  ghost predicate Sorted(keys: seq<UsageKey>) {
    forall i, j :: 0 <= i < j < |keys| ==> KeyLess(keys[i], keys[j])
  }

  /** Insert a new key into a strictly sorted list. */
  method InsertKey(keys: seq<UsageKey>, key: UsageKey) returns (r: seq<UsageKey>)
    requires Sorted(keys) && key !in keys
    ensures Sorted(r) && forall k :: k in r <==> k in keys || k == key
  {
    var i := |keys|;
    while i > 0 && KeyLess(key, keys[i - 1])
      invariant 0 <= i <= |keys|
      invariant forall j :: i <= j < |keys| ==> KeyLess(key, keys[j])
    {
      i := i - 1;
    }
    if i > 0 {
      KeyLessTrichotomy(key, keys[i - 1]);
      forall j | 0 <= j < i - 1 ensures KeyLess(keys[j], key) {
        KeyLessTransitive(keys[j], keys[i - 1], key);
      }
    }
    r := keys[..i] + [key] + keys[i..];
    InsertedSorted(keys, i, key);
  }

  lemma InsertedSorted(keys: seq<UsageKey>, i: nat, key: UsageKey)
    requires Sorted(keys) && i <= |keys|
    requires forall j :: 0 <= j < i ==> KeyLess(keys[j], key)
    requires forall j :: i <= j < |keys| ==> KeyLess(key, keys[j])
    ensures Sorted(keys[..i] + [key] + keys[i..])
    ensures forall k :: k in keys[..i] + [key] + keys[i..] <==> k in keys || k == key
  {
    assert keys == keys[..i] + keys[i..];
  }

  // ----- accumulators -----

  class VariableUsageAccumulator {
    const key: UsageKey
    var entityIds: set<(string, string)>
    var periodKeys: set<string>
    var granularities: set<Granularity>
    var occurrenceCount: nat

    constructor (key: UsageKey)
      ensures this.key == key && View() == NOTHING
    {
      this.key := key;
      entityIds, periodKeys, granularities, occurrenceCount := {}, {}, {}, 0;
    }

    function View(): Totals
      reads this
    {
      Totals(entityIds, periodKeys, granularities, occurrenceCount)
    }

    method AddEntityPeriods(group: string, entity: string, periods: seq<string>, granularity: Granularity)
      modifies this
      ensures View() == Add(old(View()), EntityUse(key, group, entity, periods, granularity))
      ensures occurrenceCount == old(occurrenceCount) + if periods == [] then 1 else |periods|
      ensures entityIds == old(entityIds) + {(group, entity)} && granularities == old(granularities) + {granularity}
      ensures forall x :: x in periodKeys <==> x in old(periodKeys) || x in periods
    {
      entityIds := entityIds + {(group, entity)};
      granularities := granularities + {granularity};
      for i := 0 to |periods|
        invariant periodKeys == old(periodKeys) + (set p <- periods[..i])
        invariant entityIds == old(entityIds) + {(group, entity)} && granularities == old(granularities) + {granularity}
        invariant occurrenceCount == old(occurrenceCount)
      {
        periodKeys := periodKeys + {periods[i]};
      }
      assert periods[..|periods|] == periods;
      occurrenceCount := occurrenceCount + if |periods| > 1 then |periods| else 1;
    }

    method AddAxisPeriod(period: Option<string>)
      modifies this
      ensures View() == Add(old(View()), AxisUse(key, period))
      ensures occurrenceCount == old(occurrenceCount) + 1 && entityIds == old(entityIds)
      ensures forall x :: x in periodKeys <==> x in old(periodKeys) || period == Some(x)
      ensures granularities == old(granularities) + {if period.None? then NoPeriods else PeriodGranularity(period.value)}
    {
      if period.None? {
        granularities := granularities + {NoPeriods};
      } else {
        periodKeys := periodKeys + {period.value};
        granularities := granularities + {PeriodGranularity(period.value)};
      }
      occurrenceCount := occurrenceCount + 1;
    }

    method AddOccurrence(o: Occurrence)
      requires o.key == key
      modifies this
      ensures View() == Add(old(View()), o)
    {
      match o {
        case EntityUse(_, group, entity, periods, granularity) => AddEntityPeriods(group, entity, periods, granularity);
        case AxisUse(_, period) => AddAxisPeriod(period);
      }
    }
  }

  /** The accumulator dictionary shared by the extractors. */
  class UsageTable {
    var accumulators: map<UsageKey, VariableUsageAccumulator>

    ghost predicate Valid()
      reads this, accumulators.Values
    {
      forall k <- accumulators :: accumulators[k].key == k
    }

    /** Every group's accumulator holds the fold of the occurrences with its key. */
    ghost predicate Groups(uses: seq<Occurrence>)
      reads this, accumulators.Values
    {
      && Valid()
      && accumulators.Keys == KeysOf(uses)
      && forall k <- accumulators :: accumulators[k].View() == Fold(uses, k)
    }

    constructor ()
      ensures Groups([]) && accumulators == map[]
    {
      accumulators := map[];
    }

    method GetAccumulator(key: UsageKey) returns (a: VariableUsageAccumulator)
      requires Valid()
      modifies this
      ensures Valid() && key in accumulators && accumulators[key] == a
      ensures key in old(accumulators) ==> accumulators == old(accumulators)
      ensures key !in old(accumulators) ==> fresh(a) && a.View() == NOTHING && accumulators == old(accumulators)[key := a]
    {
      if key !in accumulators {
        var created := new VariableUsageAccumulator(key);
        accumulators := accumulators[key := created];
      }
      return accumulators[key];
    }

    /** The groups so far, with an accumulator for `key` as well, whether or not it is in use yet. */
    ghost predicate GroupsWith(uses: seq<Occurrence>, key: UsageKey)
      reads this, accumulators.Values
    {
      && Valid()
      && accumulators.Keys == KeysOf(uses) + {key}
      && forall k <- accumulators :: accumulators[k].View() == Fold(uses, k)
    }

    method Prepare(key: UsageKey, ghost uses: seq<Occurrence>) returns (a: VariableUsageAccumulator)
      requires Groups(uses)
      modifies this
      ensures GroupsWith(uses, key) && accumulators[key] == a
      ensures fresh(accumulators.Values - old(accumulators.Values))
    {
      FoldOfStranger(uses, key);
      a := GetAccumulator(key);
    }

    method AddUse(o: Occurrence, ghost uses: seq<Occurrence>)
      requires Groups(uses)
      modifies this, accumulators.Values
      ensures Groups(uses + [o])
      ensures fresh(accumulators.Values - old(accumulators.Values))
    {
      var a := Prepare(o.key, uses);
      a.AddOccurrence(o);
      FoldSnoc(uses, o);
    }
  }

  lemma FoldSnoc(uses: seq<Occurrence>, o: Occurrence)
    ensures KeysOf(uses + [o]) == KeysOf(uses) + {o.key}
    ensures forall k :: Fold(uses + [o], k) == if o.key == k then Add(Fold(uses, k), o) else Fold(uses, k)
  {
    assert (uses + [o])[..|uses|] == uses;
    assert forall o' :: o' in uses + [o] <==> o' in uses || o' == o;
  }

  lemma {:induction false} FoldOfStranger(uses: seq<Occurrence>, key: UsageKey)
    ensures key !in KeysOf(uses) ==> Fold(uses, key) == NOTHING
  {
    if uses != [] {
      assert uses == uses[..|uses| - 1] + [uses[|uses| - 1]];
      FoldSnoc(uses[..|uses| - 1], uses[|uses| - 1]);
      FoldOfStranger(uses[..|uses| - 1], key);
    }
  }

  // ----- extraction -----

  /** The output is a strictly sorted list with one summary per group, each the fold of its own
      occurrences. */
  ghost predicate GroupsBy(summaries: seq<Summary>, keys: seq<UsageKey>, uses: seq<Occurrence>, system: System) {
    && Sorted(keys)
    && (forall k :: k in keys <==> k in KeysOf(uses))
    && |summaries| == |keys|
    && forall i :: 0 <= i < |keys| ==> summaries[i] == ToSummary(keys[i], Fold(uses, keys[i]), system)
  }

  /** `extract_variable_usage`. */
  method ExtractVariableUsage(h: Household, system: System) returns (summaries: seq<Summary>, ghost keys: seq<UsageKey>)
    ensures GroupsBy(summaries, keys, Occurrences(h, system), system)
    ensures forall i, j :: 0 <= i < j < |summaries| ==> KeyLess(summaries[i].key, summaries[j].key)
    ensures forall k :: k in KeysOf(Occurrences(h, system)) <==> exists s <- summaries :: s.key == k
    ensures TotalCount(summaries) == PayloadTotal(h)
    ensures forall s <- summaries :: Describes(s, Occurrences(h, system), system)
  {
    var uses := Occurrences(h, system);
    var table := new UsageTable();
    for i := 0 to |uses|
      invariant fresh(table) && fresh(table.accumulators.Values) && table.Groups(uses[..i])
    {
      table.AddUse(uses[i], uses[..i]);
      assert uses[..i] + [uses[i]] == uses[..i + 1];
    }
    assert uses[..|uses|] == uses;
    var order := SortKeys(table.accumulators.Keys);
    keys := order;
    summaries := [];
    for i := 0 to |order|
      invariant |summaries| == i
      invariant forall j :: 0 <= j < i ==> summaries[j] == ToSummary(order[j], Fold(uses, order[j]), system)
    {
      assert order[i] in order;
      summaries := summaries + [ToSummary(order[i], table.accumulators[order[i]].View(), system)];
    }
    KeysAreReported(summaries, keys, uses, system);
    CountsOnPayload(h, system, summaries, keys);
    SummariesDescribe(summaries, keys, uses, system);
  }

  lemma KeysAreReported(summaries: seq<Summary>, keys: seq<UsageKey>, uses: seq<Occurrence>, system: System)
    requires GroupsBy(summaries, keys, uses, system)
    ensures forall k :: k in KeysOf(uses) <==> exists s <- summaries :: s.key == k
  {
    forall k | k in KeysOf(uses) ensures exists s <- summaries :: s.key == k {
      var i :| 0 <= i < |keys| && keys[i] == k;
      assert summaries[i] in summaries && summaries[i].key == k;
    }
    forall s <- summaries ensures s.key in KeysOf(uses) {
      var i :| 0 <= i < |summaries| && summaries[i] == s;
      assert keys[i] in keys;
    }
  }

  method SortKeys(keys: set<UsageKey>) returns (sorted: seq<UsageKey>)
    ensures Sorted(sorted) && forall k :: k in sorted <==> k in keys
  {
    sorted := [];
    var todo := keys;
    while todo != {}
      invariant Sorted(sorted) && todo <= keys
      invariant forall k :: k in sorted <==> k in keys && k !in todo
      decreases |todo|
    {
      var key :| key in todo;
      sorted := InsertKey(sorted, key);
      todo := todo - {key};
    }
  }

  // ----- counts add up -----

  function TotalWeight(uses: seq<Occurrence>): nat {
    if uses == [] then 0 else TotalWeight(uses[..|uses| - 1]) + Weight(uses[|uses| - 1])
  }

  function TotalCount(summaries: seq<Summary>): nat {
    if summaries == [] then 0
    else TotalCount(summaries[..|summaries| - 1]) + summaries[|summaries| - 1].occurrenceCount
  }

  function CountOver(keys: seq<UsageKey>, uses: seq<Occurrence>): nat {
    if keys == [] then 0 else CountOver(keys[..|keys| - 1], uses) + Fold(uses, keys[|keys| - 1]).count
  }

  /** One more occurrence adds its weight to exactly one group. */
  lemma {:induction false} CountOverSnoc(keys: seq<UsageKey>, uses: seq<Occurrence>, o: Occurrence)
    requires Sorted(keys)
    ensures CountOver(keys, uses + [o]) == CountOver(keys, uses) + if o.key in keys then Weight(o) else 0
  {
    FoldSnoc(uses, o);
    if keys != [] {
      var n := |keys| - 1;
      CountOverSnoc(keys[..n], uses, o);
      KeyLessTrichotomy(keys[n], keys[n]);
      assert keys[n] !in keys[..n];
    }
  }

  lemma {:induction false} CountOverNothing(keys: seq<UsageKey>)
    ensures CountOver(keys, []) == 0
  {
    if keys != [] {
      CountOverNothing(keys[..|keys| - 1]);
    }
  }

  lemma {:induction false} CountOverIsWeight(keys: seq<UsageKey>, uses: seq<Occurrence>)
    requires Sorted(keys) && forall o <- uses :: o.key in keys
    ensures CountOver(keys, uses) == TotalWeight(uses)
  {
    if uses == [] {
      CountOverNothing(keys);
    } else {
      var n := |uses| - 1;
      assert uses == uses[..n] + [uses[n]];
      CountOverIsWeight(keys, uses[..n]);
      CountOverSnoc(keys, uses[..n], uses[n]);
    }
  }

  lemma {:induction false} CountOfSummaries(summaries: seq<Summary>, keys: seq<UsageKey>, uses: seq<Occurrence>)
    requires |summaries| == |keys|
    requires forall i :: 0 <= i < |keys| ==> summaries[i].occurrenceCount == Fold(uses, keys[i]).count
    ensures TotalCount(summaries) == CountOver(keys, uses)
  {
    if keys != [] {
      CountOfSummaries(summaries[..|keys| - 1], keys[..|keys| - 1], uses);
    }
  }

  lemma {:induction false} WeightConcat(a: seq<Occurrence>, b: seq<Occurrence>)
    ensures TotalWeight(a + b) == TotalWeight(a) + TotalWeight(b)
  {
    if b == [] {
      assert a + b == a;
    } else {
      assert (a + b)[..|a + b| - 1] == a + b[..|b| - 1];
      WeightConcat(a, b[..|b| - 1]);
    }
  }

  lemma {:induction false} AxesWeighOne(uses: seq<Occurrence>)
    requires forall o <- uses :: o.AxisUse?
    ensures TotalWeight(uses) == |uses|
  {
    if uses != [] {
      assert uses[|uses| - 1] in uses;
      AxesWeighOne(uses[..|uses| - 1]);
    }
  }

  lemma {:induction false} AxisUsesAreAxes(h: Household, system: System)
    ensures forall o <- AxisUses(h, system) :: o.AxisUse?
  {
    if h != [] {
      if h[0].0 == "axes" {
        if h[0].1.AxisList? {
          EntryUsesAreAxes(h[0].1.entries, system);
        }
      } else {
        AxisUsesAreAxes(h[1..], system);
      }
    }
  }

  lemma {:induction false} EntryUsesAreAxes(entries: seq<AxisEntry>, system: System)
    ensures forall o <- UsesOfEntries(entries, system) :: o.AxisUse?
  {
    if entries != [] {
      var n := |entries| - 1;
      EntryUsesAreAxes(entries[..n], system);
      AxesAreAxes(if entries[n].Parallel? then entries[n].axes else [entries[n].axis], system);
    }
  }

  lemma {:induction false} AxesAreAxes(axes: seq<AxisSpec>, system: System)
    ensures forall o <- UsesOfAxes(axes, system) :: o.AxisUse?
  {
    if axes != [] {
      AxesAreAxes(axes[..|axes| - 1], system);
    }
  }

  /** Grouping loses nothing and counts nothing twice: the reported occurrence counts add up to one
      per period of every entity variable (at least one each) plus one per valid axis. */
  lemma OccurrenceCountsAddUp(h: Household, system: System, summaries: seq<Summary>, keys: seq<UsageKey>)
    requires GroupsBy(summaries, keys, Occurrences(h, system), system)
    ensures TotalCount(summaries) == TotalWeight(EntityUses(h, system)) + |AxisUses(h, system)|
  {
    var uses := Occurrences(h, system);
    CountOfSummaries(summaries, keys, uses);
    forall o <- uses ensures o.key in keys {
      assert o.key in KeysOf(uses);
    }
    CountOverIsWeight(keys, uses);
    WeightConcat(EntityUses(h, system), AxisUses(h, system));
    AxisUsesAreAxes(h, system);
    AxesWeighOne(AxisUses(h, system));
  }

  // ----- value independence -----

  ghost predicate SameLeaves(a: seq<(string, Leaf)>, b: seq<(string, Leaf)>) {
    |a| == |b| && forall i :: 0 <= i < |a| ==> a[i].0 == b[i].0 && (a[i].1.Null? <==> b[i].1.Null?)
  }

  ghost predicate SameData(a: PeriodData, b: PeriodData) {
    match (a, b)
    case (Periods(x), Periods(y)) => SameLeaves(x, y)
    case (NullData, NullData) => true
    case (OtherData(_), OtherData(_)) => true
    case _ => false
  }

  ghost predicate SameVariables(a: seq<(string, PeriodData)>, b: seq<(string, PeriodData)>) {
    |a| == |b| && forall i :: 0 <= i < |a| ==> a[i].0 == b[i].0 && SameData(a[i].1, b[i].1)
  }

  ghost predicate SameEntities(a: seq<(string, EntityData)>, b: seq<(string, EntityData)>) {
    |a| == |b| && forall i :: 0 <= i < |a| ==>
      && a[i].0 == b[i].0 && (a[i].1.Variables? <==> b[i].1.Variables?)
      && (a[i].1.Variables? ==> SameVariables(a[i].1.variables, b[i].1.variables))
  }

  predicate SameAxis(a: AxisSpec, b: AxisSpec) {
    a == b || (a.AxisSpec? && b.AxisSpec? && a.name == b.name && a.period == b.period)
  }

  ghost predicate SameAxes(a: seq<AxisSpec>, b: seq<AxisSpec>) {
    |a| == |b| && forall i :: 0 <= i < |a| ==> SameAxis(a[i], b[i])
  }

  ghost predicate SameEntries(a: seq<AxisEntry>, b: seq<AxisEntry>) {
    |a| == |b| && forall i :: 0 <= i < |a| ==>
      match (a[i], b[i])
      case (Single(x), Single(y)) => SameAxis(x, y)
      case (Parallel(x), Parallel(y)) => SameAxes(x, y)
      case _ => false
  }

  /** The two households differ at most in non-null values and in axis fields other than name and
      period. */
  ghost predicate SameShape(a: Household, b: Household) {
    |a| == |b| && forall i :: 0 <= i < |a| ==>
      && a[i].0 == b[i].0
      && match (a[i].1, b[i].1)
         case (Entities(x), Entities(y)) => SameEntities(x, y)
         case (AxisList(x), AxisList(y)) => SameEntries(x, y)
         case (OtherGroup, OtherGroup) => true
         case _ => false
  }

  lemma {:induction false} SameNames(a: seq<(string, Leaf)>, b: seq<(string, Leaf)>)
    requires SameLeaves(a, b)
    ensures PeriodNames(a) == PeriodNames(b)
  {
    if a != [] {
      SameNames(a[..|a| - 1], b[..|b| - 1]);
    }
  }

  lemma SameNulls(a: seq<(string, Leaf)>, b: seq<(string, Leaf)>, isNull: bool)
    requires SameLeaves(a, b)
    ensures HasNull(a, isNull) <==> HasNull(b, isNull)
  {
  }

  lemma SameDataUse(a: PeriodData, b: PeriodData)
    requires SameData(a, b)
    ensures SourceOf(a) == SourceOf(b) && PeriodsOf(a) == PeriodsOf(b) && GranularityOf(a) == GranularityOf(b)
  {
    if a.Periods? {
      SameNames(a.entries, b.entries);
      SameNulls(a.entries, b.entries, true);
      SameNulls(a.entries, b.entries, false);
    }
  }

  lemma {:induction false} SameEntityUses(group: string, entity: string, a: seq<(string, PeriodData)>, b: seq<(string, PeriodData)>, system: System)
    requires SameVariables(a, b)
    ensures UsesInEntity(group, entity, a, system) == UsesInEntity(group, entity, b, system)
  {
    if a != [] {
      var n := |a| - 1;
      SameEntityUses(group, entity, a[..n], b[..n], system);
      SameDataUse(a[n].1, b[n].1);
    }
  }

  lemma {:induction false} SameGroupUses(group: string, a: seq<(string, EntityData)>, b: seq<(string, EntityData)>, system: System)
    requires SameEntities(a, b)
    ensures UsesInGroup(group, a, system) == UsesInGroup(group, b, system)
  {
    if a != [] {
      var n := |a| - 1;
      SameGroupUses(group, a[..n], b[..n], system);
      if a[n].1.Variables? {
        SameEntityUses(group, a[n].0, a[n].1.variables, b[n].1.variables, system);
      }
    }
  }

  lemma {:induction false} SameHouseholdUses(a: Household, b: Household, system: System)
    requires SameShape(a, b)
    ensures EntityUses(a, system) == EntityUses(b, system)
  {
    if a != [] {
      var n := |a| - 1;
      SameHouseholdUses(a[..n], b[..n], system);
      if a[n].1.Entities? {
        SameGroupUses(a[n].0, a[n].1.entities, b[n].1.entities, system);
      }
    }
  }

  lemma {:induction false} SameAxesUses(a: seq<AxisSpec>, b: seq<AxisSpec>, system: System)
    requires SameAxes(a, b)
    ensures UsesOfAxes(a, system) == UsesOfAxes(b, system)
  {
    if a != [] {
      SameAxesUses(a[..|a| - 1], b[..|b| - 1], system);
      assert SameAxis(a[|a| - 1], b[|b| - 1]);
    }
  }

  lemma {:induction false} SameEntriesUses(a: seq<AxisEntry>, b: seq<AxisEntry>, system: System)
    requires SameEntries(a, b)
    ensures UsesOfEntries(a, system) == UsesOfEntries(b, system)
  {
    if a != [] {
      var n := |a| - 1;
      SameEntriesUses(a[..n], b[..n], system);
      SameAxesUses(if a[n].Parallel? then a[n].axes else [a[n].axis], if b[n].Parallel? then b[n].axes else [b[n].axis], system);
    }
  }

  lemma {:induction false} SameAxisUses(a: Household, b: Household, system: System)
    requires SameShape(a, b)
    ensures AxisUses(a, system) == AxisUses(b, system)
  {
    if a != [] {
      if a[0].1.AxisList? {
        SameEntriesUses(a[0].1.entries, b[0].1.entries, system);
      }
      SameAxisUses(a[1..], b[1..], system);
    }
  }

  lemma HasMember(keys: seq<UsageKey>)
    ensures keys != [] ==> exists k :: k in keys
  {
    assert keys != [] ==> keys[0] in keys;
  }

  /** A strictly sorted list is determined by its elements. */
  lemma {:induction false} SortedIsUnique(a: seq<UsageKey>, b: seq<UsageKey>)
    requires Sorted(a) && Sorted(b) && forall k :: k in a <==> k in b
    ensures a == b
  {
    if a == [] {
      HasMember(b);
    } else {
      assert a[|a| - 1] in b;
      var m, n := |a| - 1, |b| - 1;
      assert b[n] in a;
      LastIsLargest(a, b);
      LastIsLargest(b, a);
      KeyLessTrichotomy(a[m], b[n]);
      assert a[m] == b[n];
      ButLast(a);
      ButLast(b);
      forall k ensures k in a[..m] <==> k in b[..n] {
        assert k in a[..m] <==> k in a && k != a[m];
        assert k in b[..n] <==> k in b && k != b[n];
      }
      SortedIsUnique(a[..m], b[..n]);
      assert a == a[..m] + [a[m]] && b == b[..n] + [b[n]];
    }
  }

  lemma LastIsLargest(a: seq<UsageKey>, b: seq<UsageKey>)
    requires Sorted(a) && a != [] && b != [] && forall k :: k in b ==> k in a
    ensures b[|b| - 1] == a[|a| - 1] || KeyLess(b[|b| - 1], a[|a| - 1])
  {
    assert b[|b| - 1] in a;
  }

  lemma ButLast(a: seq<UsageKey>)
    requires Sorted(a) && a != []
    ensures forall k :: k in a[..|a| - 1] <==> k in a && k != a[|a| - 1]
  {
    var m := |a| - 1;
    assert a == a[..m] + [a[m]];
    forall i | 0 <= i < m ensures a[i] != a[m] {
      KeyLessTrichotomy(a[i], a[m]);
    }
  }

  /** No value leaks: households of the same shape, whatever their values, give the same output. */
  lemma OutputIgnoresValues(a: Household, b: Household, system: System, sa: seq<Summary>, ka: seq<UsageKey>,
                            sb: seq<Summary>, kb: seq<UsageKey>)
    requires SameShape(a, b)
    requires GroupsBy(sa, ka, Occurrences(a, system), system) && GroupsBy(sb, kb, Occurrences(b, system), system)
    ensures sa == sb
  {
    SameHouseholdUses(a, b, system);
    SameAxisUses(a, b, system);
    SortedIsUnique(ka, kb);
  }

  // ----- the answer, on the payload itself -----

  /** Variable entry v of entity entry e of group entry g: every one outside the axes counts, except
      the list of members. */
  ghost predicate EntryIn(h: Household, g: (string, GroupData), e: (string, EntityData), v: (string, PeriodData)) {
    && g in h && g.0 != "axes" && g.1.Entities?
    && e in g.1.entities && e.1.Variables? && v in e.1.variables && v.0 != "members"
  }

  /** How often an entry counts: once for each of its periods, and once if it has none. */
  function PeriodsOrOne(data: PeriodData): nat {
    if data.Periods? && data.entries != [] then |data.entries| else 1
  }

  function VariablesTotal(variables: seq<(string, PeriodData)>): nat {
    if variables == [] then 0
    else
      var n := |variables| - 1;
      VariablesTotal(variables[..n]) + if variables[n].0 == "members" then 0 else PeriodsOrOne(variables[n].1)
  }

  function EntitiesTotal(entities: seq<(string, EntityData)>): nat {
    if entities == [] then 0
    else
      var n := |entities| - 1;
      EntitiesTotal(entities[..n]) + if entities[n].1.Variables? then VariablesTotal(entities[n].1.variables) else 0
  }

  function GroupsTotal(h: Household): nat {
    if h == [] then 0
    else
      var n := |h| - 1;
      GroupsTotal(h[..n]) + if h[n].0 != "axes" && h[n].1.Entities? then EntitiesTotal(h[n].1.entities) else 0
  }

  predicate NamesVariable(a: AxisSpec) {
    a.AxisSpec? && a.name.Some? && a.name.value != ""
  }

  function NamedAxes(axes: seq<AxisSpec>): nat {
    if axes == [] then 0 else NamedAxes(axes[..|axes| - 1]) + if NamesVariable(axes[|axes| - 1]) then 1 else 0
  }

  function AxesTotal(entries: seq<AxisEntry>): nat {
    if entries == [] then 0
    else
      var last := entries[|entries| - 1];
      AxesTotal(entries[..|entries| - 1])
      + if last.Parallel? then NamedAxes(last.axes) else if NamesVariable(last.axis) then 1 else 0
  }

  /** The first entry under "axes", where a household has one. */
  function AxesOf(h: Household): seq<AxisEntry> {
    if h == [] then []
    else if h[0].0 == "axes" then (if h[0].1.AxisList? then h[0].1.entries else [])
    else AxesOf(h[1..])
  }

  /** What the reported counts of a household add up to. */
  function PayloadTotal(h: Household): nat {
    GroupsTotal(h) + AxesTotal(AxesOf(h))
  }

  lemma LastVariableUses(g: string, e: string, variables: seq<(string, PeriodData)>, system: System)
    requires variables != []
    ensures var before, v := UsesInEntity(g, e, variables[..|variables| - 1], system), variables[|variables| - 1];
            UsesInEntity(g, e, variables, system) == if v.0 == "members" then before else before + [UseOf(g, e, v, system)]
  {
  }

  lemma WeightOfUse(g: string, e: string, v: (string, PeriodData), system: System)
    ensures Weight(UseOf(g, e, v, system)) == PeriodsOrOne(v.1)
  {
  }

  lemma {:induction false} VariablesWeigh(group: string, entity: string, variables: seq<(string, PeriodData)>, system: System)
    ensures TotalWeight(UsesInEntity(group, entity, variables, system)) == VariablesTotal(variables)
  {
    if variables != [] {
      var n := |variables| - 1;
      VariablesWeigh(group, entity, variables[..n], system);
      LastVariableUses(group, entity, variables, system);
      WeightOfUse(group, entity, variables[n], system);
      WeightSnoc(UsesInEntity(group, entity, variables[..n], system), UseOf(group, entity, variables[n], system));
    }
  }

  lemma WeightSnoc(uses: seq<Occurrence>, o: Occurrence)
    ensures TotalWeight(uses + [o]) == TotalWeight(uses) + Weight(o)
  {
    assert (uses + [o])[..|uses|] == uses;
  }

  lemma {:induction false} EntitiesWeigh(group: string, entities: seq<(string, EntityData)>, system: System)
    ensures TotalWeight(UsesInGroup(group, entities, system)) == EntitiesTotal(entities)
  {
    if entities != [] {
      var n := |entities| - 1;
      var (entity, data) := entities[n];
      EntitiesWeigh(group, entities[..n], system);
      var more := if data.Variables? then UsesInEntity(group, entity, data.variables, system) else [];
      WeightConcat(UsesInGroup(group, entities[..n], system), more);
      if data.Variables? {
        VariablesWeigh(group, entity, data.variables, system);
      }
    }
  }

  lemma {:induction false} GroupsWeigh(h: Household, system: System)
    ensures TotalWeight(EntityUses(h, system)) == GroupsTotal(h)
  {
    if h != [] {
      var n := |h| - 1;
      var (group, data) := h[n];
      GroupsWeigh(h[..n], system);
      var more := if group != "axes" && data.Entities? then UsesInGroup(group, data.entities, system) else [];
      WeightConcat(EntityUses(h[..n], system), more);
      if data.Entities? {
        EntitiesWeigh(group, data.entities, system);
      }
    }
  }

  lemma {:induction false} NamedAxesAreUsed(axes: seq<AxisSpec>, system: System)
    ensures |UsesOfAxes(axes, system)| == NamedAxes(axes)
  {
    if axes != [] {
      NamedAxesAreUsed(axes[..|axes| - 1], system);
    }
  }

  lemma {:induction false} AxesAreUsed(entries: seq<AxisEntry>, system: System)
    ensures |UsesOfEntries(entries, system)| == AxesTotal(entries)
  {
    if entries != [] {
      var n := |entries| - 1;
      AxesAreUsed(entries[..n], system);
      if entries[n].Parallel? {
        NamedAxesAreUsed(entries[n].axes, system);
      } else {
        NamedAxesAreUsed([entries[n].axis], system);
        assert [entries[n].axis][..0] == [];
        assert NamedAxes([entries[n].axis]) == NamedAxes([]) + if NamesVariable(entries[n].axis) then 1 else 0;
      }
    }
  }

  lemma {:induction false} AxisUsesCount(h: Household, system: System)
    ensures AxisUses(h, system) == UsesOfEntries(AxesOf(h), system)
  {
    if h != [] && h[0].0 != "axes" {
      AxisUsesCount(h[1..], system);
    }
  }

  /** The reported occurrence counts add up to a total computed on the payload alone. */
  lemma CountsOnPayload(h: Household, system: System, summaries: seq<Summary>, keys: seq<UsageKey>)
    requires GroupsBy(summaries, keys, Occurrences(h, system), system)
    ensures TotalCount(summaries) == PayloadTotal(h)
  {
    OccurrenceCountsAddUp(h, system, summaries, keys);
    GroupsWeigh(h, system);
    AxisUsesCount(h, system);
    AxesAreUsed(AxesOf(h), system);
  }

  // ----- what one summary says -----

  ghost function EntitiesUsing(uses: seq<Occurrence>, key: UsageKey): set<(string, string)> {
    set o <- uses | o.EntityUse? && o.key == key :: (o.group, o.entity)
  }

  ghost function PeriodsUsed(uses: seq<Occurrence>, key: UsageKey): set<string> {
    set o <- uses, p <- PeriodsIn(o) | o.key == key :: p
  }

  function PeriodsIn(o: Occurrence): set<string> {
    match o
    case EntityUse(_, _, _, periods, _) => set p <- periods
    case AxisUse(_, None) => {}
    case AxisUse(_, Some(period)) => {period}
  }

  function GranularityIn(o: Occurrence): Granularity {
    match o
    case EntityUse(_, _, _, _, granularity) => granularity
    case AxisUse(_, None) => NoPeriods
    case AxisUse(_, Some(period)) => PeriodGranularity(period)
  }

  ghost function GranularitiesUsed(uses: seq<Occurrence>, key: UsageKey): set<Granularity> {
    set o <- uses | o.key == key :: GranularityIn(o)
  }

  /** The summary counts the distinct entities and periods of its group's occurrences, names their one
      granularity or calls it mixed, and tells a known variable from a deprecated and an unknown one. */
  ghost predicate Describes(s: Summary, uses: seq<Occurrence>, system: System) {
    && s.entityCount == |EntitiesUsing(uses, s.key)|
    && s.periodCount == |PeriodsUsed(uses, s.key)|
    && (GranularitiesUsed(uses, s.key) == {s.granularity}
        || (|GranularitiesUsed(uses, s.key)| > 1 && s.granularity == MixedPeriods))
    && (s.availability.Supported? <==> s.key.name in system.variables)
    && (s.availability.DeprecatedAllowlisted? <==> s.key.name !in system.variables && s.key.name in system.deprecated)
  }

  lemma {:induction false} FoldMeans(uses: seq<Occurrence>, key: UsageKey)
    ensures Fold(uses, key).entities == EntitiesUsing(uses, key)
    ensures Fold(uses, key).periods == PeriodsUsed(uses, key)
    ensures Fold(uses, key).granularities == GranularitiesUsed(uses, key)
  {
    if uses != [] {
      var n := |uses| - 1;
      FoldMeans(uses[..n], key);
      assert uses == uses[..n] + [uses[n]];
      UsedSnoc(uses[..n], uses[n], key);
    }
  }

  lemma UsedSnoc(uses: seq<Occurrence>, o: Occurrence, key: UsageKey)
    ensures EntitiesUsing(uses + [o], key)
         == EntitiesUsing(uses, key) + if o.EntityUse? && o.key == key then {(o.group, o.entity)} else {}
    ensures PeriodsUsed(uses + [o], key) == PeriodsUsed(uses, key) + if o.key == key then PeriodsIn(o) else {}
    ensures GranularitiesUsed(uses + [o], key)
         == GranularitiesUsed(uses, key) + if o.key == key then {GranularityIn(o)} else {}
  {
    assert forall x :: x in uses + [o] <==> x in uses || x == o;
  }

  lemma OneGranularity(granularities: set<Granularity>)
    requires granularities != {}
    ensures var g := OneOrMixed(granularities);
            granularities == {g} || (|granularities| > 1 && g == MixedPeriods)
  {
    var x :| x in granularities;
    if |granularities| == 1 {
      assert |granularities - {x}| == 0;
      assert granularities == {x};
    }
  }

  lemma SummaryDescribes(uses: seq<Occurrence>, key: UsageKey, system: System)
    requires key in KeysOf(uses)
    ensures Describes(ToSummary(key, Fold(uses, key), system), uses, system)
  {
    FoldMeans(uses, key);
    var o :| o in uses && o.key == key;
    assert GranularityIn(o) in GranularitiesUsed(uses, key);
    OneGranularity(GranularitiesUsed(uses, key));
  }

  lemma SummariesDescribe(summaries: seq<Summary>, keys: seq<UsageKey>, uses: seq<Occurrence>, system: System)
    requires GroupsBy(summaries, keys, uses, system)
    ensures forall s <- summaries :: Describes(s, uses, system)
  {
    forall s <- summaries ensures Describes(s, uses, system) {
      var i :| 0 <= i < |summaries| && summaries[i] == s;
      assert keys[i] in keys;
      SummaryDescribes(uses, keys[i], system);
    }
  }

  // ----- what one occurrence says -----

  /** The axis a of the household names a variable. */
  ghost predicate AxisIn(h: Household, a: AxisSpec) {
    NamesVariable(a) && exists entry <- AxesOf(h) :: entry == Single(a) || (entry.Parallel? && a in entry.axes)
  }

  function UseOf(g: string, e: string, v: (string, PeriodData), system: System): Occurrence {
    EntityUse(UsageKey(v.0, EntityType(v.0, g, system), SourceOf(v.1)), g, e, PeriodsOf(v.1), GranularityOf(v.1))
  }

  function UseOfAxis(a: AxisSpec, system: System): Occurrence
    requires NamesVariable(a)
  {
    AxisUse(UsageKey(a.name.value, EntityType(a.name.value, "axes", system), Axis), a.period)
  }

  predicate VariableUsesIt(g: string, e: string, v: (string, PeriodData), system: System, o: Occurrence) {
    v.0 != "members" && o == UseOf(g, e, v, system)
  }

  ghost predicate EntityUsesIt(g: string, e: (string, EntityData), system: System, o: Occurrence) {
    e.1.Variables? && exists v <- e.1.variables :: VariableUsesIt(g, e.0, v, system, o)
  }

  ghost predicate GroupUsesIt(g: (string, GroupData), system: System, o: Occurrence) {
    g.0 != "axes" && g.1.Entities? && exists e <- g.1.entities :: EntityUsesIt(g.0, e, system, o)
  }

  lemma {:induction false} UsesInEntityExactly(g: string, e: string, variables: seq<(string, PeriodData)>,
                                               system: System, o: Occurrence)
    ensures o in UsesInEntity(g, e, variables, system)
       <==> exists v <- variables :: VariableUsesIt(g, e, v, system, o)
  {
    if variables != [] {
      var n := |variables| - 1;
      UsesInEntityExactly(g, e, variables[..n], system, o);
      LastVariableUses(g, e, variables, system);
      assert forall v :: v in variables <==> v in variables[..n] || v == variables[n];
      assert o in UsesInEntity(g, e, variables, system)
        <==> o in UsesInEntity(g, e, variables[..n], system) || VariableUsesIt(g, e, variables[n], system, o);
    }
  }

  lemma LastEntityUses(g: string, entities: seq<(string, EntityData)>, system: System, o: Occurrence)
    requires entities != []
    ensures o in UsesInGroup(g, entities, system)
       <==> o in UsesInGroup(g, entities[..|entities| - 1], system) || EntityUsesIt(g, entities[|entities| - 1], system, o)
  {
    var e := entities[|entities| - 1];
    if e.1.Variables? {
      UsesInEntityExactly(g, e.0, e.1.variables, system, o);
    }
  }

  lemma {:induction false} UsesInGroupExactly(g: string, entities: seq<(string, EntityData)>, system: System, o: Occurrence)
    ensures o in UsesInGroup(g, entities, system) <==> exists e <- entities :: EntityUsesIt(g, e, system, o)
  {
    if entities != [] {
      var n := |entities| - 1;
      UsesInGroupExactly(g, entities[..n], system, o);
      LastEntityUses(g, entities, system, o);
      assert forall e :: e in entities <==> e in entities[..n] || e == entities[n];
    }
  }

  lemma LastGroupUses(h: Household, system: System, o: Occurrence)
    requires h != []
    ensures o in EntityUses(h, system) <==> o in EntityUses(h[..|h| - 1], system) || GroupUsesIt(h[|h| - 1], system, o)
  {
    var g := h[|h| - 1];
    if g.1.Entities? {
      UsesInGroupExactly(g.0, g.1.entities, system, o);
    }
  }

  lemma {:induction false} EntityUsesExactly(h: Household, system: System, o: Occurrence)
    ensures o in EntityUses(h, system) <==> exists g <- h :: GroupUsesIt(g, system, o)
  {
    if h != [] {
      var n := |h| - 1;
      EntityUsesExactly(h[..n], system, o);
      LastGroupUses(h, system, o);
      assert forall g :: g in h <==> g in h[..n] || g == h[n];
    }
  }

  lemma {:induction false} UsesOfAxesExactly(axes: seq<AxisSpec>, system: System, o: Occurrence)
    ensures o in UsesOfAxes(axes, system) <==> exists a <- axes :: NamesVariable(a) && o == UseOfAxis(a, system)
  {
    if axes != [] {
      var n := |axes| - 1;
      UsesOfAxesExactly(axes[..n], system, o);
      assert forall a :: a in axes <==> a in axes[..n] || a == axes[n];
      assert o in UsesOfAxes(axes, system)
        <==> o in UsesOfAxes(axes[..n], system) || (NamesVariable(axes[n]) && o == UseOfAxis(axes[n], system));
    }
  }

  ghost predicate HasAxis(entry: AxisEntry, a: AxisSpec) {
    entry == Single(a) || (entry.Parallel? && a in entry.axes)
  }

  ghost predicate EntryUsesIt(entry: AxisEntry, system: System, o: Occurrence) {
    exists a :: HasAxis(entry, a) && NamesVariable(a) && o == UseOfAxis(a, system)
  }

  lemma LastEntryUses(entry: AxisEntry, system: System, o: Occurrence)
    ensures o in UsesOfAxes(if entry.Parallel? then entry.axes else [entry.axis], system) <==> EntryUsesIt(entry, system, o)
  {
    var axes := if entry.Parallel? then entry.axes else [entry.axis];
    UsesOfAxesExactly(axes, system, o);
    assert forall a :: a in axes <==> HasAxis(entry, a);
  }

  lemma {:induction false} UsesOfEntriesExactly(entries: seq<AxisEntry>, system: System, o: Occurrence)
    ensures o in UsesOfEntries(entries, system) <==> exists entry <- entries :: EntryUsesIt(entry, system, o)
  {
    if entries != [] {
      var n := |entries| - 1;
      UsesOfEntriesExactly(entries[..n], system, o);
      LastEntryUses(entries[n], system, o);
      assert forall x :: x in entries <==> x in entries[..n] || x == entries[n];
    }
  }

  /** The occurrences behind the report are exactly those of the payload's entries and named axes. */
  lemma OccurrencesExactly(h: Household, system: System, o: Occurrence)
    ensures o in Occurrences(h, system)
       <==> (exists g, e, v :: EntryIn(h, g, e, v) && o == UseOf(g.0, e.0, v, system))
            || (exists a :: AxisIn(h, a) && o == UseOfAxis(a, system))
  {
    EntityUsesExactly(h, system, o);
    AxisUsesCount(h, system);
    UsesOfEntriesExactly(AxesOf(h), system, o);
    if o in EntityUses(h, system) {
      var g :| g in h && GroupUsesIt(g, system, o);
      var e :| e in g.1.entities && EntityUsesIt(g.0, e, system, o);
      var v :| v in e.1.variables && VariableUsesIt(g.0, e.0, v, system, o);
      assert EntryIn(h, g, e, v);
    }
    if o in AxisUses(h, system) {
      var entry :| entry in AxesOf(h) && EntryUsesIt(entry, system, o);
      var a :| HasAxis(entry, a) && NamesVariable(a) && o == UseOfAxis(a, system);
      assert AxisIn(h, a);
    }
    if g, e, v :| EntryIn(h, g, e, v) && o == UseOf(g.0, e.0, v, system) {
      assert VariableUsesIt(g.0, e.0, v, system, o) && EntityUsesIt(g.0, e, system, o) && GroupUsesIt(g, system, o);
    }
    if a :| AxisIn(h, a) && o == UseOfAxis(a, system) {
      var entry :| entry in AxesOf(h) && HasAxis(entry, a);
      assert EntryUsesIt(entry, system, o);
    }
  }

  /** An entry is a requested output when it asks for every period it has (or has none), an input when
      it asks for none, and mixed when it does both. */
  lemma SourceMeans(data: PeriodData)
    ensures SourceOf(data).RequestedOutput?
       <==> data.NullData? || (data.Periods? && forall x <- data.entries :: x.1.Null?)
    ensures SourceOf(data).HouseholdInput?
       <==> data.OtherData? || (data.Periods? && data.entries != [] && forall x <- data.entries :: x.1.NonNull?)
    ensures SourceOf(data).MixedSource?
       <==> data.Periods? && (exists x <- data.entries :: x.1.Null?) && (exists x <- data.entries :: x.1.NonNull?)
  {
    if data.Periods? {
      forall x <- data.entries ensures HasNull(data.entries, x.1.Null?) {
        var i :| 0 <= i < |data.entries| && data.entries[i] == x;
      }
      if data.entries != [] {
        assert data.entries[0] in data.entries;
      }
      if HasNull(data.entries, true) {
        var i :| 0 <= i < |data.entries| && data.entries[i].1.Null? == true;
        assert data.entries[i] in data.entries;
      }
      if HasNull(data.entries, false) {
        var i :| 0 <= i < |data.entries| && data.entries[i].1.Null? == false;
        assert data.entries[i] in data.entries;
      }
    }
  }

  /** The text is the pattern's, with or without one trailing line feed. */
  predicate Spells(period: string, text: string) {
    period == text || period == text + "\n"
  }

  /** Four digits are a year, with "-" and two digits a month, with that twice a day. */
  lemma GranularityMeans(period: string)
    ensures PeriodGranularity(period).ByYear? <==> exists y :: |y| == 4 && Digits(y) && Spells(period, y)
    ensures PeriodGranularity(period).ByMonth?
       <==> exists y, m :: |y| == 4 && |m| == 2 && Digits(y) && Digits(m) && Spells(period, y + "-" + m)
    ensures PeriodGranularity(period).ByDay?
       <==> exists y, m, d :: IsDay(y, m, d) && Spells(period, DayText(y, m, d))
  {
    YearSpelled(period);
    MonthSpelled(period);
    DaySpelled(period);
  }

  lemma ChompedSpells(period: string, text: string)
    requires Spells(period, text) && text != "" && text[|text| - 1] != '\n'
    ensures Chomped(period) == text
  {
  }

  lemma DigitsEnd(t: string)
    requires Digits(t) && t != ""
    ensures t[|t| - 1] != '\n'
  {
    assert t[|t| - 1] in t;
  }

  lemma YearSpelled(period: string)
    ensures PeriodGranularity(period).ByYear? <==> exists y :: |y| == 4 && Digits(y) && Spells(period, y)
  {
    if y :| |y| == 4 && Digits(y) && Spells(period, y) {
      DigitsEnd(y);
      ChompedSpells(period, y);
    }
    assert Spells(period, Chomped(period));
  }

  lemma MonthSpelled(period: string)
    ensures PeriodGranularity(period).ByMonth?
       <==> exists y, m :: |y| == 4 && |m| == 2 && Digits(y) && Digits(m) && Spells(period, y + "-" + m)
  {
    var s := Chomped(period);
    if y, m :| |y| == 4 && |m| == 2 && Digits(y) && Digits(m) && Spells(period, y + "-" + m) {
      var t := y + "-" + m;
      DigitsEnd(m);
      ChompedSpells(period, t);
      assert t[..4] == y && t[4] == '-' && t[5..] == m;
    }
    if PeriodGranularity(period).ByMonth? {
      assert s == s[..4] + "-" + s[5..];
    }
  }

  function DayText(y: string, m: string, d: string): string {
    y + "-" + m + "-" + d
  }

  lemma DayParts(y: string, m: string, d: string)
    requires |y| == 4 && |m| == 2 && |d| == 2
    ensures var t := DayText(y, m, d);
            |t| == 10 && t[..4] == y && t[4] == '-' && t[5..7] == m && t[7] == '-' && t[8..] == d && t[9] == d[1]
  {
  }

  lemma DayJoins(s: string)
    requires |s| == 10 && s[4] == '-' && s[7] == '-'
    ensures DayText(s[..4], s[5..7], s[8..]) == s
  {
  }

  predicate IsDay(y: string, m: string, d: string) {
    |y| == 4 && |m| == 2 && |d| == 2 && Digits(y) && Digits(m) && Digits(d)
  }

  lemma DayIsByDay(period: string, y: string, m: string, d: string)
    requires IsDay(y, m, d) && Spells(period, DayText(y, m, d))
    ensures PeriodGranularity(period).ByDay?
  {
    DayParts(y, m, d);
    DigitsEnd(d);
    ChompedSpells(period, DayText(y, m, d));
  }

  lemma ByDayIsDay(period: string)
    requires PeriodGranularity(period).ByDay?
    ensures var s := Chomped(period); IsDay(s[..4], s[5..7], s[8..]) && Spells(period, DayText(s[..4], s[5..7], s[8..]))
  {
    DayJoins(Chomped(period));
  }

  lemma DaySpelled(period: string)
    ensures PeriodGranularity(period).ByDay? <==> exists y, m, d :: IsDay(y, m, d) && Spells(period, DayText(y, m, d))
  {
    if y, m, d :| IsDay(y, m, d) && Spells(period, DayText(y, m, d)) {
      DayIsByDay(period, y, m, d);
    }
    if PeriodGranularity(period).ByDay? {
      ByDayIsDay(period);
    }
  }

  /** An entity type is the known variable's own, else that of the group it appears under. */
  lemma EntityTypeMeans(name: string, group: string, system: System, own: string)
    ensures name in system.variables && system.variables[name] == Some(own) && own != "" ==> EntityType(name, group, system) == own
    ensures (name in system.variables ==> system.variables[name].None? || system.variables[name] == Some("")) ==>
              EntityType(name, group, system) == if group in system.groups then system.groups[group] else "unknown"
  {
  }
}
