/** The household walk, the partial-month warning detector, and its agreement with what the
    normaliser actually does to the same household. */
module PeriodWarnings {
  import opened Common
  import opened PeriodKeys
  import opened PeriodBudgets

  /** What the walk uses of a system variable: is it month-defined, is its value type numeric. */
  datatype Variable = Variable(monthly: bool, numeric: bool)

  type System = map<string, Variable>

  datatype PeriodData = Periods(pm: PeriodMap) | NotPeriods
  datatype EntityData = Variables(variables: seq<(string, PeriodData)>) | NotVariables
  datatype GroupData = Entities(entities: seq<(string, EntityData)>) | NotEntities

  /** A household payload: nested dictionaries in insertion order. */
  type Household = seq<(string, GroupData)>

  datatype SlotId = SlotId(variable: string, plural: string, entity: string)
  datatype Slot = Slot(id: SlotId, variable: Variable, pm: PeriodMap)

  ghost predicate DistinctKeys<T>(entries: seq<(string, T)>) {
    forall i, j :: 0 <= i < j < |entries| ==> entries[i].0 != entries[j].0
  }

  ghost predicate ValidEntity(e: (string, EntityData)) {
    e.1.Variables? ==> DistinctKeys(e.1.variables) && ValidPeriods(e.1.variables)
  }

  ghost predicate ValidEntities(entities: seq<(string, EntityData)>) {
    DistinctKeys(entities) && forall e <- entities :: ValidEntity(e)
  }

  ghost predicate ValidGroup(g: (string, GroupData)) {
    g.1.Entities? ==> ValidEntities(g.1.entities)
  }

  /** Dictionaries have distinct keys, at every level. */
  ghost predicate WellFormed(h: Household) {
    && DistinctKeys(h)
    && forall g <- h :: ValidGroup(g)
  }

  // ----- the walk -----

  function WalkVariables(plural: string, entity: string, variables: seq<(string, PeriodData)>, system: System): seq<Slot> {
    if variables == [] then []
    else
      var n := |variables| - 1;
      var (name, data) := variables[n];
      WalkVariables(plural, entity, variables[..n], system)
      + if data.Periods? && name in system then [Slot(SlotId(name, plural, entity), system[name], data.pm)] else []
  }

  function WalkEntities(plural: string, entities: seq<(string, EntityData)>, system: System): seq<Slot> {
    if entities == [] then []
    else
      var n := |entities| - 1;
      var (entity, data) := entities[n];
      WalkEntities(plural, entities[..n], system)
      + if data.Variables? then WalkVariables(plural, entity, data.variables, system) else []
  }

  function Walk(h: Household, system: System): seq<Slot> {
    if h == [] then []
    else
      var n := |h| - 1;
      var (plural, data) := h[n];
      Walk(h[..n], system)
      + if plural != "axes" && data.Entities? then WalkEntities(plural, data.entities, system) else []
  }

  ghost predicate DistinctIds(slots: seq<Slot>) {
    forall i, j :: 0 <= i < j < |slots| ==> slots[i].id != slots[j].id
  }

  ghost predicate ValidSlots(slots: seq<Slot>) {
    forall s <- slots :: s.pm.Valid()
  }

  lemma ConcatDistinct(a: seq<Slot>, b: seq<Slot>)
    requires DistinctIds(a) && DistinctIds(b)
    requires forall s <- a, t <- b :: s.id != t.id
    ensures DistinctIds(a + b)
  {
    var c := a + b;
    forall i, j | 0 <= i < j < |c| ensures c[i].id != c[j].id {
      if i < |a| <= j {
        assert c[i] in a && c[j] in b;
      }
    }
  }

  ghost function Names<T>(entries: seq<(string, T)>): set<string> {
    set e <- entries :: e.0
  }

  lemma LastNameIsNew<T>(entries: seq<(string, T)>)
    requires DistinctKeys(entries) && entries != []
    ensures entries[|entries| - 1].0 !in Names(entries[..|entries| - 1])
    ensures Names(entries[..|entries| - 1]) <= Names(entries) && entries[|entries| - 1].0 in Names(entries)
    ensures DistinctKeys(entries[..|entries| - 1]) && entries[|entries| - 1] in entries
  {
    assert forall e <- entries[..|entries| - 1] :: e in entries;
    assert entries[|entries| - 1] in entries;
  }

  ghost predicate ValidPeriods(variables: seq<(string, PeriodData)>) {
    forall v <- variables :: v.1.Periods? ==> v.1.pm.Valid()
  }

  lemma {:induction false} WalkVariablesDistinct(plural: string, entity: string, variables: seq<(string, PeriodData)>, system: System)
    requires DistinctKeys(variables) && ValidPeriods(variables)
    ensures var slots := WalkVariables(plural, entity, variables, system);
            && DistinctIds(slots) && ValidSlots(slots)
            && forall s <- slots :: s.id.plural == plural && s.id.entity == entity && s.id.variable in Names(variables)
  {
    if variables != [] {
      var n := |variables| - 1;
      var (name, data) := variables[n];
      LastNameIsNew(variables);
      WalkVariablesDistinct(plural, entity, variables[..n], system);
      if data.Periods? && name in system {
        ConcatDistinct(WalkVariables(plural, entity, variables[..n], system),
                       [Slot(SlotId(name, plural, entity), system[name], data.pm)]);
      }
    }
  }

  lemma {:induction false} WalkEntitiesDistinct(plural: string, entities: seq<(string, EntityData)>, system: System)
    requires ValidEntities(entities)
    ensures var slots := WalkEntities(plural, entities, system);
            && DistinctIds(slots) && ValidSlots(slots)
            && forall s <- slots :: s.id.plural == plural && s.id.entity in Names(entities)
  {
    if entities != [] {
      var n := |entities| - 1;
      var (entity, data) := entities[n];
      LastNameIsNew(entities);
      WalkEntitiesDistinct(plural, entities[..n], system);
      if data.Variables? {
        WalkVariablesDistinct(plural, entity, data.variables, system);
        ConcatDistinct(WalkEntities(plural, entities[..n], system), WalkVariables(plural, entity, data.variables, system));
      }
    }
  }

  /** Every slot of a household is visited under an identity of its own. */
  lemma {:induction false} WalkDistinct(h: Household, system: System)
    requires WellFormed(h)
    ensures var slots := Walk(h, system);
            && DistinctIds(slots) && ValidSlots(slots)
            && forall s <- slots :: s.id.plural in Names(h)
  {
    if h != [] {
      var n := |h| - 1;
      var (plural, data) := h[n];
      LastNameIsNew(h);
      WalkDistinct(h[..n], system);
      if data.Entities? {
        WalkEntitiesDistinct(plural, data.entities, system);
        ConcatDistinct(Walk(h[..n], system), WalkEntities(plural, data.entities, system));
      }
    }
  }

  // ----- which slots the walk visits -----

  /** Variable entry v of entity entry e of group entry g, in a household. */
  ghost predicate HasEntry(h: Household, g: (string, GroupData), e: (string, EntityData), v: (string, PeriodData)) {
    && g in h && g.0 != "axes" && g.1.Entities?
    && e in g.1.entities && e.1.Variables? && v in e.1.variables
  }

  /** The entry is the period map of a variable the system knows. */
  predicate KnownEntry(v: (string, PeriodData), system: System) {
    v.1.Periods? && v.0 in system
  }

  function SlotFor(g: string, e: string, v: (string, PeriodData), system: System): Slot
    requires KnownEntry(v, system)
  {
    Slot(SlotId(v.0, g, e), system[v.0], v.1.pm)
  }

  predicate VariableGives(plural: string, entity: string, v: (string, PeriodData), system: System, s: Slot) {
    KnownEntry(v, system) && s == SlotFor(plural, entity, v, system)
  }

  ghost predicate EntityGives(plural: string, e: (string, EntityData), system: System, s: Slot) {
    e.1.Variables? && exists v <- e.1.variables :: VariableGives(plural, e.0, v, system, s)
  }

  ghost predicate GroupGives(g: (string, GroupData), system: System, s: Slot) {
    g.0 != "axes" && g.1.Entities? && exists e <- g.1.entities :: EntityGives(g.0, e, system, s)
  }

  lemma {:induction false} WalkVariablesExactly(plural: string, entity: string, variables: seq<(string, PeriodData)>,
                                                system: System, s: Slot)
    ensures s in WalkVariables(plural, entity, variables, system)
       <==> exists v <- variables :: VariableGives(plural, entity, v, system, s)
  {
    if variables != [] {
      var n := |variables| - 1;
      WalkVariablesExactly(plural, entity, variables[..n], system, s);
      assert forall v :: v in variables <==> v in variables[..n] || v == variables[n];
      assert s in WalkVariables(plural, entity, variables, system)
        <==> s in WalkVariables(plural, entity, variables[..n], system) || VariableGives(plural, entity, variables[n], system, s);
    }
  }

  lemma {:induction false} WalkEntitiesExactly(plural: string, entities: seq<(string, EntityData)>, system: System, s: Slot)
    ensures s in WalkEntities(plural, entities, system) <==> exists e <- entities :: EntityGives(plural, e, system, s)
  {
    if entities != [] {
      var n := |entities| - 1;
      WalkEntitiesExactly(plural, entities[..n], system, s);
      if entities[n].1.Variables? {
        WalkVariablesExactly(plural, entities[n].0, entities[n].1.variables, system, s);
      }
      assert forall e :: e in entities <==> e in entities[..n] || e == entities[n];
      assert s in WalkEntities(plural, entities, system)
        <==> s in WalkEntities(plural, entities[..n], system) || EntityGives(plural, entities[n], system, s);
    }
  }

  lemma WalkLastGroup(h: Household, system: System, s: Slot)
    requires h != []
    ensures s in Walk(h, system) <==> s in Walk(h[..|h| - 1], system) || GroupGives(h[|h| - 1], system, s)
  {
    var g := h[|h| - 1];
    if g.1.Entities? {
      WalkEntitiesExactly(g.0, g.1.entities, system, s);
    }
  }

  lemma {:induction false} WalkGroupsExactly(h: Household, system: System, s: Slot)
    ensures s in Walk(h, system) <==> exists g <- h :: GroupGives(g, system, s)
  {
    if h != [] {
      var n := |h| - 1;
      WalkGroupsExactly(h[..n], system, s);
      WalkLastGroup(h, system, s);
      assert forall g :: g in h <==> g in h[..n] || g == h[n];
    }
  }

  /** The walk visits a slot if and only if some group other than the axes has an entity with an entry
      of a known variable for it. */
  lemma WalkExactly(h: Household, system: System, s: Slot)
    ensures s in Walk(h, system)
       <==> exists g, e, v :: HasEntry(h, g, e, v) && KnownEntry(v, system) && s == SlotFor(g.0, e.0, v, system)
  {
    WalkGroupsExactly(h, system, s);
    if s in Walk(h, system) {
      var g :| g in h && GroupGives(g, system, s);
      var e :| e in g.1.entities && EntityGives(g.0, e, system, s);
      var v :| v in e.1.variables && VariableGives(g.0, e.0, v, system, s);
      assert HasEntry(h, g, e, v);
    }
    if g, e, v :| HasEntry(h, g, e, v) && KnownEntry(v, system) && s == SlotFor(g.0, e.0, v, system) {
      assert VariableGives(g.0, e.0, v, system, s) && EntityGives(g.0, e, system, s) && GroupGives(g, system, s);
    }
  }

  // ----- what a warning means -----

  predicate HasValue(vals: map<Key, Value>, k: Key) {
    k in vals && !vals[k].Null?
  }

  /** The months of a year that hold a value, under either spelling. */
  function MonthsSet(vals: map<Key, Value>, y: nat): set<int> {
    set m: MonthNo | 1 <= m <= 12 && (HasValue(vals, Month(y, m)) || (m <= 9 && HasValue(vals, ShortMonth(y, m)))) :: m as int
  }

  /** Some month-defined variable asks for the annual total of the year. */
  ghost predicate AnnualRequested(slots: seq<Slot>, y: nat) {
    exists s <- slots :: s.variable.monthly && Lookup(s.pm.vals, Year(y)) == Some(Null)
  }

  function Ascending(s: set<int>, n: nat): seq<int> {
    if n == 0 then [] else Ascending(s, n - 1) + if n in s then [n] else []
  }

  lemma {:induction false} AscendingSorts(s: set<int>, n: nat)
    ensures var a := Ascending(s, n);
            && (forall i, j :: 0 <= i < j < |a| ==> a[i] < a[j])
            && (forall m :: m in a <==> m in s && 1 <= m <= n)
  {
    if n > 0 {
      AscendingSorts(s, n - 1);
      var a := Ascending(s, n - 1);
      assert forall i :: 0 <= i < |a| ==> a[i] in a;
    }
  }

  datatype Warning = PartialMonthlyInput(id: SlotId, year: nat, monthsSet: seq<int>)

  /** Some months of the year are set and some are not, the year itself has no value to spread,
      and an annual figure for the year is asked for. */
  ghost predicate Hazard(slots: seq<Slot>, s: Slot, y: nat) {
    && s.variable.monthly
    && 1 <= |MonthsSet(s.pm.vals, y)| < 12
    && !Active(s.pm, y)
    && AnnualRequested(slots, y)
  }

  // ----- the detector -----

  /** One period entry of one slot, as the detector's inner loop sees it. */
  datatype Entry = Entry(id: SlotId, monthly: bool, key: Key, value: Value)

  predicate AsksForYear(e: Entry, y: nat) {
    e.monthly && e.key == Year(y) && e.value.Null?
  }

  predicate SetsYear(e: Entry, id: SlotId, y: nat) {
    e.monthly && e.id == id && e.key == Year(y) && !e.value.Null?
  }

  predicate SetsMonth(e: Entry, id: SlotId, y: nat) {
    e.monthly && e.id == id && e.key.IsMonthOf(y) && !e.value.Null?
  }

  type YearOfSlot = (SlotId, nat)

  datatype Findings = Findings(
    annual: set<nat>,
    withYear: set<YearOfSlot>,
    months: map<YearOfSlot, set<int>>,
    order: seq<YearOfSlot>)

  ghost predicate MonthsRead(months: set<int>, entries: seq<Entry>, id: SlotId, y: nat) {
    forall m :: m in months <==> exists e <- entries :: SetsMonth(e, id, y) && e.key.Number() == m
  }

  ghost predicate AnnualRead(annual: set<nat>, entries: seq<Entry>) {
    forall y: nat :: y in annual <==> exists e <- entries :: AsksForYear(e, y)
  }

  ghost predicate YearsRead(withYear: set<YearOfSlot>, entries: seq<Entry>) {
    forall p: YearOfSlot :: p in withYear <==> exists e <- entries :: SetsYear(e, p.0, p.1)
  }

  /** What the detector's sets and dictionaries say about the entries it has read. */
  ghost predicate Summarises(f: Findings, entries: seq<Entry>) {
    && AnnualRead(f.annual, entries)
    && YearsRead(f.withYear, entries)
    && MonthKeysRead(f.months, entries)
    && (forall p <- f.months :: MonthsRead(f.months[p], entries, p.0, p.1))
    && (forall i, j :: 0 <= i < j < |f.order| ==> f.order[i] != f.order[j])
    && (forall p :: p in f.order <==> p in f.months)
  }

  ghost predicate MonthKeysRead(months: map<YearOfSlot, set<int>>, entries: seq<Entry>) {
    forall p: YearOfSlot :: p in months <==> exists e <- entries :: SetsMonth(e, p.0, p.1)
  }

  function Note(f: Findings, e: Entry): Findings {
    if !e.monthly then f
    else if e.value.Null? then (if e.key.Year? then f.(annual := f.annual + {e.key.y}) else f)
    else if e.key.Year? then f.(withYear := f.withYear + {(e.id, e.key.y)})
    else if e.key.Other? then f
    else NoteMonth(f, (e.id, e.key.y), e.key.Number())
  }

  function NoteMonth(f: Findings, p: YearOfSlot, m: int): Findings {
    var known := if p in f.months then f.months[p] else {};
    f.(months := f.months[p := known + {m}], order := if p in f.months then f.order else f.order + [p])
  }

  lemma MonthsReadSnoc(months: set<int>, entries: seq<Entry>, id: SlotId, y: nat, e: Entry)
    requires MonthsRead(months, entries, id, y)
    ensures MonthsRead(if SetsMonth(e, id, y) then months + {e.key.Number()} else months, entries + [e], id, y)
  {
    assert forall e' :: e' in entries + [e] <==> e' in entries || e' == e;
  }

  lemma AnnualReadSnoc(annual: set<nat>, entries: seq<Entry>, e: Entry)
    requires AnnualRead(annual, entries)
    ensures AnnualRead(if e.monthly && e.key.Year? && e.value.Null? then annual + {e.key.y} else annual, entries + [e])
  {
    assert forall e' :: e' in entries + [e] <==> e' in entries || e' == e;
    assert e in entries + [e];
    assert forall y: nat :: AsksForYear(e, y) <==> e.monthly && e.key.Year? && e.value.Null? && e.key.y == y;
  }

  lemma YearsReadSnoc(withYear: set<YearOfSlot>, entries: seq<Entry>, e: Entry)
    requires YearsRead(withYear, entries)
    ensures YearsRead(if e.monthly && e.key.Year? && !e.value.Null? then withYear + {(e.id, e.key.y)} else withYear, entries + [e])
  {
    assert forall e' :: e' in entries + [e] <==> e' in entries || e' == e;
    assert e in entries + [e];
    assert forall p: YearOfSlot :: SetsYear(e, p.0, p.1) <==> e.monthly && e.key.Year? && !e.value.Null? && p == (e.id, e.key.y);
  }

  lemma MonthKeysReadSnoc(months: map<YearOfSlot, set<int>>, entries: seq<Entry>, e: Entry, known: set<int>)
    requires MonthKeysRead(months, entries)
    ensures MonthKeysRead(
              if e.monthly && (e.key.Month? || e.key.ShortMonth?) && !e.value.Null? then months[(e.id, e.key.y) := known] else months,
              entries + [e])
  {
    assert forall e' :: e' in entries + [e] <==> e' in entries || e' == e;
    assert e in entries + [e];
    assert forall p: YearOfSlot :: SetsMonth(e, p.0, p.1) <==>
             e.monthly && (e.key.Month? || e.key.ShortMonth?) && !e.value.Null? && p == (e.id, e.key.y);
  }

  lemma NoteSummarises(f: Findings, entries: seq<Entry>, e: Entry)
    requires Summarises(f, entries)
    ensures Summarises(Note(f, e), entries + [e])
  {
    var f' := Note(f, e);
    AnnualReadSnoc(f.annual, entries, e);
    YearsReadSnoc(f.withYear, entries, e);
    MonthKeysReadSnoc(f.months, entries, e, if !e.key.Other? && (e.id, e.key.y) in f'.months then f'.months[(e.id, e.key.y)] else {});
    forall p <- f'.months ensures MonthsRead(f'.months[p], entries + [e], p.0, p.1) {
      if p in f.months {
        MonthsReadSnoc(f.months[p], entries, p.0, p.1, e);
      } else {
        assert MonthsRead({}, entries, p.0, p.1);
        MonthsReadSnoc({}, entries, p.0, p.1, e);
      }
    }
  }

  function SlotEntries(s: Slot, keys: seq<Key>): seq<Entry>
    requires forall k <- keys :: k in s.pm.vals
  {
    if keys == [] then []
    else
      var n := |keys| - 1;
      SlotEntries(s, keys[..n]) + [Entry(s.id, s.variable.monthly, keys[n], s.pm.vals[keys[n]])]
  }

  function EntriesOf(slots: seq<Slot>): seq<Entry>
    requires ValidSlots(slots)
  {
    if slots == [] then []
    else
      var n := |slots| - 1;
      assert forall k <- slots[n].pm.order :: k in slots[n].pm.vals by { assert slots[n] in slots; }
      EntriesOf(slots[..n]) + SlotEntries(slots[n], slots[n].pm.order)
  }

  /** The first loop of the detector. */
  method ReadEntries(slots: seq<Slot>) returns (f: Findings)
    requires ValidSlots(slots)
    ensures Summarises(f, EntriesOf(slots))
  {
    f := Findings({}, {}, map[], []);
    for i := 0 to |slots|
      invariant Summarises(f, EntriesOf(slots[..i]))
    {
      assert slots[i] in slots;
      f := ReadSlot(f, slots[i], EntriesOf(slots[..i]));
      assert slots[..i + 1][..i] == slots[..i];
    }
    assert slots[..|slots|] == slots;
  }

  method ReadSlot(f0: Findings, s: Slot, ghost entries: seq<Entry>) returns (f: Findings)
    requires s.pm.Valid() && Summarises(f0, entries)
    ensures Summarises(f, entries + SlotEntries(s, s.pm.order))
  {
    f := f0;
    var keys := s.pm.order;
    assert entries + SlotEntries(s, []) == entries;
    for j := 0 to |keys|
      invariant Summarises(f, entries + SlotEntries(s, keys[..j]))
    {
      var e := Entry(s.id, s.variable.monthly, keys[j], s.pm.vals[keys[j]]);
      NoteSummarises(f, entries + SlotEntries(s, keys[..j]), e);
      assert keys[..j + 1][..j] == keys[..j];
      assert entries + SlotEntries(s, keys[..j]) + [e] == entries + SlotEntries(s, keys[..j + 1]);
      f := Note(f, e);
    }
    assert keys[..|keys|] == keys;
  }

  lemma {:induction false} SlotEntriesHold(s: Slot, keys: seq<Key>, e: Entry)
    requires forall k <- keys :: k in s.pm.vals
    ensures e in SlotEntries(s, keys) <==>
            e.key in keys && e == Entry(s.id, s.variable.monthly, e.key, s.pm.vals[e.key])
  {
    if keys != [] {
      SlotEntriesHold(s, keys[..|keys| - 1], e);
    }
  }

  /** An entry the detector reads is an entry of some slot's period map. */
  lemma {:induction false} EntryHasSlot(slots: seq<Slot>, e: Entry)
    requires ValidSlots(slots) && e in EntriesOf(slots)
    ensures exists s <- slots :: s.id == e.id && s.variable.monthly == e.monthly && Lookup(s.pm.vals, e.key) == Some(e.value)
  {
    var n := |slots| - 1;
    assert slots[n] in slots;
    if e in EntriesOf(slots[..n]) {
      EntryHasSlot(slots[..n], e);
      var s :| s in slots[..n] && s.id == e.id && s.variable.monthly == e.monthly && Lookup(s.pm.vals, e.key) == Some(e.value);
      assert s in slots;
    } else {
      SlotEntriesHold(slots[n], slots[n].pm.order, e);
    }
  }

  lemma {:induction false} SlotHasEntry(slots: seq<Slot>, s: Slot, k: Key)
    requires ValidSlots(slots) && s in slots && k in s.pm.vals
    ensures Entry(s.id, s.variable.monthly, k, s.pm.vals[k]) in EntriesOf(slots)
  {
    var n := |slots| - 1;
    if slots[n] == s {
      SlotEntriesHold(s, s.pm.order, Entry(s.id, s.variable.monthly, k, s.pm.vals[k]));
    } else {
      SlotHasEntry(slots[..n], s, k);
    }
  }

  lemma SameSlot(slots: seq<Slot>, s: Slot, t: Slot)
    requires DistinctIds(slots) && s in slots && t in slots && s.id == t.id
    ensures s == t
  {
  }

  lemma AnnualMeaning(f: Findings, slots: seq<Slot>, y: nat)
    requires ValidSlots(slots) && Summarises(f, EntriesOf(slots))
    ensures y in f.annual <==> AnnualRequested(slots, y)
  {
    if y in f.annual {
      var e :| e in EntriesOf(slots) && AsksForYear(e, y);
      EntryHasSlot(slots, e);
    }
    if AnnualRequested(slots, y) {
      var s :| s in slots && s.variable.monthly && Lookup(s.pm.vals, Year(y)) == Some(Null);
      SlotHasEntry(slots, s, Year(y));
      assert AsksForYear(Entry(s.id, s.variable.monthly, Year(y), s.pm.vals[Year(y)]), y);
    }
  }

  lemma WithYearMeaning(f: Findings, slots: seq<Slot>, s: Slot, y: nat)
    requires ValidSlots(slots) && DistinctIds(slots) && s in slots && Summarises(f, EntriesOf(slots))
    ensures (s.id, y) in f.withYear <==> s.variable.monthly && Active(s.pm, y)
  {
    if (s.id, y) in f.withYear {
      var e :| e in EntriesOf(slots) && SetsYear(e, s.id, y);
      EntryHasSlot(slots, e);
      var t :| t in slots && t.id == e.id && t.variable.monthly == e.monthly && Lookup(t.pm.vals, e.key) == Some(e.value);
      SameSlot(slots, s, t);
    }
    if s.variable.monthly && Active(s.pm, y) {
      SlotHasEntry(slots, s, Year(y));
      assert SetsYear(Entry(s.id, s.variable.monthly, Year(y), s.pm.vals[Year(y)]), s.id, y);
    }
  }

  /** The detector's months for a slot and year are the months its period map sets. */
  lemma MonthMeaning(slots: seq<Slot>, s: Slot, y: nat, m: int)
    requires ValidSlots(slots) && DistinctIds(slots) && s in slots
    ensures (exists e <- EntriesOf(slots) :: SetsMonth(e, s.id, y) && e.key.Number() == m)
       <==> s.variable.monthly && m in MonthsSet(s.pm.vals, y)
  {
    if e :| e in EntriesOf(slots) && SetsMonth(e, s.id, y) && e.key.Number() == m {
      EntryHasSlot(slots, e);
      var t :| t in slots && t.id == e.id && t.variable.monthly == e.monthly && Lookup(t.pm.vals, e.key) == Some(e.value);
      SameSlot(slots, s, t);
      assert HasValue(s.pm.vals, e.key);
    }
    if s.variable.monthly && m in MonthsSet(s.pm.vals, y) {
      var k := if HasValue(s.pm.vals, Month(y, m)) then Month(y, m) else ShortMonth(y, m);
      SlotHasEntry(slots, s, k);
      var e := Entry(s.id, s.variable.monthly, k, s.pm.vals[k]);
      assert SetsMonth(e, s.id, y) && e.key.Number() == m;
    }
  }

  lemma MonthsMeaning(f: Findings, slots: seq<Slot>, s: Slot, y: nat)
    requires ValidSlots(slots) && DistinctIds(slots) && s in slots && Summarises(f, EntriesOf(slots))
    ensures (s.id, y) in f.months <==> s.variable.monthly && MonthsSet(s.pm.vals, y) != {}
    ensures (s.id, y) in f.months ==> f.months[(s.id, y)] == MonthsSet(s.pm.vals, y)
  {
    forall m ensures (exists e <- EntriesOf(slots) :: SetsMonth(e, s.id, y) && e.key.Number() == m)
                <==> s.variable.monthly && m in MonthsSet(s.pm.vals, y) {
      MonthMeaning(slots, s, y, m);
    }
    var p: YearOfSlot := (s.id, y);
    if p in f.months {
      var e :| e in EntriesOf(slots) && SetsMonth(e, s.id, y);
      assert e.key.Number() in MonthsSet(s.pm.vals, y);
      assert MonthsRead(f.months[p], EntriesOf(slots), s.id, y);
    }
    if s.variable.monthly && MonthsSet(s.pm.vals, y) != {} {
      var m :| m in MonthsSet(s.pm.vals, y);
      var e :| e in EntriesOf(slots) && SetsMonth(e, s.id, y) && e.key.Number() == m;
      assert SetsMonth(e, p.0, p.1) && p in f.months;
    }
  }

  lemma MonthsHaveSlot(f: Findings, slots: seq<Slot>, p: YearOfSlot)
    requires ValidSlots(slots) && Summarises(f, EntriesOf(slots)) && p in f.months
    ensures exists s <- slots :: s.id == p.0
  {
    var e :| e in EntriesOf(slots) && SetsMonth(e, p.0, p.1);
    EntryHasSlot(slots, e);
  }

  /** A warning for the hazard of a slot and year, listing the months in ascending order. */
  ghost predicate Reports(w: Warning, slots: seq<Slot>) {
    exists s <- slots :: s.id == w.id && Hazard(slots, s, w.year) && w.monthsSet == Ascending(MonthsSet(s.pm.vals, w.year), 12)
  }

  ghost predicate Reported(warnings: seq<Warning>, s: Slot, y: nat) {
    exists w <- warnings :: w.id == s.id && w.year == y
  }

  ghost predicate NoRepeats(warnings: seq<Warning>) {
    forall i, j :: 0 <= i < j < |warnings| ==> warnings[i].id != warnings[j].id || warnings[i].year != warnings[j].year
  }

  /** Whether one pending (slot, year) is worth a warning, from the detector's collections. */
  predicate Warns(f: Findings, p: YearOfSlot)
    requires p in f.months
  {
    p.1 in f.annual && |f.months[p]| < 12 && p !in f.withYear
  }

  lemma WarnsMeansHazard(f: Findings, slots: seq<Slot>, s: Slot, y: nat)
    requires ValidSlots(slots) && DistinctIds(slots) && s in slots && Summarises(f, EntriesOf(slots))
    ensures Hazard(slots, s, y) <==> (s.id, y) in f.months && Warns(f, (s.id, y))
  {
    AnnualMeaning(f, slots, y);
    WithYearMeaning(f, slots, s, y);
    MonthsMeaning(f, slots, s, y);
  }

  /** The warnings so far are those of the pending slots and years examined so far. */
  ghost predicate Covers(f: Findings, slots: seq<Slot>, warnings: seq<Warning>, examined: seq<YearOfSlot>)
    requires forall p <- examined :: p in f.months
  {
    && (forall w <- warnings :: (w.id, w.year) in examined && Reports(w, slots))
    && (forall p <- examined :: Warns(f, p) ==> exists w <- warnings :: (w.id, w.year) == p)
    && NoRepeats(warnings)
  }

  lemma CoversQuiet(f: Findings, slots: seq<Slot>, warnings: seq<Warning>, examined: seq<YearOfSlot>, p: YearOfSlot)
    requires (forall q <- examined :: q in f.months) && p in f.months
    requires Covers(f, slots, warnings, examined) && !Warns(f, p)
    ensures Covers(f, slots, warnings, examined + [p])
  {
  }

  lemma CoversWarned(f: Findings, slots: seq<Slot>, warnings: seq<Warning>, examined: seq<YearOfSlot>, w: Warning)
    requires (forall q <- examined :: q in f.months) && (w.id, w.year) in f.months && (w.id, w.year) !in examined
    requires Covers(f, slots, warnings, examined) && Reports(w, slots)
    ensures Covers(f, slots, Appended(warnings, w), examined + [(w.id, w.year)])
  {
    forall v <- warnings ensures v.id != w.id || v.year != w.year {
      assert (v.id, v.year) in examined;
    }
  }

  lemma NextPending(f: Findings, i: nat)
    requires i < |f.order| && (forall p :: p in f.order <==> p in f.months)
    requires forall i, j :: 0 <= i < j < |f.order| ==> f.order[i] != f.order[j]
    ensures f.order[..i + 1] == f.order[..i] + [f.order[i]] && f.order[i] !in f.order[..i]
    ensures f.order[i] in f.months && forall p <- f.order[..i] :: p in f.months
  {
    assert f.order[i] in f.order;
  }

  /** The second loop of the detector. */
  method WarnAboutPending(f: Findings, slots: seq<Slot>) returns (warnings: seq<Warning>)
    requires ValidSlots(slots) && DistinctIds(slots) && Summarises(f, EntriesOf(slots))
    ensures Covers(f, slots, warnings, f.order)
  {
    warnings := [];
    for i := 0 to |f.order|
      invariant forall p <- f.order[..i] :: p in f.months
      invariant Covers(f, slots, warnings, f.order[..i])
    {
      NextPending(f, i);
      var p := f.order[i];
      if p.1 in f.annual && !(|f.months[p]| >= 12) && p !in f.withYear {
        var w := PartialMonthlyInput(p.0, p.1, Ascending(f.months[p], 12));
        WarningReports(f, slots, w);
        CoversWarned(f, slots, warnings, f.order[..i], w);
        warnings := Appended(warnings, w);
      } else {
        CoversQuiet(f, slots, warnings, f.order[..i], p);
      }
    }
    assert f.order[..|f.order|] == f.order;
  }

  /** `detect_period_warnings`: one warning for each hazard of the household, and no other. */
  method DetectPeriodWarnings(h: Household, system: System) returns (warnings: seq<Warning>)
    requires WellFormed(h)
    ensures forall w <- warnings :: Reports(w, Walk(h, system))
    ensures forall s <- Walk(h, system), y: nat :: Hazard(Walk(h, system), s, y) ==> Reported(warnings, s, y)
    ensures NoRepeats(warnings)
  {
    var slots := Walk(h, system);
    WalkDistinct(h, system);
    var f := ReadEntries(slots);
    warnings := WarnAboutPending(f, slots);
    HazardsAreReported(f, slots, warnings);
  }

  lemma HazardsAreReported(f: Findings, slots: seq<Slot>, warnings: seq<Warning>)
    requires ValidSlots(slots) && DistinctIds(slots) && Summarises(f, EntriesOf(slots))
    requires forall p <- f.order :: Warns(f, p) ==> exists w <- warnings :: (w.id, w.year) == p
    ensures forall s <- slots, y: nat :: Hazard(slots, s, y) ==> Reported(warnings, s, y)
  {
    forall s <- slots, y: nat | Hazard(slots, s, y) ensures Reported(warnings, s, y) {
      WarnsMeansHazard(f, slots, s, y);
      assert (s.id, y) in f.order;
    }
  }

  function Appended(warnings: seq<Warning>, w: Warning): (r: seq<Warning>)
    ensures forall w' :: w' in r <==> w' in warnings || w' == w
    ensures |r| == |warnings| + 1 && r[|warnings|] == w && forall i :: 0 <= i < |warnings| ==> r[i] == warnings[i]
  {
    warnings + [w]
  }

  lemma WarningReports(f: Findings, slots: seq<Slot>, w: Warning)
    requires ValidSlots(slots) && DistinctIds(slots) && Summarises(f, EntriesOf(slots))
    requires (w.id, w.year) in f.months && Warns(f, (w.id, w.year))
    requires w.monthsSet == Ascending(f.months[(w.id, w.year)], 12)
    ensures Reports(w, slots)
  {
    MonthsHaveSlot(f, slots, (w.id, w.year));
    var s :| s in slots && s.id == w.id;
    WarnsMeansHazard(f, slots, s, w.year);
    MonthsMeaning(f, slots, s, w.year);
  }

  // ----- agreement with the normaliser -----

  /** What normalising does to a list of slots: month-defined ones are expanded, others are kept. */
  ghost predicate NormalisedTo(slots: seq<Slot>, slots': seq<Slot>)
    requires ValidSlots(slots)
  {
    && |slots'| == |slots|
    && forall i :: 0 <= i < |slots| ==>
         var s := slots[i];
         assert s in slots;
         && slots'[i].id == s.id && slots'[i].variable == s.variable
         && slots'[i].pm.vals == if s.variable.monthly then Expanded(s.pm, s.variable.numeric) else s.pm.vals
  }

  /** A variable's entry after normalisation: the period map of a month-defined variable is expanded,
      and every other entry is untouched. */
  ghost predicate NormalisedVariable(before: (string, PeriodData), after: (string, PeriodData), system: System)
    requires before.1.Periods? ==> before.1.pm.Valid()
  {
    && after.0 == before.0
    && if before.1.Periods? && before.0 in system && system[before.0].monthly
       then after.1.Periods? && after.1.pm.Valid() && after.1.pm.vals == Expanded(before.1.pm, system[before.0].numeric)
       else after.1 == before.1
  }

  ghost predicate NormalisedVariables(before: seq<(string, PeriodData)>, after: seq<(string, PeriodData)>, system: System)
    requires ValidPeriods(before)
  {
    |after| == |before| && forall i :: 0 <= i < |before| ==>
      assert before[i] in before; NormalisedVariable(before[i], after[i], system)
  }

  ghost predicate NormalisedEntity(before: (string, EntityData), after: (string, EntityData), system: System)
    requires ValidEntity(before)
  {
    && after.0 == before.0
    && if before.1.Variables? then after.1.Variables? && NormalisedVariables(before.1.variables, after.1.variables, system)
       else after.1 == before.1
  }

  ghost predicate NormalisedEntities(before: seq<(string, EntityData)>, after: seq<(string, EntityData)>, system: System)
    requires ValidEntities(before)
  {
    |after| == |before| && forall i :: 0 <= i < |before| ==>
      assert before[i] in before; NormalisedEntity(before[i], after[i], system)
  }

  ghost predicate NormalisedGroup(before: (string, GroupData), after: (string, GroupData), system: System)
    requires ValidGroup(before)
  {
    && after.0 == before.0
    && if before.0 != "axes" && before.1.Entities?
       then after.1.Entities? && NormalisedEntities(before.1.entities, after.1.entities, system)
       else after.1 == before.1
  }

  ghost predicate NormalisedHousehold(before: Household, after: Household, system: System)
    requires WellFormed(before)
  {
    |after| == |before| && forall i :: 0 <= i < |before| ==>
      assert before[i] in before; NormalisedGroup(before[i], after[i], system)
  }

  method NormalizeVariables(variables: seq<(string, PeriodData)>, system: System) returns (normalized: seq<(string, PeriodData)>)
    requires ValidPeriods(variables)
    ensures NormalisedVariables(variables, normalized, system)
  {
    normalized := [];
    for i := 0 to |variables|
      invariant |normalized| == i
      invariant forall k :: 0 <= k < i ==> assert variables[k] in variables; NormalisedVariable(variables[k], normalized[k], system)
    {
      var (name, data) := variables[i];
      assert variables[i] in variables;
      if data.Periods? && name in system && system[name].monthly {
        var expanded := ExpandedCopy(data.pm, system[name].numeric);
        data := Periods(expanded);
      }
      normalized := normalized + [(name, data)];
    }
  }

  method ExpandedCopy(pm: PeriodMap, numeric: bool) returns (r: PeriodMap)
    requires pm.Valid()
    ensures r.Valid() && r.vals == Expanded(pm, numeric)
  {
    var copy := new PeriodDict(pm);
    copy.ExpandYearKeysInPlace(numeric);
    ExpandedLookup(pm, numeric);
    EqualLookups(copy.vals, Expanded(pm, numeric));
    r := copy.View();
  }

  method NormalizeEntities(entities: seq<(string, EntityData)>, system: System) returns (normalized: seq<(string, EntityData)>)
    requires ValidEntities(entities)
    ensures NormalisedEntities(entities, normalized, system)
  {
    normalized := [];
    for i := 0 to |entities|
      invariant |normalized| == i
      invariant forall k :: 0 <= k < i ==> assert entities[k] in entities; NormalisedEntity(entities[k], normalized[k], system)
    {
      var (entity, data) := entities[i];
      assert entities[i] in entities;
      if data.Variables? {
        var variables := NormalizeVariables(data.variables, system);
        data := Variables(variables);
      }
      normalized := normalized + [(entity, data)];
    }
  }

  /** `_normalize_period_keys`: a copy of the household in which the period maps of month-defined
      variables are expanded and everything else is as it was. */
  method NormalizePeriodKeys(h: Household, system: System) returns (normalized: Household)
    requires WellFormed(h)
    ensures NormalisedHousehold(h, normalized, system)
  {
    normalized := [];
    for i := 0 to |h|
      invariant |normalized| == i
      invariant forall k :: 0 <= k < i ==> assert h[k] in h; NormalisedGroup(h[k], normalized[k], system)
    {
      var (plural, data) := h[i];
      assert h[i] in h;
      if plural != "axes" && data.Entities? {
        var entities := NormalizeEntities(data.entities, system);
        data := Entities(entities);
      }
      normalized := normalized + [(plural, data)];
    }
  }

  lemma NormalisedConcat(a: seq<Slot>, a': seq<Slot>, b: seq<Slot>, b': seq<Slot>)
    requires ValidSlots(a) && ValidSlots(b) && NormalisedTo(a, a') && NormalisedTo(b, b')
    ensures ValidSlots(a + b) && NormalisedTo(a + b, a' + b')
  {
    forall i | 0 <= i < |a + b|
      ensures (a + b)[i] in a + b && (a' + b')[i].id == (a + b)[i].id && (a' + b')[i].variable == (a + b)[i].variable
    {
      assert i < |a| ==> a[i] in a;
      assert i >= |a| ==> b[i - |a|] in b;
    }
  }

  lemma {:induction false} NormalisedVariableSlots(plural: string, entity: string, before: seq<(string, PeriodData)>,
                                                   after: seq<(string, PeriodData)>, system: System)
    requires ValidPeriods(before) && NormalisedVariables(before, after, system)
    ensures var slots, slots' := WalkVariables(plural, entity, before, system), WalkVariables(plural, entity, after, system);
            ValidSlots(slots) && NormalisedTo(slots, slots') && ValidSlots(slots')
  {
    if before != [] {
      var n := |before| - 1;
      assert before[n] in before;
      NormalisedVariableSlots(plural, entity, before[..n], after[..n], system);
      var ((name, data), (name', data')) := (before[n], after[n]);
      if data.Periods? && name in system {
        var s := Slot(SlotId(name, plural, entity), system[name], data.pm);
        NormalisedSnoc(WalkVariables(plural, entity, before[..n], system), WalkVariables(plural, entity, after[..n], system),
                       s, s.(pm := data'.pm));
      }
    }
  }

  lemma NormalisedSnoc(slots: seq<Slot>, slots': seq<Slot>, s: Slot, s': Slot)
    requires ValidSlots(slots) && ValidSlots(slots') && NormalisedTo(slots, slots') && s.pm.Valid() && s'.pm.Valid()
    requires s'.id == s.id && s'.variable == s.variable
    requires s'.pm.vals == if s.variable.monthly then Expanded(s.pm, s.variable.numeric) else s.pm.vals
    ensures ValidSlots(slots + [s]) && NormalisedTo(slots + [s], slots' + [s']) && ValidSlots(slots' + [s'])
  {
    NormalisedConcat(slots, slots', [s], [s']);
  }

  lemma {:induction false} NormalisedEntitySlots(plural: string, before: seq<(string, EntityData)>,
                                                 after: seq<(string, EntityData)>, system: System)
    requires ValidEntities(before) && NormalisedEntities(before, after, system)
    ensures var slots, slots' := WalkEntities(plural, before, system), WalkEntities(plural, after, system);
            ValidSlots(slots) && NormalisedTo(slots, slots') && ValidSlots(slots')
  {
    if before != [] {
      var n := |before| - 1;
      assert before[n] in before;
      NormalisedEntitySlots(plural, before[..n], after[..n], system);
      var ((entity, data), (_, data')) := (before[n], after[n]);
      if data.Variables? {
        NormalisedVariableSlots(plural, entity, data.variables, data'.variables, system);
        NormalisedConcat(WalkEntities(plural, before[..n], system), WalkEntities(plural, after[..n], system),
                         WalkVariables(plural, entity, data.variables, system),
                         WalkVariables(plural, entity, data'.variables, system));
      }
    }
  }

  /** The slots of a normalised household are the normalised slots, in the same order. */
  lemma {:induction false} NormalisedSlots(before: Household, after: Household, system: System)
    requires WellFormed(before) && NormalisedHousehold(before, after, system)
    ensures ValidSlots(Walk(before, system)) && NormalisedTo(Walk(before, system), Walk(after, system))
    ensures ValidSlots(Walk(after, system))
  {
    if before != [] {
      var n := |before| - 1;
      assert before[n] in before;
      NormalisedSlots(before[..n], after[..n], system);
      var ((plural, data), (_, data')) := (before[n], after[n]);
      if plural != "axes" && data.Entities? {
        NormalisedEntitySlots(plural, data.entities, data'.entities, system);
        NormalisedConcat(Walk(before[..n], system), Walk(after[..n], system),
                         WalkEntities(plural, data.entities, system), WalkEntities(plural, data'.entities, system));
      }
    }
  }

  const ALL_MONTHS: set<int> := {1, 2, 3, 4, 5, 6, 7, 8, 9, 10, 11, 12}

  /** After expansion a year that had a value sets all twelve months; any other year sets the
      months it set before. */
  lemma MonthsAfterNormalising(pm: PeriodMap, numeric: bool, y: nat)
    requires pm.Valid()
    ensures MonthsSet(Expanded(pm, numeric), y) == if Active(pm, y) then ALL_MONTHS else MonthsSet(pm.vals, y)
  {
    var vals' := Expanded(pm, numeric);
    ExpandedLookup(pm, numeric);
    forall m: MonthNo
      ensures m in MonthsSet(vals', y) <==> Active(pm, y) || m in MonthsSet(pm.vals, y)
    {
      assert Lookup(vals', Month(y, m)) == ExpandedAt(pm, numeric, Month(y, m));
      if m <= 9 {
        assert Lookup(vals', ShortMonth(y, m)) == ExpandedAt(pm, numeric, ShortMonth(y, m));
      }
      if Active(pm, y) {
        ExplicitMonthHasValue(pm, y, m);
      }
    }
  }

  lemma ExplicitMonthHasValue(pm: PeriodMap, y: nat, m: MonthNo)
    requires pm.Valid()
    ensures m in Explicit(pm.order, pm.vals, y) ==> m in MonthsSet(pm.vals, y)
  {
    if m in Explicit(pm.order, pm.vals, y) {
      ExplicitSound(pm.order, pm.vals, y, m);
    }
  }

  /** The hazard as the engine would meet it: some but not all months of the year hold a value
      although an annual figure is asked for. */
  ghost predicate PartialYear(slots': seq<Slot>, s': Slot, y: nat) {
    && s'.variable.monthly
    && 1 <= |MonthsSet(s'.pm.vals, y)| <= 11
    && AnnualRequested(slots', y)
  }

  lemma RequestSurvives(slots: seq<Slot>, slots': seq<Slot>, y: nat, i: nat)
    requires ValidSlots(slots) && NormalisedTo(slots, slots') && i < |slots| && slots[i].variable.monthly
    ensures Lookup(slots'[i].pm.vals, Year(y)) == Some(Null) <==> Lookup(slots[i].pm.vals, Year(y)) == Some(Null)
  {
    var s := slots[i];
    assert s in slots;
    ExpandedLookup(s.pm, s.variable.numeric);
    assert Lookup(Expanded(s.pm, s.variable.numeric), Year(y)) == ExpandedAt(s.pm, s.variable.numeric, Year(y));
  }

  lemma RequestsSurvive(slots: seq<Slot>, slots': seq<Slot>, y: nat)
    requires ValidSlots(slots) && NormalisedTo(slots, slots')
    ensures AnnualRequested(slots', y) <==> AnnualRequested(slots, y)
  {
    if AnnualRequested(slots', y) {
      var i :| 0 <= i < |slots'| && slots'[i].variable.monthly && Lookup(slots'[i].pm.vals, Year(y)) == Some(Null);
      RequestSurvives(slots, slots', y, i);
      assert slots[i] in slots;
    }
    if AnnualRequested(slots, y) {
      var i :| 0 <= i < |slots| && slots[i].variable.monthly && Lookup(slots[i].pm.vals, Year(y)) == Some(Null);
      RequestSurvives(slots, slots', y, i);
      assert slots'[i] in slots';
    }
  }

  /** The detector, which reads the raw household, and the normaliser, which rewrites it, agree:
      a slot and year are a hazard exactly where the normalised map is partial, with those months. */
  lemma DetectorAgreesWithNormaliser(slots: seq<Slot>, slots': seq<Slot>, i: nat, y: nat)
    requires ValidSlots(slots) && NormalisedTo(slots, slots') && i < |slots|
    ensures Hazard(slots, slots[i], y) <==> PartialYear(slots', slots'[i], y)
    ensures Hazard(slots, slots[i], y) ==> MonthsSet(slots[i].pm.vals, y) == MonthsSet(slots'[i].pm.vals, y)
  {
    var s := slots[i];
    assert s in slots;
    RequestsSurvive(slots, slots', y);
    if s.variable.monthly {
      MonthsAfterNormalising(s.pm, s.variable.numeric, y);
      FullYearSize(MonthsSet(slots'[i].pm.vals, y));
    }
  }

  lemma FullYearSize(s: set<int>)
    ensures s == ALL_MONTHS ==> |s| == 12
  {
    if s == ALL_MONTHS {
      CountIsSize(s, 12);
      FullCount(s, 12);
    }
  }
}
