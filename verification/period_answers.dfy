/** What the endpoint's period handling means for the nested payload itself, entry by entry: which
    households it refuses, which months it warns about, and which totals it keeps. */
module PeriodAnswers {
  import opened Common
  import opened PeriodKeys
  import opened PeriodBudgets
  import opened PeriodWarnings
  import opened PeriodPipeline

  ghost predicate MonthlyEntry(v: (string, PeriodData), system: System) {
    KnownEntry(v, system) && system[v.0].monthly
  }

  // ----- inconsistent years -----

  /** The i-th key of a dictionary holds a number for the month, under either spelling. */
  predicate NumberAt(order: seq<Key>, vals: map<Key, Value>, i: int, y: nat, m: int)
    requires 0 <= i < |order|
  {
    var k := order[i];
    k in vals && vals[k].Num? && ((k.Month? && k.y == y && k.m == m) || (k.ShortMonth? && k.y == y && k.d == m))
  }

  /** The last number the dictionary holds for the month is x. */
  ghost predicate GivesMonth(order: seq<Key>, vals: map<Key, Value>, y: nat, m: int, x: real) {
    exists i :: 0 <= i < |order| && LastNumberAt(order, vals, i, y, m) && vals[order[i]].r == x
  }

  ghost predicate LastNumberAt(order: seq<Key>, vals: map<Key, Value>, i: int, y: nat, m: int)
    requires 0 <= i < |order|
  {
    NumberAt(order, vals, i, y, m) && forall j :: i < j < |order| ==> !NumberAt(order, vals, j, y, m)
  }

  /** All twelve months of the year are given, and their sum is not the year's own value. */
  ghost predicate ContradictoryYear(pm: PeriodMap, y: nat, months: seq<real>) {
    && |months| == 12 && (forall i :: 0 <= i < 12 ==> GivesMonth(pm.order, pm.vals, y, i + 1, months[i]))
    && Year(y) in pm.vals && pm.vals[Year(y)].Num? && SeqTotal(months) != pm.vals[Year(y)].r
  }

  lemma LastNumberSnoc(order: seq<Key>, vals: map<Key, Value>, y: nat, m: int, x: real)
    requires order != []
    ensures var n := |order| - 1;
            GivesMonth(order, vals, y, m, x)
            <==> if NumberAt(order, vals, n, y, m) then vals[order[n]].r == x else GivesMonth(order[..n], vals, y, m, x)
  {
    var n := |order| - 1;
    var before := order[..n];
    if NumberAt(order, vals, n, y, m) {
      assert LastNumberAt(order, vals, n, y, m);
    } else {
      forall i | 0 <= i < n ensures LastNumberAt(order, vals, i, y, m) <==> LastNumberAt(before, vals, i, y, m) {
        assert forall j :: 0 <= j < n ==> (NumberAt(order, vals, j, y, m) <==> NumberAt(before, vals, j, y, m));
      }
      if GivesMonth(order, vals, y, m, x) {
        var i :| 0 <= i < |order| && LastNumberAt(order, vals, i, y, m) && vals[order[i]].r == x;
        assert LastNumberAt(before, vals, i, y, m) && before[i] == order[i];
      }
      if GivesMonth(before, vals, y, m, x) {
        var i :| 0 <= i < n && LastNumberAt(before, vals, i, y, m) && vals[before[i]].r == x;
        assert LastNumberAt(order, vals, i, y, m) && before[i] == order[i];
      }
    }
  }

  /** The explicit months are the last numbers the dictionary holds for them. */
  lemma {:induction false} ExplicitIsLast(order: seq<Key>, vals: map<Key, Value>, y: nat, m: int, x: real)
    requires forall k <- order :: k in vals
    ensures (m in Explicit(order, vals, y) && Explicit(order, vals, y)[m] == x) <==> GivesMonth(order, vals, y, m, x)
  {
    if order != [] {
      var n := |order| - 1;
      assert order[n] in order;
      ExplicitIsLast(order[..n], vals, y, m, x);
      LastNumberSnoc(order, vals, y, m, x);
    }
  }

  /** The validator's test of a year fails exactly for a contradictory year. */
  lemma InconsistentIsContradictory(pm: PeriodMap, y: nat)
    requires pm.Valid() && Year(y) in pm.vals
    ensures !YearBudgetHolds(pm, Year(y)) <==> exists months :: ContradictoryYear(pm, y, months)
  {
    var e := Explicit(pm.order, pm.vals, y);
    FullCount(e.Keys, 12);
    if !YearBudgetHolds(pm, Year(y)) {
      var months := Completed(e, 0.0, 12);
      forall i | 0 <= i < 12 ensures GivesMonth(pm.order, pm.vals, y, i + 1, months[i]) {
        CompletedAt(e, 0.0, 12, i + 1);
        ExplicitIsLast(pm.order, pm.vals, y, i + 1, e[i + 1]);
      }
      FullYearTotal(e);
      assert ContradictoryYear(pm, y, months);
    }
    if months :| ContradictoryYear(pm, y, months) {
      GivenTotal(pm, y, months);
    }
  }

  lemma GivenTotal(pm: PeriodMap, y: nat, months: seq<real>)
    requires pm.Valid() && ContradictoryYear(pm, y, months)
    ensures var e := Explicit(pm.order, pm.vals, y); Count(e.Keys, 12) == 12 && SeqTotal(months) == Sum(e, 12)
  {
    var e := Explicit(pm.order, pm.vals, y);
    forall m | 1 <= m <= 12 ensures m in e && months[m - 1] == e[m] {
      ExplicitIsLast(pm.order, pm.vals, y, m, months[m - 1]);
    }
    FullCount(e.Keys, 12);
    ForcedTotal(e, months, 12);
    assert months[..12] == months;
  }

  /** A numeric month-defined entry of the household has a contradictory year. */
  ghost predicate Contradicted(h: Household, system: System, g: (string, GroupData), e: (string, EntityData),
                               v: (string, PeriodData), y: nat)
  {
    && HasEntry(h, g, e, v) && MonthlyEntry(v, system) && system[v.0].numeric
    && exists months :: ContradictoryYear(v.1.pm, y, months)
  }

  lemma UnbalancedSlot(s: Slot)
    requires s.pm.Valid()
    ensures !BudgetsHold(s.pm) <==> exists y, months :: ContradictoryYear(s.pm, y, months)
  {
    if !BudgetsHold(s.pm) {
      var k :| k in s.pm.vals && !YearBudgetHolds(s.pm, k);
      InconsistentIsContradictory(s.pm, k.y);
    }
    if y, months :| ContradictoryYear(s.pm, y, months) {
      InconsistentIsContradictory(s.pm, y);
    }
  }

  /** The budgets of all visited slots hold exactly when no entry of the payload is contradicted. */
  lemma RefusedExactly(h: Household, system: System)
    requires WellFormed(h)
    ensures ValidSlots(Walk(h, system))
    ensures !AllBudgetsHold(Walk(h, system)) <==> exists g, e, v, y :: Contradicted(h, system, g, e, v, y)
  {
    WalkDistinct(h, system);
    var slots := Walk(h, system);
    if !AllBudgetsHold(slots) {
      var s :| s in slots && s.variable.monthly && s.variable.numeric && !BudgetsHold(s.pm);
      WalkExactly(h, system, s);
      var g, e, v :| HasEntry(h, g, e, v) && KnownEntry(v, system) && s == SlotFor(g.0, e.0, v, system);
      UnbalancedSlot(s);
      var y, months :| ContradictoryYear(s.pm, y, months);
      assert Contradicted(h, system, g, e, v, y);
    }
    if g, e, v, y :| Contradicted(h, system, g, e, v, y) {
      var s := SlotFor(g.0, e.0, v, system);
      WalkExactly(h, system, s);
      assert s in slots;
      UnbalancedSlot(s);
    }
  }

  // ----- warnings -----

  /** The entry sets the month, under either spelling. */
  ghost predicate MonthGiven(vals: map<Key, Value>, y: nat, m: int) {
    exists k <- vals :: !vals[k].Null? && ((k.Month? && k.y == y && k.m == m) || (k.ShortMonth? && k.y == y && k.d == m))
  }

  /** Some month-defined entry of the household asks for the year's annual figure. */
  ghost predicate AsksFor(h: Household, system: System, y: nat) {
    exists g, e, v :: HasEntry(h, g, e, v) && MonthlyEntry(v, system) && Year(y) in v.1.pm.vals && v.1.pm.vals[Year(y)].Null?
  }

  /** The entry sets some but not all months of a year, has no value for the year itself, and an annual
      figure for the year is asked for. */
  ghost predicate Endangered(h: Household, system: System, g: (string, GroupData), e: (string, EntityData),
                             v: (string, PeriodData), y: nat)
  {
    && HasEntry(h, g, e, v) && MonthlyEntry(v, system) && AsksFor(h, system, y)
    && (exists m :: 1 <= m <= 12 && MonthGiven(v.1.pm.vals, y, m))
    && (exists m :: 1 <= m <= 12 && !MonthGiven(v.1.pm.vals, y, m))
    && (Year(y) in v.1.pm.vals ==> v.1.pm.vals[Year(y)].Null?)
  }

  lemma MonthsAreGiven(vals: map<Key, Value>, y: nat, m: int)
    ensures m in MonthsSet(vals, y) <==> MonthGiven(vals, y, m)
  {
    if k :| k in vals && !vals[k].Null? && ((k.Month? && k.y == y && k.m == m) || (k.ShortMonth? && k.y == y && k.d == m)) {
      assert HasValue(vals, k);
      assert k == if k.Month? then Month(y, m) else ShortMonth(y, m);
    }
    if m in MonthsSet(vals, y) {
      assert HasValue(vals, Month(y, m)) || HasValue(vals, ShortMonth(y, m));
    }
  }

  lemma PartialExactly(vals: map<Key, Value>, y: nat)
    ensures 1 <= |MonthsSet(vals, y)| < 12
       <==> (exists m :: 1 <= m <= 12 && MonthGiven(vals, y, m)) && (exists m :: 1 <= m <= 12 && !MonthGiven(vals, y, m))
  {
    var months := MonthsSet(vals, y);
    CountIsSize(months, 12);
    FullCount(months, 12);
    if exists m :: 1 <= m <= 12 && MonthGiven(vals, y, m) {
      var m :| 1 <= m <= 12 && MonthGiven(vals, y, m);
      MonthsAreGiven(vals, y, m);
      assert months != {};
    }
    if m :| m in months {
      MonthsAreGiven(vals, y, m);
    }
    if exists m :: 1 <= m <= 12 && !MonthGiven(vals, y, m) {
      var m :| 1 <= m <= 12 && !MonthGiven(vals, y, m);
      MonthsAreGiven(vals, y, m);
    }
    if Count(months, 12) != 12 {
      var m :| 1 <= m <= 12 && m !in months;
      MonthsAreGiven(vals, y, m);
    }
  }

  lemma AskedExactly(h: Household, system: System, y: nat)
    ensures AnnualRequested(Walk(h, system), y) <==> AsksFor(h, system, y)
  {
    if AnnualRequested(Walk(h, system), y) {
      var s :| s in Walk(h, system) && s.variable.monthly && Lookup(s.pm.vals, Year(y)) == Some(Null);
      WalkExactly(h, system, s);
    }
    if g, e, v :| HasEntry(h, g, e, v) && MonthlyEntry(v, system) && Year(y) in v.1.pm.vals && v.1.pm.vals[Year(y)].Null? {
      WalkExactly(h, system, SlotFor(g.0, e.0, v, system));
      assert SlotFor(g.0, e.0, v, system) in Walk(h, system);
    }
  }

  lemma HazardExactly(h: Household, system: System, g: (string, GroupData), e: (string, EntityData),
                      v: (string, PeriodData), y: nat)
    requires HasEntry(h, g, e, v) && KnownEntry(v, system)
    ensures Hazard(Walk(h, system), SlotFor(g.0, e.0, v, system), y) <==> Endangered(h, system, g, e, v, y)
  {
    AskedExactly(h, system, y);
    PartialExactly(v.1.pm.vals, y);
  }

  /** The warning is about this entry and lists exactly the months it sets, in ascending order. */
  ghost predicate WarnsAbout(w: Warning, g: (string, GroupData), e: (string, EntityData), v: (string, PeriodData), y: nat) {
    && w.id == SlotId(v.0, g.0, e.0) && w.year == y && v.1.Periods?
    && (forall i, j :: 0 <= i < j < |w.monthsSet| ==> w.monthsSet[i] < w.monthsSet[j])
    && (forall m :: m in w.monthsSet <==> MonthGiven(v.1.pm.vals, y, m))
  }

  /** The warnings are exactly those of the endangered entries and years. */
  ghost predicate WarnsExactly(h: Household, system: System, warnings: seq<Warning>) {
    && (forall w <- warnings :: exists g, e, v :: Endangered(h, system, g, e, v, w.year) && WarnsAbout(w, g, e, v, w.year))
    && (forall g, e, v, y :: Endangered(h, system, g, e, v, y) ==>
          exists w <- warnings :: w.id == SlotId(v.0, g.0, e.0) && w.year == y)
    && NoRepeats(warnings)
  }

  lemma MonthsListed(w: Warning, vals: map<Key, Value>)
    requires w.monthsSet == Ascending(MonthsSet(vals, w.year), 12)
    ensures forall i, j :: 0 <= i < j < |w.monthsSet| ==> w.monthsSet[i] < w.monthsSet[j]
    ensures forall m :: m in w.monthsSet <==> MonthGiven(vals, w.year, m)
  {
    AscendingSorts(MonthsSet(vals, w.year), 12);
    forall m ensures m in w.monthsSet <==> MonthGiven(vals, w.year, m) {
      MonthsAreGiven(vals, w.year, m);
    }
  }

  lemma ReportIsWarning(h: Household, system: System, w: Warning)
    requires Reports(w, Walk(h, system))
    ensures exists g, e, v :: Endangered(h, system, g, e, v, w.year) && WarnsAbout(w, g, e, v, w.year)
  {
    var slots := Walk(h, system);
    var s :| s in slots && s.id == w.id && Hazard(slots, s, w.year) && w.monthsSet == Ascending(MonthsSet(s.pm.vals, w.year), 12);
    WalkExactly(h, system, s);
    var g, e, v :| HasEntry(h, g, e, v) && KnownEntry(v, system) && s == SlotFor(g.0, e.0, v, system);
    HazardExactly(h, system, g, e, v, w.year);
    MonthsListed(w, v.1.pm.vals);
    assert WarnsAbout(w, g, e, v, w.year);
  }

  lemma DetectedExactly(h: Household, system: System, warnings: seq<Warning>)
    requires NoRepeats(warnings) && forall w <- warnings :: Reports(w, Walk(h, system))
    requires forall s <- Walk(h, system), y: nat :: Hazard(Walk(h, system), s, y) ==> Reported(warnings, s, y)
    ensures WarnsExactly(h, system, warnings)
  {
    forall w <- warnings ensures exists g, e, v :: Endangered(h, system, g, e, v, w.year) && WarnsAbout(w, g, e, v, w.year) {
      ReportIsWarning(h, system, w);
    }
    forall g, e, v, y | Endangered(h, system, g, e, v, y)
      ensures exists w <- warnings :: w.id == SlotId(v.0, g.0, e.0) && w.year == y
    {
      var s := SlotFor(g.0, e.0, v, system);
      HazardExactly(h, system, g, e, v, y);
      WalkExactly(h, system, s);
      assert Reported(warnings, s, y);
    }
  }

  // ----- totals -----

  /** There is a k-th variable of the j-th entity of the i-th group. */
  predicate IsEntry(h: Household, i: nat, j: nat, k: nat) {
    && i < |h| && h[i].0 != "axes" && h[i].1.Entities?
    && j < |h[i].1.entities| && h[i].1.entities[j].1.Variables?
    && k < |h[i].1.entities[j].1.variables|
  }

  function EntryAt(h: Household, i: nat, j: nat, k: nat): (string, PeriodData)
    requires IsEntry(h, i, j, k)
  {
    h[i].1.entities[j].1.variables[k]
  }

  /** The entry is a plain numeric annual input: a number for the year, one number per month, and no
      month of the year that is neither a number nor null. */
  ghost predicate AnnualInput(v: (string, PeriodData), system: System, y: nat) {
    && MonthlyEntry(v, system) && system[v.0].numeric && Numeric(v.1.pm.vals, Year(y))
    && OneNumberPerMonth(v.1.pm.vals) && NumericOrNull(v.1.pm.vals, y)
  }

  lemma EntryIsKept(h: Household, h': Household, system: System, i: nat, j: nat, k: nat)
    requires WellFormed(h) && NormalisedHousehold(h, h', system) && IsEntry(h, i, j, k)
    ensures IsEntry(h', i, j, k)
    ensures EntryAt(h, i, j, k).1.Periods? ==> EntryAt(h, i, j, k).1.pm.Valid()
    ensures NormalisedVariable(EntryAt(h, i, j, k), EntryAt(h', i, j, k), system)
    ensures HasEntry(h, h[i], h[i].1.entities[j], EntryAt(h, i, j, k))
  {
    var g := h[i];
    assert g in h && NormalisedGroup(g, h'[i], system);
    var e := g.1.entities[j];
    assert e in g.1.entities && NormalisedEntity(e, h'[i].1.entities[j], system);
    assert e.1.variables[k] in e.1.variables;
  }

  /** If the entry is an annual input of the year, the normalised household holds, in its place, twelve
      months that add up to it. */
  ghost predicate KeepsTotalAt(h: Household, h': Household, system: System, i: nat, j: nat, k: nat, y: nat) {
    IsEntry(h, i, j, k) && AnnualInput(EntryAt(h, i, j, k), system, y) ==>
      && IsEntry(h', i, j, k) && EntryAt(h', i, j, k).1.Periods?
      && MonthlyTotal(EntryAt(h', i, j, k).1.pm.vals, y, 12) == EntryAt(h, i, j, k).1.pm.vals[Year(y)].r
  }

  ghost predicate KeepsTotals(h: Household, h': Household, system: System) {
    forall i: nat, j: nat, k: nat, y: nat :: KeepsTotalAt(h, h', system, i, j, k, y)
  }

  lemma TotalIsKept(h: Household, h': Household, system: System, i: nat, j: nat, k: nat, y: nat)
    requires WellFormed(h) && NormalisedHousehold(h, h', system) && ValidSlots(Walk(h, system))
    requires AllBudgetsHold(Walk(h, system))
    ensures KeepsTotalAt(h, h', system, i, j, k, y)
  {
    if IsEntry(h, i, j, k) && AnnualInput(EntryAt(h, i, j, k), system, y) {
      EntryIsKept(h, h', system, i, j, k);
      var g, e, v := h[i], h[i].1.entities[j], EntryAt(h, i, j, k);
      var s := SlotFor(g.0, e.0, v, system);
      WalkExactly(h, system, s);
      assert s in Walk(h, system);
      AnnualTotalIsConserved(v.1.pm, y);
    }
  }

  // ----- the whole handling -----

  /** The period handling of one request, in the endpoint's order, on the nested payload. It is refused
      exactly when a numeric month-defined entry has a year whose twelve months are all given and
      contradict the year's value. Otherwise each endangered entry and year gets one warning with its
      months, and nothing else does; month-defined entries are expanded, everything else is as it was,
      and annual inputs keep their totals. */
  method HandlePeriods(h: Household, system: System) returns (r: Result<(seq<Warning>, Household), (SlotId, BudgetError)>)
    requires WellFormed(h)
    ensures r.Failure? <==> exists g, e, v, y :: Contradicted(h, system, g, e, v, y)
    ensures r.Failure? ==> exists s <- Walk(h, system) :: s.pm.Valid() && s.id == r.error.0 && Contradicts(s, r.error.1)
    ensures r.Success? ==> WarnsExactly(h, system, r.value.0) && WarnsOfPartialYears(r.value.0, Walk(r.value.1, system))
    ensures r.Success? ==> NormalisedHousehold(h, r.value.1, system) && KeepsTotals(h, r.value.1, system)
  {
    RefusedExactly(h, system);
    var checked := ValidatePeriodBudgets(Walk(h, system));
    if checked.Failure? {
      return Failure(checked.error);
    }
    var warnings := DetectPeriodWarnings(h, system);
    var normalized := NormalizePeriodKeys(h, system);
    NormalisedSlots(h, normalized, system);
    WalkDistinct(h, system);
    WarningsArePartialYears(Walk(h, system), Walk(normalized, system), warnings);
    DetectedExactly(h, system, warnings);
    AllTotalsAreKept(h, normalized, system);
    return Success((warnings, normalized));
  }

  lemma AllTotalsAreKept(h: Household, h': Household, system: System)
    requires WellFormed(h) && NormalisedHousehold(h, h', system) && ValidSlots(Walk(h, system))
    requires AllBudgetsHold(Walk(h, system))
    ensures KeepsTotals(h, h', system)
  {
    forall i: nat, j: nat, k: nat, y: nat ensures KeepsTotalAt(h, h', system, i, j, k, y) {
      TotalIsKept(h, h', system, i, j, k, y);
    }
  }
}
