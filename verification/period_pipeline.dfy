/** The validator over all slots of a household, and how its answer and the warnings relate to the
    normalised slots. */
module PeriodPipeline {
  import opened Common
  import opened PeriodKeys
  import opened PeriodBudgets
  import opened PeriodWarnings

  ghost predicate AllBudgetsHold(slots: seq<Slot>)
    requires ValidSlots(slots)
  {
    forall s <- slots :: s.variable.monthly && s.variable.numeric ==> BudgetsHold(s.pm)
  }

  /** The error names a year whose twelve months are all given and do not add up to its value. */
  ghost predicate Contradicts(s: Slot, e: BudgetError)
    requires s.pm.Valid()
  {
    && s.variable.monthly && s.variable.numeric
    && Lookup(s.pm.vals, Year(e.y)) == Some(Num(e.annual)) && !YearBudgetHolds(s.pm, Year(e.y))
    && e.explicitSum == Sum(Explicit(s.pm.order, s.pm.vals, e.y), 12) != e.annual
  }

  /** `validate_period_budgets`: every numeric month-defined slot must be consistent, and a refusal
      names a slot and a year that are not. */
  method ValidatePeriodBudgets(slots: seq<Slot>) returns (r: Result<(), (SlotId, BudgetError)>)
    requires ValidSlots(slots)
    ensures r.Success? <==> AllBudgetsHold(slots)
    ensures r.Failure? ==> exists s <- slots :: s.id == r.error.0 && Contradicts(s, r.error.1)
  {
    for i := 0 to |slots|
      invariant forall s <- slots[..i] :: s.variable.monthly && s.variable.numeric ==> BudgetsHold(s.pm)
    {
      var s := slots[i];
      assert s in slots;
      if s.variable.monthly && s.variable.numeric {
        var periods := new PeriodDict(s.pm);
        var checked := CheckYearBudget(periods);
        if checked.Failure? {
          assert Contradicts(s, checked.error);
          return Failure((s.id, checked.error));
        }
      }
      assert forall t <- slots[..i + 1] :: t in slots[..i] || t == s;
    }
    assert slots[..|slots|] == slots;
    return Success(());
  }

  /** In a household the validator accepts, the months the engine will read of every numeric
      annual input add up to exactly that input. */
  lemma AcceptedTotalsSurvive(slots: seq<Slot>, slots': seq<Slot>, i: nat, y: nat)
    requires ValidSlots(slots) && NormalisedTo(slots, slots') && i < |slots| && AllBudgetsHold(slots)
    requires slots[i].variable.monthly && slots[i].variable.numeric && Numeric(slots[i].pm.vals, Year(y))
    requires OneNumberPerMonth(slots[i].pm.vals) && NumericOrNull(slots[i].pm.vals, y)
    ensures MonthlyTotal(slots'[i].pm.vals, y, 12) == slots[i].pm.vals[Year(y)].r
  {
    assert slots[i] in slots;
    AnnualTotalIsConserved(slots[i].pm, y);
  }

  // ----- warnings and the normalised household -----

  /** The warnings are those of the normalised slots: one for each partial year, with its months. */
  ghost predicate WarnsOfPartialYears(warnings: seq<Warning>, slots': seq<Slot>) {
    && NoRepeats(warnings)
    && (forall s' <- slots', y: nat :: Reported(warnings, s', y) <==> PartialYear(slots', s', y))
    && (forall w <- warnings :: exists s' <- slots' :: NamesPartialYear(w, slots', s'))
  }

  ghost predicate NamesPartialYear(w: Warning, slots': seq<Slot>, s': Slot) {
    w.id == s'.id && PartialYear(slots', s', w.year) && w.monthsSet == Ascending(MonthsSet(s'.pm.vals, w.year), 12)
  }

  lemma WarningNamesPartialYear(slots: seq<Slot>, slots': seq<Slot>, w: Warning)
    requires ValidSlots(slots) && NormalisedTo(slots, slots') && Reports(w, slots)
    ensures exists s' <- slots' :: NamesPartialYear(w, slots', s')
  {
    var s :| s in slots && s.id == w.id && Hazard(slots, s, w.year) && w.monthsSet == Ascending(MonthsSet(s.pm.vals, w.year), 12);
    var i :| 0 <= i < |slots| && slots[i] == s;
    DetectorAgreesWithNormaliser(slots, slots', i, w.year);
    assert slots'[i] in slots' && NamesPartialYear(w, slots', slots'[i]);
  }

  lemma PartialYearIsReported(slots: seq<Slot>, slots': seq<Slot>, warnings: seq<Warning>, i: nat, y: nat)
    requires ValidSlots(slots) && DistinctIds(slots) && NormalisedTo(slots, slots') && i < |slots|
    requires forall w <- warnings :: Reports(w, slots)
    requires Hazard(slots, slots[i], y) ==> Reported(warnings, slots[i], y)
    ensures Reported(warnings, slots'[i], y) <==> PartialYear(slots', slots'[i], y)
  {
    assert slots[i] in slots;
    DetectorAgreesWithNormaliser(slots, slots', i, y);
    if Reported(warnings, slots'[i], y) {
      var w :| w in warnings && w.id == slots'[i].id && w.year == y;
      assert Reports(w, slots);
      var s :| s in slots && s.id == w.id && Hazard(slots, s, w.year);
      SameSlot(slots, s, slots[i]);
    }
  }

  /** What the detector reports on the raw household is what is partial in the normalised one. */
  lemma WarningsArePartialYears(slots: seq<Slot>, slots': seq<Slot>, warnings: seq<Warning>)
    requires ValidSlots(slots) && DistinctIds(slots) && NormalisedTo(slots, slots') && NoRepeats(warnings)
    requires forall w <- warnings :: Reports(w, slots)
    requires forall s <- slots, y: nat :: Hazard(slots, s, y) ==> Reported(warnings, s, y)
    ensures WarnsOfPartialYears(warnings, slots')
  {
    forall s' <- slots', y: nat ensures Reported(warnings, s', y) <==> PartialYear(slots', s', y) {
      var i :| 0 <= i < |slots'| && slots'[i] == s';
      assert slots[i] in slots;
      PartialYearIsReported(slots, slots', warnings, i, y);
    }
    forall w <- warnings ensures exists s' <- slots' :: NamesPartialYear(w, slots', s') {
      WarningNamesPartialYear(slots, slots', w);
    }
  }
}
