/** The budget validator, and what it and the expansion guarantee together: annual totals are
    conserved exactly, and the outcome of expansion is canonical. */
module PeriodBudgets {
  import opened Common
  import opened PeriodKeys

  // ----- the expanded map -----

  function Months(vals: map<Key, Value>): set<Key> {
    set k, m: MonthNo | k in vals && k.Year? && 1 <= m <= 12 :: Month(k.y, m)
  }

  /** The map the in-place expansion leaves behind. */
  function Expanded(pm: PeriodMap, numeric: bool): map<Key, Value>
    requires pm.Valid()
  {
    map k | k in pm.vals.Keys + Months(pm.vals) && ExpandedAt(pm, numeric, k).Some? :: ExpandedAt(pm, numeric, k).value
  }

  lemma ExpandedLookup(pm: PeriodMap, numeric: bool)
    requires pm.Valid()
    ensures forall k :: Lookup(Expanded(pm, numeric), k) == ExpandedAt(pm, numeric, k)
  {
    forall k | ExpandedAt(pm, numeric, k).Some? ensures k in pm.vals.Keys + Months(pm.vals) {
      if k !in pm.vals {
        assert k.Month? && Year(k.y) in pm.vals;
      }
    }
  }

  lemma EqualLookups(vals: map<Key, Value>, vals': map<Key, Value>)
    requires forall k :: Lookup(vals, k) == Lookup(vals', k)
    ensures vals == vals'
  {
    forall k ensures k in vals <==> k in vals' {
      assert Lookup(vals, k) == Lookup(vals', k);
    }
    forall k | k in vals ensures vals[k] == vals'[k] {
      assert Lookup(vals, k) == Lookup(vals', k);
    }
  }

  // ----- what a map says about a month -----

  predicate Numeric(vals: map<Key, Value>, k: Key) {
    k in vals && vals[k].Num?
  }

  /** No month of any year has a number under both of its spellings. */
  ghost predicate OneNumberPerMonth(vals: map<Key, Value>) {
    forall y, d: ShortNo :: !(Numeric(vals, Month(y, d)) && Numeric(vals, ShortMonth(y, d)))
  }

  ghost predicate NumericOrNull(vals: map<Key, Value>, y: nat) {
    forall k <- vals :: k.IsMonthOf(y) ==> !vals[k].NonNumeric?
  }

  /** The number given for a month, under whichever spelling. */
  function MonthValue(vals: map<Key, Value>, y: nat, m: MonthNo): Option<real> {
    if Numeric(vals, Month(y, m)) then Some(vals[Month(y, m)].r)
    else if m <= 9 && Numeric(vals, ShortMonth(y, m)) then Some(vals[ShortMonth(y, m)].r)
    else None
  }

  /** The sum of the numbers given for months 1 to n. */
  function MonthlyTotal(vals: map<Key, Value>, y: nat, n: nat): real
    requires n <= 12
  {
    if n == 0 then 0.0
    else MonthlyTotal(vals, y, n - 1) + if MonthValue(vals, y, n).Some? then MonthValue(vals, y, n).value else 0.0
  }

  lemma {:induction false} ExplicitComplete(order: seq<Key>, vals: map<Key, Value>, y: nat, k: Key)
    requires OneNumberPerMonth(vals) && forall k <- order :: k in vals
    requires k in order && k.IsMonthOf(y) && vals[k].Num?
    ensures k.Number() in Explicit(order, vals, y) && Explicit(order, vals, y)[k.Number()] == vals[k].r
  {
    var n := |order| - 1;
    if order[n] != k {
      ExplicitComplete(order[..n], vals, y, k);
    }
  }

  lemma {:induction false} ExplicitSound(order: seq<Key>, vals: map<Key, Value>, y: nat, m: int)
    requires forall k <- order :: k in vals
    requires m in Explicit(order, vals, y)
    ensures exists k <- order :: k.IsMonthOf(y) && vals[k].Num? && k.Number() == m
  {
    var n := |order| - 1;
    if m in Explicit(order[..n], vals, y) {
      ExplicitSound(order[..n], vals, y, m);
      var k :| k in order[..n] && k.IsMonthOf(y) && vals[k].Num? && k.Number() == m;
      assert k in order;
    } else {
      assert order[n] in order;
    }
  }

  /** With one number per month, the explicit months do not depend on the dictionary's order. */
  lemma ExplicitIsCanonical(pm: PeriodMap, y: nat, m: MonthNo)
    requires pm.Valid() && OneNumberPerMonth(pm.vals)
    ensures var e := Explicit(pm.order, pm.vals, y);
            MonthValue(pm.vals, y, m) == if m in e then Some(e[m]) else None
  {
    var e := Explicit(pm.order, pm.vals, y);
    if m in e {
      ExplicitSound(pm.order, pm.vals, y, m);
      var k :| k in pm.order && k.IsMonthOf(y) && pm.vals[k].Num? && k.Number() == m;
      ExplicitComplete(pm.order, pm.vals, y, k);
    } else {
      if Numeric(pm.vals, Month(y, m)) {
        ExplicitComplete(pm.order, pm.vals, y, Month(y, m));
      }
      if m <= 9 && Numeric(pm.vals, ShortMonth(y, m)) {
        ExplicitComplete(pm.order, pm.vals, y, ShortMonth(y, m));
      }
    }
  }

  // ----- the validator -----

  /** The annual total of one year, if numeric, is consistent with the months given for it. */
  predicate YearBudgetHolds(pm: PeriodMap, k: Key)
    requires pm.Valid() && k in pm.vals
  {
    k.Year? && pm.vals[k].Num? ==>
      var e := Explicit(pm.order, pm.vals, k.y);
      Count(e.Keys, 12) < 12 || Sum(e, 12) == pm.vals[k].r
  }

  ghost predicate BudgetsHold(pm: PeriodMap)
    requires pm.Valid()
  {
    forall k <- pm.vals :: YearBudgetHolds(pm, k)
  }

  datatype BudgetError = InconsistentInput(y: nat, explicitSum: real, annual: real)

  /** `_check_year_budget`: succeeds or reports the first inconsistent year in dictionary order. */
  method CheckYearBudget(d: PeriodDict) returns (r: Result<(), BudgetError>)
    requires d.Valid()
    ensures r.Success? <==> BudgetsHold(d.View())
    ensures r.Failure? ==>
              && Year(r.error.y) in d.vals && d.vals[Year(r.error.y)] == Num(r.error.annual)
              && !YearBudgetHolds(d.View(), Year(r.error.y))
              && r.error.explicitSum == Sum(Explicit(d.order, d.vals, r.error.y), 12) != r.error.annual
  {
    for i := 0 to |d.order|
      invariant forall k <- d.order[..i] :: YearBudgetHolds(d.View(), k)
    {
      var key := d.order[i];
      if key.Year? && d.vals[key].Num? {
        var explicit := d.ExplicitMonths(key.y);
        CountIsSize(explicit.Keys, 12);
        if |explicit| >= 12 {
          var explicitSum := Sum(explicit, 12);
          if explicitSum != d.vals[key].r {
            assert !YearBudgetHolds(d.View(), key);
            return Failure(InconsistentInput(key.y, explicitSum, d.vals[key].r));
          }
        }
      }
      assert forall k <- d.order[..i + 1] :: k in d.order[..i] || k == key;
    }
    return Success(());
  }

  /** Twelve monthly amounts that agree with every month the request gives and add up to the total. */
  ghost predicate Fits(months: seq<real>, e: map<int, real>, total: real) {
    && |months| == 12
    && (forall m <- e :: 1 <= m <= 12 ==> months[m - 1] == e[m])
    && SeqTotal(months) == total
  }

  function SeqTotal(s: seq<real>): real {
    if s == [] then 0.0 else SeqTotal(s[..|s| - 1]) + s[|s| - 1]
  }

  /** One amount per month: the given number, or else `x`. */
  function Completed(e: map<int, real>, x: real, n: nat): (s: seq<real>)
    ensures |s| == n
  {
    if n == 0 then [] else Completed(e, x, n - 1) + [if n in e then e[n] else x]
  }

  lemma {:induction false} CompletedAt(e: map<int, real>, x: real, n: nat, m: nat)
    requires 1 <= m <= n
    ensures Completed(e, x, n)[m - 1] == if m in e then e[m] else x
  {
    if m < n {
      CompletedAt(e, x, n - 1, m);
    }
  }

  lemma CompletedFits(e: map<int, real>, x: real, total: real)
    requires SeqTotal(Completed(e, x, 12)) == total
    ensures Fits(Completed(e, x, 12), e, total)
  {
    forall m <- e | 1 <= m <= 12 ensures Completed(e, x, 12)[m - 1] == e[m] {
      CompletedAt(e, x, 12, m);
    }
  }

  function Repeated(x: real, n: nat): real {
    if n == 0 then 0.0 else Repeated(x, n - 1) + x
  }

  lemma {:induction false} RepeatedIsProduct(x: real, n: nat)
    ensures Repeated(x, n) == n as real * x
  {
    if n > 0 {
      RepeatedIsProduct(x, n - 1);
      Distribute((n - 1) as real, x);
    }
  }

  lemma Distribute(a: real, x: real)
    ensures (a + 1.0) * x == a * x + x
  {
  }

  lemma TotalSnoc(s: seq<real>, x: real)
    ensures SeqTotal(s + [x]) == SeqTotal(s) + x
  {
    assert (s + [x])[..|s|] == s;
  }

  lemma {:induction false} CompletedTotal(e: map<int, real>, x: real, n: nat, unset: nat)
    requires Count(e.Keys, n) + unset == n
    ensures SeqTotal(Completed(e, x, n)) == Sum(e, n) + Repeated(x, unset)
  {
    if n > 0 {
      var s := Completed(e, x, n - 1);
      if n in e {
        CompletedTotal(e, x, n - 1, unset);
        TotalSnoc(s, e[n]);
      } else {
        CompletedTotal(e, x, n - 1, unset - 1);
        TotalSnoc(s, x);
      }
    }
  }

  /** The even share, repeated over the unset months, restores the annual total exactly. */
  lemma ShareCompletesTotal(e: map<int, real>, total: real)
    requires Count(e.Keys, 12) < 12
    ensures SeqTotal(Completed(e, Share(total, e), 12)) == total
  {
    var ways := 12 - Count(e.Keys, 12);
    CompletedTotal(e, Share(total, e), 12, ways);
    RepeatedIsProduct(Share(total, e), ways);
    SplitsExactly(total - Sum(e, 12), ways);
  }

  lemma SplitsExactly(remainder: real, ways: int)
    requires ways > 0
    ensures ways as real * EvenSplit(remainder, ways) == remainder
  {
  }

  lemma FullYearTotal(e: map<int, real>)
    requires Count(e.Keys, 12) == 12
    ensures SeqTotal(Completed(e, 0.0, 12)) == Sum(e, 12)
  {
    CompletedTotal(e, 0.0, 12, 0);
  }

  lemma {:induction false} ForcedTotal(e: map<int, real>, months: seq<real>, n: nat)
    requires n <= |months| && forall m :: 1 <= m <= n ==> m in e && months[m - 1] == e[m]
    ensures SeqTotal(months[..n]) == Sum(e, n)
  {
    if n > 0 {
      ForcedTotal(e, months, n - 1);
      assert months[..n][..n - 1] == months[..n - 1];
    }
  }

  /** When every month is given there is nothing left to choose. */
  lemma FullYearIsForced(e: map<int, real>, months: seq<real>, total: real)
    requires Count(e.Keys, 12) == 12 && Fits(months, e, total)
    ensures Sum(e, 12) == total
  {
    FullCount(e.Keys, 12);
    ForcedTotal(e, months, 12);
    assert months[..12] == months;
  }

  ghost predicate Achievable(e: map<int, real>, total: real) {
    exists months :: Fits(months, e, total)
  }

  lemma AchievableExactly(e: map<int, real>, total: real)
    ensures Achievable(e, total) <==> Count(e.Keys, 12) < 12 || Sum(e, 12) == total
  {
    if Count(e.Keys, 12) < 12 {
      ShareCompletesTotal(e, total);
      CompletedFits(e, Share(total, e), total);
    } else {
      FullYearTotal(e);
      if Sum(e, 12) == total {
        CompletedFits(e, 0.0, total);
      }
      if Achievable(e, total) {
        var months :| Fits(months, e, total);
        FullYearIsForced(e, months, total);
      }
    }
  }

  /** The validator accepts a numeric year exactly when some amounts for the months without a
      number make the twelve months add up to the annual total. */
  lemma BudgetCheckIsExact(pm: PeriodMap, y: nat)
    requires pm.Valid() && Numeric(pm.vals, Year(y))
    ensures YearBudgetHolds(pm, Year(y)) <==> Achievable(Explicit(pm.order, pm.vals, y), pm.vals[Year(y)].r)
  {
    AchievableExactly(Explicit(pm.order, pm.vals, y), pm.vals[Year(y)].r);
  }

  // ----- conservation -----

  lemma {:induction false} TotalOfCompleted(vals: map<Key, Value>, y: nat, s: seq<real>, n: nat)
    requires n <= |s| && n <= 12
    requires forall m: MonthNo :: m <= n ==> MonthValue(vals, y, m) == Some(s[m - 1])
    ensures MonthlyTotal(vals, y, n) == SeqTotal(s[..n])
  {
    if n > 0 {
      TotalOfCompleted(vals, y, s, n - 1);
      assert s[..n][..n - 1] == s[..n - 1];
    }
  }

  /** After expansion every month of a numeric year holds its explicit number or the even share. */
  lemma MonthsAfterExpansion(pm: PeriodMap, y: nat, m: MonthNo)
    requires pm.Valid() && OneNumberPerMonth(pm.vals)
    requires Numeric(pm.vals, Year(y)) && NumericOrNull(pm.vals, y)
    ensures var e := Explicit(pm.order, pm.vals, y);
            if m in e then MonthValue(Expanded(pm, true), y, m) == MonthValue(pm.vals, y, m) == Some(e[m])
            else Count(e.Keys, 12) < 12 && MonthValue(Expanded(pm, true), y, m) == Some(Share(pm.vals[Year(y)].r, e))
  {
    var e := Explicit(pm.order, pm.vals, y);
    ExpandedLookup(pm, true);
    ExplicitIsCanonical(pm, y, m);
    FullCount(e.Keys, 12);
    var vals' := Expanded(pm, true);
    assert Lookup(vals', Month(y, m)) == ExpandedAt(pm, true, Month(y, m));
    if m <= 9 {
      assert Lookup(vals', ShortMonth(y, m)) == ExpandedAt(pm, true, ShortMonth(y, m));
    }
  }

  /** The twelve months of a numeric year add up to exactly the annual value if and only if the
      validator finds the year consistent. */
  lemma AnnualTotalIsConserved(pm: PeriodMap, y: nat)
    requires pm.Valid() && OneNumberPerMonth(pm.vals)
    requires Numeric(pm.vals, Year(y)) && NumericOrNull(pm.vals, y)
    ensures MonthlyTotal(Expanded(pm, true), y, 12) == pm.vals[Year(y)].r <==> YearBudgetHolds(pm, Year(y))
  {
    var e, total := Explicit(pm.order, pm.vals, y), pm.vals[Year(y)].r;
    var share := if Count(e.Keys, 12) < 12 then Share(total, e) else 0.0;
    var s := Completed(e, share, 12);
    forall m: MonthNo ensures MonthValue(Expanded(pm, true), y, m) == Some(s[m - 1]) {
      MonthsAfterExpansion(pm, y, m);
      CompletedAt(e, share, 12, m);
    }
    TotalOfCompleted(Expanded(pm, true), y, s, 12);
    assert s[..12] == s;
    if Count(e.Keys, 12) < 12 {
      ShareCompletesTotal(e, total);
    } else {
      FullYearTotal(e);
    }
  }

  /** Explicit months keep their number, and the other months of a numeric year all get the same. */
  lemma UnsetMonthsShareAlike(pm: PeriodMap, y: nat, m: MonthNo, m': MonthNo)
    requires pm.Valid() && OneNumberPerMonth(pm.vals)
    requires Numeric(pm.vals, Year(y)) && NumericOrNull(pm.vals, y)
    ensures MonthValue(pm.vals, y, m).Some? ==> MonthValue(Expanded(pm, true), y, m) == MonthValue(pm.vals, y, m)
    ensures MonthValue(pm.vals, y, m).None? && MonthValue(pm.vals, y, m').None? ==>
              && MonthValue(Expanded(pm, true), y, m).Some?
              && MonthValue(Expanded(pm, true), y, m) == MonthValue(Expanded(pm, true), y, m')
  {
    MonthsAfterExpansion(pm, y, m);
    MonthsAfterExpansion(pm, y, m');
    ExplicitIsCanonical(pm, y, m);
    ExplicitIsCanonical(pm, y, m');
  }

  // ----- canonicity -----

  /** What expansion may change: non-null year keys disappear, and only padded month keys without
      a value, in a year that had one, receive something. */
  lemma ExpansionIsFramed(pm: PeriodMap, numeric: bool, k: Key)
    requires pm.Valid()
    ensures k in pm.vals && k.Year? && pm.vals[k].Null? ==> Lookup(Expanded(pm, numeric), k) == Some(Null)
    ensures k.Year? && k in Expanded(pm, numeric) ==> Expanded(pm, numeric)[k].Null?
    ensures !k.Year? && k in pm.vals && !pm.vals[k].Null? ==> Lookup(Expanded(pm, numeric), k) == Some(pm.vals[k])
    ensures k.Other? || k.ShortMonth? || (k.Month? && !Active(pm, k.y))
            ==> Lookup(Expanded(pm, numeric), k) == Lookup(pm.vals, k)
  {
    ExpandedLookup(pm, numeric);
    assert Lookup(Expanded(pm, numeric), k) == ExpandedAt(pm, numeric, k);
  }

  /** The order of the dictionary's keys does not matter. */
  lemma ExpansionIgnoresOrder(pm: PeriodMap, pm': PeriodMap, numeric: bool)
    requires pm.Valid() && pm'.Valid() && pm.vals == pm'.vals && OneNumberPerMonth(pm.vals)
    ensures Expanded(pm, numeric) == Expanded(pm', numeric)
  {
    forall y: nat ensures Explicit(pm.order, pm.vals, y) == Explicit(pm'.order, pm'.vals, y) {
      var e, e' := Explicit(pm.order, pm.vals, y), Explicit(pm'.order, pm'.vals, y);
      forall m: MonthNo ensures (m in e <==> m in e') && (m in e ==> e[m] == e'[m]) {
        ExplicitIsCanonical(pm, y, m);
        ExplicitIsCanonical(pm', y, m);
      }
      assert e == e';
    }
    forall k ensures ExpandedAt(pm, numeric, k) == ExpandedAt(pm', numeric, k) {
    }
  }

  /** Expanding an expanded map, in whatever order its keys ended up, changes nothing. */
  lemma ExpansionIsIdempotent(pm: PeriodMap, numeric: bool, again: PeriodMap)
    requires pm.Valid() && again.Valid() && again.vals == Expanded(pm, numeric)
    ensures Expanded(again, numeric) == Expanded(pm, numeric)
  {
    forall k ensures Lookup(Expanded(again, numeric), k) == Lookup(again.vals, k) {
      ExpandedLookup(again, numeric);
      assert Lookup(Expanded(again, numeric), k) == ExpandedAt(again, numeric, k);
      if k.Year? || k.Month? {
        ExpansionIsFramed(pm, numeric, Year(k.y));
      }
    }
    EqualLookups(Expanded(again, numeric), again.vals);
  }

  /** The broadcaster looks only at the padded spelling: a month overridden under its short
      spelling keeps that entry, and gets a second, padded entry holding the year's value exactly
      when the padded key had no value of its own. */
  lemma BroadcastMissesShortSpelling(pm: PeriodMap, numeric: bool, y: nat, d: ShortNo)
    requires pm.Valid() && Active(pm, y) && !(numeric && pm.vals[Year(y)].Num?)
    requires !Blank(pm.vals, ShortMonth(y, d))
    ensures Lookup(Expanded(pm, numeric), ShortMonth(y, d)) == Some(pm.vals[ShortMonth(y, d)])
    ensures Lookup(Expanded(pm, numeric), Month(y, d))
         == if Blank(pm.vals, Month(y, d)) then Some(pm.vals[Year(y)]) else Some(pm.vals[Month(y, d)])
  {
    ExpandedLookup(pm, numeric);
    assert Lookup(Expanded(pm, numeric), Month(y, d)) == ExpandedAt(pm, numeric, Month(y, d));
    assert Lookup(Expanded(pm, numeric), ShortMonth(y, d)) == ExpandedAt(pm, numeric, ShortMonth(y, d));
  }

  /** Broadcasting, month by month: every month of the year without a value under its two-digit
      spelling gets the year's value there, all other entries of the year's months stay, and the year
      key is gone. */
  lemma BroadcastFills(pm: PeriodMap, numeric: bool, y: nat, m: MonthNo)
    requires pm.Valid() && Year(y) in pm.vals && !pm.vals[Year(y)].Null? && !(numeric && pm.vals[Year(y)].Num?)
    ensures Year(y) !in Expanded(pm, numeric)
    ensures Month(y, m) in Expanded(pm, numeric)
    ensures Expanded(pm, numeric)[Month(y, m)]
         == if Month(y, m) in pm.vals && !pm.vals[Month(y, m)].Null? then pm.vals[Month(y, m)] else pm.vals[Year(y)]
    ensures m <= 9 ==> Lookup(Expanded(pm, numeric), ShortMonth(y, m)) == Lookup(pm.vals, ShortMonth(y, m))
  {
    ExpandedLookup(pm, numeric);
    assert Lookup(Expanded(pm, numeric), Year(y)) == ExpandedAt(pm, numeric, Year(y));
    assert Lookup(Expanded(pm, numeric), Month(y, m)) == ExpandedAt(pm, numeric, Month(y, m));
    if m <= 9 {
      assert Lookup(Expanded(pm, numeric), ShortMonth(y, m)) == ExpandedAt(pm, numeric, ShortMonth(y, m));
    }
  }
}
