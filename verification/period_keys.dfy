/** Period keys, period maps, and the expansion of year keys into months: one value-level
    description of the outcome, and the in-place algorithm on the live dictionary. */
module PeriodKeys {
  import opened Common

  type MonthNo = m: int | 1 <= m <= 12 witness 1
  type ShortNo = m: int | 1 <= m <= 9 witness 1

  /** A parsed period key. `Month` is the two-digit spelling the expander writes ("2025-03");
      `ShortMonth` is the one-digit spelling of the same month ("2025-3"). */
  datatype Key =
    | Year(y: nat)
    | Month(y: nat, m: MonthNo)
    | ShortMonth(y: nat, d: ShortNo)
    | Other(text: string)
  {
    predicate IsMonthOf(year: nat) {
      (Month? || ShortMonth?) && y == year
    }

    function Number(): MonthNo
      requires Month? || ShortMonth?
    {
      if Month? then m else d
    }
  }

  /** A JSON leaf: null, a number, or anything else (booleans, strings, enum names). */
  datatype Value = Null | Num(r: real) | NonNumeric(text: string)

  ghost predicate Distinct(order: seq<Key>) {
    forall i, j :: 0 <= i < j < |order| ==> order[i] != order[j]
  }

  /** A dictionary value: its entries and the order its keys were inserted in. */
  datatype PeriodMap = PeriodMap(order: seq<Key>, vals: map<Key, Value>) {
    ghost predicate Valid() {
      && Distinct(order)
      && (forall k :: k in order <==> k in vals)
    }
  }

  function Lookup(vals: map<Key, Value>, k: Key): Option<Value> {
    if k in vals then Some(vals[k]) else None
  }

  /** `period_map.get(k) is None`: the key is missing or asks for output. */
  predicate Blank(vals: map<Key, Value>, k: Key) {
    k in vals ==> vals[k].Null?
  }

  // ----- explicit months -----

  /** The numeric monthly values of one year, by month number; of two spellings of the same
      month, the later key in the dictionary wins. */
  function Explicit(order: seq<Key>, vals: map<Key, Value>, y: nat): (e: map<int, real>)
    requires forall k <- order :: k in vals
    ensures forall m <- e :: 1 <= m <= 12
  {
    if order == [] then map[]
    else
      var e := Explicit(order[..|order| - 1], vals, y);
      var k := order[|order| - 1];
      if k.IsMonthOf(y) && vals[k].Num? then e[k.Number() := vals[k].r] else e
  }

  /** The sum of a month-indexed table over months 1 to n, missing months counting zero. */
  function Sum(e: map<int, real>, n: nat): real {
    if n == 0 then 0.0 else Sum(e, n - 1) + if n in e then e[n] else 0.0
  }

  /** How many of the months 1 to n are in the set. */
  function Count(s: set<int>, n: nat): (c: nat)
    ensures c <= n
  {
    if n == 0 then 0 else Count(s, n - 1) + if n in s then 1 else 0
  }

  lemma {:induction false} CountIsSize(s: set<int>, n: nat)
    requires forall m <- s :: 1 <= m <= n
    ensures |s| == Count(s, n)
  {
    if n == 0 {
      assert forall m :: m !in s;
    } else {
      CountIsSize(s - {n}, n - 1);
      AgreeingCounts(s, s - {n}, n - 1);
      if n in s {
        assert s == (s - {n}) + {n};
      } else {
        assert s == s - {n};
      }
    }
  }

  lemma {:induction false} AgreeingCounts(s: set<int>, s': set<int>, n: nat)
    requires forall m :: 1 <= m <= n ==> (m in s <==> m in s')
    ensures Count(s, n) == Count(s', n)
  {
    if n > 0 {
      AgreeingCounts(s, s', n - 1);
    }
  }

  lemma {:induction false} FullCount(s: set<int>, n: nat)
    ensures Count(s, n) == n <==> forall m :: 1 <= m <= n ==> m in s
  {
    if n > 0 {
      FullCount(s, n - 1);
    }
  }

  lemma {:induction false} ExplicitFrame(order: seq<Key>, vals: map<Key, Value>, vals': map<Key, Value>, y: nat)
    requires forall k <- order :: k in vals && k in vals'
    requires forall k <- order :: k.IsMonthOf(y) ==> vals[k] == vals'[k]
    ensures Explicit(order, vals, y) == Explicit(order, vals', y)
  {
    if order != [] {
      ExplicitFrame(order[..|order| - 1], vals, vals', y);
    }
  }

  function Without(order: seq<Key>, k: Key): (r: seq<Key>)
    ensures forall k' :: k' in r <==> k' in order && k' != k
  {
    if order == [] then []
    else
      var r := Without(order[..|order| - 1], k);
      if order[|order| - 1] == k then r else r + [order[|order| - 1]]
  }

  lemma {:induction false} ExplicitWithout(order: seq<Key>, vals: map<Key, Value>, k: Key, y: nat)
    requires !k.IsMonthOf(y) && forall k' <- order :: k' in vals
    ensures Explicit(Without(order, k), vals, y) == Explicit(order, vals, y)
  {
    if order != [] {
      var n := |order| - 1;
      ExplicitWithout(order[..n], vals, k, y);
      if order[n] != k {
        ExplicitSnoc(Without(order[..n], k), order[n], vals, y);
      }
    }
  }

  lemma ExplicitSnoc(order: seq<Key>, k: Key, vals: map<Key, Value>, y: nat)
    requires k in vals && forall k' <- order :: k' in vals
    ensures var e := Explicit(order, vals, y);
            Explicit(order + [k], vals, y) == if k.IsMonthOf(y) && vals[k].Num? then e[k.Number() := vals[k].r] else e
  {
    assert (order + [k])[..|order|] == order;
  }

  lemma {:induction false} WithoutKeepsDistinct(order: seq<Key>, k: Key)
    requires Distinct(order)
    ensures Distinct(Without(order, k))
  {
    if order != [] {
      var n := |order| - 1;
      WithoutKeepsDistinct(order[..n], k);
      var r := Without(order[..n], k);
      assert forall i :: 0 <= i < |r| ==> r[i] in order[..n];
    }
  }

  // ----- the outcome of expansion -----

  predicate Active(pm: PeriodMap, y: nat) {
    Year(y) in pm.vals && !pm.vals[Year(y)].Null?
  }

  function EvenSplit(remainder: real, ways: int): real
    requires ways > 0
  {
    remainder / ways as real
  }

  /** The even share of what the explicit months leave of the annual total. */
  function Share(annual: real, e: map<int, real>): real
    requires Count(e.Keys, 12) < 12
  {
    EvenSplit(annual - Sum(e, 12), 12 - Count(e.Keys, 12))
  }

  /** What an active year key offers to a month that has no value of its own. */
  function Fill(pm: PeriodMap, numeric: bool, y: nat, m: MonthNo): Option<Value>
    requires pm.Valid() && Active(pm, y)
  {
    var v := pm.vals[Year(y)];
    if numeric && v.Num? then
      var e := Explicit(pm.order, pm.vals, y);
      FullCount(e.Keys, 12);
      if m in e then None else Some(Num(Share(v.r, e)))
    else Some(v)
  }

  /** The entry under `k` after the one year key `Year(y)` has been expanded. */
  function YearExpandedAt(pm: PeriodMap, numeric: bool, y: nat, k: Key): Option<Value>
    requires pm.Valid() && Active(pm, y)
  {
    if k == Year(y) then None
    else if k.Month? && k.y == y && Blank(pm.vals, k) && Fill(pm, numeric, y, k.m).Some? then Fill(pm, numeric, y, k.m)
    else Lookup(pm.vals, k)
  }

  /** The entry under `k` after every year key has been expanded. */
  function ExpandedAt(pm: PeriodMap, numeric: bool, k: Key): Option<Value>
    requires pm.Valid()
  {
    if (k.Year? || k.Month?) && Active(pm, k.y) then YearExpandedAt(pm, numeric, k.y, k)
    else Lookup(pm.vals, k)
  }

  lemma FullYearOnlyDropsKey(pm: PeriodMap, y: nat)
    requires pm.Valid() && Active(pm, y) && pm.vals[Year(y)].Num?
    requires Count(Explicit(pm.order, pm.vals, y).Keys, 12) == 12
    ensures forall k :: YearExpandedAt(pm, true, y, k) == Lookup(pm.vals - {Year(y)}, k)
  {
    FullCount(Explicit(pm.order, pm.vals, y).Keys, 12);
  }

  /** The year key is gone and months 1 to `done` of the year have their expanded entries. */
  ghost predicate FilledUpTo(vals: map<Key, Value>, pm: PeriodMap, numeric: bool, y: nat, done: int)
    requires pm.Valid() && Active(pm, y)
  {
    forall k :: Lookup(vals, k) ==
                if k == Year(y) || (k.Month? && k.y == y && k.m <= done) then YearExpandedAt(pm, numeric, y, k)
                else Lookup(pm.vals, k)
  }

  /** One round of the month loop: fill the month if it is blank and the year offers it something. */
  lemma FillStep(vals: map<Key, Value>, vals': map<Key, Value>, pm: PeriodMap, numeric: bool, y: nat, month: MonthNo)
    requires pm.Valid() && Active(pm, y) && FilledUpTo(vals, pm, numeric, y, month - 1)
    requires var offer := Fill(pm, numeric, y, month);
             vals' == if Blank(vals, Month(y, month)) && offer.Some? then vals[Month(y, month) := offer.value] else vals
    ensures FilledUpTo(vals', pm, numeric, y, month)
  {
    assert Lookup(vals, Month(y, month)) == Lookup(pm.vals, Month(y, month));
  }

  lemma FilledStart(pm: PeriodMap, numeric: bool, y: nat)
    requires pm.Valid() && Active(pm, y)
    ensures FilledUpTo(pm.vals - {Year(y)}, pm, numeric, y, 0)
  {
  }

  /** The year keys among `done` are expanded, everything else is as it was. */
  ghost predicate ExpandedUpTo(vals: map<Key, Value>, pm: PeriodMap, done: seq<Key>, numeric: bool)
    requires pm.Valid()
  {
    forall k :: Lookup(vals, k) ==
                if (k.Year? || k.Month?) && Year(k.y) in done then ExpandedAt(pm, numeric, k) else Lookup(pm.vals, k)
  }

  lemma NothingExpandedYet(pm: PeriodMap, numeric: bool)
    requires pm.Valid()
    ensures ExpandedUpTo(pm.vals, pm, [], numeric)
  {
  }

  lemma KeyIsNew(pm: PeriodMap, i: nat)
    requires pm.Valid() && i < |pm.order|
    ensures pm.order[i] in pm.vals && pm.order[i] !in pm.order[..i]
    ensures pm.order[..i] + [pm.order[i]] == pm.order[..i + 1]
  {
    assert pm.order[i] in pm.order;
  }

  lemma AllExpanded(vals: map<Key, Value>, pm: PeriodMap, numeric: bool)
    requires pm.Valid() && ExpandedUpTo(vals, pm, pm.order, numeric)
    ensures forall k :: Lookup(vals, k) == ExpandedAt(pm, numeric, k)
  {
  }

  lemma YearDone(vals: map<Key, Value>, vals': map<Key, Value>, pm: PeriodMap, done: seq<Key>, numeric: bool, now: PeriodMap, y: nat)
    requires pm.Valid() && now.Valid() && now.vals == vals && ExpandedUpTo(vals, pm, done, numeric)
    requires Active(pm, y) && Active(now, y) && Year(y) !in done
    requires forall m: MonthNo :: YearExpandedAt(now, numeric, y, Month(y, m)) == YearExpandedAt(pm, numeric, y, Month(y, m))
    requires forall k :: Lookup(vals', k) == YearExpandedAt(now, numeric, y, k)
    ensures ExpandedUpTo(vals', pm, done + [Year(y)], numeric)
  {
    forall k ensures Lookup(vals', k) ==
                     if (k.Year? || k.Month?) && Year(k.y) in done + [Year(y)] then ExpandedAt(pm, numeric, k)
                     else Lookup(pm.vals, k) {
      assert Lookup(vals, k) == if (k.Year? || k.Month?) && Year(k.y) in done then ExpandedAt(pm, numeric, k) else Lookup(pm.vals, k);
      assert Lookup(vals', k) == YearExpandedAt(now, numeric, y, k);
    }
  }

  lemma OtherKeyDone(vals: map<Key, Value>, pm: PeriodMap, done: seq<Key>, numeric: bool, key: Key)
    requires pm.Valid() && ExpandedUpTo(vals, pm, done, numeric)
    requires key.Year? ==> !Active(pm, key.y)
    ensures ExpandedUpTo(vals, pm, done + [key], numeric)
  {
  }

  // ----- the live dictionary -----

  class PeriodDict {
    var order: seq<Key>
    var vals: map<Key, Value>

    constructor (pm: PeriodMap)
      ensures View() == pm
    {
      order, vals := pm.order, pm.vals;
    }

    function View(): PeriodMap
      reads this
    {
      PeriodMap(order, vals)
    }

    ghost predicate Valid()
      reads this
    {
      View().Valid()
    }

    method Delete(k: Key)
      requires Valid() && k in vals
      modifies this
      ensures Valid()
      ensures order == Without(old(order), k) && vals == old(vals) - {k}
    {
      WithoutKeepsDistinct(order, k);
      order, vals := Without(order, k), vals - {k};
    }

    method Put(k: Key, v: Value)
      requires Valid()
      modifies this
      ensures Valid()
      ensures vals == old(vals)[k := v]
      ensures order == if k in old(vals) then old(order) else old(order) + [k]
    {
      if k !in vals {
        order := order + [k];
      }
      vals := vals[k := v];
    }

    /** The `explicit_months` loop. */
    method ExplicitMonths(y: nat) returns (explicit: map<int, real>)
      requires Valid()
      ensures explicit == Explicit(order, vals, y)
    {
      explicit := map[];
      for i := 0 to |order|
        invariant explicit == Explicit(order[..i], vals, y)
      {
        assert order[..i + 1][..i] == order[..i];
        if order[i].IsMonthOf(y) && vals[order[i]].Num? {
          explicit := explicit[order[i].Number() := vals[order[i]].r];
        }
      }
      assert order[..|order|] == order;
    }

    /** What every step of an expansion of `y` leaves alone: the explicit months of other years. */
    ghost predicate SameElsewhere(pm: PeriodMap, y: nat)
      requires pm.Valid() && Valid()
      reads this
    {
      forall y' {:trigger Explicit(order, vals, y')} :: y' != y ==> Explicit(order, vals, y') == Explicit(pm.order, pm.vals, y')
    }

    method PutMonth(y: nat, m: MonthNo, v: Value, ghost pm: PeriodMap)
      requires Valid() && pm.Valid() && SameElsewhere(pm, y)
      modifies this
      ensures Valid() && vals == old(vals)[Month(y, m) := v] && SameElsewhere(pm, y)
    {
      Put(Month(y, m), v);
      forall y' | y' != y ensures Explicit(order, vals, y') == Explicit(pm.order, pm.vals, y') {
        ExplicitFrame(old(order), old(vals), vals, y');
        assert (old(order) + [Month(y, m)])[..|old(order)|] == old(order);
        assert Explicit(old(order), old(vals), y') == Explicit(pm.order, pm.vals, y');
      }
    }

    method DeleteYear(y: nat)
      requires Valid() && Year(y) in vals
      modifies this
      ensures Valid() && vals == old(vals) - {Year(y)}
      ensures forall y' {:trigger Explicit(order, vals, y')} :: Explicit(order, vals, y') == old(Explicit(order, vals, y'))
    {
      Delete(Year(y));
      forall y' ensures Explicit(order, vals, y') == old(Explicit(order, vals, y')) {
        ExplicitWithout(old(order), old(vals), Year(y), y');
        ExplicitFrame(order, old(vals), vals, y');
      }
    }

    method DistributeNumericYearValue(y: nat, annual: real)
      requires Valid() && Year(y) in vals && vals[Year(y)] == Num(annual)
      modifies this
      ensures Valid() && SameElsewhere(old(View()), y)
      ensures forall k :: Lookup(vals, k) == YearExpandedAt(old(View()), true, y, k)
    {
      ghost var pm := View();
      var explicit := ExplicitMonths(y);
      CountIsSize(explicit.Keys, 12);
      var unsetCount := 12 - |explicit|;
      assert unsetCount == 12 - Count(explicit.Keys, 12);
      DeleteYear(y);
      if unsetCount <= 0 {
        FullYearOnlyDropsKey(pm, y);
      } else {
        FillMonths(y, annual, explicit, unsetCount, pm);
      }
    }

    method FillMonths(y: nat, annual: real, explicit: map<int, real>, unsetCount: int, ghost pm: PeriodMap)
      requires Valid() && pm.Valid() && SameElsewhere(pm, y) && vals == pm.vals - {Year(y)}
      requires Active(pm, y) && pm.vals[Year(y)] == Num(annual) && explicit == Explicit(pm.order, pm.vals, y)
      requires unsetCount == 12 - Count(explicit.Keys, 12) > 0
      modifies this
      ensures Valid() && SameElsewhere(pm, y)
      ensures forall k :: Lookup(vals, k) == YearExpandedAt(pm, true, y, k)
    {
      var remainder := annual - Sum(explicit, 12);
      var perUnset := EvenSplit(remainder, unsetCount);
      FilledStart(pm, true, y);
      for month: int := 1 to 13
        invariant Valid() && SameElsewhere(pm, y)
        invariant FilledUpTo(vals, pm, true, y, month - 1)
      {
        ghost var before := vals;
        if month !in explicit {
          if Blank(vals, Month(y, month)) {
            PutMonth(y, month, Num(perUnset), pm);
          }
        }
        FillStep(before, vals, pm, true, y, month);
      }
    }

    method BroadcastYearValue(y: nat, value: Value, ghost numeric: bool)
      requires Valid() && Year(y) in vals && vals[Year(y)] == value
      requires !value.Null? && !(numeric && value.Num?)
      modifies this
      ensures Valid() && SameElsewhere(old(View()), y)
      ensures forall k :: Lookup(vals, k) == YearExpandedAt(old(View()), numeric, y, k)
    {
      ghost var pm := View();
      DeleteYear(y);
      FilledStart(pm, numeric, y);
      for month: int := 1 to 13
        invariant Valid() && SameElsewhere(pm, y)
        invariant FilledUpTo(vals, pm, numeric, y, month - 1)
      {
        ghost var before := vals;
        if Blank(vals, Month(y, month)) {
          PutMonth(y, month, value, pm);
        }
        FillStep(before, vals, pm, numeric, y, month);
      }
    }

    /** `_expand_year_keys_in_place` on a month-defined variable. */
    method ExpandYearKeysInPlace(numeric: bool)
      requires Valid()
      modifies this
      ensures Valid()
      ensures forall k :: Lookup(vals, k) == ExpandedAt(old(View()), numeric, k)
    {
      ghost var pm := View();
      var keys := order;
      NothingExpandedYet(pm, numeric);
      assert keys[..0] == [];
      for i := 0 to |keys|
        invariant Valid() && ExpandedUpTo(vals, pm, keys[..i], numeric) && OthersExplicit(pm, keys[..i])
      {
        KeyIsNew(pm, i);
        ExpandKey(keys[i], numeric, pm, keys[..i]);
      }
      assert keys[..|keys|] == keys;
      AllExpanded(vals, pm, numeric);
    }

    /** Years still to be expanded have their explicit months. */
    ghost predicate OthersExplicit(pm: PeriodMap, done: seq<Key>)
      requires pm.Valid() && Valid()
      reads this
    {
      forall y {:trigger Explicit(order, vals, y)} ::
        Year(y) !in done ==> Explicit(order, vals, y) == Explicit(pm.order, pm.vals, y)
    }

    method ExpandKey(key: Key, numeric: bool, ghost pm: PeriodMap, ghost done: seq<Key>)
      requires Valid() && pm.Valid() && ExpandedUpTo(vals, pm, done, numeric) && OthersExplicit(pm, done)
      requires key in pm.vals && key !in done
      modifies this
      ensures Valid() && ExpandedUpTo(vals, pm, done + [key], numeric) && OthersExplicit(pm, done + [key])
    {
      assert key.Year? ==> Lookup(vals, key) == Lookup(pm.vals, key);
      if !key.Year? || vals[key].Null? {
        OtherKeyDone(vals, pm, done, numeric, key);
        return;
      }
      ghost var now := View();
      var value := vals[key];
      assert forall m: MonthNo :: Lookup(vals, Month(key.y, m)) == Lookup(pm.vals, Month(key.y, m));
      YearStep(pm, now, numeric, key.y);
      if numeric && value.Num? {
        DistributeNumericYearValue(key.y, value.r);
      } else {
        BroadcastYearValue(key.y, value, numeric);
      }
      YearDone(now.vals, vals, pm, done, numeric, now, key.y);
    }
  }

  /** Expanding one year sees only that year's part of the map. */
  lemma YearStep(pm: PeriodMap, now: PeriodMap, numeric: bool, y: nat)
    requires pm.Valid() && now.Valid() && Active(pm, y)
    requires Lookup(now.vals, Year(y)) == Lookup(pm.vals, Year(y))
    requires forall m: MonthNo :: Lookup(now.vals, Month(y, m)) == Lookup(pm.vals, Month(y, m))
    requires Explicit(now.order, now.vals, y) == Explicit(pm.order, pm.vals, y)
    ensures Active(now, y)
    ensures forall m: MonthNo :: YearExpandedAt(now, numeric, y, Month(y, m)) == YearExpandedAt(pm, numeric, y, Month(y, m))
  {
    assert Year(y) in now.vals;
    forall m: MonthNo ensures YearExpandedAt(now, numeric, y, Month(y, m)) == YearExpandedAt(pm, numeric, y, Month(y, m)) {
      assert Lookup(now.vals, Month(y, m)) == Lookup(pm.vals, Month(y, m));
    }
  }
}
