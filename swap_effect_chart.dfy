/**
 * The swap-effect chart of VisualizationController (`createSwapEffectDataset`): for each day
 * of a period on which a meal was swapped, the total of one nutrient over that day's original
 * meals, before swaps and with each swapped meal replaced by its swap.
 */
module SwapEffectChart {
  import opened Wrappers
  import opened NutrientMaps
  import opened Sorting
  import opened Model
  import opened DBManager
  import opened NutrientCalculator
  import opened VisualizationController

  /**
   * A map from ids to meals filled by one pass over `meals`: a meal goes under the id `key`
   * gives it, if any, and a later meal under the same id replaces an earlier one.
   */
  function IndexBy(meals: seq<Meal>, key: Meal -> Option<int>): map<int, Meal> {
    if meals == [] then map[]
    else
      var m := meals[|meals| - 1];
      var rest := IndexBy(meals[..|meals| - 1], key);
      match key(m)
      case None => rest
      case Some(id) => rest[id := m]
  }

  /** A meal that is not a swap is an original, filed under its own id. */
  function OriginalKey(m: Meal): Option<int> {
    if m.isSwapped then None else Some(m.mealId)
  }

  /** A swap that names its original is filed under the original's id; one that does not is dropped. */
  function SwapKey(m: Meal): Option<int> {
    if m.isSwapped && m.originalMealId.Some? then m.originalMealId else None
  }

  /**
   * An id is in the index exactly when some meal is filed under it, and it then holds the last
   * such meal.
   */
  lemma {:induction false} IndexBySpec(meals: seq<Meal>, key: Meal -> Option<int>, id: int)
    ensures id in IndexBy(meals, key) <==> exists i :: 0 <= i < |meals| && key(meals[i]) == Some(id)
    ensures id in IndexBy(meals, key) ==>
      (exists i :: 0 <= i < |meals| && key(meals[i]) == Some(id) && IndexBy(meals, key)[id] == meals[i]
         && forall j :: i < j < |meals| ==> key(meals[j]) != Some(id))
    decreases |meals|
  {
    if meals != [] {
      var n := |meals| - 1;
      IndexBySpec(meals[..n], key, id);
      assert forall i :: 0 <= i < n ==> meals[..n][i] == meals[i];
    }
  }

  /**
   * The loop of `createSwapEffectDataset` that files the meals of the period: originals by
   * their id, swaps by the id of the meal they replaced.
   */
  method PairMeals(allMealsInRange: seq<Meal>) returns (originalMealsById: map<int, Meal>, swappedMealsByOriginalId: map<int, Meal>)
    ensures originalMealsById == IndexBy(allMealsInRange, OriginalKey)
    ensures swappedMealsByOriginalId == IndexBy(allMealsInRange, SwapKey)
  {
    originalMealsById, swappedMealsByOriginalId := map[], map[];
    for i := 0 to |allMealsInRange|
      invariant originalMealsById == IndexBy(allMealsInRange[..i], OriginalKey)
      invariant swappedMealsByOriginalId == IndexBy(allMealsInRange[..i], SwapKey)
    {
      var meal := allMealsInRange[i];
      if meal.isSwapped && meal.originalMealId.Some? {
        swappedMealsByOriginalId := swappedMealsByOriginalId[meal.originalMealId.value := meal];
      } else if !meal.isSwapped {
        originalMealsById := originalMealsById[meal.mealId := meal];
      }
      assert allMealsInRange[..i + 1][..i] == allMealsInRange[..i];
    }
    assert allMealsInRange[..|allMealsInRange|] == allMealsInRange;
  }

  /**
   * Originals are the meals that are not swaps, under their own id; swaps are the swapped meals
   * that name an original, under that original's id; a swap that names none is ignored.
   */
  lemma PairingSpec(meals: seq<Meal>, id: int)
    ensures id in IndexBy(meals, OriginalKey) <==>
      exists i :: 0 <= i < |meals| && !meals[i].isSwapped && meals[i].mealId == id
    ensures id in IndexBy(meals, OriginalKey) ==>
      !IndexBy(meals, OriginalKey)[id].isSwapped && IndexBy(meals, OriginalKey)[id].mealId == id
    ensures id in IndexBy(meals, SwapKey) <==>
      exists i :: 0 <= i < |meals| && meals[i].isSwapped && meals[i].originalMealId == Some(id)
    ensures id in IndexBy(meals, SwapKey) ==>
      IndexBy(meals, SwapKey)[id].isSwapped && IndexBy(meals, SwapKey)[id].originalMealId == Some(id)
  {
    IndexBySpec(meals, OriginalKey, id);
    IndexBySpec(meals, SwapKey, id);
  }

  /** A non-empty set of ids has a member to pick. */
  lemma SomeId(ids: set<int>)
    requires ids != {}
    ensures exists id :: id in ids
  {
    if forall id :: id !in ids {
      assert false;
    }
  }

  /** The originals whose date falls on `day` (the "yyyy-MM-dd" group of that day). */
  function DailyOriginals(originals: map<int, Meal>, day: int): map<int, Meal> {
    map id | id in originals && originals[id].date.day == day :: originals[id]
  }

  /** Whether some meal of the day has a swap filed under its id. */
  predicate HasSwap(daily: map<int, Meal>, swaps: map<int, Meal>) {
    exists id :: id in daily && daily[id].mealId in swaps
  }

  /** `v` is what `getNutrientValue` can return for the nutrients of meal `m`. */
  ghost predicate IsMealValue(t: Tables, nutrient: string, m: Meal, v: real) {
    IsLookupResult(MealNutrients(t, Some(m.ingredients)), SearchName(nutrient), true, v)
  }

  /**
   * The values counted for one original: `before` is its own value; `after` is the value of
   * its swap if it has one, and the same value again if it has none.
   */
  ghost predicate IsMealPair(t: Tables, nutrient: string, m: Meal, swaps: map<int, Meal>, before: real, after: real) {
    && IsMealValue(t, nutrient, m, before)
    && if m.mealId in swaps then IsMealValue(t, nutrient, swaps[m.mealId], after) else after == before
  }

  /** `bv` and `av` give such a pair of values for some of the meals of the day. */
  ghost predicate IsPartialValuation(t: Tables, nutrient: string, daily: map<int, Meal>, swaps: map<int, Meal>,
                                     bv: map<int, real>, av: map<int, real>)
  {
    && bv.Keys <= daily.Keys && av.Keys == bv.Keys
    && forall id :: id in bv ==> IsMealPair(t, nutrient, daily[id], swaps, bv[id], av[id])
  }

  /** ... and for every meal of the day. */
  ghost predicate IsDayValuation(t: Tables, nutrient: string, daily: map<int, Meal>, swaps: map<int, Meal>,
                                 bv: map<int, real>, av: map<int, real>)
  {
    IsPartialValuation(t, nutrient, daily, swaps, bv, av) && bv.Keys == daily.Keys
  }

  lemma ExtendValuation(t: Tables, nutrient: string, daily: map<int, Meal>, swaps: map<int, Meal>,
                        bv: map<int, real>, av: map<int, real>, id: int, b: real, a: real)
    requires IsPartialValuation(t, nutrient, daily, swaps, bv, av)
    requires id in daily && IsMealPair(t, nutrient, daily[id], swaps, b, a)
    ensures IsPartialValuation(t, nutrient, daily, swaps, bv[id := b], av[id := a])
  {
  }

  /** The "Before Swaps" and "After Swaps" values of a day: the sums of such a valuation. */
  ghost predicate IsDayValues(t: Tables, nutrient: string, daily: map<int, Meal>, swaps: map<int, Meal>,
                              before: real, after: real)
  {
    exists bv, av :: IsDayValuation(t, nutrient, daily, swaps, bv, av) && before == SumValues(bv) && after == SumValues(av)
  }

  /** The body of the loop over one day's originals: the meal's value before and after swaps. */
  method MealPair(t: Tables, nutrient: string, originalMeal: Meal, swaps: map<int, Meal>) returns (b: real, a: real)
    ensures IsMealPair(t, nutrient, originalMeal, swaps, b, a)
  {
    var beforeNutrients := CalculateNutrientsForMeal(t, Some(originalMeal.ingredients));
    b := GetNutrientValue(beforeNutrients, nutrient);
    if originalMeal.mealId in swaps {
      var swappedMeal := swaps[originalMeal.mealId];
      var afterNutrients := CalculateNutrientsForMeal(t, Some(swappedMeal.ingredients));
      a := GetNutrientValue(afterNutrients, nutrient);
    } else {
      // the same lookup on the same map, which Java answers the same way
      a := b;
    }
  }

  /** The loop over one day's originals: both totals, and whether any of them was swapped. */
  method DayTotals(t: Tables, nutrient: string, daily: map<int, Meal>, swaps: map<int, Meal>)
    returns (beforeValue: real, afterValue: real, wasSwappedOnThisDay: bool)
    ensures wasSwappedOnThisDay <==> HasSwap(daily, swaps)
    ensures IsDayValues(t, nutrient, daily, swaps, beforeValue, afterValue)
  {
    beforeValue, afterValue, wasSwappedOnThisDay := 0.0, 0.0, false;
    ghost var bv: map<int, real> := map[];
    ghost var av: map<int, real> := map[];
    var pending: set<int> := daily.Keys;
    while pending != {}
      invariant pending <= daily.Keys && bv.Keys == daily.Keys - pending
      invariant IsPartialValuation(t, nutrient, daily, swaps, bv, av)
      invariant beforeValue == SumValues(bv) && afterValue == SumValues(av)
      invariant wasSwappedOnThisDay <==> exists id :: id in bv && daily[id].mealId in swaps
      decreases pending
    {
      SomeId(pending);
      var id: int :| id in pending;
      var b, a := MealPair(t, nutrient, daily[id], swaps);
      if daily[id].mealId in swaps {
        wasSwappedOnThisDay := true;
      }
      ExtendValuation(t, nutrient, daily, swaps, bv, av, id, b, a);
      SumValuesInsert(bv, id, b);
      SumValuesInsert(av, id, a);
      beforeValue := beforeValue + b;
      afterValue := afterValue + a;
      bv := bv[id := b];
      av := av[id := a];
      pending := pending - {id};
    }
    assert IsDayValuation(t, nutrient, daily, swaps, bv, av);
  }

  /** A day none of whose meals was swapped has the same total before and after. */
  lemma UnswappedDayUnchanged(t: Tables, nutrient: string, daily: map<int, Meal>, swaps: map<int, Meal>,
                              before: real, after: real)
    requires IsDayValues(t, nutrient, daily, swaps, before, after) && !HasSwap(daily, swaps)
    ensures before == after
  {
    var bv, av :| IsDayValuation(t, nutrient, daily, swaps, bv, av) && before == SumValues(bv) && after == SumValues(av);
    forall id | id in av ensures av[id] == bv[id] {
      assert id in bv;
      assert IsMealPair(t, nutrient, daily[id], swaps, bv[id], av[id]);
      assert daily[id].mealId !in swaps;
    }
    assert av == bv;
  }

  /** The days on which the originals with the given ids fall. */
  function DaysOf(originals: map<int, Meal>, ids: set<int>): set<int> {
    set id | id in ids && id in originals :: originals[id].date.day
  }

  /** The loop that collects the days of the originals, each once. */
  method DaysOfOriginals(originals: map<int, Meal>) returns (found: seq<int>)
    ensures Distinct(found)
    ensures forall d :: d in found <==> d in DaysOf(originals, originals.Keys)
  {
    found := [];
    var pending := originals.Keys;
    ghost var done: set<int> := {};
    while pending != {}
      invariant pending <= originals.Keys && done == originals.Keys - pending
      invariant Distinct(found)
      invariant forall d :: d in found <==> d in DaysOf(originals, done)
      decreases pending
    {
      SomeId(pending);
      var id: int :| id in pending;
      if originals[id].date.day !in found {
        found := found + [originals[id].date.day];
      }
      pending := pending - {id};
      done := done + {id};
    }
  }

  function DayKey(day: int): real {
    day as real
  }

  /** Sorting distinct days by their value puts them in strictly increasing order. */
  lemma SortedDaysIncrease(found: seq<int>)
    requires Distinct(found)
    ensures forall i, j :: 0 <= i < j < |SortBy(found, DayKey)| ==> SortBy(found, DayKey)[i] < SortBy(found, DayKey)[j]
    ensures forall d :: d in SortBy(found, DayKey) <==> d in found
  {
    var days := SortBy(found, DayKey);
    SortByMembers(found, DayKey);
    DistinctPermutation(found, days);
    forall i, j | 0 <= i < j < |days| ensures days[i] < days[j] {
      assert DayKey(days[i]) <= DayKey(days[j]);
    }
  }

  /** The days of the originals, once each, in increasing order (the order of their "yyyy-MM-dd" keys). */
  method SortedDays(originals: map<int, Meal>) returns (days: seq<int>)
    ensures forall i, j :: 0 <= i < j < |days| ==> days[i] < days[j]
    ensures forall d :: d in days <==> d in DaysOf(originals, originals.Keys)
  {
    var found := DaysOfOriginals(originals);
    days := SortBy(found, DayKey);
    SortedDaysIncrease(found);
  }

  /** One entry of the sorted grouping: a day and its originals by id. */
  datatype DayGroup = DayGroup(day: int, meals: map<int, Meal>)

  /**
   * The grouping of the originals by day, sorted by day: one group per day on which some
   * original falls, holding exactly the originals of that day.
   */
  method GroupByDay(originals: map<int, Meal>) returns (groups: seq<DayGroup>)
    ensures forall i, j :: 0 <= i < j < |groups| ==> groups[i].day < groups[j].day
    ensures forall i :: 0 <= i < |groups| ==> groups[i].meals == DailyOriginals(originals, groups[i].day)
    ensures forall d :: d in DaysOf(originals, originals.Keys) <==> exists i :: 0 <= i < |groups| && groups[i].day == d
  {
    var days := SortedDays(originals);
    groups := [];
    for n := 0 to |days|
      invariant |groups| == n
      invariant forall i :: 0 <= i < n ==> groups[i] == DayGroup(days[i], DailyOriginals(originals, days[i]))
    {
      groups := groups + [DayGroup(days[n], DailyOriginals(originals, days[n]))];
    }
    forall d | d in DaysOf(originals, originals.Keys) ensures exists i :: 0 <= i < |groups| && groups[i].day == d {
      var i :| 0 <= i < |days| && days[i] == d;
      assert groups[i].day == d;
    }
  }

  /** One column pair of the bar chart: a day and its totals before and after swaps. */
  datatype DayBars = DayBars(day: int, before: real, after: real)

  /** The entry of the chart for a group of originals on which some meal was swapped. */
  ghost predicate IsGroupEntry(t: Tables, nutrient: string, swaps: map<int, Meal>, g: DayGroup, e: DayBars) {
    && e.day == g.day
    && HasSwap(g.meals, swaps)
    && IsDayValues(t, nutrient, g.meals, swaps, e.before, e.after)
  }

  /** An entry of the chart: a day on which some original was swapped, with that day's totals. */
  ghost predicate IsDayEntry(t: Tables, nutrient: string, originals: map<int, Meal>, swaps: map<int, Meal>, e: DayBars) {
    IsGroupEntry(t, nutrient, swaps, DayGroup(e.day, DailyOriginals(originals, e.day)), e)
  }

  /**
   * `createSwapEffectDataset(start, end, nutrient)`, given all meals of the period (originals
   * and swaps alike): one entry per day on which some original was swapped, in increasing order
   * of day, holding the day's total of the nutrient over its originals before swaps and with
   * each swapped original replaced by its swap.
   */
  method SwapEffectDataset(t: Tables, allMealsInRange: seq<Meal>, nutrient: string) returns (dataset: seq<DayBars>)
    ensures forall i, j :: 0 <= i < j < |dataset| ==> dataset[i].day < dataset[j].day
    ensures forall i :: 0 <= i < |dataset| ==>
      IsDayEntry(t, nutrient, IndexBy(allMealsInRange, OriginalKey), IndexBy(allMealsInRange, SwapKey), dataset[i])
    ensures forall d :: HasSwap(DailyOriginals(IndexBy(allMealsInRange, OriginalKey), d), IndexBy(allMealsInRange, SwapKey)) ==>
      exists i :: 0 <= i < |dataset| && dataset[i].day == d
  {
    if |allMealsInRange| == 0 {
      return [];
    }
    var originalMealsById, swappedMealsByOriginalId := PairMeals(allMealsInRange);
    var groups := GroupByDay(originalMealsById);
    ghost var from;
    dataset, from := DayEntries(t, nutrient, groups, swappedMealsByOriginalId);
    EntriesAreDayEntries(t, nutrient, originalMealsById, swappedMealsByOriginalId, groups, dataset, from);
    EntriesCoverSwappedDays(originalMealsById, swappedMealsByOriginalId, groups, dataset, from);
    EntriesIncrease(swappedMealsByOriginalId, groups, dataset, from);
  }

  /** Entries taken from the swapped groups in order are in increasing order of day. */
  lemma EntriesIncrease(swaps: map<int, Meal>, groups: seq<DayGroup>, dataset: seq<DayBars>, from: seq<int>)
    requires forall i, j :: 0 <= i < j < |groups| ==> groups[i].day < groups[j].day
    requires from == SwappedGroups(groups, swaps, |groups|) && |from| == |dataset|
    requires forall i :: 0 <= i < |dataset| ==> 0 <= from[i] < |groups| && dataset[i].day == groups[from[i]].day
    ensures forall i, j :: 0 <= i < j < |dataset| ==> dataset[i].day < dataset[j].day
  {
    SwappedGroupsSpec(groups, swaps, |groups|);
  }

  /** Each entry taken from a group of the grouping is the entry of its day. */
  lemma EntriesAreDayEntries(t: Tables, nutrient: string, originals: map<int, Meal>, swaps: map<int, Meal>,
                             groups: seq<DayGroup>, dataset: seq<DayBars>, from: seq<int>)
    requires forall i :: 0 <= i < |groups| ==> groups[i].meals == DailyOriginals(originals, groups[i].day)
    requires EntriesFrom(t, nutrient, swaps, groups, dataset, from)
    requires forall i :: 0 <= i < |dataset| ==> dataset[i].day == groups[from[i]].day
    ensures forall i :: 0 <= i < |dataset| ==> IsDayEntry(t, nutrient, originals, swaps, dataset[i])
  {
    forall i | 0 <= i < |dataset| ensures IsDayEntry(t, nutrient, originals, swaps, dataset[i]) {
      assert IsGroupEntry(t, nutrient, swaps, groups[from[i]], dataset[i]);
      assert groups[from[i]] == DayGroup(dataset[i].day, DailyOriginals(originals, dataset[i].day));
    }
  }

  /** Every day on which an original was swapped has its group, and so its entry. */
  lemma EntriesCoverSwappedDays(originals: map<int, Meal>, swaps: map<int, Meal>,
                                groups: seq<DayGroup>, dataset: seq<DayBars>, from: seq<int>)
    requires forall i :: 0 <= i < |groups| ==> groups[i].meals == DailyOriginals(originals, groups[i].day)
    requires forall d :: d in DaysOf(originals, originals.Keys) <==> exists i :: 0 <= i < |groups| && groups[i].day == d
    requires from == SwappedGroups(groups, swaps, |groups|) && |from| == |dataset|
    requires forall i :: 0 <= i < |dataset| ==> 0 <= from[i] < |groups| && dataset[i].day == groups[from[i]].day
    ensures forall d :: HasSwap(DailyOriginals(originals, d), swaps) ==> exists i :: 0 <= i < |dataset| && dataset[i].day == d
  {
    SwappedGroupsSpec(groups, swaps, |groups|);
    forall d | HasSwap(DailyOriginals(originals, d), swaps)
      ensures exists i :: 0 <= i < |dataset| && dataset[i].day == d
    {
      var id :| id in DailyOriginals(originals, d) && DailyOriginals(originals, d)[id].mealId in swaps;
      assert d in DaysOf(originals, originals.Keys);
      var k :| 0 <= k < |groups| && groups[k].day == d;
      var i :| 0 <= i < |from| && from[i] == k;
      assert dataset[i].day == d;
    }
  }

  /** The body of the loop over the groups: a group's entry, and whether the day is kept. */
  method DayEntry(t: Tables, nutrient: string, swaps: map<int, Meal>, g: DayGroup)
    returns (e: DayBars, wasSwappedOnThisDay: bool)
    ensures e.day == g.day
    ensures wasSwappedOnThisDay <==> HasSwap(g.meals, swaps)
    ensures wasSwappedOnThisDay ==> IsGroupEntry(t, nutrient, swaps, g, e)
  {
    var beforeValue, afterValue;
    beforeValue, afterValue, wasSwappedOnThisDay := DayTotals(t, nutrient, g.meals, swaps);
    e := DayBars(g.day, beforeValue, afterValue);
  }

  /** Each entry has the values of the group `from` names for it. */
  ghost predicate EntriesFrom(t: Tables, nutrient: string, swaps: map<int, Meal>, groups: seq<DayGroup>,
                              dataset: seq<DayBars>, from: seq<int>)
  {
    && |from| == |dataset|
    && (forall i :: 0 <= i < |dataset| ==> 0 <= from[i] < |groups|)
    && forall i {:trigger IsGroupEntry(t, nutrient, swaps, groups[from[i]], dataset[i])} ::
         0 <= i < |dataset| && 0 <= from[i] < |groups| ==> IsGroupEntry(t, nutrient, swaps, groups[from[i]], dataset[i])
  }

  lemma EntriesFromSnoc(t: Tables, nutrient: string, swaps: map<int, Meal>, groups: seq<DayGroup>,
                        dataset: seq<DayBars>, from: seq<int>, n: int, e: DayBars)
    requires EntriesFrom(t, nutrient, swaps, groups, dataset, from)
    requires 0 <= n < |groups| && IsGroupEntry(t, nutrient, swaps, groups[n], e)
    ensures EntriesFrom(t, nutrient, swaps, groups, dataset + [e], from + [n])
  {
    var d, f := dataset + [e], from + [n];
    forall i | 0 <= i < |d|
      ensures 0 <= f[i] < |groups| && IsGroupEntry(t, nutrient, swaps, groups[f[i]], d[i])
    {
      if i < |dataset| {
        assert d[i] == dataset[i] && f[i] == from[i];
        assert IsGroupEntry(t, nutrient, swaps, groups[from[i]], dataset[i]);
      } else {
        assert d[i] == e && f[i] == n;
      }
    }
  }

  /** The indexes, in increasing order, of those of the first `n` groups on which some meal was swapped. */
  ghost function SwappedGroups(groups: seq<DayGroup>, swaps: map<int, Meal>, n: nat): seq<int>
    requires n <= |groups|
  {
    if n == 0 then []
    else SwappedGroups(groups, swaps, n - 1) + (if HasSwap(groups[n - 1].meals, swaps) then [n - 1] else [])
  }

  /** Exactly the groups with a swap are listed, each once, in increasing order. */
  lemma {:induction false} SwappedGroupsSpec(groups: seq<DayGroup>, swaps: map<int, Meal>, n: nat)
    requires n <= |groups|
    ensures forall k :: k in SwappedGroups(groups, swaps, n) <==> 0 <= k < n && HasSwap(groups[k].meals, swaps)
    ensures forall i :: 0 <= i < |SwappedGroups(groups, swaps, n)| ==> 0 <= SwappedGroups(groups, swaps, n)[i] < n
    ensures forall i, j :: 0 <= i < j < |SwappedGroups(groups, swaps, n)| ==>
      SwappedGroups(groups, swaps, n)[i] < SwappedGroups(groups, swaps, n)[j]
  {
    if n > 0 {
      SwappedGroupsSpec(groups, swaps, n - 1);
    }
  }

  /**
   * The loop over the sorted groups that keeps the days with a swap; `from` says which group
   * each entry comes from.
   */
  method DayEntries(t: Tables, nutrient: string, groups: seq<DayGroup>, swaps: map<int, Meal>)
    returns (dataset: seq<DayBars>, ghost from: seq<int>)
    ensures from == SwappedGroups(groups, swaps, |groups|)
    ensures EntriesFrom(t, nutrient, swaps, groups, dataset, from)
    ensures forall i :: 0 <= i < |dataset| ==> dataset[i].day == groups[from[i]].day
  {
    dataset, from := [], [];
    for n := 0 to |groups|
      invariant from == SwappedGroups(groups, swaps, n)
      invariant |from| == |dataset|
      invariant forall i :: 0 <= i < |dataset| ==> 0 <= from[i] < n && dataset[i].day == groups[from[i]].day
      invariant EntriesFrom(t, nutrient, swaps, groups, dataset, from)
    {
      var e, wasSwappedOnThisDay := DayEntry(t, nutrient, swaps, groups[n]);
      assert SwappedGroups(groups, swaps, n + 1) == from + (if wasSwappedOnThisDay then [n] else []);
      if wasSwappedOnThisDay {
        EntriesFromSnoc(t, nutrient, swaps, groups, dataset, from, n, e);
        dataset := dataset + [e];
        from := from + [n];
      }
    }
  }
}
