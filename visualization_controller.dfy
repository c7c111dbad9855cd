/**
 * VisualizationController: the numbers behind the charts. Daily averages of the nutrients of
 * the active meals in a period, the macro-nutrient and micro-nutrient pies built from them,
 * the weight eaten per Canada's Food Guide group, and the before/after totals of the days on
 * which a swap replaced a meal.
 *
 * The meals of the period come from `getMealsForUser` with a date range, whose body is not
 * part of this model: they are inputs, as is the number of days the period spans. A chart
 * dataset is a list of slices (in insertion order) or a map (when the source fills it from a
 * HashMap, whose order is unspecified).
 */
module VisualizationController {
  import opened Wrappers
  import opened JavaStrings
  import opened NutrientMaps
  import opened IngredientPattern
  import opened Sorting
  import opened Seqs
  import opened Model
  import opened DBManager
  import opened NutrientCalculator

  // ----- normalizeFoodGroup -----

  const VegetablesAndFruit := "Vegetables and Fruit"
  const GrainProducts := "Grain Products"
  const MilkAndAlternatives := "Milk and Alternatives"
  const MeatAndAlternatives := "Meat and Alternatives"
  const OtherGroup := "Other"

  /** The five groups of the food guide the charts use. */
  const GuideGroups := [VegetablesAndFruit, GrainProducts, MilkAndAlternatives, MeatAndAlternatives, OtherGroup]

  const VegetableWords := ["vegetable", "fruit"]
  const GrainWords := ["grain", "cereal", "baked"]
  const MilkWords := ["dairy", "milk"]
  const MeatWords := ["meat", "poultry", "legumes", "nut", "pork", "beef", "finfish", "shellfish", "sausage"]

  /** Whether the (lower-cased) group name contains one of `words`. */
  predicate Mentions(lower: string, words: seq<string>) {
    exists w :: w in words && Contains(lower, w)
  }

  /**
   * `normalizeFoodGroup(dbFoodGroup)`: the database's group name, lower-cased, mapped to a
   * food-guide group by the first rule whose words it contains.
   */
  function NormalizeFoodGroup(dbFoodGroup: string): (r: string)
    ensures r in GuideGroups
  {
    var lower := ToLower(dbFoodGroup);
    if Mentions(lower, VegetableWords) then VegetablesAndFruit
    else if Mentions(lower, GrainWords) then GrainProducts
    else if Mentions(lower, MilkWords) then MilkAndAlternatives
    else if Mentions(lower, MeatWords) then MeatAndAlternatives
    else OtherGroup
  }

  /**
   * The rules apply in order and the first that matches wins: each group is the result exactly
   * when its words occur in the lower-cased name and no earlier rule's words do.
   */
  lemma NormalizeFoodGroupSpec(dbFoodGroup: string)
    ensures var lower := ToLower(dbFoodGroup); var r := NormalizeFoodGroup(dbFoodGroup);
      && (r == VegetablesAndFruit <==> Mentions(lower, VegetableWords))
      && (r == GrainProducts <==> !Mentions(lower, VegetableWords) && Mentions(lower, GrainWords))
      && (r == MilkAndAlternatives <==>
            !Mentions(lower, VegetableWords) && !Mentions(lower, GrainWords) && Mentions(lower, MilkWords))
      && (r == MeatAndAlternatives <==>
            !Mentions(lower, VegetableWords) && !Mentions(lower, GrainWords) && !Mentions(lower, MilkWords)
            && Mentions(lower, MeatWords))
      && (r == OtherGroup <==>
            !Mentions(lower, VegetableWords) && !Mentions(lower, GrainWords) && !Mentions(lower, MilkWords)
            && !Mentions(lower, MeatWords))
  {
  }

  lemma LowerOfUpper(s: string)
    ensures ToLower(ToUpper(s)) == ToLower(s)
  {
  }

  /** The group depends only on the letters of the name, not on their case. */
  lemma NormalizeFoodGroupIgnoresCase(dbFoodGroup: string)
    ensures NormalizeFoodGroup(ToUpper(dbFoodGroup)) == NormalizeFoodGroup(dbFoodGroup)
  {
    LowerOfUpper(dbFoodGroup);
  }

  // ----- getNutrientValue -----

  /** The key prefix `getNutrientValue` searches for: the upper-cased name, with two aliases. */
  function SearchName(nutrientName: string): string {
    var upper := ToUpper(nutrientName);
    if upper == "CALORIES" then EnergyKcal
    else if upper == "FIBER" then "FIBRE"
    else upper
  }

  lemma UpperCaseLetters(s: string, t: string)
    requires forall i :: 0 <= i < |t| ==> UpperChar(t[i]) == t[i]
    ensures ToUpper(s) == t <==> EqualsIgnoreCase(s, t)
  {
  }

  /**
   * "Calories" in any case searches for the calorie key, "Fiber" in any case for "FIBRE", and
   * any other name for its upper-case form.
   */
  lemma SearchNameSpec(nutrientName: string)
    ensures EqualsIgnoreCase(nutrientName, "CALORIES") ==> SearchName(nutrientName) == EnergyKcal
    ensures EqualsIgnoreCase(nutrientName, "FIBER") ==> SearchName(nutrientName) == "FIBRE"
    ensures !EqualsIgnoreCase(nutrientName, "CALORIES") && !EqualsIgnoreCase(nutrientName, "FIBER") ==>
      SearchName(nutrientName) == ToUpper(nutrientName)
  {
    UpperCaseLetters(nutrientName, "CALORIES");
    UpperCaseLetters(nutrientName, "FIBER");
  }

  /**
   * `getNutrientValue(nutrients, nutrientName)`: the value of a key whose upper-case form starts
   * with the search name, or 0.0 when no key does.
   */
  method GetNutrientValue(nutrients: NutrientMap, nutrientName: string) returns (v: real)
    ensures IsLookupResult(nutrients, SearchName(nutrientName), true, v)
  {
    v := LookupByPrefix(nutrients, SearchName(nutrientName), true);
  }

  // ----- getAverageDailyNutrients -----

  function MealTotalsOf(t: Tables): Meal -> NutrientMap {
    (m: Meal) => MealNutrients(t, Some(m.ingredients))
  }

  /** The nutrients of all `meals` merged, one meal after the other. */
  function MealsTotal(t: Tables, meals: seq<Meal>): NutrientMap {
    SumMaps(Apply(MealTotalsOf(t), meals))
  }

  /** A total spread over `days` days. */
  function PerDay(total: real, days: nat): (r: real)
    requires days >= 1
    ensures r * days as real == total
  {
    total / days as real
  }

  /** Every total divided by the number of days. */
  function DailyAverage(total: NutrientMap, days: nat): (r: NutrientMap)
    requires days >= 1
    ensures r.Keys == total.Keys
    ensures forall k :: k in r ==> r[k] == PerDay(total[k], days)
  {
    map k | k in total :: PerDay(total[k], days)
  }

  /**
   * `getAverageDailyNutrients`: empty when there are no meals; otherwise the merged nutrients of
   * the meals, each divided by the number of days (`days` stands for the period's length in
   * whole days plus one, so it is at least 1).
   */
  method AverageDailyNutrients(t: Tables, meals: seq<Meal>, days: nat) returns (avg: NutrientMap)
    requires days >= 1
    ensures avg == DailyAverage(MealsTotal(t, meals), days)
  {
    if |meals| == 0 {
      return map[];
    }
    var totalNutrients: NutrientMap := map[];
    var i := 0;
    while i < |meals|
      invariant 0 <= i <= |meals|
      invariant totalNutrients == SumMaps(Apply(MealTotalsOf(t), meals[..i]))
    {
      var mealNutrients := CalculateNutrientsForMeal(t, Some(meals[i].ingredients));
      totalNutrients := MergeInto(totalNutrients, mealNutrients);
      SumOfAppliedPrefix(MealTotalsOf(t), meals, i);
      i := i + 1;
    }
    assert meals[..|meals|] == meals;
    avg := DivideByDays(totalNutrients, days);
  }

  /** The last loop of `getAverageDailyNutrients`: each total divided by the number of days. */
  method DivideByDays(totalNutrients: NutrientMap, days: nat) returns (avg: NutrientMap)
    requires days >= 1
    ensures avg == DailyAverage(totalNutrients, days)
  {
    ghost var spec := DailyAverage(totalNutrients, days);
    avg := map[];
    var pending := totalNutrients.Keys;
    while pending != {}
      invariant pending <= totalNutrients.Keys
      invariant avg == Restrict(spec, totalNutrients.Keys - pending)
      decreases pending
    {
      var k :| k in pending;
      RestrictInsert(spec, totalNutrients.Keys - pending, k);
      avg := avg[k := totalNutrients[k] / days as real];
      assert totalNutrients.Keys - (pending - {k}) == (totalNutrients.Keys - pending) + {k};
      pending := pending - {k};
    }
    RestrictAll(spec, totalNutrients.Keys);
  }

  /**
   * A nutrient is in the merged total exactly when some meal has it, and its total is the sum
   * of its amounts over the meals.
   */
  lemma MealsTotalSpec(cs: seq<NutrientMap>, k: string)
    ensures k in SumMaps(cs) <==> exists i :: 0 <= i < |cs| && k in cs[i]
    ensures Get(SumMaps(cs), k) == SumAt(cs, k)
  {
    SumMapsKeys(cs, k);
    SumMapsValue(cs, k);
  }

  /**
   * A nutrient is averaged exactly when some meal has it, and its average is the sum of its
   * amounts over the meals spread over the days.
   */
  lemma AverageDailySpec(t: Tables, meals: seq<Meal>, days: nat, k: string)
    requires days >= 1
    ensures var avg := DailyAverage(MealsTotal(t, meals), days);
      && (k in avg <==> exists i :: 0 <= i < |meals| && k in MealTotalsOf(t)(meals[i]))
      && Get(avg, k) == PerDay(SumAt(Apply(MealTotalsOf(t), meals), k), days)
  {
    var cs := Apply(MealTotalsOf(t), meals);
    var total := SumMaps(cs);
    assert MealsTotal(t, meals) == total;
    MealsTotalSpec(cs, k);
    if exists i :: 0 <= i < |meals| && k in MealTotalsOf(t)(meals[i]) {
      var i :| 0 <= i < |meals| && k in MealTotalsOf(t)(meals[i]);
      assert k in cs[i];
    }
  }

  /** With no meals in the period there is nothing to average. */
  lemma NoMealsNoAverage(t: Tables, days: nat)
    requires days >= 1
    ensures DailyAverage(MealsTotal(t, []), days) == map[]
  {
  }

  // ----- createMacroNutrientDataset -----

  /** One slice of a pie chart: a label and its value. */
  datatype Slice = Slice(key: string, value: real)

  const ProteinPrefix := "PROTEIN"
  const CarbohydratePrefix := "CARBOHYDRATE, TOTAL"
  const FatPrefix := "FAT (TOTAL LIPIDS)"

  /** Two prefixes with different first characters never both start one key. */
  lemma PrefixesExclusive(k: string, p: string, q: string)
    requires p != [] && q != [] && p[0] != q[0] && StartsWith(k, p)
    ensures !StartsWith(k, q)
  {
    assert k[0] == k[..|p|][0];
  }

  /**
   * The loop of `createMacroNutrientDataset` over the averages: every key starting with one of
   * the three prefixes overwrites that macro's value, so each ends as the value of some key with
   * its prefix, or 0 when there is none.
   */
  method MacroValues(avg: NutrientMap) returns (protein: real, carbs: real, fat: real)
    ensures IsLookupResult(avg, ProteinPrefix, false, protein)
    ensures IsLookupResult(avg, CarbohydratePrefix, false, carbs)
    ensures IsLookupResult(avg, FatPrefix, false, fat)
  {
    protein, carbs, fat := 0.0, 0.0, 0.0;
    var pending := avg.Keys;
    while pending != {}
      invariant pending <= avg.Keys
      invariant IsLookupResult(Restrict(avg, avg.Keys - pending), ProteinPrefix, false, protein)
      invariant IsLookupResult(Restrict(avg, avg.Keys - pending), CarbohydratePrefix, false, carbs)
      invariant IsLookupResult(Restrict(avg, avg.Keys - pending), FatPrefix, false, fat)
      decreases pending
    {
      var k :| k in pending;
      ghost var seen := Restrict(avg, avg.Keys - pending);
      RestrictInsert(avg, avg.Keys - pending, k);
      assert avg.Keys - (pending - {k}) == (avg.Keys - pending) + {k};
      LookupResultInsert(seen, ProteinPrefix, false, protein, k, avg[k]);
      LookupResultInsert(seen, CarbohydratePrefix, false, carbs, k, avg[k]);
      LookupResultInsert(seen, FatPrefix, false, fat, k, avg[k]);
      if StartsWith(k, ProteinPrefix) {
        PrefixesExclusive(k, ProteinPrefix, CarbohydratePrefix);
        PrefixesExclusive(k, ProteinPrefix, FatPrefix);
        protein := avg[k];
      } else if StartsWith(k, CarbohydratePrefix) {
        PrefixesExclusive(k, CarbohydratePrefix, FatPrefix);
        carbs := avg[k];
      } else if StartsWith(k, FatPrefix) {
        fat := avg[k];
      }
      pending := pending - {k};
    }
    RestrictAll(avg, avg.Keys);
  }

  /**
   * `createMacroNutrientDataset`: three slices, protein, carbohydrates and fat, each holding
   * the daily average of a nutrient with that prefix, or 0 when the period has none.
   */
  method MacroNutrientDataset(t: Tables, meals: seq<Meal>, days: nat) returns (dataset: seq<Slice>)
    requires days >= 1
    ensures var avg := DailyAverage(MealsTotal(t, meals), days);
      && |dataset| == 3
      && dataset[0].key == "Protein (g)" && IsLookupResult(avg, ProteinPrefix, false, dataset[0].value)
      && dataset[1].key == "Carbohydrates (g)" && IsLookupResult(avg, CarbohydratePrefix, false, dataset[1].value)
      && dataset[2].key == "Fat (g)" && IsLookupResult(avg, FatPrefix, false, dataset[2].value)
  {
    var avgDailyNutrients := AverageDailyNutrients(t, meals, days);
    var protein, carbs, fat := MacroValues(avgDailyNutrients);
    dataset := [Slice("Protein (g)", protein), Slice("Carbohydrates (g)", carbs), Slice("Fat (g)", fat)];
  }

  // ----- createMicroNutrientDataset -----

  const MicroExcludedPrefixes :=
    [ProteinPrefix, CarbohydratePrefix, FatPrefix, "ENERGY (KILOJOULES)", EnergyKcal, "MOISTURE", "FIBRE, TOTAL DIETARY"]
  const TopMicroCount := 5
  const OtherNutrients := "Other Nutrients"
  const OtherThreshold := 0.01

  /** A key that is not a macro-nutrient, an energy unit, moisture or fibre. */
  predicate IsMicroKey(k: string) {
    forall p :: p in MicroExcludedPrefixes ==> !StartsWith(k, p)
  }

  /** The stream filter: the averages with a positive value under a micro-nutrient key. */
  function MicroNutrients(avg: NutrientMap): NutrientMap {
    map k | k in avg && IsMicroKey(k) && avg[k] > 0.0 :: avg[k]
  }

  /** The sort key that puts larger values first. */
  function DescendingValue(m: NutrientMap): string -> real {
    k => -Get(m, k)
  }

  /**
   * `top` is what sorting the entries by value, largest first, and `limit(5)` keep: distinct
   * keys of `micro` in descending order of value, five of them unless there are fewer (then
   * all of them), and no key left out has a larger value than a key kept.
   */
  ghost predicate IsTopFive(micro: NutrientMap, top: seq<string>) {
    && |top| == (if |micro| <= TopMicroCount then |micro| else TopMicroCount)
    && Distinct(top)
    && (forall k :: k in top ==> k in micro)
    && (|micro| <= TopMicroCount ==> forall k :: k in micro ==> k in top)
    && (forall i, j :: 0 <= i < j < |top| ==> Get(micro, top[i]) >= Get(micro, top[j]))
    && (forall k, j :: k in micro && k !in top && 0 <= j < |top| ==> Get(micro, k) <= Get(micro, top[j]))
  }

  /** The keys of `micro`, once each, in the map's own (unspecified) order. */
  method KeysOf(micro: NutrientMap) returns (entries: seq<string>)
    ensures Distinct(entries)
    ensures forall k :: k in entries <==> k in micro
    ensures |entries| == |micro|
  {
    entries := [];
    var pending := micro.Keys;
    while pending != {}
      invariant pending <= micro.Keys
      invariant Distinct(entries)
      invariant forall k :: k in entries <==> k in micro && k !in pending
      invariant |entries| + |pending| == |micro.Keys|
      decreases pending
    {
      var k :| k in pending;
      entries := entries + [k];
      pending := pending - {k};
    }
  }

  /**
   * Sorting all the keys of `micro` by descending value and keeping the first five gives a top
   * five.
   */
  lemma SortedKeysAreTopFive(micro: NutrientMap, entries: seq<string>)
    requires Distinct(entries) && |entries| == |micro|
    requires forall k :: k in entries <==> k in micro
    ensures IsTopFive(micro, Take(SortBy(entries, DescendingValue(micro)), TopMicroCount))
  {
    var sorted := SortBy(entries, DescendingValue(micro));
    var top := Take(sorted, TopMicroCount);
    SortedPrefixIsSmallest(entries, DescendingValue(micro), TopMicroCount);
    DistinctPermutation(entries, sorted);
    DistinctPrefix(sorted, |top|);
    DescendingOrder(micro, top);
    DescendingRest(micro, entries, top);
    TopFiveOfParts(micro, entries, top);
  }

  /** A prefix of a sequence without repeats has none either. */
  lemma DistinctPrefix(s: seq<string>, n: nat)
    requires Distinct(s) && n <= |s|
    ensures Distinct(s[..n])
  {
  }

  /** Ascending by the negated value is descending by the value. */
  lemma DescendingOrder(micro: NutrientMap, top: seq<string>)
    requires SortedBy(top, DescendingValue(micro))
    ensures forall i, j :: 0 <= i < j < |top| ==> Get(micro, top[i]) >= Get(micro, top[j])
  {
    forall i, j | 0 <= i < j < |top| ensures Get(micro, top[i]) >= Get(micro, top[j]) {
      assert DescendingValue(micro)(top[i]) <= DescendingValue(micro)(top[j]);
    }
  }

  /** No key left out has a larger value than a key kept. */
  lemma DescendingRest(micro: NutrientMap, entries: seq<string>, top: seq<string>)
    requires forall k :: k in entries <==> k in micro
    requires forall y, z :: y in entries && y !in top && z in top ==>
      DescendingValue(micro)(z) <= DescendingValue(micro)(y)
    ensures forall k, j :: k in micro && k !in top && 0 <= j < |top| ==> Get(micro, k) <= Get(micro, top[j])
  {
    forall k, j | k in micro && k !in top && 0 <= j < |top| ensures Get(micro, k) <= Get(micro, top[j]) {
      assert top[j] in top;
      assert DescendingValue(micro)(top[j]) <= DescendingValue(micro)(k);
    }
  }

  /** The facts about the kept keys that make them a top five. */
  lemma TopFiveOfParts(micro: NutrientMap, entries: seq<string>, top: seq<string>)
    requires |entries| == |micro| && forall k :: k in entries <==> k in micro
    requires |top| == (if |entries| <= TopMicroCount then |entries| else TopMicroCount)
    requires Distinct(top) && forall k :: k in top ==> k in entries
    requires |entries| <= TopMicroCount ==> forall k :: k in entries ==> k in top
    requires forall i, j :: 0 <= i < j < |top| ==> Get(micro, top[i]) >= Get(micro, top[j])
    requires forall k, j :: k in micro && k !in top && 0 <= j < |top| ==> Get(micro, k) <= Get(micro, top[j])
    ensures IsTopFive(micro, top)
  {
  }

  /**
   * `sorted(comparingByValue().reversed()).limit(5)` over the entries of `micro`, taken in the
   * map's own order (ties keep that order).
   */
  method TopMicroNutrients(micro: NutrientMap) returns (top: seq<string>)
    ensures IsTopFive(micro, top)
  {
    var entries := KeysOf(micro);
    top := Take(SortBy(entries, DescendingValue(micro)), TopMicroCount);
    SortedKeysAreTopFive(micro, entries);
  }

  /** `DefaultPieDataset.setValue`: the slice with that key gets the value, or a new slice is added last. */
  function SetValue(pie: seq<Slice>, key: string, value: real): seq<Slice> {
    if pie == [] then [Slice(key, value)]
    else if pie[0].key == key then [Slice(key, value)] + pie[1..]
    else [pie[0]] + SetValue(pie[1..], key, value)
  }

  /** Setting a key that no slice has appends a slice for it. */
  lemma {:induction false} SetValueAppends(pie: seq<Slice>, key: string, value: real)
    requires forall i :: 0 <= i < |pie| ==> pie[i].key != key
    ensures SetValue(pie, key, value) == pie + [Slice(key, value)]
    decreases |pie|
  {
    if pie != [] {
      assert forall i :: 0 <= i < |pie[1..]| ==> pie[1..][i] == pie[i + 1];
      SetValueAppends(pie[1..], key, value);
      assert pie + [Slice(key, value)] == [pie[0]] + (pie[1..] + [Slice(key, value)]);
    }
  }

  /** Setting the key of slice `i`, the first with that key, replaces its value in place. */
  lemma {:induction false} SetValueReplaces(pie: seq<Slice>, key: string, value: real, i: int)
    requires 0 <= i < |pie| && pie[i].key == key
    requires forall j :: 0 <= j < i ==> pie[j].key != key
    ensures SetValue(pie, key, value) == pie[i := Slice(key, value)]
    decreases i
  {
    if i > 0 {
      assert forall j :: 0 <= j < i - 1 ==> pie[1..][j] == pie[j + 1];
      SetValueReplaces(pie[1..], key, value, i - 1);
      assert pie[i := Slice(key, value)] == [pie[0]] + pie[1..][i - 1 := Slice(key, value)];
    }
  }

  function SliceOf(micro: NutrientMap): string -> Slice {
    k => Slice(k, Get(micro, k))
  }

  /** One slice per kept key, with its value, in the kept order. */
  function TopSlices(micro: NutrientMap, top: seq<string>): seq<Slice> {
    Apply(SliceOf(micro), top)
  }

  /** The micro-nutrients left out of the top. */
  function LeftOut(micro: NutrientMap, top: seq<string>): NutrientMap {
    map k | k in micro && k !in top :: micro[k]
  }

  /** The sum of the micro-nutrients left out of the top. */
  ghost function Remainder(micro: NutrientMap, top: seq<string>): real {
    SumValues(LeftOut(micro, top))
  }

  /** The pie: the kept slices, then "Other Nutrients" when the remainder exceeds 0.01. */
  ghost function MicroPie(micro: NutrientMap, top: seq<string>): seq<Slice> {
    var other := Remainder(micro, top);
    if other > OtherThreshold then SetValue(TopSlices(micro, top), OtherNutrients, other)
    else TopSlices(micro, top)
  }

  /** The pies `createMicroNutrientDataset` can build from the averages `avg`. */
  ghost predicate IsMicroDataset(avg: NutrientMap, dataset: seq<Slice>) {
    exists top :: IsTopFive(MicroNutrients(avg), top) && dataset == MicroPie(MicroNutrients(avg), top)
  }

  /** The stream that sums the micro-nutrients the top leaves out. */
  method RemainderSum(micro: NutrientMap, top: seq<string>) returns (otherSum: real)
    ensures otherSum == Remainder(micro, top)
  {
    ghost var rest := LeftOut(micro, top);
    otherSum := 0.0;
    var pending := micro.Keys;
    while pending != {}
      invariant pending <= micro.Keys
      invariant otherSum == SumValues(Restrict(rest, micro.Keys - pending))
      decreases pending
    {
      var k :| k in pending;
      assert micro.Keys - (pending - {k}) == (micro.Keys - pending) + {k};
      if k !in top {
        SumRestrictStep(rest, micro.Keys - pending, k);
        otherSum := otherSum + micro[k];
      } else {
        RestrictAbsent(rest, micro.Keys - pending, k);
      }
      pending := pending - {k};
    }
    assert micro.Keys - pending == micro.Keys;
    RestrictAll(rest, micro.Keys);
  }

  /** `topNutrients.forEach(dataset::setValue)` on a fresh dataset: the keys are distinct, so each adds a slice. */
  method FillPie(micro: NutrientMap, top: seq<string>) returns (dataset: seq<Slice>)
    requires Distinct(top)
    ensures dataset == TopSlices(micro, top)
  {
    dataset := [];
    var i := 0;
    while i < |top|
      invariant 0 <= i <= |top|
      invariant dataset == TopSlices(micro, top[..i])
    {
      assert forall j :: 0 <= j < i ==> dataset[j].key == top[j];
      SetValueAppends(dataset, top[i], Get(micro, top[i]));
      dataset := SetValue(dataset, top[i], Get(micro, top[i]));
      ApplyPrefix(SliceOf(micro), top, i);
      i := i + 1;
    }
    assert top[..|top|] == top;
  }

  /**
   * `createMicroNutrientDataset`: nothing when there are no averages; otherwise the five
   * largest micro-nutrients as slices, largest first, then an "Other Nutrients" slice holding
   * the sum of the rest when that sum exceeds 0.01.
   */
  method MicroNutrientDataset(t: Tables, meals: seq<Meal>, days: nat) returns (dataset: seq<Slice>)
    requires days >= 1
    ensures IsMicroDataset(DailyAverage(MealsTotal(t, meals), days), dataset)
  {
    var avgDailyNutrients := AverageDailyNutrients(t, meals, days);
    if |avgDailyNutrients| == 0 {
      assert avgDailyNutrients == map[];
      assert MicroNutrients(avgDailyNutrients) == map[];
      assert IsTopFive(map[], []);
      assert MicroPie(map[], []) == [];
      return [];
    }
    var microNutrients := MicroNutrients(avgDailyNutrients);
    var topNutrients := TopMicroNutrients(microNutrients);
    var otherSum := RemainderSum(microNutrients, topNutrients);
    dataset := FillPie(microNutrients, topNutrients);
    if otherSum > OtherThreshold {
      dataset := SetValue(dataset, OtherNutrients, otherSum);
    }
    assert dataset == MicroPie(microNutrients, topNutrients);
  }

  /** A slice that is a micro-nutrient kept with its average value. */
  predicate IsAverageSlice(avg: NutrientMap, s: Slice) {
    s.key in avg && IsMicroKey(s.key) && avg[s.key] > 0.0 && s.value == avg[s.key]
  }

  lemma TopSlicesAreAverages(avg: NutrientMap, top: seq<string>)
    requires forall k :: k in top ==> k in MicroNutrients(avg)
    ensures forall i :: 0 <= i < |top| ==> IsAverageSlice(avg, TopSlices(MicroNutrients(avg), top)[i])
  {
    var micro := MicroNutrients(avg);
    forall i | 0 <= i < |top| ensures IsAverageSlice(avg, TopSlices(micro, top)[i]) {
      assert top[i] in top;
      assert TopSlices(micro, top)[i] == Slice(top[i], micro[top[i]]);
    }
  }

  /** Every slice but "Other Nutrients" is a micro-nutrient kept with its average value. */
  lemma MicroPieSlices(avg: NutrientMap, dataset: seq<Slice>)
    requires IsMicroDataset(avg, dataset)
    ensures |dataset| <= TopMicroCount + 1
    ensures forall i :: 0 <= i < |dataset| && dataset[i].key != OtherNutrients ==> IsAverageSlice(avg, dataset[i])
  {
    var micro := MicroNutrients(avg);
    var top :| IsTopFive(micro, top) && dataset == MicroPie(micro, top);
    var slices := TopSlices(micro, top);
    TopSlicesAreAverages(avg, top);
    var other := Remainder(micro, top);
    if other > OtherThreshold {
      if i :| 0 <= i < |slices| && slices[i].key == OtherNutrients {
        var j := FirstWithKey(slices, OtherNutrients, i);
        SetValueReplaces(slices, OtherNutrients, other, j);
      } else {
        SetValueAppends(slices, OtherNutrients, other);
      }
    }
  }

  /** The position of the first slice with `key`, given one at `i`. */
  lemma FirstWithKey(pie: seq<Slice>, key: string, i: int) returns (j: int)
    requires 0 <= i < |pie| && pie[i].key == key
    ensures 0 <= j <= i && pie[j].key == key && forall l :: 0 <= l < j ==> pie[l].key != key
  {
    j := i;
    while j > 0 && exists l :: 0 <= l < j && pie[l].key == key
      invariant 0 <= j <= i && pie[j].key == key
      decreases j
    {
      var l :| 0 <= l < j && pie[l].key == key;
      j := l;
    }
  }

  /** With five micro-nutrients or fewer, all are kept and there is no "Other Nutrients" slice. */
  lemma FewMicroNutrientsNoOther(micro: NutrientMap, top: seq<string>)
    requires IsTopFive(micro, top) && |micro| <= TopMicroCount
    ensures MicroPie(micro, top) == TopSlices(micro, top)
  {
    assert LeftOut(micro, top) == map[];
  }

  /** The kept keys and the remainder account for the whole of the micro-nutrients. */
  lemma MicroPieCoversAll(micro: NutrientMap, top: seq<string>)
    ensures SumValues(micro) == SumValues(Restrict(micro, set k | k in top)) + Remainder(micro, top)
  {
    var kept := set k | k in top;
    SumValuesSplit(micro, kept);
    assert Restrict(micro, micro.Keys - kept) == LeftOut(micro, top);
  }

  // ----- createCfgComparisonDataset -----

  const Uncategorized := "Uncategorized"

  /** The grams of group 1 of the shared pattern on the trimmed line, or 0 when it does not match. */
  function LineWeight(line: string): (w: real)
    ensures w >= 0.0
  {
    match ParseLine(line)
    case None => 0.0
    case Some(e) => QuantityValue(e.quantity)
  }

  /** Group 1 of the match on the trimmed line is the quantity `ParseLine` reads. */
  lemma LineWeightOfMatch(line: string)
    ensures LineWeight(line) == match Match(Trim(line)) case None => 0.0 case Some(m) => QuantityValue(m.quantity)
  {
  }

  /** The food-guide group of a line's food, or "Uncategorized" when the line has no group. */
  function GroupOf(t: Tables, line: string): string {
    match GetFoodGroup(t, Trim(line))
    case Some(g) => NormalizeFoodGroup(g)
    case None => Uncategorized
  }

  /** What one line merges into the weights: nothing when blank, else its weight under its group. */
  function LineWeights(t: Tables, line: string): NutrientMap {
    if IsBlank(line) then map[] else map[GroupOf(t, line) := LineWeight(line)]
  }

  function LineWeightsOf(t: Tables): string -> NutrientMap {
    line => LineWeights(t, line)
  }

  /** The ingredient lines of all `meals`, meal after meal. */
  function MealLines(meals: seq<Meal>): seq<string> {
    if meals == [] then [] else MealLines(meals[..|meals| - 1]) + SplitLines(meals[|meals| - 1].ingredients)
  }

  /** The weights after every line of every meal has been merged. */
  function GroupWeights(t: Tables, meals: seq<Meal>): NutrientMap {
    SumMaps(Apply(LineWeightsOf(t), MealLines(meals)))
  }

  /** The groups whose total weight is positive, with their totals. */
  function PositiveWeights(weights: NutrientMap): map<string, real> {
    map g | g in weights && weights[g] > 0.0 :: weights[g]
  }

  /** The merge of one line, as the loop body does it. */
  method MergeLine(t: Tables, foodGroupWeights: NutrientMap, ingredient: string) returns (r: NutrientMap)
    ensures r == Add(foodGroupWeights, LineWeights(t, ingredient))
  {
    r := foodGroupWeights;
    if !IsBlank(ingredient) {
      var weight := 0.0;
      var matcher := Match(Trim(ingredient));
      if matcher.Some? {
        weight := QuantityValue(matcher.value.quantity);
      }
      LineWeightOfMatch(ingredient);
      assert weight == LineWeight(ingredient);
      var foodGroup := GetFoodGroup(t, Trim(ingredient));
      var group := if foodGroup.Some? then NormalizeFoodGroup(foodGroup.value) else Uncategorized;
      assert group == GroupOf(t, ingredient);
      MergeOneKey(r, group, weight);
      r := r[group := Get(r, group) + weight];
    } else {
      AddEmpty(r);
    }
  }

  /**
   * `createCfgComparisonDataset`: every non-blank line of every meal adds its weight to its
   * group, and the groups with a positive total make up the dataset.
   */
  method CfgComparisonDataset(t: Tables, meals: seq<Meal>) returns (dataset: map<string, real>)
    ensures dataset == PositiveWeights(GroupWeights(t, meals))
  {
    if |meals| == 0 {
      return map[];
    }
    var foodGroupWeights: NutrientMap := map[];
    var i := 0;
    while i < |meals|
      invariant 0 <= i <= |meals|
      invariant foodGroupWeights == SumMaps(Apply(LineWeightsOf(t), MealLines(meals[..i])))
    {
      var ingredients := SplitLines(meals[i].ingredients);
      ghost var done := MealLines(meals[..i]);
      var j := 0;
      assert done + ingredients[..j] == done;
      while j < |ingredients|
        invariant 0 <= j <= |ingredients|
        invariant foodGroupWeights == SumMaps(Apply(LineWeightsOf(t), done + ingredients[..j]))
      {
        foodGroupWeights := MergeLine(t, foodGroupWeights, ingredients[j]);
        SumOfAppliedAfter(LineWeightsOf(t), done, ingredients, j);
        j := j + 1;
      }
      assert meals[..i + 1][..i] == meals[..i];
      assert ingredients[..j] == ingredients;
      i := i + 1;
    }
    assert meals[..|meals|] == meals;
    dataset := map g | g in foodGroupWeights && foodGroupWeights[g] > 0.0 :: foodGroupWeights[g];
  }

  /** Every group in the weights is one of the five food-guide groups or "Uncategorized". */
  lemma GroupWeightsKeys(t: Tables, meals: seq<Meal>, g: string)
    requires g in GroupWeights(t, meals)
    ensures g in GuideGroups || g == Uncategorized
  {
    var lines := MealLines(meals);
    var cs := Apply(LineWeightsOf(t), lines);
    SumMapsKeys(cs, g);
    var i :| 0 <= i < |cs| && g in cs[i];
    LineGroupIsKnown(t, lines[i], g);
  }

  lemma LineGroupIsKnown(t: Tables, line: string, g: string)
    requires g in LineWeights(t, line)
    ensures g in GuideGroups || g == Uncategorized
  {
    assert g == GroupOf(t, line);
  }

  /** No group weighs less than nothing. */
  lemma GroupWeightsNonNegative(t: Tables, meals: seq<Meal>)
    ensures forall g :: g in GroupWeights(t, meals) ==> GroupWeights(t, meals)[g] >= 0.0
  {
    var cs := Apply(LineWeightsOf(t), MealLines(meals));
    SumMapsNonNegative(cs);
  }

  /** A reference: the weights of the non-blank lines whose group is `g`, added up. */
  function LinesWeight(t: Tables, lines: seq<string>, g: string): real {
    if lines == [] then 0.0
    else
      var w := if !IsBlank(lines[0]) && GroupOf(t, lines[0]) == g then LineWeight(lines[0]) else 0.0;
      w + LinesWeight(t, lines[1..], g)
  }

  /** The total of each group is the sum of the weights of the non-blank lines in that group. */
  lemma {:induction false} GroupWeightOfLines(t: Tables, lines: seq<string>, g: string)
    ensures SumAt(Apply(LineWeightsOf(t), lines), g) == LinesWeight(t, lines, g)
    decreases |lines|
  {
    if lines != [] {
      ApplyTail(LineWeightsOf(t), lines);
      GroupWeightOfLines(t, lines[1..], g);
    }
  }

  lemma GroupWeightsSpec(t: Tables, meals: seq<Meal>, g: string)
    ensures Get(GroupWeights(t, meals), g) == LinesWeight(t, MealLines(meals), g)
  {
    SumMapsValue(Apply(LineWeightsOf(t), MealLines(meals)), g);
    GroupWeightOfLines(t, MealLines(meals), g);
  }
}
