/**
 * NutrientCalculator: the nutrient totals of a meal's ingredient text. Each line of the form
 * "<grams>g <description>" adds its food's per-100 g profile, scaled to the grams, into one
 * running map; lines that are blank or do not match are skipped.
 */
module NutrientCalculator {
  import opened Wrappers
  import opened JavaStrings
  import opened NutrientMaps
  import opened IngredientPattern
  import opened DBManager
  import opened Seqs

  /** `(value / 100.0) * grams`: the amount in `grams` of a food with `per100g` per 100 g. */
  function PerGrams(per100g: real, grams: real): (r: real)
    ensures per100g >= 0.0 && grams >= 0.0 ==> r >= 0.0
    ensures per100g == 0.0 ==> r == 0.0
  {
    (per100g / 100.0) * grams
  }

  /** The amounts in `grams` of every nutrient of a per-100 g profile. */
  function ForGrams(per100g: NutrientMap, grams: real): (r: NutrientMap)
    ensures r.Keys == per100g.Keys
    ensures forall k :: k in r ==> r[k] == PerGrams(per100g[k], grams)
  {
    map k | k in per100g :: PerGrams(per100g[k], grams)
  }

  /** The ingredient a line stands for: none when it is blank or does not match the pattern. */
  function ParsedLine(line: string): Option<Ingredient> {
    if IsBlank(line) then None else ParseLine(line)
  }

  /** The amounts of one ingredient. */
  function EntryContribution(t: Tables, e: Ingredient): NutrientMap {
    ForGrams(ComprehensiveProfile(t, e.description), QuantityValue(e.quantity))
  }

  /** What one line merges into the totals. */
  function LineContribution(t: Tables, line: string): NutrientMap {
    match ParsedLine(line)
    case None => map[]
    case Some(e) => EntryContribution(t, e)
  }

  function ContributionOf(t: Tables): string -> NutrientMap {
    line => LineContribution(t, line)
  }

  /** The contributions of `lines`, one per line, in order. */
  function Contributions(t: Tables, lines: seq<string>): seq<NutrientMap> {
    Apply(ContributionOf(t), lines)
  }

  /** The totals after the loop has merged the contributions of `lines`, first to last. */
  function TotalsOver(t: Tables, lines: seq<string>): NutrientMap {
    SumMaps(Contributions(t, lines))
  }

  /** `calculateNutrientsForMeal(ingredients)`; None stands for a null text. */
  function MealNutrients(t: Tables, ingredients: Option<string>): (r: NutrientMap)
    ensures ingredients.None? || IsBlank(ingredients.value) ==> r == map[]
  {
    match ingredients
    case None => map[]
    case Some(text) => if IsBlank(text) then map[] else TotalsOver(t, SplitLines(text))
  }

  /** `calculateNutrientsForMeal`: split into lines, skip the unusable ones, merge the rest. */
  method CalculateNutrientsForMeal(t: Tables, ingredients: Option<string>) returns (totalNutrients: NutrientMap)
    ensures totalNutrients == MealNutrients(t, ingredients)
  {
    totalNutrients := map[];
    if ingredients.None? || IsBlank(ingredients.value) {
      return;
    }
    var ingredientLines := SplitLines(ingredients.value);
    var i := 0;
    while i < |ingredientLines|
      invariant 0 <= i <= |ingredientLines|
      invariant totalNutrients == TotalsOver(t, ingredientLines[..i])
    {
      var line := ingredientLines[i];
      TotalsOverStep(t, ingredientLines, i);
      if !IsBlank(line) {
        var matched := ParseLine(line);
        if matched.Some? {
          var grams := QuantityValue(matched.value.quantity);
          var description := matched.value.description;
          var nutrientsPer100g := ComprehensiveProfile(t, description);
          totalNutrients := MergeInto(totalNutrients, ForGrams(nutrientsPer100g, grams));
        }
      }
      i := i + 1;
    }
    assert ingredientLines[..i] == ingredientLines;
  }

  /** One more line merges its contribution into the totals. */
  lemma TotalsOverStep(t: Tables, lines: seq<string>, i: int)
    requires 0 <= i < |lines|
    ensures TotalsOver(t, lines[..i + 1]) == Add(TotalsOver(t, lines[..i]), LineContribution(t, lines[i]))
    ensures ParsedLine(lines[i]).None? ==> TotalsOver(t, lines[..i + 1]) == TotalsOver(t, lines[..i])
    ensures ParsedLine(lines[i]).Some? ==>
      TotalsOver(t, lines[..i + 1]) == Add(TotalsOver(t, lines[..i]), EntryContribution(t, ParsedLine(lines[i]).value))
  {
    SumOfAppliedPrefix(ContributionOf(t), lines, i);
    AddEmpty(TotalsOver(t, lines[..i]));
  }

  /** Folding the maps of one more element merges that element's map. */
  lemma SumOfAppliedPrefix<A>(f: A -> NutrientMap, s: seq<A>, i: int)
    requires 0 <= i < |s|
    ensures SumMaps(Apply(f, s[..i + 1])) == Add(SumMaps(Apply(f, s[..i])), f(s[i]))
  {
    ApplyPrefix(f, s, i);
    assert Apply(f, s[..i + 1])[..i] == Apply(f, s[..i]);
  }

  /** The same step when the loop runs over `ys` after having merged `xs`. */
  lemma SumOfAppliedAfter<A>(f: A -> NutrientMap, xs: seq<A>, ys: seq<A>, j: int)
    requires 0 <= j < |ys|
    ensures SumMaps(Apply(f, xs + ys[..j + 1])) == Add(SumMaps(Apply(f, xs + ys[..j])), f(ys[j]))
  {
    assert xs + ys[..j + 1] == (xs + ys[..j]) + [ys[j]];
    ApplyAppend(f, xs + ys[..j], [ys[j]]);
    SumMapsSnoc(Apply(f, xs + ys[..j]), f(ys[j]));
  }

  // ----- an independent reference: the amount of one nutrient, line by line -----

  /** How much of nutrient `k` one line adds: its grams times the per-100 g amount over 100. */
  function LineAmount(t: Tables, line: string, k: string): real {
    match ParsedLine(line)
    case None => 0.0
    case Some(e) => PerGrams(Get(ComprehensiveProfile(t, e.description), k), QuantityValue(e.quantity))
  }

  /** The sum of the lines' amounts of nutrient `k`. */
  function LinesAmount(t: Tables, lines: seq<string>, k: string): real {
    if lines == [] then 0.0 else LineAmount(t, lines[0], k) + LinesAmount(t, lines[1..], k)
  }

  /** The reference amount of one line is what its contribution holds. */
  lemma LineAmountIsContribution(t: Tables, line: string, k: string)
    ensures Get(LineContribution(t, line), k) == LineAmount(t, line, k)
  {
  }

  lemma {:induction false} LinesAmountIsSum(t: Tables, lines: seq<string>, k: string)
    ensures SumAt(Contributions(t, lines), k) == LinesAmount(t, lines, k)
    decreases |lines|
  {
    if lines != [] {
      LineAmountIsContribution(t, lines[0], k);
      LinesAmountIsSum(t, lines[1..], k);
      ApplyTail(ContributionOf(t), lines);
    }
  }

  /**
   * The totals hold nutrient `k` exactly when some usable line's food has it, and then its
   * value is the sum over the lines of grams times the per-100 g amount over 100.
   */
  lemma TotalsOverSpec(t: Tables, lines: seq<string>, k: string)
    ensures k in TotalsOver(t, lines) <==> exists i :: 0 <= i < |lines| && k in LineContribution(t, lines[i])
    ensures Get(TotalsOver(t, lines), k) == LinesAmount(t, lines, k)
  {
    SumMapsKeys(Contributions(t, lines), k);
    SumMapsValue(Contributions(t, lines), k);
    LinesAmountIsSum(t, lines, k);
  }

  /** Merging the lines of two texts one after the other is merging their totals. */
  lemma TotalsOverAppend(t: Tables, a: seq<string>, b: seq<string>)
    ensures TotalsOver(t, a + b) == Add(TotalsOver(t, a), TotalsOver(t, b))
  {
    ApplyAppend(ContributionOf(t), a, b);
    SumMapsAppend(Contributions(t, a), Contributions(t, b));
  }

  /** Listing the same line twice at the end counts its food twice. */
  lemma RepeatedLineCountsTwice(t: Tables, lines: seq<string>, line: string)
    ensures TotalsOver(t, lines + [line, line]) == Add(TotalsOver(t, lines), Scale(LineContribution(t, line), 2.0))
  {
    var c := ContributionOf(t)(line);
    var xs := Contributions(t, lines);
    ApplyAppend(ContributionOf(t), lines, [line, line]);
    assert Contributions(t, lines + [line, line]) == xs + [c, c];
    assert (xs + [c, c])[..|xs| + 1] == xs + [c];
    assert SumMaps(xs + [c, c]) == Add(SumMaps(xs + [c]), c);
    assert (xs + [c])[..|xs|] == xs;
    assert SumMaps(xs + [c]) == Add(SumMaps(xs), c);
    AddTwice(SumMaps(xs), c);
  }

  /** With no negative amounts in the database, no total is negative. */
  lemma TotalsNonNegative(t: Tables, lines: seq<string>)
    requires forall d, k :: d in t.comprehensive && k in t.comprehensive[d] ==> t.comprehensive[d][k] >= 0.0
    ensures forall k :: k in TotalsOver(t, lines) ==> TotalsOver(t, lines)[k] >= 0.0
  {
    SumMapsNonNegative(Contributions(t, lines));
  }

  // ----- the text the meal logger writes -----

  /** The lines "<grams>g <description>" of a list of ingredients. */
  function CanonicalLines(es: seq<Ingredient>): seq<string> {
    Apply(CanonicalLine, es)
  }

  /** An ingredient the meal logger can write: a numeral of grams and a clean description. */
  predicate IsWritable(e: Ingredient) {
    IsQuantityText(e.quantity) && IsCleanDescription(e.description)
  }

  /** The sum over the ingredients of grams times the per-100 g amount of `k` over 100. */
  function EntriesAmount(t: Tables, es: seq<Ingredient>, k: string): real {
    if es == [] then 0.0
    else
      PerGrams(Get(ComprehensiveProfile(t, es[0].description), k), QuantityValue(es[0].quantity))
      + EntriesAmount(t, es[1..], k)
  }

  lemma CanonicalLineShape(e: Ingredient)
    requires IsWritable(e)
    ensures '\n' !in CanonicalLine(e)
    ensures CanonicalLine(e) != [] && !IsBlank(CanonicalLine(e))
  {
    var s := CanonicalLine(e);
    var n := |e.quantity|;
    forall i | 0 <= i < |s| ensures s[i] != '\n' {
      if i < n {
        assert s[i] == e.quantity[i];
        assert IsDigit(e.quantity[i]) || e.quantity[i] == '.';
      } else if i >= n + 2 {
        assert s[i] == e.description[i - n - 2];
        assert !IsLineTerminator(e.description[i - n - 2]);
      }
    }
    assert s[0] == e.quantity[0];
    BlankIffAllTrimmable(s);
  }

  /** A line the meal logger writes adds its ingredient's grams of each nutrient. */
  lemma CanonicalLineAmount(t: Tables, e: Ingredient, k: string)
    requires IsWritable(e)
    ensures LineAmount(t, CanonicalLine(e), k)
      == PerGrams(Get(ComprehensiveProfile(t, e.description), k), QuantityValue(e.quantity))
  {
    CanonicalLineShape(e);
    ParseCanonicalLine(e);
    assert ParsedLine(CanonicalLine(e)) == Some(e);
  }

  lemma {:induction false} LinesAmountOfCanonical(t: Tables, es: seq<Ingredient>, k: string)
    requires forall i :: 0 <= i < |es| ==> IsWritable(es[i])
    ensures LinesAmount(t, CanonicalLines(es), k) == EntriesAmount(t, es, k)
    decreases |es|
  {
    if es != [] {
      CanonicalLineAmount(t, es[0], k);
      LinesAmountOfCanonical(t, es[1..], k);
      ApplyTail(CanonicalLine, es);
    }
  }

  /** The text the meal logger writes splits back into its lines, and it is not blank. */
  lemma CanonicalTextLines(es: seq<Ingredient>)
    requires es != [] && forall i :: 0 <= i < |es| ==> IsWritable(es[i])
    ensures SplitLines(Terminated(CanonicalLines(es))) == CanonicalLines(es)
    ensures !IsBlank(Terminated(CanonicalLines(es)))
  {
    var lines := CanonicalLines(es);
    forall i | 0 <= i < |lines| ensures '\n' !in lines[i] {
      CanonicalLineShape(es[i]);
    }
    CanonicalLineShape(es[|es| - 1]);
    SplitLinesOfTerminated(lines);
    CanonicalLineShape(es[0]);
    TerminatedNotBlank(lines);
  }

  /**
   * Round trip with the meal logger: totalling the text it writes for a list of ingredients,
   * one terminated line each, gives for every nutrient the sum over the ingredients of grams
   * times the per-100 g amount over 100.
   */
  lemma MealNutrientsOfCanonicalText(t: Tables, es: seq<Ingredient>, k: string)
    requires forall i :: 0 <= i < |es| ==> IsWritable(es[i])
    ensures Get(MealNutrients(t, Some(Terminated(CanonicalLines(es)))), k) == EntriesAmount(t, es, k)
  {
    var lines := CanonicalLines(es);
    if es != [] {
      CanonicalTextLines(es);
      MealNutrientsOfLines(t, Terminated(lines), lines);
      TotalsOverSpec(t, lines, k);
      LinesAmountOfCanonical(t, es, k);
    } else {
      assert Terminated(lines) == [];
    }
  }

  lemma MealNutrientsOfLines(t: Tables, text: string, lines: seq<string>)
    requires !IsBlank(text) && SplitLines(text) == lines
    ensures MealNutrients(t, Some(text)) == TotalsOver(t, lines)
  {
  }
}
