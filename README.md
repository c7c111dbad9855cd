# NutriSci core, modelled in Dafny

NutriSci is a desktop nutrition tracker. A user logs meals as ingredient text, one
"<grams>g <description>" line per ingredient. The application matches each description
against the Canadian Nutrient File, totals the nutrients of a meal, and proposes food
swaps that move chosen nutrients up or down. A swap is saved as a new meal linked to the
meal it replaces. The charts compare intakes, food-group shares and the effect of the
swaps. This project models that core in Dafny and proves what it promises:

- `ingredient_pattern.dfy`: the ingredient-line pattern `(\d+\.?\d*)\s*g\s*(.+)`, matched
  case-insensitively against the whole trimmed line. It is written as a hand-made matcher
  and proved equal to the pattern's language. Every component uses it.
- `db_manager.dfy`: the queries against the nutrient database and the meal log. They are
  functions over an abstract copy of the tables. The meal log is a class whose `saveMeal`
  appends a row.
- `nutrient_calculator.dfy`: the nutrient totals of a meal's text.
- `swap_engine.dfy`: `findSwaps` (candidates, direction filter, scores, tolerance, change
  maps, sort and cap) and `performSwap`.
- `meal_controller.dfy`: the guards of `logMeal` and the line-by-line resolution of the
  ingredient text.
- `swap_controller.dfy`: `performAndSaveSwap`, which links the swapped meal to its original.
- `visualization_controller.dfy` and `swap_effect_chart.dfy`: the chart datasets.
- `database_loader.dfy`: the import of the CSV tables as batches of `INSERT IGNORE`
  statements.

The helper modules model the parts of the JDK the core relies on, each with its Java edge
cases:
- `java_strings.dfy`: `trim`, `split`, `replace` and ASCII case folding;
- `nutrient_maps.dfy`: `Map<String, Double>` with `getOrDefault`, `merge`, sums and prefix
  lookups;
- `sorting.dfy`: a stable sort by a real key, with `limit`;
- `seqs.dfy`: mapping a function over a sequence;
- `wrappers.dfy`: `Option`, standing for a nullable reference.

A `Meal` carries a `nutrientBreakdown` map: `performSwap` attaches it with
`setNutrientBreakdown` (src/com/nutri_sci/service/SwapEngine.java:163), although the field
is not declared in `Meal` (src/com/nutri_sci/model/Meal.java).

Java `double` is modelled as `real`. The database is a value of type `DBManager.Tables`.
The user's choices in dialogs, the result of an INSERT, the current date and the
`isNumeric` test are inputs.

Where Java iterates a `HashMap`, its order is unspecified. A search over a map's keys is
then a method that picks keys in any order. It promises the value of some matching key, or
0 when no key matches. `IsLookupResult` states exactly that.

## Model

| member | source | states |
|---|---|---|
| IngredientPattern.SkipDigits | src/com/nutri_sci/service/NutrientCalculator.java:12 | `\d+` is greedy: the run ends at the first non-digit, and everything before it is a digit |
| IngredientPattern.SkipSpaces | src/com/nutri_sci/service/NutrientCalculator.java:12 | `\s*` is greedy: the run ends at the first char outside `[ \t\n\x0B\f\r]` |
| IngredientPattern.QuantityEndIsQuantityText | src/com/nutri_sci/service/NutrientCalculator.java:12 | the text the matcher takes as group 1 is digits, optionally followed by a dot and more digits |
| IngredientPattern.MatchSound | src/com/nutri_sci/service/NutrientCalculator.java:12 | whatever the matcher returns is a split the pattern admits (digits, `\s*`, `g` or `G`, `\s*`, one or more chars with no line terminator), and its two groups |
| IngredientPattern.MatchComplete | src/com/nutri_sci/service/NutrientCalculator.java:12 | every split the pattern admits makes the matcher succeed with that group 1, and with that group 2 when it starts with a non-blank |
| IngredientPattern.MatchIffLanguage | src/com/nutri_sci/service/NutrientCalculator.java:12 | `matches()` succeeds on a string if and only if the string is in the pattern's language |
| IngredientPattern.ParseTrimmedLine | src/com/nutri_sci/service/NutrientCalculator.java:31-36 | on a line with nothing to trim, the shared parse is the bare match with group 2 trimmed |
| IngredientPattern.GramsIsReadAsG | src/com/nutri_sci/service/NutrientCalculator.java:12 | the unit is the single letter g: "100 grams rice" parses as 100 g of "rams rice" |
| IngredientPattern.GramsLineMatches | src/com/nutri_sci/service/NutrientCalculator.java:12 | the bare pattern splits "100 grams rice" into "100" and "rams rice" |
| IngredientPattern.ParseCanonicalLine | src/com/nutri_sci/controller/MealController.java:119-140 | a line written as quantity text + "g " + a description with no surrounding blanks parses back to that quantity text and that description |
| IngredientPattern.CanonicalLineMatches | src/com/nutri_sci/controller/MealController.java:114-120 | the bare pattern splits such a line into the same two parts |
| IngredientPattern.QuantityValue | src/com/nutri_sci/service/NutrientCalculator.java:35 | `Double.parseDouble(group(1))` never throws and is never negative |
| IngredientPattern.QuantityValueExamples | src/com/nutri_sci/service/NutrientCalculator.java:35 | "150" reads as 150 and "12.5" as 12.5 |
| DBManager.FoodSuggestions | src/com/nutri_sci/controller/MealController.java:122 | `findFoodSuggestions(description, 10)` returns at most ten foods |
| DBManager.SanitizedWordsAreClean | src/com/nutri_sci/database/DBManager.java:283-284 | after trimming, removing commas and splitting on `\s+`, no word holds a comma or a blank |
| DBManager.EscapeRoundTrip | src/com/nutri_sci/database/DBManager.java:308 | every regex metachar (backslash, dot, brackets, braces, parentheses, star, plus, question mark, caret, dollar, bar) gets a backslash, so the pattern matches only the literal word; removing the backslashes gives the word back |
| DBManager.BestMatch | src/com/nutri_sci/database/DBManager.java:296-303 | `LIMIT 1` after the ORDER BY returns no row exactly when there are none; otherwise a row that no other row outranks on (tier, length) |
| DBManager.MatchingFoods | src/com/nutri_sci/database/DBManager.java:288-294 | the WHERE clause keeps exactly the foods whose description holds every word as a whole word, ignoring case |
| DBManager.FindFoodRowSpec | src/com/nutri_sci/database/DBManager.java:282-322 | the chosen food matches every word and no matching food outranks it; there is none (id -1) exactly when the description has no words or no food matches them all |
| DBManager.StrawberriesRankAsRaw | src/com/nutri_sci/database/DBManager.java:298 | "Strawberries" contains "raw", so it gets tier 0 |
| DBManager.ConditionsPlaceholders | src/com/nutri_sci/database/DBManager.java:289-294 | the WHERE clause has one `?` per word, so every word is bound and none is dropped |
| DBManager.BuildFindFoodQuery | src/com/nutri_sci/database/DBManager.java:288-311 | the query text is the SELECT, one `REGEXP ?` per word joined by AND, then the ORDER BY; parameter i is the escaped word i between `\b` anchors |
| DBManager.GroupNameOf | src/com/nutri_sci/database/DBManager.java:335-341 | a group name comes only from a FOOD_GROUP row joined to a FOOD_NAME row with that id |
| DBManager.GetFoodGroupSpec | src/com/nutri_sci/database/DBManager.java:324-346 | null when the trimmed line does not match the pattern or its description has no food; otherwise the group of the matched food |
| DBManager.FoodsFromGroup | src/com/nutri_sci/database/DBManager.java:348-361 | a description is listed exactly when some food with it belongs to a group of that name |
| DBManager.ProfileOfRowsSpec | src/com/nutri_sci/database/DBManager.java:372-379 | the profile has a key exactly for each name (Calories 208, Protein 203, Fiber 291) that some row of the food files under, with the value of the last such row; other nutrients are ignored |
| DBManager.GetNutrientProfile | src/com/nutri_sci/database/DBManager.java:363-384 | the result is the profile of the food `findFoodId` finds, and it is empty when no food matches |
| DBManager.ReadProfile | src/com/nutri_sci/database/DBManager.java:372-379 | the loop over the rows puts each Calories, Protein or Fiber amount of the food under its name, a later row overwriting an earlier one, and nothing else |
| DBManager.RankCandidates | src/com/nutri_sci/database/DBManager.java:125-127 | every ranked row is an amount of the chosen nutrient joined with a food of the same id |
| DBManager.RankedRowsSpec | src/com/nutri_sci/database/DBManager.java:107-129 | at most 100 rows of the chosen nutrient, highest first for "HIGH" in any case and lowest first otherwise; a row left out ranks no better than any kept row; with 100 or fewer rows all are kept |
| DBManager.GetFoodsByNutrientRank | src/com/nutri_sci/database/DBManager.java:107-140 | Protein maps to 203, Fiber to 291 and any other name to 208; the result is the descriptions of the ranked rows, at most 100 |
| DBManager.ActiveRows | src/com/nutri_sci/database/DBManager.java:224 | a row is kept exactly when it is the user's and no row names its id as OriginalMealID |
| DBManager.ActiveMealsSpec | src/com/nutri_sci/database/DBManager.java:221-244 | a meal is listed exactly when it is one of the user's rows that no row supersedes; the list runs from the latest date to the earliest |
| DBManager.SupersededMealHidden | src/com/nutri_sci/database/DBManager.java:224 | a meal that some row names as its original is never listed |
| DBManager.MealStore.constructor | src/com/nutri_sci/database/DBManager.java:69-82 | the meal log starts empty, with the id counter at 1 |
| DBManager.MealStore.SaveMeal | src/com/nutri_sci/database/DBManager.java:199-219 | when the insert succeeds, one row is appended with the next id, which no stored row already has, the given user, the meal's date rounded as the DATETIME column keeps it, its other fields and a None original id as NULL, and the meal's type is then found on the stored date's day; when it fails nothing changes; the result says which |
| Model.StoredDate | src/com/nutri_sci/database/DBManager.java:203 | the stored date is the whole second nearest to the meal's date, half a second rounding up, on the same day or the next |
| Model.StoredDateOfWholeSecond | src/com/nutri_sci/database/DBManager.java:203 | a date already on a whole second is stored unchanged |
| Model.LateDateStoredNextDay | src/com/nutri_sci/database/DBManager.java:203 | 23:59:59.600 is stored as midnight of the next day |
| DBManager.LoggedOnDayAppend | src/com/nutri_sci/database/DBManager.java:246-262 | after a row is added, a meal type is found on a day exactly when that row or an earlier one is the user's, of that type under the collation, and stored on that day |
| DBManager.LateMealCountsForNextDay | src/com/nutri_sci/database/DBManager.java:246-262 | a breakfast logged at 23:59:59.600 counts as logged on the next day and not on its own |
| NutrientCalculator.PerGrams | src/com/nutri_sci/service/NutrientCalculator.java:42 | a non-negative amount per 100 g gives a non-negative amount for any non-negative weight, and 0 per 100 g gives 0 |
| NutrientCalculator.ForGrams | src/com/nutri_sci/service/NutrientCalculator.java:41-44 | one ingredient contributes exactly the keys of its food's profile, each scaled by grams / 100 |
| NutrientCalculator.MealNutrients | src/com/nutri_sci/service/NutrientCalculator.java:19-22 | null or blank text gives an empty map |
| NutrientCalculator.CalculateNutrientsForMeal | src/com/nutri_sci/service/NutrientCalculator.java:18-53 | the loop over the lines gives the merged contributions of the lines that are non-blank and match the pattern, in order |
| NutrientCalculator.TotalsOverStep | src/com/nutri_sci/service/NutrientCalculator.java:26-50 | each line merges its contribution into the totals; a blank or non-matching line changes nothing |
| NutrientCalculator.LineAmountIsContribution | src/com/nutri_sci/service/NutrientCalculator.java:35-44 | what a line merges under a key is its grams times the food's amount per 100 g over 100 (0 when absent) |
| NutrientCalculator.LinesAmountIsSum | src/com/nutri_sci/service/NutrientCalculator.java:41-44 | the merged value of a key is the sum over the lines of what each line adds |
| NutrientCalculator.TotalsOverSpec | src/com/nutri_sci/service/NutrientCalculator.java:39-44 | the totals hold a key exactly when some usable line's food profile has it, and its value is the sum over the lines of grams times the per-100 g amount over 100 |
| NutrientCalculator.TotalsOverAppend | src/com/nutri_sci/service/NutrientCalculator.java:26-51 | totalling two runs of lines one after the other is merging their totals |
| NutrientCalculator.RepeatedLineCountsTwice | src/com/nutri_sci/service/NutrientCalculator.java:41-44 | the same line twice contributes exactly twice its single contribution |
| NutrientCalculator.TotalsNonNegative | src/com/nutri_sci/service/NutrientCalculator.java:41-44 | with no negative amounts in the database, no total is negative |
| NutrientCalculator.CanonicalLineShape | src/com/nutri_sci/controller/MealController.java:140 | a line the meal logger writes has no newline and is not blank |
| NutrientCalculator.CanonicalLineAmount | src/com/nutri_sci/service/NutrientCalculator.java:31-44 | a line the meal logger writes adds exactly its ingredient's grams of each nutrient |
| NutrientCalculator.LinesAmountOfCanonical | src/com/nutri_sci/service/NutrientCalculator.java:41-44 | the lines the meal logger writes add up to the sum over its ingredients |
| NutrientCalculator.CanonicalTextLines | src/com/nutri_sci/service/NutrientCalculator.java:20-24 | the text the meal logger writes is not blank and splits back into its lines |
| NutrientCalculator.MealNutrientsOfCanonicalText | src/com/nutri_sci/service/NutrientCalculator.java:18-53 | totalling the text the meal logger writes gives, for each nutrient, the sum over its ingredients of grams times the per-100 g amount over 100 |
| NutrientCalculator.MealNutrientsOfLines | src/com/nutri_sci/service/NutrientCalculator.java:18-53 | totalling a non-blank text is totalling its lines as `split("\\n")` returns them |
| NutrientMaps.MergeInto | src/com/nutri_sci/service/NutrientCalculator.java:41-44 | merging every entry of a map with `merge(k, v, Double::sum)` adds the two maps key by key |
| NutrientMaps.LookupByPrefix | src/com/nutri_sci/controller/VisualizationController.java:137-154 | the search over the entries returns the value of some key whose (upper-cased) form starts with the prefix, or 0 when none does |
| NutrientMaps.LookupOfUniqueKey | src/com/nutri_sci/controller/VisualizationController.java:145-151 | when exactly one key matches, the search returns its value whatever the iteration order |
| NutrientMaps.CalorieValue | src/com/nutri_sci/service/SwapEngine.java:168-175 | `getCalorieValue` returns the value of a key whose upper-case form starts with "ENERGY (KILOCALORIES)", else 0 |
| SwapEngine.Abs | src/com/nutri_sci/service/SwapEngine.java:124 | `Math.abs` is non-negative and is the argument or its negation |
| SwapEngine.TotalGoalError | src/com/nutri_sci/service/SwapEngine.java:117-125 | the total goal error, the sum over the goals of the distance between the actual and the ideal change, is never negative |
| SwapEngine.PenaltyTerm | src/com/nutri_sci/service/SwapEngine.java:134-143 | one nutrient's penalty is never negative: the relative change beyond tol/100 when the old value is positive, 1 when it was not and the new one is |
| SwapEngine.PenaltyTerms | src/com/nutri_sci/service/SwapEngine.java:127-133 | the penalty is taken over the keys of both profiles except the goal nutrients |
| SwapEngine.ScoreNonNegative | src/com/nutri_sci/service/SwapEngine.java:146 | the stability penalty is never negative, and neither is 100 times the goal error plus 50 times the penalty |
| SwapEngine.IdenticalProfilesNoPenalty | src/com/nutri_sci/service/SwapEngine.java:132-144 | a candidate with the original's own profile gets no stability penalty for any tolerance of at least 0 |
| SwapEngine.TotalGoalErrorStep | src/com/nutri_sci/service/SwapEngine.java:118-125 | each goal adds its own error to the running total |
| SwapEngine.PenaltyTermsEntry | src/com/nutri_sci/service/SwapEngine.java:132-144 | the term of a non-goal nutrient is computed from its two values, a missing one read as 0 |
| SwapEngine.SumGoalErrors | src/com/nutri_sci/service/SwapEngine.java:117-125 | the first loop of `calculateSwapScores` computes the total goal error |
| SwapEngine.SumPenalties | src/com/nutri_sci/service/SwapEngine.java:127-144 | the second loop computes the stability penalty, whatever order it visits the keys in |
| SwapEngine.CalculateSwapScores | src/com/nutri_sci/service/SwapEngine.java:116-148 | the two returned numbers are the score (100 times the goal error plus 50 times the penalty) and the penalty |
| SwapEngine.CheckDirection | src/com/nutri_sci/service/SwapEngine.java:66-73 | the flag is set exactly when no Increase goal's nutrient goes down and no Decrease goal's nutrient goes up, a missing nutrient read as 0 |
| SwapEngine.NutrientChanges | src/com/nutri_sci/service/SwapEngine.java:88-98 | the change map is keyed by the union of the keys of both profiles |
| SwapEngine.NutrientPercentChanges | src/com/nutri_sci/service/SwapEngine.java:88-104 | the percent-change map is keyed by the union of the keys of both profiles |
| SwapEngine.ScaledDifference | src/com/nutri_sci/service/SwapEngine.java:95-98 | scaling both amounts by the quantity and subtracting is scaling their difference |
| SwapEngine.PercentChangeInverse | src/com/nutri_sci/service/SwapEngine.java:100-101 | when the old total is not 0, the percent change times the old total is the change |
| SwapEngine.ChangeMapsSpec | src/com/nutri_sci/service/SwapEngine.java:88-105 | for every key of either profile, change = (new - old) * q / 100; percent = change / old total when that is not 0, else 1.0 when the new total is positive and 0.0 otherwise |
| SwapEngine.ChangeEntries | src/com/nutri_sci/service/SwapEngine.java:93-104 | each entry is the difference of the two scaled totals, and its percent entry follows from those totals |
| SwapEngine.BuildChangeMaps | src/com/nutri_sci/service/SwapEngine.java:88-105 | the loop over the union of the keys builds both change maps |
| SwapEngine.RankedCandidatesStep | src/com/nutri_sci/service/SwapEngine.java:52-55 | each goal adds the rank list of its nutrient, HIGH for Increase and LOW otherwise |
| SwapEngine.ScoredSpec | src/com/nutri_sci/service/SwapEngine.java:63-107 | a kept candidate has a non-empty profile; it moves every Increase goal's nutrient up or not at all and every Decrease goal's nutrient down or not at all; under strict tolerance its penalty is 0; its score is the swap score lowered by exactly 20 when its non-null group equals the original's |
| SwapEngine.SuggestionSpec | src/com/nutri_sci/service/SwapEngine.java:60-108 | a candidate is suggested exactly when it is not the original description (ignoring case) and passes the empty-profile, direction and strict-tolerance filters |
| SwapEngine.CheckCandidate | src/com/nutri_sci/service/SwapEngine.java:63-80 | the filters of the loop body accept exactly the profiles that are not rejected, and then the score is the swap score |
| SwapEngine.ScoredOfParts | src/com/nutri_sci/service/SwapEngine.java:107 | the suggestion built from the bonus-adjusted score and the two change maps is the one the model specifies |
| SwapEngine.ScoreCandidate | src/com/nutri_sci/service/SwapEngine.java:60-107 | one turn of the loop over the candidates yields that candidate's suggestion, or none |
| SwapEngine.ScoredStep | src/com/nutri_sci/service/SwapEngine.java:59-108 | scoring one more candidate keeps the list exactly the suggestions of the candidates seen, each named once |
| SwapEngine.ScoreAll | src/com/nutri_sci/service/SwapEngine.java:59-108 | the loop over the candidate set, in any order, collects exactly the candidates' suggestions, each once |
| SwapEngine.CollectCandidates | src/com/nutri_sci/service/SwapEngine.java:45-57 | with `sameGroupOnly` the candidates are the original's group's foods, or an early empty result when it has no group; otherwise every goal's rank list plus the original's group |
| SwapEngine.FindSwaps | src/com/nutri_sci/service/SwapEngine.java:34-114 | the result is empty when the trimmed line does not match, the goals are empty or the original's profile is empty; otherwise it is a swap result as stated next |
| SwapEngine.TopSuggestions | src/com/nutri_sci/service/SwapEngine.java:110-113 | sorting by final score and keeping 20 gives at most 20 suggestions, in ascending score, each a suggestion of a candidate |
| SwapEngine.TopSuggestionsAreBest | src/com/nutri_sci/service/SwapEngine.java:110-113 | a suggestion left out scores no better than any suggestion kept |
| SwapEngine.TopSuggestionsDistinct | src/com/nutri_sci/service/SwapEngine.java:45-113 | no food is suggested twice |
| SwapEngine.SwapResultSpec | src/com/nutri_sci/service/SwapEngine.java:34-114 | at most 20 suggestions, ascending by score, distinct foods, each the suggestion of a candidate, and none left out scores lower than one kept |
| SwapEngine.SameGroupWithoutGroupIsEmpty | src/com/nutri_sci/service/SwapEngine.java:48-50 | with `sameGroupOnly`, an original without a food group gives an empty result |
| SwapEngine.QuantityPrefixAsWritten | src/com/nutri_sci/service/SwapEngine.java:155 | `split("g\\s+")[0]` fails, where Java throws, exactly when the unit matched and every piece is empty; otherwise it is the text before the first lower-case "g" followed by blanks |
| SwapEngine.SwapIn | src/com/nutri_sci/service/SwapEngine.java:151-163 | the new meal keeps the date and the meal type; its text has every occurrence of the old line replaced by the new line; its nutrients are those of that text and its calories their energy entry; it is not marked as a swap |
| SwapEngine.PerformSwap | src/com/nutri_sci/service/SwapEngine.java:150-166 | as `SwapIn`, with the new line made of the old line's quantity read as group 1 of the ingredient pattern, "g " and the new food |
| SwapEngine.PerformSwapAsWritten | src/com/nutri_sci/service/SwapEngine.java:150-166 | `performSwap` as written: it fails, where Java throws, exactly when the split leaves no piece; otherwise as `SwapIn`, with the new line made of the split's first piece, "g " and the new food |
| SwapEngine.SwapLineParses | src/com/nutri_sci/service/SwapEngine.java:155-156 | for every line the pattern reads as some grams of a food, the corrected new line reads back as the same grams of the new food |
| SwapEngine.SwapOfAbsentLine | src/com/nutri_sci/service/SwapEngine.java:158 | an old line that does not occur leaves the text unchanged |
| SwapEngine.GramMarkerAfterPrefix | src/com/nutri_sci/service/SwapEngine.java:155 | the first piece of splitting x + "g " + y at `g\\s+` is x when x has no g |
| SwapEngine.NoGramMarker | src/com/nutri_sci/service/SwapEngine.java:155 | a line without g is not split |
| SwapEngine.QuantityReadingsAgree | src/com/nutri_sci/service/SwapEngine.java:155 | on a line the meal logger writes, the split does not throw, its quantity and the corrected one are both group 1, and both build the same new line |
| SwapEngine.UnitAloneThrows | src/com/nutri_sci/service/SwapEngine.java:155 | as written, the line "g " leaves no piece, so building the new line throws |
| SwapEngine.UpperCaseUnitKeepsWholeLine | src/com/nutri_sci/service/SwapEngine.java:155-156 | as written, the new line for "100G rice" is "100G riceg " followed by the new food |
| SwapEngine.UpperCaseUnitQuantity | src/com/nutri_sci/service/SwapEngine.java:155-156 | corrected, the new line for "100G rice" is "100g " followed by the new food |
| SwapEngine.UpperCaseUnitLineParses | src/com/nutri_sci/service/SwapEngine.java:35-41 | the case-insensitive pattern accepts "100G rice" as 100 g of rice |
| SwapEngine.UpperCaseUnitLineMatches | src/com/nutri_sci/service/SwapEngine.java:23 | the bare pattern splits "100G rice" into "100" and "rice" |
| MealController.LineStep | src/com/nutri_sci/controller/MealController.java:112-140 | one line either is skipped, writes one ingredient, or ends the run with an exception or a cancellation, never with a success |
| MealController.LineStepsFinal | src/com/nutri_sci/controller/MealController.java:115-138 | every way a line ends the run is a failure or a cancellation |
| MealController.ResolveSpec | src/com/nutri_sci/controller/MealController.java:104-144 | the run succeeds exactly when no line stops it, and then its text is one terminated "<grams>g <food>" line per written ingredient; otherwise the result is what the first stopping line gives, with no partial text |
| MealController.ResolveStopped | src/com/nutri_sci/controller/MealController.java:115-138 | once a line has stopped the run, the later lines change nothing |
| MealController.ResolvePrefixStep | src/com/nutri_sci/controller/MealController.java:111-141 | each line skips, appends its "<grams>g <food>\n" to the text, or replaces the outcome with its stop |
| MealController.ResolveIngredients | src/com/nutri_sci/controller/MealController.java:104-144 | the loop over the lines of `split("\\n")` returns the outcome the line steps specify |
| MealController.AppendCanonicalLine | src/com/nutri_sci/controller/MealController.java:140 | the appended quantity, "g ", description and newline are the written line and its terminator |
| MealController.ResolveLine | src/com/nutri_sci/controller/MealController.java:112-140 | the body of the loop computes the line step |
| MealController.ParsedQuantityIsNumeral | src/com/nutri_sci/controller/MealController.java:119 | the quantity text taken from group 1 is digits with an optional decimal part |
| MealController.LineStepSkip | src/com/nutri_sci/controller/MealController.java:112 | a line is skipped exactly when it is blank |
| MealController.LineStepUnparsed | src/com/nutri_sci/controller/MealController.java:114-117 | a non-blank line that does not match throws, with a message naming that line |
| MealController.LineStepNoMatch | src/com/nutri_sci/controller/MealController.java:122-126 | a description with no suggestions throws, with a message naming the description |
| MealController.LineStepSingle | src/com/nutri_sci/controller/MealController.java:128-130 | exactly one suggestion is taken without asking, with the line's own quantity text |
| MealController.LineStepPicked | src/com/nutri_sci/controller/MealController.java:131-140 | with several suggestions the user's choice is written with the line's quantity text, and no choice cancels the whole run |
| MealController.LineStepEmits | src/com/nutri_sci/controller/MealController.java:114-140 | a written ingredient comes from a line that matches, and keeps that line's group 1 verbatim |
| MealController.EntriesFollowLines | src/com/nutri_sci/controller/MealController.java:111-141 | in a successful run the written ingredients follow the unskipped lines one for one, in order |
| MealController.UnskippedAreNonBlank | src/com/nutri_sci/controller/MealController.java:112 | the lines not skipped are exactly the non-blank ones, in order |
| MealController.EntriesKeep | src/com/nutri_sci/controller/MealController.java:111-141 | a property of every ingredient a line can write holds of every written ingredient |
| MealController.EntriesOfLines | src/com/nutri_sci/controller/MealController.java:104-144 | a successful run writes one ingredient per non-blank input line, in input order |
| MealController.EntriesAreNumerals | src/com/nutri_sci/controller/MealController.java:119-140 | every written quantity is a numeral of the pattern's group 1 |
| MealController.EntriesWritable | src/com/nutri_sci/controller/MealController.java:119-140 | with clean food descriptions, every written ingredient can be parsed back |
| MealController.ResolvedText | src/com/nutri_sci/controller/MealController.java:140-143 | the text of a successful run is its written lines, each ended by a newline |
| MealController.ResolvedTextParsesBack | src/com/nutri_sci/controller/MealController.java:25 | re-parsing each line of the resolved text with the same pattern gives back its quantity text and the chosen description |
| MealController.ResolvedTextNutrients | src/com/nutri_sci/controller/MealController.java:48-58 | the nutrients of the resolved text are, for each nutrient, the sum over the chosen foods of grams times the per-100 g amount over 100 |
| MealController.LogMeal | src/com/nutri_sci/controller/MealController.java:35-77 | the meal is logged exactly when the meal type is given, the text is not blank, a non-Snack type was not logged that day, resolution succeeds and the save succeeds; then one row with the resolved text, its calories and the stored date is appended, and that type is found on the stored date's day; otherwise nothing changes |
| SwapController.PerformAndSaveSwap | src/com/nutri_sci/controller/SwapController.java:32-52 | the saved meal is `performSwap`'s result marked as a swap and linked to the original's id; it is saved once under the user's id; it is returned exactly when the save succeeds, and after that the original is hidden from every meal list |
| SwapController.SwapHidesOriginal | src/com/nutri_sci/database/DBManager.java:224 | once a row names a meal as its original, no user's meal list shows that meal |
| VisualizationController.NormalizeFoodGroup | src/com/nutri_sci/controller/VisualizationController.java:285-299 | the result is always one of the five food-guide groups |
| VisualizationController.NormalizeFoodGroupSpec | src/com/nutri_sci/controller/VisualizationController.java:286-298 | each group is chosen exactly when the lower-cased name contains one of its words and none of the words of the groups checked before it; "Other" exactly when no rule matches |
| VisualizationController.NormalizeFoodGroupIgnoresCase | src/com/nutri_sci/controller/VisualizationController.java:286 | the mapping does not depend on the case of the database's group name |
| VisualizationController.SearchNameSpec | src/com/nutri_sci/controller/VisualizationController.java:138-145 | "calories" in any case is looked up as the energy key, "fiber" in any case as "FIBRE", any other name as its upper-case form |
| VisualizationController.GetNutrientValue | src/com/nutri_sci/controller/VisualizationController.java:137-154 | the value is that of some key whose upper-case form starts with the search name, or 0 when no key does |
| VisualizationController.PerDay | src/com/nutri_sci/controller/VisualizationController.java:321-324 | the per-day amount times the number of days gives back the total |
| VisualizationController.DailyAverage | src/com/nutri_sci/controller/VisualizationController.java:321-324 | the average has exactly the keys of the total, each value divided by the number of days |
| VisualizationController.AverageDailyNutrients | src/com/nutri_sci/controller/VisualizationController.java:301-326 | the averages are the merged nutrients of all meals of the period, each divided by the number of days |
| VisualizationController.DivideByDays | src/com/nutri_sci/controller/VisualizationController.java:321-324 | the loop puts every total divided by the number of days, and nothing else, in the result |
| VisualizationController.MealsTotalSpec | src/com/nutri_sci/controller/VisualizationController.java:311-315 | a nutrient is in the merged total exactly when some meal has it, and its total is the sum over the meals |
| VisualizationController.AverageDailySpec | src/com/nutri_sci/controller/VisualizationController.java:301-326 | a nutrient has an average exactly when some meal of the period has it, and the average is its sum over the meals per day |
| VisualizationController.NoMealsNoAverage | src/com/nutri_sci/controller/VisualizationController.java:305-308 | a period without meals has no averages |
| VisualizationController.PrefixesExclusive | src/com/nutri_sci/controller/VisualizationController.java:48-52 | a key starting with one macro prefix cannot start with another, so the else-if chain picks at most one |
| VisualizationController.MacroValues | src/com/nutri_sci/controller/VisualizationController.java:43-55 | protein, carbohydrates and fat are each the value of some key with that prefix, or 0 when there is none |
| VisualizationController.MacroNutrientDataset | src/com/nutri_sci/controller/VisualizationController.java:39-62 | the macro pie has exactly the three slices Protein, Carbohydrates and Fat, in that order, holding the average of a key with each prefix |
| VisualizationController.KeysOf | src/com/nutri_sci/controller/VisualizationController.java:71-80 | the entries listed are the micro-nutrients' keys, each once |
| VisualizationController.SortedKeysAreTopFive | src/com/nutri_sci/controller/VisualizationController.java:83-86 | sorting by value, largest first, and keeping five gives distinct micro-nutrients in descending order, all of them when there are at most five, and none left out is larger than one kept |
| VisualizationController.TopMicroNutrients | src/com/nutri_sci/controller/VisualizationController.java:83-86 | the kept keys are a top five of the micro-nutrients by value |
| VisualizationController.SetValueAppends | src/com/nutri_sci/controller/VisualizationController.java:96 | setting a new key on the pie appends a slice at the end |
| VisualizationController.SetValueReplaces | src/com/nutri_sci/controller/VisualizationController.java:96 | setting a key the pie already has replaces that slice's value in place |
| VisualizationController.RemainderSum | src/com/nutri_sci/controller/VisualizationController.java:89-92 | "other" is the sum of the micro-nutrients that the top five leaves out |
| VisualizationController.FillPie | src/com/nutri_sci/controller/VisualizationController.java:94-95 | the pie holds one slice per kept key with its value, in the kept order |
| VisualizationController.MicroNutrientDataset | src/com/nutri_sci/controller/VisualizationController.java:64-101 | the micro pie is the top five positive micro-nutrient averages followed by "Other Nutrients" holding the rest when that exceeds 0.01 |
| VisualizationController.TopSlicesAreAverages | src/com/nutri_sci/controller/VisualizationController.java:71-80 | every kept slice is a positive average of a key that is not energy, protein, fat, carbohydrate or water |
| VisualizationController.MicroPieSlices | src/com/nutri_sci/controller/VisualizationController.java:64-101 | the micro pie has at most six slices, and each slice other than "Other Nutrients" is a positive micro-nutrient average |
| VisualizationController.FewMicroNutrientsNoOther | src/com/nutri_sci/controller/VisualizationController.java:89-98 | with five micro-nutrients or fewer there is no "Other Nutrients" slice |
| VisualizationController.MicroPieCoversAll | src/com/nutri_sci/controller/VisualizationController.java:83-92 | the kept values plus the remainder add up to the sum of all micro-nutrients |
| VisualizationController.LineWeight | src/com/nutri_sci/controller/VisualizationController.java:240-248 | a line weighs a non-negative number of grams |
| VisualizationController.LineWeightOfMatch | src/com/nutri_sci/controller/VisualizationController.java:240-248 | a line weighs its parsed quantity when the trimmed line matches the ingredient pattern and 0 otherwise |
| VisualizationController.MergeLine | src/com/nutri_sci/controller/VisualizationController.java:238-261 | one loop step adds the line's weight under its food-guide group, or under "Uncategorized" when the food has no group, and a blank line adds nothing |
| VisualizationController.CfgComparisonDataset | src/com/nutri_sci/controller/VisualizationController.java:225-277 | the dataset holds exactly the groups whose summed weight over all lines of all meals is positive, with those sums |
| VisualizationController.GroupWeightsKeys | src/com/nutri_sci/controller/VisualizationController.java:250-261 | every group in the weights is a food-guide group or "Uncategorized" |
| VisualizationController.GroupWeightsNonNegative | src/com/nutri_sci/controller/VisualizationController.java:240-261 | no group's summed weight is negative |
| VisualizationController.GroupWeightOfLines | src/com/nutri_sci/controller/VisualizationController.java:235-264 | the merged weight of a group is the sum of the weights of the non-blank lines in that group |
| VisualizationController.GroupWeightsSpec | src/com/nutri_sci/controller/VisualizationController.java:225-264 | for every group, its weight over the meals is the sum over the meals' lines in that group |
| SwapEffectChart.IndexBySpec | src/com/nutri_sci/controller/VisualizationController.java:164-173 | an id is in an index exactly when some meal is filed under it, and it then holds the last such meal |
| SwapEffectChart.PairMeals | src/com/nutri_sci/controller/VisualizationController.java:164-173 | the loop files originals under their own id and swaps under their original's id |
| SwapEffectChart.PairingSpec | src/com/nutri_sci/controller/VisualizationController.java:164-173 | an id has an original exactly when some unswapped meal has that id, and a swap exactly when some swapped meal names it as original; each index holds such a meal |
| SwapEffectChart.MealPair | src/com/nutri_sci/controller/VisualizationController.java:194-202 | an original contributes its own value before, and after it contributes its swap's value when it has one, or its own value again |
| SwapEffectChart.DayTotals | src/com/nutri_sci/controller/VisualizationController.java:184-203 | the day's before and after totals are the sums of those pairs over the day's originals, and the day counts as swapped exactly when one of them has a swap |
| SwapEffectChart.UnswappedDayUnchanged | src/com/nutri_sci/controller/VisualizationController.java:194-202 | a day with no swap has equal before and after totals |
| SwapEffectChart.DaysOfOriginals | src/com/nutri_sci/controller/VisualizationController.java:178-179 | the collected days are exactly the days of the originals, each once |
| SwapEffectChart.SortedDaysIncrease | src/com/nutri_sci/controller/VisualizationController.java:181 | sorting distinct days by key gives strictly increasing days, and the same days |
| SwapEffectChart.SortedDays | src/com/nutri_sci/controller/VisualizationController.java:178-181 | the days of the originals, each once, in increasing order |
| SwapEffectChart.GroupByDay | src/com/nutri_sci/controller/VisualizationController.java:178-181 | one group per day that has originals, in increasing order of day, each holding exactly that day's originals |
| SwapEffectChart.SwapEffectDataset | src/com/nutri_sci/controller/VisualizationController.java:156-216 | one entry per day on which some original was swapped, in increasing order of day, holding that day's totals before and after the swaps, and no entry for other days |
| SwapEffectChart.EntriesIncrease | src/com/nutri_sci/controller/VisualizationController.java:181-210 | emitting the days in group order keeps them increasing |
| SwapEffectChart.EntriesAreDayEntries | src/com/nutri_sci/controller/VisualizationController.java:184-210 | every entry emitted is a swapped day with that day's totals |
| SwapEffectChart.EntriesCoverSwappedDays | src/com/nutri_sci/controller/VisualizationController.java:184-210 | every day with a swapped original gets an entry |
| SwapEffectChart.DayEntry | src/com/nutri_sci/controller/VisualizationController.java:186-209 | the entry for a day carries the day, and it is emitted exactly when the day has a swap |
| SwapEffectChart.SwappedGroupsSpec | src/com/nutri_sci/controller/VisualizationController.java:206-210 | the groups emitted are exactly those with a swap, in order |
| SwapEffectChart.DayEntries | src/com/nutri_sci/controller/VisualizationController.java:184-210 | the loop over the groups emits exactly the entries of the swapped days, in order |
| DatabaseLoader.SplitFields | src/com/nutri_sci/database/DatabaseLoader.java:160-175 | splitting at the commas that the regex accepts always gives at least one field |
| DatabaseLoader.JoinSplitFields | src/com/nutri_sci/database/DatabaseLoader.java:175 | joining the fields with commas gives back the line: the split with limit -1 loses nothing |
| DatabaseLoader.SplitFieldsWithoutQuotes | src/com/nutri_sci/database/DatabaseLoader.java:160-175 | on a line without double quotes, every comma separates |
| DatabaseLoader.StripQuotes | src/com/nutri_sci/database/DatabaseLoader.java:190-192 | a value longer than one char between double quotes loses exactly those two quotes; any other value is kept |
| DatabaseLoader.EscapeDoublesQuotes | src/com/nutri_sci/database/DatabaseLoader.java:194 | after escaping, every single quote is one of an adjacent pair |
| DatabaseLoader.UndoubleEscaped | src/com/nutri_sci/database/DatabaseLoader.java:194 | undoing the doubling gives back the value, so escaping loses nothing |
| DatabaseLoader.EscapeKeepsEmpty | src/com/nutri_sci/database/DatabaseLoader.java:194-196 | escaping leaves a value empty exactly when it was empty |
| DatabaseLoader.EncodeValueForms | src/com/nutri_sci/database/DatabaseLoader.java:190-202 | a field becomes NULL exactly when it is empty after stripping or reads "null" in any case, stays bare when numeric, and is otherwise quoted with its quotes doubled, undoing to the stripped field |
| DatabaseLoader.Values | src/com/nutri_sci/database/DatabaseLoader.java:185-207 | there is exactly one literal per column |
| DatabaseLoader.JoinValuesCons | src/com/nutri_sci/database/DatabaseLoader.java:204-206 | ", " stands between each literal and the next and nowhere else |
| DatabaseLoader.ListedCons | src/com/nutri_sci/database/DatabaseLoader.java:204-206 | the separator comes after every column but the last |
| DatabaseLoader.EncodeField | src/com/nutri_sci/database/DatabaseLoader.java:187-202 | the column body yields the literal of the trimmed field, or of "" past the fields |
| DatabaseLoader.BuildInsert | src/com/nutri_sci/database/DatabaseLoader.java:183-208 | the loop builds "INSERT IGNORE INTO", the table, and the column literals separated by ", " in parentheses |
| DatabaseLoader.ValuesPadWithNull | src/com/nutri_sci/database/DatabaseLoader.java:187-197 | columns past the row's fields are NULL |
| DatabaseLoader.Batches | src/com/nutri_sci/database/DatabaseLoader.java:210-215 | batching always leaves a (possibly empty) last batch for the final execute |
| DatabaseLoader.BatchesFlatten | src/com/nutri_sci/database/DatabaseLoader.java:210-221 | the executed batches, in order, are exactly the statements added: nothing lost, repeated or reordered |
| DatabaseLoader.BatchesShape | src/com/nutri_sci/database/DatabaseLoader.java:213-221 | every batch but the last holds 1000 statements (plus any pending before), and the last holds the remainder |
| DatabaseLoader.BatchesSnoc | src/com/nutri_sci/database/DatabaseLoader.java:210-215 | one more statement joins the open batch, and when the count reaches a multiple of the size a new empty batch opens |
| DatabaseLoader.StatementBatch.AddBatch | src/com/nutri_sci/database/DatabaseLoader.java:211 | the statement joins the pending batch; nothing is executed |
| DatabaseLoader.StatementBatch.ExecuteBatch | src/com/nutri_sci/database/DatabaseLoader.java:213-221 | the pending batch is executed as a whole and the pending batch is emptied |
| DatabaseLoader.BatchedStep | src/com/nutri_sci/database/DatabaseLoader.java:210-215 | adding a statement, and executing when the count reaches a multiple of 1000, keeps the executed batches equal to the batching of the statements so far |
| DatabaseLoader.LoadData | src/com/nutri_sci/database/DatabaseLoader.java:157-227 | after the header, every line that is not blank, not a lone comma and has a key yields its INSERT statement, in order; the count is their number; they are executed in batches of 1000 and the rest at the end, nothing left pending |

## Left out

- The Swing user interface, the `JOptionPane` messages of the controllers and the splash screen: display only. The ingredient dialog's choice is the `pick` parameter (a `Picker`) of `MealController`.
- The chart classes and the food-guide reference dataset: the pie datasets are modelled as sequences of slices, the bar dataset as a sequence of per-day entries, the food-group dataset as a map.
- The meal-log observers and their notifications: they carry no data the model uses.
- The JDBC connection, the singleton, table creation, `DatabaseLoader.main`, the list of CSV files and the reading of a file as latin1: the loader takes the file's lines as a sequence and the statement as a `StatementBatch` object.
- SQL errors: every query and insert is assumed to succeed, except that whether `saveMeal` inserts a row is the input `accepted`.
- DatabaseLoader.LoadData: an `SQLException` from `addBatch` or `executeBatch` is not modelled, so the count is never skipped and a failing batch is never lost.
- `isNumeric` and `Double.parseDouble` are an input predicate; doubles are exact reals, so rounding and `NaN` are not modelled.
- The `count` of `loadData` is an unbounded natural, so `int` overflow beyond 2^31 - 1 rows is not modelled.
- `Calendar`, `TimeUnit` and `SimpleDateFormat`: the number of days of a period and the meals of the period are inputs, and the "yyyy-MM-dd" key of a meal is its `date.day`.
- The RDA comparison message and `SwapSuggestion.toString`: display-only formatting of doubles.
- `ProfileController`: a non-blank check around a number parse and one insert; there is little to state.
- `DBManager.java` declares no `getComprehensiveNutrientProfile` or `findFoodSuggestions`, which NutrientCalculator.java and MealController.java call; they are functions of `Tables` that the model leaves unspecified.
- `DBManager.java` has no four-argument `getMealsForUser` or `getMostRecentMealDate`, and `SwapController.java` has no `applySwapOverTime`; their results are inputs and the over-time propagation is not modelled.
- `HashMap` iteration order: a search over the keys picks any matching key, so when several keys match the model promises some matching key's value, not a particular one.
- The console and error output of the loader and the database manager.
- MealController.LogMeal: the ingredient text is never null; a null text, which throws before the guards in the source, is not modelled.
- JavaStrings: case folding is ASCII only, which is what Java does for these patterns without the Unicode flag; `String.toLowerCase` on other letters is not modelled.
- JavaStrings.ToUpper: ASCII only, while `String.toUpperCase` (src/com/nutri_sci/service/SwapEngine.java:170, src/com/nutri_sci/controller/MealController.java:89, src/com/nutri_sci/controller/VisualizationController.java:138 and 149) also maps other letters and can lengthen a string ("ß" becomes "SS").
- JavaStrings.EqualsIgnoreCase: ASCII only, while `String.equalsIgnoreCase` (src/com/nutri_sci/service/SwapEngine.java:61, src/com/nutri_sci/database/DBManager.java:124, src/com/nutri_sci/database/DatabaseLoader.java:178 and 196) compares every letter through its upper- and lower-case forms, so that a dotless "ı" matches "I".
- DBManager.IsWordChar: the `\b` word boundary of the `REGEXP` search (src/com/nutri_sci/database/DBManager.java:310) is taken over ASCII letters, digits and `_`; MySQL's regular expressions also count other Unicode letters and digits as word characters.
- DBManager.RanksNoLater: `LENGTH(FoodDescription)` (src/com/nutri_sci/database/DBManager.java:302) counts bytes in MySQL; the model counts characters, which agree only on ASCII descriptions.
- DBManager.SqlEquals: the comparison of the column collation is modelled as ASCII case folding; a case- and accent-insensitive collation also equates accented letters with plain ones. DBManager.Tier's `LIKE` tests (src/com/nutri_sci/database/DBManager.java:298-299) are modelled with the same ASCII fold.
- MealController.ResolveIngredients: the dialog's choice is a function of the description and the suggestions, so two lines with the same description get the same food; the source opens a new dialog for every line (src/com/nutri_sci/controller/MealController.java:131-132), where the user may choose differently.
- DBManager.MealStore.SaveMeal: the DATETIME column is taken to round fractional seconds, the server's default; a server with `TIME_TRUNCATE_FRACTIONAL` set truncates them instead.
- SwapEngine.PerformSwap: it reads the quantity as group 1 of the ingredient pattern, while the source takes the text before the first lower-case "g" followed by blanks. The two differ on lines with blanks around the quantity or before the unit ("100 g rice" gives "100 g " followed by the new food in the source), on lines with an upper-case unit or no blank after it, and on lines such as "g " where the source throws. `SwapEngine.PerformSwapAsWritten` models the source's reading, and `SwapEngine.QuantityReadingsAgree` shows the two agree on every line the meal logger writes.

## Findings

| source | as written | input that shows it | evidently intended | confidence | as-written member | corrected member |
|---|---|---|---|---|---|---|
| src/com/nutri_sci/service/SwapEngine.java:155 | `performSwap` takes the quantity as the text before the first lower-case "g" followed by blanks, while every parser of the same line matches the unit case-insensitively | the line "100G rice", which the ingredient pattern accepts as 100 g of rice: the split finds no lower-case unit, keeps the whole line, and the new line reads "100G riceg " followed by the new food | the quantity is group 1 of the ingredient pattern, "100", so the new line is "100g " followed by the new food | high, latent, not executed | SwapEngine.PerformSwapAsWritten, SwapEngine.UpperCaseUnitKeepsWholeLine | SwapEngine.PerformSwap, SwapEngine.SwapLineParses |

`SwapEngine.PerformSwap`, which `SwapController.PerformAndSaveSwap` uses, takes the corrected
reading (`SwapEngine.SwapQuantity`); `SwapEngine.SwapLineParses` proves that its new line
reads back as the old grams of the new food for every line the pattern accepts.
`SwapEngine.QuantityReadingsAgree` shows that both readings build the same line on every
line the meal logger writes, and `performSwap` is only ever given lines of a stored meal,
which the meal logger or `performSwap` itself wrote in that form. The readings differ only on
lines that reach `performSwap` other than through the meal log, which the application never
passes: blanks around the quantity or before the unit change only the text of the new line,
while an upper-case unit or a missing blank after it corrupts it, and a line such as "g "
makes the source throw (`SwapEngine.UnitAloneThrows`).
