/**
 * MealController: the checks `logMeal` makes before it saves a meal, and `resolveIngredients`,
 * which turns what the user typed into lines "<grams>g <food description>" that each name a
 * food of the database, asking the user to choose when a line has several matches.
 */
module MealController {
  import opened Wrappers
  import opened JavaStrings
  import opened NutrientMaps
  import opened IngredientPattern
  import opened Model
  import opened DBManager
  import opened NutrientCalculator
  import opened Seqs

  /**
   * The user's answer in the IngredientResolverDialog shown for a description and its
   * suggestions: the food selected, or None when the dialog is closed without a selection.
   */
  type Picker = (string, seq<FoodItem>) -> Option<FoodItem>

  /**
   * How `resolveIngredients` ends: with the verified text, with null (the user cancelled), or
   * by throwing an exception with a message.
   */
  datatype Resolution = Resolved(text: string) | Cancelled | Failed(message: string)

  function ParseError(line: string): string {
    "Could not parse ingredient: '" + line + "'.\nPlease use format like '100g description'."
  }

  function NoMatchError(description: string): string {
    "No database match found for: '" + description + "'."
  }

  /** The food a line resolves to: the only suggestion, or else the user's pick. */
  function Selection(pick: Picker, description: string, suggestions: seq<FoodItem>): Option<FoodItem>
    requires suggestions != []
  {
    if |suggestions| == 1 then Some(suggestions[0]) else pick(description, suggestions)
  }

  /** What one input line does: nothing, write one ingredient, or end the resolution. */
  datatype Step = Skip | Emit(entry: Ingredient) | Stop(result: Resolution)

  /** One iteration of the loop of `resolveIngredients`. */
  function LineStep(t: Tables, pick: Picker, line: string): (r: Step)
    ensures r.Stop? ==> !r.result.Resolved?
  {
    if IsBlank(line) then Skip
    else
      match ParseLine(line)
      case None => Stop(Failed(ParseError(line)))
      case Some(e) =>
        var suggestions := FoodSuggestions(t, e.description);
        if suggestions == [] then Stop(Failed(NoMatchError(e.description)))
        else
          match Selection(pick, e.description, suggestions)
          case None => Stop(Cancelled)
          case Some(food) => Emit(Ingredient(e.quantity, food.description))
  }

  /** Each line's step for a database and a user. */
  function StepOf(t: Tables, pick: Picker): string -> Step {
    line => LineStep(t, pick, line)
  }

  /** A step function whose stops are never successes, as `LineStep`'s are. */
  ghost predicate StopsAreFinal(step: string -> Step) {
    forall line :: step(line).Stop? ==> !step(line).result.Resolved?
  }

  lemma LineStepsFinal(t: Tables, pick: Picker)
    ensures StopsAreFinal(StepOf(t, pick))
  {
    forall line ensures StepOf(t, pick)(line).Stop? ==> !StepOf(t, pick)(line).result.Resolved? {
      var r := LineStep(t, pick, line);
    }
  }

  /** The outcome of running `step` over `lines` in order: the first stop wins. */
  function ResolveWith(step: string -> Step, lines: seq<string>): Resolution
    decreases |lines|
  {
    if lines == [] then Resolved("")
    else
      match ResolveWith(step, lines[..|lines| - 1])
      case Resolved(text) =>
        (match step(lines[|lines| - 1])
         case Skip => Resolved(text)
         case Emit(e) => Resolved(text + CanonicalLine(e) + "\n")
         case Stop(r) => r)
      case other => other
  }

  /** The ingredients the lines write, in input order. */
  function EntriesWith(step: string -> Step, lines: seq<string>): seq<Ingredient>
    decreases |lines|
  {
    if lines == [] then []
    else
      var init := EntriesWith(step, lines[..|lines| - 1]);
      match step(lines[|lines| - 1])
      case Emit(e) => init + [e]
      case _ => init
  }

  /** No line ends the run early. */
  predicate Proceeds(step: string -> Step, lines: seq<string>) {
    forall i :: 0 <= i < |lines| ==> !step(lines[i]).Stop?
  }

  /** Line `i` is the first line that ends the run. */
  predicate FirstStop(step: string -> Step, lines: seq<string>, i: int) {
    0 <= i < |lines| && step(lines[i]).Stop? && Proceeds(step, lines[..i])
  }

  /** The outcome of `resolveIngredients` on the lines of the input. */
  function Resolve(t: Tables, pick: Picker, lines: seq<string>): Resolution {
    ResolveWith(StepOf(t, pick), lines)
  }

  /** The ingredients `resolveIngredients` writes for the lines of the input. */
  function Entries(t: Tables, pick: Picker, lines: seq<string>): seq<Ingredient> {
    EntriesWith(StepOf(t, pick), lines)
  }

  /** The lines that are not blank, in order. */
  function NonBlankLines(lines: seq<string>): seq<string> {
    if lines == [] then []
    else
      var init := NonBlankLines(lines[..|lines| - 1]);
      if IsBlank(lines[|lines| - 1]) then init else init + [lines[|lines| - 1]]
  }

  /**
   * A run succeeds exactly when no line stops it, and then its text is one terminated
   * "<grams>g <food>" line per written ingredient; otherwise it ends with what the first
   * stopping line gives (for `resolveIngredients`, that line's exception or the
   * cancellation), and no text.
   */
  lemma {:induction false} ResolveSpec(step: string -> Step, lines: seq<string>)
    requires StopsAreFinal(step)
    ensures ResolveWith(step, lines).Resolved? <==> Proceeds(step, lines)
    ensures Proceeds(step, lines) ==>
      ResolveWith(step, lines) == Resolved(Terminated(CanonicalLines(EntriesWith(step, lines))))
    ensures forall i :: FirstStop(step, lines, i) ==> ResolveWith(step, lines) == step(lines[i]).result
    decreases |lines|
  {
    if lines != [] {
      var n := |lines| - 1;
      var init := lines[..n];
      ResolveSpec(step, init);
      assert forall i :: 0 <= i < n ==> init[i] == lines[i];
      if Proceeds(step, lines) {
        assert Proceeds(step, init);
        var es := EntriesWith(step, init);
        assert ResolveWith(step, init) == Resolved(Terminated(CanonicalLines(es)));
        assert !step(lines[n]).Stop?;
        match step(lines[n])
        case Skip =>
          assert EntriesWith(step, lines) == es;
          assert ResolveWith(step, lines) == ResolveWith(step, init);
        case Emit(e) =>
          assert EntriesWith(step, lines) == es + [e];
          ApplyAppend(CanonicalLine, es, [e]);
          assert CanonicalLines(es + [e]) == CanonicalLines(es) + [CanonicalLine(e)];
          TerminatedSnoc(CanonicalLines(es), CanonicalLine(e));
          assert ResolveWith(step, lines) == Resolved(Terminated(CanonicalLines(es)) + CanonicalLine(e) + "\n");
      }
      forall i | FirstStop(step, lines, i)
        ensures ResolveWith(step, lines) == step(lines[i]).result
      {
        if i < n {
          assert init[..i] == lines[..i];
          assert FirstStop(step, init, i);
        } else {
          assert lines[..i] == init;
        }
      }
    }
  }

  /** Once a prefix of the lines has stopped, the remaining lines change nothing. */
  lemma {:induction false} ResolveStopped(step: string -> Step, lines: seq<string>, j: int)
    requires 0 <= j <= |lines| && !ResolveWith(step, lines[..j]).Resolved?
    ensures ResolveWith(step, lines) == ResolveWith(step, lines[..j])
    decreases |lines|
  {
    if j < |lines| {
      var init := lines[..|lines| - 1];
      assert init[..j] == lines[..j];
      ResolveStopped(step, init, j);
    } else {
      assert lines[..j] == lines;
    }
  }

  /** One more line on a prefix that is still resolving. */
  lemma ResolvePrefixStep(step: string -> Step, lines: seq<string>, i: int)
    requires 0 <= i < |lines| && ResolveWith(step, lines[..i]).Resolved?
    ensures ResolveWith(step, lines[..i + 1]) ==
      match step(lines[i])
      case Skip => ResolveWith(step, lines[..i])
      case Emit(e) => Resolved(ResolveWith(step, lines[..i]).text + CanonicalLine(e) + "\n")
      case Stop(r) => r
  {
    assert lines[..i + 1][..i] == lines[..i];
  }

  /**
   * `resolveIngredients(rawIngredients, owner)`: the text is split at '\n'; blank lines are
   * skipped; the first line the pattern rejects, or whose description has no suggestion, ends
   * it with an exception naming that line or description; one suggestion is taken as is,
   * several go to the user, and a closed dialog ends it with null; every resolved line appends
   * its quantity text, "g ", the chosen food's description and a newline.
   */
  method ResolveIngredients(t: Tables, pick: Picker, rawIngredients: string) returns (r: Resolution)
    ensures r == Resolve(t, pick, SplitLines(rawIngredients))
  {
    var lines := SplitLines(rawIngredients);
    ghost var step := StepOf(t, pick);
    LineStepsFinal(t, pick);
    var verifiedIngredientsBuilder := "";
    var i := 0;
    while i < |lines|
      invariant 0 <= i <= |lines|
      invariant ResolveWith(step, lines[..i]) == Resolved(verifiedIngredientsBuilder)
    {
      ResolvePrefixStep(step, lines, i);
      var outcome := ResolveLine(t, pick, lines[i]);
      assert outcome == step(lines[i]);
      match outcome {
        case Skip =>
        case Stop(result) =>
          ResolveStopped(step, lines, i + 1);
          return result;
        case Emit(e) =>
          AppendCanonicalLine(verifiedIngredientsBuilder, e);
          verifiedIngredientsBuilder := verifiedIngredientsBuilder + e.quantity + "g " + e.description + "\n";
      }
      i := i + 1;
    }
    assert lines[..i] == lines;
    r := Resolved(verifiedIngredientsBuilder);
  }

  /** Appending the quantity, "g ", the description and a newline appends the canonical line. */
  lemma AppendCanonicalLine(text: string, e: Ingredient)
    ensures text + e.quantity + "g " + e.description + "\n" == text + CanonicalLine(e) + "\n"
  {
  }

  /**
   * The body of the loop of `resolveIngredients` for one line: skip it when blank, throw when
   * the pattern rejects it or its description has no suggestion, take the only suggestion or
   * ask the user, return null when the dialog is closed, and otherwise write the line.
   */
  method ResolveLine(t: Tables, pick: Picker, line: string) returns (outcome: Step)
    ensures outcome == LineStep(t, pick, line)
  {
    if IsBlank(line) {
      return Skip;
    }
    var matcher := Match(Trim(line));
    if matcher.None? {
      assert ParseLine(line).None?;
      return Stop(Failed(ParseError(line)));
    }
    var quantityStr := matcher.value.quantity;
    var description := Trim(matcher.value.description);
    assert ParseLine(line) == Some(Ingredient(quantityStr, description));
    var suggestions := FoodSuggestions(t, description);
    if suggestions == [] {
      return Stop(Failed(NoMatchError(description)));
    }
    var selected;
    if |suggestions| == 1 {
      selected := Some(suggestions[0]);
    } else {
      selected := pick(description, suggestions);
    }
    assert selected == Selection(pick, description, suggestions);
    if selected.None? {
      return Stop(Cancelled);
    }
    outcome := Emit(Ingredient(quantityStr, selected.value.description));
  }

  /** Group 1 of a parsed line is always a numeral. */
  lemma ParsedQuantityIsNumeral(line: string)
    requires ParseLine(line).Some?
    ensures IsQuantityText(ParseLine(line).value.quantity)
  {
    QuantityEndIsQuantityText(Trim(line));
  }

  /** A blank line, and only a blank line, is skipped. */
  lemma LineStepSkip(t: Tables, pick: Picker, line: string)
    ensures LineStep(t, pick, line).Skip? <==> IsBlank(line)
  {
    if !IsBlank(line) && ParseLine(line).Some? {
      var e := ParseLine(line).value;
      var suggestions := FoodSuggestions(t, e.description);
      if suggestions != [] {
        assert LineStep(t, pick, line) ==
          match Selection(pick, e.description, suggestions)
          case None => Stop(Cancelled)
          case Some(food) => Emit(Ingredient(e.quantity, food.description));
      }
    }
  }

  /** A non-blank line the pattern rejects throws the exception that names it. */
  lemma LineStepUnparsed(t: Tables, pick: Picker, line: string)
    requires !IsBlank(line) && ParseLine(line).None?
    ensures LineStep(t, pick, line) == Stop(Failed(ParseError(line)))
  {
  }

  /** A parsed line whose description has no suggestion throws the exception naming it. */
  lemma LineStepNoMatch(t: Tables, pick: Picker, line: string)
    requires !IsBlank(line) && ParseLine(line).Some?
    requires FoodSuggestions(t, ParseLine(line).value.description) == []
    ensures LineStep(t, pick, line) == Stop(Failed(NoMatchError(ParseLine(line).value.description)))
  {
  }

  /** With a single suggestion the line takes it, whatever the user would pick. */
  lemma LineStepSingle(t: Tables, pick: Picker, line: string)
    requires !IsBlank(line) && ParseLine(line).Some?
    requires |FoodSuggestions(t, ParseLine(line).value.description)| == 1
    ensures LineStep(t, pick, line) == Emit(Ingredient(ParseLine(line).value.quantity,
      FoodSuggestions(t, ParseLine(line).value.description)[0].description))
  {
  }

  /**
   * With several suggestions the user's pick decides: closing the dialog cancels, and a
   * selection writes the line's quantity text with the selected food's description.
   */
  lemma LineStepPicked(t: Tables, pick: Picker, line: string)
    requires !IsBlank(line) && ParseLine(line).Some?
    requires |FoodSuggestions(t, ParseLine(line).value.description)| > 1
    ensures var d := ParseLine(line).value.description;
      && (pick(d, FoodSuggestions(t, d)).None? ==> LineStep(t, pick, line) == Stop(Cancelled))
      && (pick(d, FoodSuggestions(t, d)).Some? ==>
            LineStep(t, pick, line) == Emit(Ingredient(ParseLine(line).value.quantity, pick(d, FoodSuggestions(t, d)).value.description)))
  {
    var e := ParseLine(line).value;
    var suggestions := FoodSuggestions(t, e.description);
    assert Selection(pick, e.description, suggestions) == pick(e.description, suggestions);
    assert LineStep(t, pick, line) ==
      match Selection(pick, e.description, suggestions)
      case None => Stop(Cancelled)
      case Some(food) => Emit(Ingredient(e.quantity, food.description));
  }

  /** A line that writes an ingredient writes its own quantity text, a numeral. */
  lemma LineStepEmits(t: Tables, pick: Picker, line: string)
    requires LineStep(t, pick, line).Emit?
    ensures ParseLine(line).Some?
    ensures LineStep(t, pick, line).entry.quantity == ParseLine(line).value.quantity
    ensures IsQuantityText(LineStep(t, pick, line).entry.quantity)
  {
    ParsedQuantityIsNumeral(line);
  }

  /** The lines `step` does not skip, in order. */
  function Unskipped(step: string -> Step, lines: seq<string>): seq<string>
    decreases |lines|
  {
    if lines == [] then []
    else
      var init := Unskipped(step, lines[..|lines| - 1]);
      if step(lines[|lines| - 1]).Skip? then init else init + [lines[|lines| - 1]]
  }

  /**
   * When every line proceeds, there is one written ingredient per line not skipped, in input
   * order: the one that line writes.
   */
  lemma {:induction false} EntriesFollowLines(step: string -> Step, lines: seq<string>)
    requires Proceeds(step, lines)
    ensures |EntriesWith(step, lines)| == |Unskipped(step, lines)|
    ensures forall j :: 0 <= j < |Unskipped(step, lines)| ==> step(Unskipped(step, lines)[j]) == Emit(EntriesWith(step, lines)[j])
    decreases |lines|
  {
    if lines != [] {
      var n := |lines| - 1;
      var init := lines[..n];
      assert forall i :: 0 <= i < n ==> init[i] == lines[i];
      assert Proceeds(step, init);
      EntriesFollowLines(step, init);
      assert !step(lines[n]).Stop?;
    }
  }

  /** Under `LineStep`, the lines not skipped are the non-blank ones. */
  lemma {:induction false} UnskippedAreNonBlank(t: Tables, pick: Picker, lines: seq<string>)
    ensures Unskipped(StepOf(t, pick), lines) == NonBlankLines(lines)
    decreases |lines|
  {
    if lines != [] {
      UnskippedAreNonBlank(t, pick, lines[..|lines| - 1]);
      LineStepSkip(t, pick, lines[|lines| - 1]);
    }
  }

  /** A property every written ingredient has is a property of all the entries. */
  lemma {:induction false} EntriesKeep(step: string -> Step, lines: seq<string>, p: Ingredient -> bool)
    requires forall line :: step(line).Emit? ==> p(step(line).entry)
    ensures forall j :: 0 <= j < |EntriesWith(step, lines)| ==> p(EntriesWith(step, lines)[j])
    decreases |lines|
  {
    if lines != [] {
      EntriesKeep(step, lines[..|lines| - 1], p);
    }
  }

  /** The ingredients `resolveIngredients` writes are one per non-blank line, in input order. */
  lemma EntriesOfLines(t: Tables, pick: Picker, lines: seq<string>)
    requires Resolve(t, pick, lines).Resolved?
    ensures |Entries(t, pick, lines)| == |NonBlankLines(lines)|
    ensures forall j :: 0 <= j < |NonBlankLines(lines)| ==>
      LineStep(t, pick, NonBlankLines(lines)[j]) == Emit(Entries(t, pick, lines)[j])
  {
    var step := StepOf(t, pick);
    LineStepsFinal(t, pick);
    ResolveSpec(step, lines);
    EntriesFollowLines(step, lines);
    UnskippedAreNonBlank(t, pick, lines);
  }

  /** Every ingredient `resolveIngredients` writes has a numeral for its quantity. */
  lemma EntriesAreNumerals(t: Tables, pick: Picker, lines: seq<string>)
    ensures forall j :: 0 <= j < |Entries(t, pick, lines)| ==> IsQuantityText(Entries(t, pick, lines)[j].quantity)
  {
    var step := StepOf(t, pick);
    var p := (e: Ingredient) => IsQuantityText(e.quantity);
    forall line | step(line).Emit? ensures p(step(line).entry) {
      LineStepEmits(t, pick, line);
    }
    EntriesKeep(step, lines, p);
  }

  /** The chosen foods' descriptions survive being written and parsed again. */
  predicate CleanChoices(t: Tables, pick: Picker, lines: seq<string>) {
    forall j :: 0 <= j < |Entries(t, pick, lines)| ==> IsCleanDescription(Entries(t, pick, lines)[j].description)
  }

  lemma EntriesWritable(t: Tables, pick: Picker, lines: seq<string>)
    requires CleanChoices(t, pick, lines)
    ensures forall j :: 0 <= j < |Entries(t, pick, lines)| ==> IsWritable(Entries(t, pick, lines)[j])
  {
    EntriesAreNumerals(t, pick, lines);
  }

  /** The resolved text is the terminated canonical lines of the written ingredients. */
  lemma ResolvedText(t: Tables, pick: Picker, lines: seq<string>)
    requires Resolve(t, pick, lines).Resolved?
    ensures Resolve(t, pick, lines).text == Terminated(CanonicalLines(Entries(t, pick, lines)))
  {
    LineStepsFinal(t, pick);
    ResolveSpec(StepOf(t, pick), lines);
  }

  /**
   * Round trip: when the chosen foods' descriptions are non-empty, trimmed and on one line,
   * splitting the resolved text and parsing each line with the same pattern gives back every
   * written quantity text and chosen description, in order.
   */
  lemma ResolvedTextParsesBack(t: Tables, pick: Picker, lines: seq<string>)
    requires Resolve(t, pick, lines).Resolved? && CleanChoices(t, pick, lines)
    ensures Entries(t, pick, lines) == [] ==> Resolve(t, pick, lines).text == []
    ensures Entries(t, pick, lines) != [] ==>
      && |SplitLines(Resolve(t, pick, lines).text)| == |Entries(t, pick, lines)|
      && forall j :: 0 <= j < |Entries(t, pick, lines)| ==>
           ParseLine(SplitLines(Resolve(t, pick, lines).text)[j]) == Some(Entries(t, pick, lines)[j])
  {
    var es := Entries(t, pick, lines);
    ResolvedText(t, pick, lines);
    EntriesWritable(t, pick, lines);
    if es == [] {
      assert CanonicalLines(es) == [];
    } else {
      CanonicalTextLines(es);
      forall j | 0 <= j < |es| ensures ParseLine(CanonicalLines(es)[j]) == Some(es[j]) {
        ParseCanonicalLine(es[j]);
      }
    }
  }

  /**
   * The nutrients `logMeal` computes from the resolved text: for each nutrient, the sum over
   * the written ingredients of grams times the chosen food's per-100 g amount over 100.
   */
  lemma ResolvedTextNutrients(t: Tables, pick: Picker, lines: seq<string>, k: string)
    requires Resolve(t, pick, lines).Resolved? && CleanChoices(t, pick, lines)
    ensures Get(MealNutrients(t, Some(Resolve(t, pick, lines).text)), k) == EntriesAmount(t, Entries(t, pick, lines), k)
  {
    ResolvedText(t, pick, lines);
    EntriesWritable(t, pick, lines);
    MealNutrientsOfCanonicalText(t, Entries(t, pick, lines), k);
  }

  /** The row `logMeal` stores for the resolved text, with the meal's calorie value. */
  ghost predicate IsLoggedRow(r: MealRow, id: int, t: Tables, userId: int, date: Date, mealType: string, text: string) {
    && r == MealRow(id, userId, StoredDate(date), mealType, text, r.estimatedCalories, false, None)
    && IsLookupResult(MealNutrients(t, Some(text)), EnergyKcal, true, r.estimatedCalories)
  }

  /** The guards of `logMeal` that run before ingredient resolution. */
  predicate PassesGuards(store: MealStore, userId: int, date: Date, mealType: Option<string>, rawIngredients: string)
    reads store
  {
    && mealType.Some?
    && !IsBlank(rawIngredients)
    && (mealType.value == "Snack" || !store.HasUserLoggedMealTypeOnDate(userId, mealType.value, date))
  }

  /**
   * `logMeal(user, date, mealType, rawIngredients, owner)`: false without saving when the meal
   * type is missing, the text is blank, a meal of that type (other than "Snack") is already
   * logged that day, or resolution does not succeed; otherwise the resolved text is saved with
   * its calorie value, and the result is whether the save succeeded (`accepted`).
   */
  method LogMeal(store: MealStore, t: Tables, pick: Picker, userId: int, date: Date,
                 mealType: Option<string>, rawIngredients: string, accepted: bool) returns (logged: bool)
    requires store.Valid()
    modifies store
    ensures store.Valid()
    ensures logged <==> (old(PassesGuards(store, userId, date, mealType, rawIngredients))
      && Resolve(t, pick, SplitLines(rawIngredients)).Resolved? && accepted)
    ensures !logged ==> store.rows == old(store.rows) && store.nextId == old(store.nextId)
    ensures logged ==>
      && |store.rows| == |old(store.rows)| + 1
      && store.rows[..|old(store.rows)|] == old(store.rows)
      && IsLoggedRow(store.rows[|old(store.rows)|], old(store.nextId), t, userId, date, mealType.value,
           Resolve(t, pick, SplitLines(rawIngredients)).text)
    ensures logged ==> store.HasUserLoggedMealTypeOnDate(userId, mealType.value, StoredDate(date))
  {
    if mealType.None? || IsBlank(rawIngredients) {
      return false;
    }
    if mealType.value != "Snack" && store.HasUserLoggedMealTypeOnDate(userId, mealType.value, date) {
      return false;
    }
    var verifiedIngredients := ResolveIngredients(t, pick, rawIngredients);
    if !verifiedIngredients.Resolved? {
      return false;
    }
    var meal := NewMeal(date, mealType.value, verifiedIngredients.text);
    var nutrients := CalculateNutrientsForMeal(t, Some(verifiedIngredients.text));
    var calories := CalorieValue(nutrients);
    meal := meal.(estimatedCalories := calories, nutrientBreakdown := nutrients);
    logged := store.SaveMeal(userId, meal, accepted);
  }
}
