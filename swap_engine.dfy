/**
 * SwapEngine: ranking replacement foods for one ingredient of a meal against the user's
 * nutritional goals, and rewriting a meal with a chosen replacement.
 */
module SwapEngine {
  import opened Wrappers
  import opened JavaStrings
  import opened NutrientMaps
  import opened IngredientPattern
  import opened Sorting
  import opened Model
  import opened DBManager
  import opened NutrientCalculator

  const GoalAchievementWeight := 100.0
  const NutritionalStabilityWeight := 50.0
  const FoodGroupBonus := -20.0
  const SuggestionLimit := 20

  function Abs(x: real): (r: real)
    ensures r >= 0.0 && (r == x || r == -x)
  {
    if x < 0.0 then -x else x
  }

  // ----- calculateSwapScores -----

  /** `originalVal * (goal.getValue() / 100.0)`: a change stated as a percentage of the old amount. */
  function RelativeAmount(originalVal: real, percent: real): real {
    originalVal * (percent / 100.0)
  }

  /** The change a goal asks for: its value (or that percentage of the old amount), negated for "Decrease". */
  function IdealChange(originalVal: real, goal: Goal): real {
    var ideal := if goal.isRelative then RelativeAmount(originalVal, goal.value) else goal.value;
    if goal.IsDecrease() then -ideal else ideal
  }

  /** How far the change a swap makes to the goal's nutrient is from the change the goal asks for. */
  function GoalError(original: NutrientMap, candidate: NutrientMap, goal: Goal): real {
    var originalVal := Get(original, goal.nutrient);
    Abs((Get(candidate, goal.nutrient) - originalVal) - IdealChange(originalVal, goal))
  }

  /** `totalGoalError` after the loop over `goals`. */
  function TotalGoalError(original: NutrientMap, candidate: NutrientMap, goals: seq<Goal>): (r: real)
    ensures r >= 0.0
  {
    if goals == [] then 0.0
    else TotalGoalError(original, candidate, goals[..|goals| - 1]) + GoalError(original, candidate, goals[|goals| - 1])
  }

  function GoalNutrients(goals: seq<Goal>): set<string> {
    set i | 0 <= i < |goals| :: goals[i].nutrient
  }

  /** `Math.abs((newVal - originalVal) / originalVal)`: the relative change of a present nutrient. */
  function Deviation(originalVal: real, newVal: real): real
    requires originalVal > 0.0
  {
    Abs((newVal - originalVal) / originalVal)
  }

  /**
   * What one nutrient that no goal names adds to the penalty: how far its relative change
   * exceeds the tolerance (a percentage) when it was present, or 1.0 when it only appears.
   */
  function PenaltyTerm(originalVal: real, newVal: real, tolerance: real): (r: real)
    ensures r >= 0.0
  {
    if originalVal > 0.0 then
      var deviation := Deviation(originalVal, newVal);
      if deviation > tolerance / 100.0 then deviation - tolerance / 100.0 else 0.0
    else if newVal > 0.0 then 1.0
    else 0.0
  }

  /** The penalty term of every nutrient of either profile that no goal names. */
  function PenaltyTerms(original: NutrientMap, candidate: NutrientMap, goals: seq<Goal>, tolerance: real): (r: map<string, real>)
    ensures r.Keys == (original.Keys + candidate.Keys) - GoalNutrients(goals)
  {
    map k | k in (original.Keys + candidate.Keys) - GoalNutrients(goals) ::
      PenaltyTerm(Get(original, k), Get(candidate, k), tolerance)
  }

  ghost function StabilityPenalty(original: NutrientMap, candidate: NutrientMap, goals: seq<Goal>, tolerance: real): real {
    SumValues(PenaltyTerms(original, candidate, goals, tolerance))
  }

  /** The score before the food-group bonus: lower is better. */
  ghost function SwapScore(original: NutrientMap, candidate: NutrientMap, goals: seq<Goal>, tolerance: real): real {
    TotalGoalError(original, candidate, goals) * GoalAchievementWeight
    + StabilityPenalty(original, candidate, goals, tolerance) * NutritionalStabilityWeight
  }

  /** Neither part of the score is negative, so neither is the score. */
  lemma ScoreNonNegative(original: NutrientMap, candidate: NutrientMap, goals: seq<Goal>, tolerance: real)
    ensures StabilityPenalty(original, candidate, goals, tolerance) >= 0.0
    ensures SwapScore(original, candidate, goals, tolerance) >= 0.0
  {
    SumValuesNonNegative(PenaltyTerms(original, candidate, goals, tolerance));
  }

  /** A candidate with the very same profile costs no stability penalty, whatever the goals. */
  lemma IdenticalProfilesNoPenalty(profile: NutrientMap, goals: seq<Goal>, tolerance: real)
    requires tolerance >= 0.0
    ensures StabilityPenalty(profile, profile, goals, tolerance) == 0.0
  {
    var terms := PenaltyTerms(profile, profile, goals, tolerance);
    forall k | k in terms ensures terms[k] == 0.0 {
      var v := Get(profile, k);
      if v > 0.0 {
        assert (v - v) / v == 0.0;
      }
    }
    SumValuesZero(terms);
  }

  lemma TotalGoalErrorStep(original: NutrientMap, candidate: NutrientMap, goals: seq<Goal>, i: int)
    requires 0 <= i < |goals|
    ensures TotalGoalError(original, candidate, goals[..i + 1])
      == TotalGoalError(original, candidate, goals[..i]) + GoalError(original, candidate, goals[i])
  {
    assert goals[..i + 1][..i] == goals[..i];
  }

  lemma PenaltyTermsEntry(original: NutrientMap, candidate: NutrientMap, goals: seq<Goal>, tolerance: real, k: string)
    requires k in original.Keys + candidate.Keys && k !in GoalNutrients(goals)
    ensures PenaltyTerms(original, candidate, goals, tolerance)[k] == PenaltyTerm(Get(original, k), Get(candidate, k), tolerance)
  {
  }

  /** The first loop of `calculateSwapScores`: the goal errors, summed over the goals in order. */
  method SumGoalErrors(originalNutrients: NutrientMap, newNutrients: NutrientMap, goals: seq<Goal>)
    returns (totalGoalError: real)
    ensures totalGoalError == TotalGoalError(originalNutrients, newNutrients, goals)
  {
    totalGoalError := 0.0;
    var i := 0;
    while i < |goals|
      invariant 0 <= i <= |goals|
      invariant totalGoalError == TotalGoalError(originalNutrients, newNutrients, goals[..i])
    {
      var goal := goals[i];
      TotalGoalErrorStep(originalNutrients, newNutrients, goals, i);
      var originalVal := Get(originalNutrients, goal.nutrient);
      var idealChange := if goal.isRelative then RelativeAmount(originalVal, goal.value) else goal.value;
      if goal.kind == "Decrease" {
        idealChange := idealChange * -1.0;
      }
      assert idealChange == IdealChange(originalVal, goal);
      var actualChange := Get(newNutrients, goal.nutrient) - originalVal;
      totalGoalError := totalGoalError + Abs(actualChange - idealChange);
      i := i + 1;
    }
    assert goals[..i] == goals;
  }

  /** The second loop of `calculateSwapScores`: the penalty terms, summed over the union of the keys. */
  method SumPenalties(originalNutrients: NutrientMap, newNutrients: NutrientMap, goals: seq<Goal>, tolerance: real)
    returns (stabilityPenalty: real)
    ensures stabilityPenalty == StabilityPenalty(originalNutrients, newNutrients, goals, tolerance)
  {
    stabilityPenalty := 0.0;
    var goalNutrients := GoalNutrients(goals);
    var allNutrients := originalNutrients.Keys + newNutrients.Keys;
    ghost var terms := PenaltyTerms(originalNutrients, newNutrients, goals, tolerance);
    var pending := allNutrients;
    while pending != {}
      invariant pending <= allNutrients
      invariant stabilityPenalty == SumValues(Restrict(terms, allNutrients - pending))
      decreases pending
    {
      var nutrient :| nutrient in pending;
      ghost var done := allNutrients - pending;
      pending := pending - {nutrient};
      assert allNutrients - pending == done + {nutrient};
      if nutrient in goalNutrients {
        RestrictAbsent(terms, done, nutrient);
        continue;
      }
      SumRestrictStep(terms, done, nutrient);
      PenaltyTermsEntry(originalNutrients, newNutrients, goals, tolerance, nutrient);
      var originalVal := Get(originalNutrients, nutrient);
      var newVal := Get(newNutrients, nutrient);
      if originalVal > 0.0 {
        var deviation := Deviation(originalVal, newVal);
        if deviation > tolerance / 100.0 {
          stabilityPenalty := stabilityPenalty + (deviation - tolerance / 100.0);
        }
      } else if newVal > 0.0 {
        stabilityPenalty := stabilityPenalty + 1.0;
      }
    }
    assert allNutrients - pending == allNutrients;
    RestrictAll(terms, allNutrients);
  }

  /** `calculateSwapScores`: the weighted goal error plus the weighted stability penalty. */
  method CalculateSwapScores(originalNutrients: NutrientMap, newNutrients: NutrientMap, goals: seq<Goal>, tolerance: real)
    returns (finalScore: real, stabilityPenalty: real)
    ensures stabilityPenalty == StabilityPenalty(originalNutrients, newNutrients, goals, tolerance)
    ensures finalScore == SwapScore(originalNutrients, newNutrients, goals, tolerance)
  {
    var totalGoalError := SumGoalErrors(originalNutrients, newNutrients, goals);
    stabilityPenalty := SumPenalties(originalNutrients, newNutrients, goals, tolerance);
    finalScore := (totalGoalError * GoalAchievementWeight) + (stabilityPenalty * NutritionalStabilityWeight);
  }

  // ----- the direction filter -----

  /** The candidate moves the goal's nutrient the wrong way (a missing nutrient reads as 0). */
  predicate ViolatesGoal(original: NutrientMap, candidate: NutrientMap, goal: Goal) {
    var actualChange := Get(candidate, goal.nutrient) - Get(original, goal.nutrient);
    (goal.IsIncrease() && actualChange < 0.0) || (goal.IsDecrease() && actualChange > 0.0)
  }

  predicate MovesInGoalDirection(original: NutrientMap, candidate: NutrientMap, goals: seq<Goal>) {
    forall i :: 0 <= i < |goals| ==> !ViolatesGoal(original, candidate, goals[i])
  }

  /** The loop over the goals that clears `movesInCorrectDirection` and breaks at the first violation. */
  method CheckDirection(original: NutrientMap, candidate: NutrientMap, goals: seq<Goal>) returns (movesInCorrectDirection: bool)
    ensures movesInCorrectDirection == MovesInGoalDirection(original, candidate, goals)
  {
    movesInCorrectDirection := true;
    var i := 0;
    while i < |goals|
      invariant 0 <= i <= |goals|
      invariant forall j :: 0 <= j < i ==> !ViolatesGoal(original, candidate, goals[j])
    {
      var goal := goals[i];
      var actualChange := Get(candidate, goal.nutrient) - Get(original, goal.nutrient);
      if (goal.kind == "Increase" && actualChange < 0.0) || (goal.kind == "Decrease" && actualChange > 0.0) {
        movesInCorrectDirection := false;
        break;
      }
      i := i + 1;
    }
  }

  // ----- the change maps -----

  /** `value * (originalQuantity / 100.0)`: a per-100 g amount at the ingredient's quantity. */
  function ScaledTotal(per100g: real, quantity: real): real {
    per100g * (quantity / 100.0)
  }

  /** `(newValTotal - originalValTotal) / originalValTotal`, or 1.0 / 0.0 when there was none. */
  function PercentChange(originalValTotal: real, newValTotal: real): real {
    if originalValTotal != 0.0 then (newValTotal - originalValTotal) / originalValTotal
    else if newValTotal > 0.0 then 1.0
    else 0.0
  }

  function NutrientChanges(original: NutrientMap, candidate: NutrientMap, quantity: real): (r: NutrientMap)
    ensures r.Keys == original.Keys + candidate.Keys
  {
    map k | k in original.Keys + candidate.Keys ::
      ScaledTotal(Get(candidate, k), quantity) - ScaledTotal(Get(original, k), quantity)
  }

  function NutrientPercentChanges(original: NutrientMap, candidate: NutrientMap, quantity: real): (r: NutrientMap)
    ensures r.Keys == original.Keys + candidate.Keys
  {
    map k | k in original.Keys + candidate.Keys ::
      PercentChange(ScaledTotal(Get(original, k), quantity), ScaledTotal(Get(candidate, k), quantity))
  }

  /** Scaling to a quantity distributes over a difference. */
  lemma ScaledDifference(a: real, b: real, quantity: real)
    ensures ScaledTotal(a, quantity) - ScaledTotal(b, quantity) == ScaledTotal(a - b, quantity)
  {
    var f := quantity / 100.0;
    assert (a - b) * f == a * f - b * f;
  }

  /** A relative change times the old total gives the change back. */
  lemma PercentChangeInverse(originalValTotal: real, newValTotal: real)
    requires originalValTotal != 0.0
    ensures PercentChange(originalValTotal, newValTotal) * originalValTotal == newValTotal - originalValTotal
  {
  }

  /**
   * Both maps cover every nutrient of either profile; a change is the difference of the
   * per-100 g amounts scaled to the quantity, and where the old total is not zero the
   * percentage change is the change over the old total (1 or 0 where it is zero).
   */
  lemma ChangeMapsSpec(original: NutrientMap, candidate: NutrientMap, quantity: real, k: string)
    requires k in original || k in candidate
    ensures k in NutrientChanges(original, candidate, quantity) && k in NutrientPercentChanges(original, candidate, quantity)
    ensures NutrientChanges(original, candidate, quantity)[k] == ScaledTotal(Get(candidate, k) - Get(original, k), quantity)
    ensures ScaledTotal(Get(original, k), quantity) != 0.0 ==>
      NutrientPercentChanges(original, candidate, quantity)[k]
        == NutrientChanges(original, candidate, quantity)[k] / ScaledTotal(Get(original, k), quantity)
    ensures ScaledTotal(Get(original, k), quantity) == 0.0 ==>
      NutrientPercentChanges(original, candidate, quantity)[k]
        == (if ScaledTotal(Get(candidate, k), quantity) > 0.0 then 1.0 else 0.0)
  {
    var o := ScaledTotal(Get(original, k), quantity);
    var n := ScaledTotal(Get(candidate, k), quantity);
    ScaledDifference(Get(candidate, k), Get(original, k), quantity);
    assert NutrientChanges(original, candidate, quantity)[k] == n - o;
    assert NutrientPercentChanges(original, candidate, quantity)[k] == PercentChange(o, n);

  }

  lemma ChangeEntries(original: NutrientMap, candidate: NutrientMap, quantity: real, k: string)
    requires k in original.Keys + candidate.Keys
    ensures NutrientChanges(original, candidate, quantity)[k]
      == ScaledTotal(Get(candidate, k), quantity) - ScaledTotal(Get(original, k), quantity)
    ensures NutrientPercentChanges(original, candidate, quantity)[k]
      == PercentChange(ScaledTotal(Get(original, k), quantity), ScaledTotal(Get(candidate, k), quantity))
  {
  }

  /** The loop over the union of the keys that fills both change maps. */
  method BuildChangeMaps(original: NutrientMap, candidate: NutrientMap, originalQuantity: real)
    returns (nutrientChanges: NutrientMap, nutrientPercentChanges: NutrientMap)
    ensures nutrientChanges == NutrientChanges(original, candidate, originalQuantity)
    ensures nutrientPercentChanges == NutrientPercentChanges(original, candidate, originalQuantity)
  {
    nutrientChanges := map[];
    nutrientPercentChanges := map[];
    var allNutrientKeys := original.Keys + candidate.Keys;
    ghost var changes := NutrientChanges(original, candidate, originalQuantity);
    ghost var percents := NutrientPercentChanges(original, candidate, originalQuantity);
    var pending := allNutrientKeys;
    while pending != {}
      invariant pending <= allNutrientKeys
      invariant nutrientChanges == Restrict(changes, allNutrientKeys - pending)
      invariant nutrientPercentChanges == Restrict(percents, allNutrientKeys - pending)
      decreases pending
    {
      var nutrient :| nutrient in pending;
      ghost var done := allNutrientKeys - pending;
      RestrictInsert(changes, done, nutrient);
      RestrictInsert(percents, done, nutrient);
      var originalValTotal := ScaledTotal(Get(original, nutrient), originalQuantity);
      var newValTotal := ScaledTotal(Get(candidate, nutrient), originalQuantity);
      ChangeEntries(original, candidate, originalQuantity, nutrient);
      nutrientChanges := nutrientChanges[nutrient := newValTotal - originalValTotal];
      var percentChange;
      if originalValTotal != 0.0 {
        percentChange := (newValTotal - originalValTotal) / originalValTotal;
      } else {
        percentChange := if newValTotal > 0.0 then 1.0 else 0.0;
      }
      assert percentChange == PercentChange(originalValTotal, newValTotal);
      nutrientPercentChanges := nutrientPercentChanges[nutrient := percentChange];
      pending := pending - {nutrient};
      assert allNutrientKeys - pending == done + {nutrient};
    }
    assert allNutrientKeys - pending == allNutrientKeys;
    RestrictAll(changes, allNutrientKeys);
    RestrictAll(percents, allNutrientKeys);
  }

  // ----- findSwaps -----

  /** What `findSwaps` knows about the ingredient being replaced once its three early exits pass. */
  datatype SwapContext = SwapContext(
    quantity: real,
    description: string,
    original: NutrientMap,
    originalGroup: Option<string>)

  /**
   * None when `findSwaps` returns an empty list at once: the trimmed line does not match the
   * ingredient pattern, there are no goals, or the described food has no nutrient profile.
   */
  function Setup(t: Tables, itemToSwap: string, goals: seq<Goal>): Option<SwapContext> {
    match ParseLine(itemToSwap)
    case None => None
    case Some(e) =>
      if goals == [] then None
      else
        var original := NutrientProfile(t, e.description);
        if original == map[] then None
        else Some(SwapContext(QuantityValue(e.quantity), e.description, original, GetFoodGroup(t, itemToSwap)))
  }

  /** `goal.getType().equals("Increase") ? "HIGH" : "LOW"`. */
  function RankFor(goal: Goal): string {
    if goal.IsIncrease() then "HIGH" else "LOW"
  }

  function SetOf(names: seq<string>): set<string> {
    set x | x in names
  }

  /** The union of the rank lists of the goals' nutrients, each in the goal's direction. */
  function RankedCandidates(t: Tables, goals: seq<Goal>): set<string> {
    if goals == [] then {}
    else
      var g := goals[|goals| - 1];
      RankedCandidates(t, goals[..|goals| - 1]) + SetOf(Descriptions(RankedRows(t, g.nutrient, RankFor(g))))
  }

  lemma RankedCandidatesStep(t: Tables, goals: seq<Goal>, i: int)
    requires 0 <= i < |goals|
    ensures RankedCandidates(t, goals[..i + 1])
      == RankedCandidates(t, goals[..i]) + SetOf(Descriptions(RankedRows(t, goals[i].nutrient, RankFor(goals[i]))))
  {
    assert goals[..i + 1][..i] == goals[..i];
  }

  function GroupCandidates(t: Tables, group: Option<string>): set<string> {
    match group
    case None => {}
    case Some(name) => SetOf(FoodsFromGroup(t, t.foods, name))
  }

  /**
   * `potentialSwapsSet`: the original's group when only that group is wanted (None when it
   * has no group, an early exit), otherwise every goal's rank list plus the original's group.
   */
  function Candidates(t: Tables, ctx: SwapContext, goals: seq<Goal>, sameGroupOnly: bool): Option<set<string>> {
    if sameGroupOnly then
      if ctx.originalGroup.None? then None else Some(GroupCandidates(t, ctx.originalGroup))
    else Some(RankedCandidates(t, goals) + GroupCandidates(t, ctx.originalGroup))
  }

  /** The bonus `findSwaps` adds when the candidate's food group is the original's. */
  function GroupBonus(swapGroup: Option<string>, originalGroup: Option<string>): real {
    if swapGroup.Some? && swapGroup == originalGroup then FoodGroupBonus else 0.0
  }

  /** The candidate's profile fails one of the filters of the loop body. */
  ghost predicate Rejected(ctx: SwapContext, goals: seq<Goal>, tolerance: real, strictTolerance: bool, n: NutrientMap) {
    || n == map[]
    || !MovesInGoalDirection(ctx.original, n, goals)
    || (strictTolerance && StabilityPenalty(ctx.original, n, goals, tolerance) > 0.0)
  }

  /** The suggestion built for a candidate with profile `n` and food group `swapGroup`. */
  ghost function Scored(ctx: SwapContext, goals: seq<Goal>, tolerance: real, potentialSwap: string, n: NutrientMap,
                        swapGroup: Option<string>): SwapSuggestion
  {
    SwapSuggestion(
      potentialSwap,
      swapGroup,
      SwapScore(ctx.original, n, goals, tolerance) + GroupBonus(swapGroup, ctx.originalGroup),
      NutrientChanges(ctx.original, n, ctx.quantity),
      NutrientPercentChanges(ctx.original, n, ctx.quantity))
  }

  /**
   * The suggestion one candidate yields, or None when the loop body skips it: it is the
   * original (ignoring case), it has no profile, it moves some goal the wrong way, or the
   * tolerance is strict and it costs a penalty. The group is looked up for "100g " and the name.
   */
  ghost function Suggestion(t: Tables, ctx: SwapContext, goals: seq<Goal>, tolerance: real, strictTolerance: bool,
                            potentialSwap: string): Option<SwapSuggestion>
  {
    if EqualsIgnoreCase(potentialSwap, ctx.description)
      || Rejected(ctx, goals, tolerance, strictTolerance, NutrientProfile(t, potentialSwap))
    then None
    else Some(Scored(ctx, goals, tolerance, potentialSwap, NutrientProfile(t, potentialSwap), GetFoodGroup(t, "100g " + potentialSwap)))
  }

  /**
   * A profile that passes the filters moves every goal's nutrient in the goal's direction,
   * costs no penalty under a strict tolerance, and its suggestion scores the weighted goal
   * error and penalty, lowered by exactly 20 when its food group is the original's.
   */
  lemma ScoredSpec(ctx: SwapContext, goals: seq<Goal>, tolerance: real, strictTolerance: bool, c: string, n: NutrientMap,
                   swapGroup: Option<string>)
    requires !Rejected(ctx, goals, tolerance, strictTolerance, n)
    ensures n != map[]
    ensures forall i :: 0 <= i < |goals| && goals[i].IsIncrease() ==>
      Get(n, goals[i].nutrient) >= Get(ctx.original, goals[i].nutrient)
    ensures forall i :: 0 <= i < |goals| && goals[i].IsDecrease() ==>
      Get(n, goals[i].nutrient) <= Get(ctx.original, goals[i].nutrient)
    ensures strictTolerance ==> StabilityPenalty(ctx.original, n, goals, tolerance) == 0.0
    ensures var s := Scored(ctx, goals, tolerance, c, n, swapGroup);
      && s.foodName == c && s.foodGroup == swapGroup
      && s.finalScore == SwapScore(ctx.original, n, goals, tolerance)
           + (if swapGroup.Some? && swapGroup == ctx.originalGroup then -20.0 else 0.0)
      && s.finalScore >= -20.0
  {
    ScoreNonNegative(ctx.original, n, goals, tolerance);
    forall i | 0 <= i < |goals| ensures !ViolatesGoal(ctx.original, n, goals[i]) {
    }
  }

  /** A candidate yields a suggestion exactly when it is not the original and its profile passes the filters. */
  lemma SuggestionSpec(t: Tables, ctx: SwapContext, goals: seq<Goal>, tolerance: real, strictTolerance: bool, c: string)
    ensures Suggestion(t, ctx, goals, tolerance, strictTolerance, c).Some? <==>
      !EqualsIgnoreCase(c, ctx.description) && !Rejected(ctx, goals, tolerance, strictTolerance, NutrientProfile(t, c))
    ensures Suggestion(t, ctx, goals, tolerance, strictTolerance, c).Some? ==>
      Suggestion(t, ctx, goals, tolerance, strictTolerance, c).value.foodName == c
  {
  }

  /** The direction check and the scores of a candidate's profile, and whether it passes the filters. */
  method CheckCandidate(ctx: SwapContext, goals: seq<Goal>, tolerance: real, strictTolerance: bool, newItemNutrients: NutrientMap)
    returns (accepted: bool, finalScore: real)
    ensures accepted == !Rejected(ctx, goals, tolerance, strictTolerance, newItemNutrients)
    ensures accepted ==> finalScore == SwapScore(ctx.original, newItemNutrients, goals, tolerance)
  {
    accepted, finalScore := false, 0.0;
    if newItemNutrients == map[] {
      return;
    }
    var movesInCorrectDirection := CheckDirection(ctx.original, newItemNutrients, goals);
    if !movesInCorrectDirection {
      return;
    }
    var stabilityPenalty;
    finalScore, stabilityPenalty := CalculateSwapScores(ctx.original, newItemNutrients, goals, tolerance);
    if strictTolerance && stabilityPenalty > 0.0 {
      return;
    }
    accepted := true;
  }

  lemma ScoredOfParts(ctx: SwapContext, goals: seq<Goal>, tolerance: real, c: string, n: NutrientMap, swapGroup: Option<string>,
                      finalScore: real, nutrientChanges: NutrientMap, nutrientPercentChanges: NutrientMap)
    requires finalScore == SwapScore(ctx.original, n, goals, tolerance) + GroupBonus(swapGroup, ctx.originalGroup)
    requires nutrientChanges == NutrientChanges(ctx.original, n, ctx.quantity)
    requires nutrientPercentChanges == NutrientPercentChanges(ctx.original, n, ctx.quantity)
    ensures SwapSuggestion(c, swapGroup, finalScore, nutrientChanges, nutrientPercentChanges) == Scored(ctx, goals, tolerance, c, n, swapGroup)
  {
  }

  /** The loop body of `findSwaps` for one candidate. */
  method ScoreCandidate(t: Tables, ctx: SwapContext, goals: seq<Goal>, tolerance: real, strictTolerance: bool,
                        potentialSwap: string) returns (s: Option<SwapSuggestion>)
    ensures s == Suggestion(t, ctx, goals, tolerance, strictTolerance, potentialSwap)
    ensures s.Some? ==> s.value.foodName == potentialSwap
  {
    if EqualsIgnoreCase(potentialSwap, ctx.description) {
      return None;
    }
    var newItemNutrients := GetNutrientProfile(t, potentialSwap);
    var accepted, finalScore := CheckCandidate(ctx, goals, tolerance, strictTolerance, newItemNutrients);
    if !accepted {
      return None;
    }
    var swapFoodGroup := GetFoodGroup(t, "100g " + potentialSwap);
    if swapFoodGroup.Some? && swapFoodGroup == ctx.originalGroup {
      finalScore := finalScore + FoodGroupBonus;
    }
    var nutrientChanges, nutrientPercentChanges := BuildChangeMaps(ctx.original, newItemNutrients, ctx.quantity);
    ScoredOfParts(ctx, goals, tolerance, potentialSwap, newItemNutrients, swapFoodGroup, finalScore, nutrientChanges, nutrientPercentChanges);
    return Some(SwapSuggestion(potentialSwap, swapFoodGroup, finalScore, nutrientChanges, nutrientPercentChanges));
  }

  function FinalScoreOf(s: SwapSuggestion): real {
    s.finalScore
  }

  /** Every candidate's suggestion, as one function. */
  ghost function SuggestionOf(t: Tables, ctx: SwapContext, goals: seq<Goal>, tolerance: real, strictTolerance: bool)
    : string -> Option<SwapSuggestion>
  {
    c => Suggestion(t, ctx, goals, tolerance, strictTolerance, c)
  }

  /**
   * `scored` holds, once each and in some order, the suggestion of every candidate in `done`
   * that yields one, and nothing else.
   */
  predicate IsScoredBy(suggest: string -> Option<SwapSuggestion>, done: set<string>, scored: seq<SwapSuggestion>) {
    && (forall i :: 0 <= i < |scored| ==> scored[i].foodName in done && suggest(scored[i].foodName) == Some(scored[i]))
    && (forall c :: c in done && suggest(c).Some? ==> suggest(c).value in scored)
    && (forall i, j :: 0 <= i < j < |scored| ==> scored[i].foodName != scored[j].foodName)
  }

  /** Scoring one more candidate keeps `scored` exactly the suggestions of the candidates seen. */
  lemma ScoredStep(suggest: string -> Option<SwapSuggestion>, done: set<string>, scored: seq<SwapSuggestion>, c: string)
    requires IsScoredBy(suggest, done, scored) && c !in done
    requires suggest(c).Some? ==> suggest(c).value.foodName == c
    ensures IsScoredBy(suggest, done + {c}, if suggest(c).Some? then scored + [suggest(c).value] else scored)
  {
  }

  /**
   * The lists `findSwaps` can return (the candidate set is iterated in an unspecified order):
   * empty after an early exit, otherwise the suggestions sorted by score and cut to 20.
   */
  ghost predicate IsSwapResult(t: Tables, itemToSwap: string, goals: seq<Goal>, tolerance: real, sameGroupOnly: bool,
                               strictTolerance: bool, r: seq<SwapSuggestion>)
  {
    match Setup(t, itemToSwap, goals)
    case None => r == []
    case Some(ctx) =>
      match Candidates(t, ctx, goals, sameGroupOnly)
      case None => r == []
      case Some(candidates) =>
        exists scored :: IsScoredBy(SuggestionOf(t, ctx, goals, tolerance, strictTolerance), candidates, scored)
          && r == Take(SortBy(scored, FinalScoreOf), SuggestionLimit)
  }

  /** The loop of `findSwaps` over the candidate set. */
  method ScoreAll(t: Tables, ctx: SwapContext, goals: seq<Goal>, tolerance: real, strictTolerance: bool,
                  potentialSwapsSet: set<string>) returns (scoredSuggestions: seq<SwapSuggestion>)
    ensures IsScoredBy(SuggestionOf(t, ctx, goals, tolerance, strictTolerance), potentialSwapsSet, scoredSuggestions)
  {
    ghost var suggest := SuggestionOf(t, ctx, goals, tolerance, strictTolerance);
    scoredSuggestions := [];
    var pending := potentialSwapsSet;
    while pending != {}
      invariant pending <= potentialSwapsSet
      invariant IsScoredBy(suggest, potentialSwapsSet - pending, scoredSuggestions)
      decreases pending
    {
      var potentialSwap :| potentialSwap in pending;
      ghost var done := potentialSwapsSet - pending;
      pending := pending - {potentialSwap};
      assert potentialSwapsSet - pending == done + {potentialSwap};
      var suggestion := ScoreCandidate(t, ctx, goals, tolerance, strictTolerance, potentialSwap);
      assert suggestion == suggest(potentialSwap);
      ScoredStep(suggest, done, scoredSuggestions, potentialSwap);
      if suggestion.Some? {
        scoredSuggestions := scoredSuggestions + [suggestion.value];
      }
    }
  }

  /** The candidate set of `findSwaps`; None for the early exit when only a missing group is wanted. */
  method CollectCandidates(t: Tables, ctx: SwapContext, goals: seq<Goal>, sameGroupOnly: bool)
    returns (potentialSwapsSet: Option<set<string>>)
    ensures potentialSwapsSet == Candidates(t, ctx, goals, sameGroupOnly)
  {
    var originalFoodGroup := ctx.originalGroup;
    if sameGroupOnly {
      if originalFoodGroup.Some? {
        return Some(SetOf(FoodsFromGroup(t, t.foods, originalFoodGroup.value)));
      } else {
        return None;
      }
    }
    var swaps: set<string> := {};
    var i := 0;
    while i < |goals|
      invariant 0 <= i <= |goals|
      invariant swaps == RankedCandidates(t, goals[..i])
    {
      var goal := goals[i];
      var rank := if goal.kind == "Increase" then "HIGH" else "LOW";
      var foods := GetFoodsByNutrientRank(t, goal.nutrient, rank);
      RankedCandidatesStep(t, goals, i);
      swaps := swaps + SetOf(foods);
      i := i + 1;
    }
    assert goals[..i] == goals;
    if originalFoodGroup.Some? {
      swaps := swaps + SetOf(FoodsFromGroup(t, t.foods, originalFoodGroup.value));
    }
    assert swaps == RankedCandidates(t, goals) + GroupCandidates(t, ctx.originalGroup);
    return Some(swaps);
  }

  /** `findSwaps(originalMeal, itemToSwap, goals, tolerance, sameGroupOnly, strictTolerance)`. */
  method FindSwaps(t: Tables, originalMeal: Meal, itemToSwap: string, goals: seq<Goal>, tolerance: real,
                   sameGroupOnly: bool, strictTolerance: bool) returns (r: seq<SwapSuggestion>)
    ensures IsSwapResult(t, itemToSwap, goals, tolerance, sameGroupOnly, strictTolerance, r)
    ensures ParseLine(itemToSwap).None? || goals == [] ==> r == []
    ensures ParseLine(itemToSwap).Some? && NutrientProfile(t, ParseLine(itemToSwap).value.description) == map[] ==> r == []
  {
    var matched := ParseLine(itemToSwap);
    if matched.None? || |goals| == 0 {
      return [];
    }
    var originalQuantity := QuantityValue(matched.value.quantity);
    var originalDescription := matched.value.description;
    var originalItemNutrients := GetNutrientProfile(t, originalDescription);
    if originalItemNutrients == map[] {
      return [];
    }

    var originalFoodGroup := GetFoodGroup(t, itemToSwap);
    var ctx := SwapContext(originalQuantity, originalDescription, originalItemNutrients, originalFoodGroup);
    assert Setup(t, itemToSwap, goals) == Some(ctx);
    var candidates := CollectCandidates(t, ctx, goals, sameGroupOnly);
    if candidates.None? {
      return [];
    }
    var potentialSwapsSet := candidates.value;
    var scoredSuggestions := ScoreAll(t, ctx, goals, tolerance, strictTolerance, potentialSwapsSet);
    r := Take(SortBy(scoredSuggestions, FinalScoreOf), SuggestionLimit);
  }

  /**
   * The top of the sorted suggestions: at most 20, in ascending order of score, each the
   * suggestion of one of the candidates.
   */
  lemma TopSuggestions(suggest: string -> Option<SwapSuggestion>, candidates: set<string>, scored: seq<SwapSuggestion>)
    requires IsScoredBy(suggest, candidates, scored)
    ensures var r := Take(SortBy(scored, FinalScoreOf), SuggestionLimit);
      && |r| <= SuggestionLimit
      && (forall i, j :: 0 <= i < j < |r| ==> r[i].finalScore <= r[j].finalScore)
      && (forall s :: s in r ==> s.foodName in candidates && suggest(s.foodName) == Some(s))
  {
    var r := Take(SortBy(scored, FinalScoreOf), SuggestionLimit);
    SortedPrefixIsSmallest(scored, FinalScoreOf, SuggestionLimit);
    forall i, j | 0 <= i < j < |r| ensures r[i].finalScore <= r[j].finalScore {
      assert FinalScoreOf(r[i]) <= FinalScoreOf(r[j]);
    }
    forall s | s in r ensures s.foodName in candidates && suggest(s.foodName) == Some(s) {
      assert s in scored;
      var k :| 0 <= k < |scored| && scored[k] == s;
    }
  }

  /** No suggestion left out of the top scores lower than one kept. */
  lemma TopSuggestionsAreBest(suggest: string -> Option<SwapSuggestion>, candidates: set<string>, scored: seq<SwapSuggestion>)
    requires IsScoredBy(suggest, candidates, scored)
    ensures var r := Take(SortBy(scored, FinalScoreOf), SuggestionLimit);
      forall c, s :: c in candidates && suggest(c).Some? && suggest(c).value !in r && s in r ==>
        s.finalScore <= suggest(c).value.finalScore
  {
    var r := Take(SortBy(scored, FinalScoreOf), SuggestionLimit);
    SortedPrefixIsSmallest(scored, FinalScoreOf, SuggestionLimit);
    forall c, s | c in candidates && suggest(c).Some? && suggest(c).value !in r && s in r
      ensures s.finalScore <= suggest(c).value.finalScore
    {
      var y := suggest(c).value;
      assert y in scored;
      assert FinalScoreOf(s) <= FinalScoreOf(y);
    }
  }

  /** No candidate appears twice among the top suggestions. */
  lemma TopSuggestionsDistinct(suggest: string -> Option<SwapSuggestion>, candidates: set<string>, scored: seq<SwapSuggestion>)
    requires IsScoredBy(suggest, candidates, scored)
    ensures var r := Take(SortBy(scored, FinalScoreOf), SuggestionLimit);
      forall i, j :: 0 <= i < j < |r| ==> r[i].foodName != r[j].foodName
  {
    var r := Take(SortBy(scored, FinalScoreOf), SuggestionLimit);
    SortByMembers(scored, FinalScoreOf);
    var sorted := SortBy(scored, FinalScoreOf);
    forall i, j | 0 <= i < j < |r| ensures r[i].foodName != r[j].foodName {
      assert r[i] in scored && r[j] in scored;
      if r[i].foodName == r[j].foodName {
        assert r[i] == r[j];
        assert sorted[i] == r[i] && sorted[j] == r[j];
        RepeatedElement(sorted, i, j);
        assert Distinct(scored);
        DistinctCount(scored, r[i]);
      }
    }
  }

  /**
   * What a result of `findSwaps` promises once the early exits pass: at most 20 suggestions in
   * ascending order of score, each the suggestion of a distinct candidate, and no candidate's
   * suggestion left out scores lower than one kept.
   */
  lemma SwapResultSpec(t: Tables, itemToSwap: string, goals: seq<Goal>, tolerance: real, sameGroupOnly: bool,
                       strictTolerance: bool, r: seq<SwapSuggestion>, ctx: SwapContext, candidates: set<string>)
    requires IsSwapResult(t, itemToSwap, goals, tolerance, sameGroupOnly, strictTolerance, r)
    requires Setup(t, itemToSwap, goals) == Some(ctx) && Candidates(t, ctx, goals, sameGroupOnly) == Some(candidates)
    ensures |r| <= SuggestionLimit
    ensures forall i, j :: 0 <= i < j < |r| ==> r[i].finalScore <= r[j].finalScore
    ensures forall i, j :: 0 <= i < j < |r| ==> r[i].foodName != r[j].foodName
    ensures forall s :: s in r ==>
      s.foodName in candidates && Suggestion(t, ctx, goals, tolerance, strictTolerance, s.foodName) == Some(s)
    ensures forall c, s ::
      (c in candidates && Suggestion(t, ctx, goals, tolerance, strictTolerance, c).Some?
       && Suggestion(t, ctx, goals, tolerance, strictTolerance, c).value !in r && s in r)
      ==> s.finalScore <= Suggestion(t, ctx, goals, tolerance, strictTolerance, c).value.finalScore
  {
    var suggest := SuggestionOf(t, ctx, goals, tolerance, strictTolerance);
    var scored :| IsScoredBy(suggest, candidates, scored) && r == Take(SortBy(scored, FinalScoreOf), SuggestionLimit);
    TopSuggestions(suggest, candidates, scored);
    TopSuggestionsAreBest(suggest, candidates, scored);
    TopSuggestionsDistinct(suggest, candidates, scored);
    forall c | c in candidates
      ensures suggest(c) == Suggestion(t, ctx, goals, tolerance, strictTolerance, c)
    {
    }
  }

  /** With only the original's group wanted, an original without a group gets no suggestions. */
  lemma SameGroupWithoutGroupIsEmpty(t: Tables, itemToSwap: string, goals: seq<Goal>, tolerance: real,
                                     strictTolerance: bool, r: seq<SwapSuggestion>)
    requires IsSwapResult(t, itemToSwap, goals, tolerance, true, strictTolerance, r)
    requires GetFoodGroup(t, itemToSwap).None?
    ensures r == []
  {
  }

  // ----- performSwap -----

  /**
   * `itemToSwap.split("g\\s+")[0]`: the text before the first lower-case 'g' followed by
   * blanks, or None where the split (limit 0) drops every piece as a trailing empty one and
   * indexing the empty array throws.
   */
  function QuantityPrefixAsWritten(itemToSwap: string): (r: Option<string>)
    ensures r.None? <==> |SplitAtGramMarker(itemToSwap)| > 1 && AllEmpty(SplitAtGramMarker(itemToSwap))
    ensures r.Some? ==> r.value == SplitAtGramMarker(itemToSwap)[0]
  {
    var pieces := JavaSplitResult(SplitAtGramMarker(itemToSwap));
    JavaSplitHead(SplitAtGramMarker(itemToSwap));
    if pieces == [] then None else Some(pieces[0])
  }

  /**
   * The quantity text of the line being replaced, read as group 1 of the ingredient pattern;
   * a line the pattern does not read keeps the split's prefix, or no quantity at all.
   */
  function SwapQuantity(itemToSwap: string): string {
    match ParseLine(itemToSwap)
    case Some(e) => e.quantity
    case None =>
      var prefix := QuantityPrefixAsWritten(itemToSwap);
      if prefix.Some? then prefix.value else []
  }

  /** The replacement line: the old quantity, "g ", then the new food. */
  function SwapLine(itemToSwap: string, newItem: string): string {
    SwapQuantity(itemToSwap) + "g " + newItem
  }

  /** The replacement line as `performSwap` builds it, None where building it throws. */
  function SwapLineAsWritten(itemToSwap: string, newItem: string): Option<string> {
    match QuantityPrefixAsWritten(itemToSwap)
    case None => None
    case Some(q) => Some(q + "g " + newItem)
  }

  /**
   * The new meal once the replacement line is known: same date and type, every occurrence of
   * the old line replaced, the nutrients of the new text and their calories.
   */
  method SwapIn(t: Tables, originalMeal: Meal, itemToSwap: string, newIngredientLine: string) returns (swappedMeal: Meal)
    ensures swappedMeal.date == originalMeal.date && swappedMeal.mealType == originalMeal.mealType
    ensures swappedMeal.ingredients == Replace(originalMeal.ingredients, itemToSwap, newIngredientLine)
    ensures swappedMeal.nutrientBreakdown == MealNutrients(t, Some(swappedMeal.ingredients))
    ensures IsLookupResult(swappedMeal.nutrientBreakdown, EnergyKcal, true, swappedMeal.estimatedCalories)
    ensures swappedMeal.mealId == 0 && !swappedMeal.isSwapped && swappedMeal.originalMealId.None?
  {
    swappedMeal := NewMeal(originalMeal.date, originalMeal.mealType, "");
    var swappedIngredients := Replace(originalMeal.ingredients, itemToSwap, newIngredientLine);
    swappedMeal := swappedMeal.(ingredients := swappedIngredients);
    var newNutrients := CalculateNutrientsForMeal(t, Some(swappedIngredients));
    var calories := CalorieValue(newNutrients);
    swappedMeal := swappedMeal.(estimatedCalories := calories, nutrientBreakdown := newNutrients);
  }

  /**
   * `performSwap(originalMeal, itemToSwap, newItem)` with the quantity read as group 1 of the
   * ingredient pattern: a new meal on the same date and of the same type whose text has every
   * occurrence of the old line replaced by the new one, with the nutrients of that text and
   * its calories.
   */
  method PerformSwap(t: Tables, originalMeal: Meal, itemToSwap: string, newItem: string) returns (swappedMeal: Meal)
    ensures swappedMeal.date == originalMeal.date && swappedMeal.mealType == originalMeal.mealType
    ensures swappedMeal.ingredients == Replace(originalMeal.ingredients, itemToSwap, SwapLine(itemToSwap, newItem))
    ensures swappedMeal.nutrientBreakdown == MealNutrients(t, Some(swappedMeal.ingredients))
    ensures IsLookupResult(swappedMeal.nutrientBreakdown, EnergyKcal, true, swappedMeal.estimatedCalories)
    ensures swappedMeal.mealId == 0 && !swappedMeal.isSwapped && swappedMeal.originalMealId.None?
  {
    swappedMeal := SwapIn(t, originalMeal, itemToSwap, SwapLine(itemToSwap, newItem));
  }

  /**
   * `performSwap` with the quantity read by the split, as written: None where the split
   * throws, and otherwise the meal built from the split's line.
   */
  method PerformSwapAsWritten(t: Tables, originalMeal: Meal, itemToSwap: string, newItem: string)
    returns (result: Option<Meal>)
    ensures result.None? <==> SwapLineAsWritten(itemToSwap, newItem).None?
    ensures result.Some? ==>
      && result.value.date == originalMeal.date && result.value.mealType == originalMeal.mealType
      && result.value.ingredients
           == Replace(originalMeal.ingredients, itemToSwap, SwapLineAsWritten(itemToSwap, newItem).value)
      && result.value.nutrientBreakdown == MealNutrients(t, Some(result.value.ingredients))
      && IsLookupResult(result.value.nutrientBreakdown, EnergyKcal, true, result.value.estimatedCalories)
      && result.value.mealId == 0 && !result.value.isSwapped && result.value.originalMealId.None?
  {
    var pieces := JavaSplitResult(SplitAtGramMarker(itemToSwap));
    if pieces == [] {
      return None;
    }
    var quantity := pieces[0] + "g ";
    var swappedMeal := SwapIn(t, originalMeal, itemToSwap, quantity + newItem);
    return Some(swappedMeal);
  }

  /** An old line that does not occur leaves the text as it was. */
  lemma SwapOfAbsentLine(ingredients: string, itemToSwap: string, newItem: string)
    requires itemToSwap != [] && !Contains(ingredients, itemToSwap)
    ensures Replace(ingredients, itemToSwap, SwapLine(itemToSwap, newItem)) == ingredients
  {
    ReplaceAbsent(ingredients, itemToSwap, SwapLine(itemToSwap, newItem));
  }

  /**
   * The replacement line of any line the pattern reads carries the same quantity and reads
   * back as that quantity of the new food.
   */
  lemma SwapLineParses(itemToSwap: string, newItem: string, e: Ingredient)
    requires ParseLine(itemToSwap) == Some(e) && IsCleanDescription(newItem)
    ensures ParseLine(SwapLine(itemToSwap, newItem)) == Some(Ingredient(e.quantity, newItem))
  {
    QuantityEndIsQuantityText(Trim(itemToSwap));
    assert SwapLine(itemToSwap, newItem) == CanonicalLine(Ingredient(e.quantity, newItem));
    ParseCanonicalLine(Ingredient(e.quantity, newItem));
  }

  /** A quantity numeral has no 'g', so the split reads it up to the unit. */
  lemma {:induction false} GramMarkerAfterPrefix(x: string, y: string)
    requires 'g' !in x
    ensures SplitAtGramMarker(x + "g " + y)[0] == x
    decreases |x|
  {
    var s := x + "g " + y;
    if x == [] {
      assert s[0] == 'g' && s[1] == ' ';
    } else {
      assert s[1..] == x[1..] + "g " + y;
      GramMarkerAfterPrefix(x[1..], y);
      assert [x[0]] + x[1..] == x;
    }
  }

  /** A line with no lower-case 'g' is not split at all. */
  lemma {:induction false} NoGramMarker(s: string)
    requires 'g' !in s
    ensures SplitAtGramMarker(s) == [s]
    decreases |s|
  {
    if s != [] {
      NoGramMarker(s[1..]);
      assert [s[0]] + s[1..] == s;
    }
  }

  /** On the lines the meal logger writes, the split and the pattern build the same line. */
  lemma QuantityReadingsAgree(e: Ingredient, newItem: string)
    requires IsQuantityText(e.quantity) && IsCleanDescription(e.description)
    ensures QuantityPrefixAsWritten(CanonicalLine(e)) == Some(e.quantity)
    ensures SwapQuantity(CanonicalLine(e)) == e.quantity
    ensures SwapLineAsWritten(CanonicalLine(e), newItem) == Some(SwapLine(CanonicalLine(e), newItem))
  {
    assert 'g' !in e.quantity by {
      forall i | 0 <= i < |e.quantity| ensures e.quantity[i] != 'g' {
        assert IsDigit(e.quantity[i]) || e.quantity[i] == '.';
      }
    }
    GramMarkerAfterPrefix(e.quantity, e.description);
    ParseCanonicalLine(e);
  }

  /** A line that is only the unit and a blank splits into nothing, and `performSwap` throws. */
  lemma UnitAloneThrows(newItem: string)
    ensures SwapLineAsWritten("g ", newItem).None?
  {
    var s := "g ";
    assert s[1 + SpaceRun(s[1..])..] == [];
    assert SplitAtGramMarker(s) == [[], []];
  }

  /**
   * The split is case-sensitive while the pattern is not: for "100G rice" the split finds no
   * unit and keeps the whole line as the quantity, so the replacement line reads
   * "100G riceg " followed by the new food; the pattern reads the quantity "100".
   */
  lemma UpperCaseUnitKeepsWholeLine(newItem: string)
    ensures SwapLineAsWritten("100G rice", newItem) == Some("100G riceg " + newItem)
  {
    assert QuantityPrefixAsWritten("100G rice") == Some("100G rice") by {
      NoGramMarker("100G rice");
    }
    assert "100G rice" + "g " == "100G riceg ";
  }

  lemma UpperCaseUnitQuantity(newItem: string)
    ensures SwapLine("100G rice", newItem) == "100g " + newItem
  {
    assert SwapQuantity("100G rice") == "100" by {
      UpperCaseUnitLineParses();
    }
    assert "100" + "g " == "100g ";
  }

  lemma UpperCaseUnitLineParses()
    ensures ParseLine("100G rice") == Some(Ingredient("100", "rice"))
  {
    UpperCaseUnitLineMatches();
    ParseTrimmedLine("100G rice");
    TrimOfTrimmed("rice");
  }

  lemma UpperCaseUnitLineMatches()
    ensures Match("100G rice") == Some(Ingredient("100", "rice"))
  {
    var s := "100G rice";
    assert SkipDigits(s, 0) == 3;
    assert SkipSpaces(s, 3) == 3;
    assert SkipSpaces(s, 4) == 5;
    assert NoLineTerminatorFrom(s, 5);
    MatchOfParts(s, 3, 3, 5);
    assert s[..3] == "100" && s[5..] == "rice";
  }
}
