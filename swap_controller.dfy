/**
 * SwapController: a swap is performed on a copy of the meal, the copy is marked as swapped
 * and linked to the meal it replaces, and it is saved as a new row; the original row stays,
 * but from then on the meal list hides it.
 */
module SwapController {
  import opened Wrappers
  import opened JavaStrings
  import opened NutrientMaps
  import opened Model
  import opened DBManager
  import opened NutrientCalculator
  import opened SwapEngine

  /** The meal `performAndSaveSwap` saves: `performSwap`'s result, marked and linked. */
  ghost predicate IsLinkedSwap(swapped: Meal, t: Tables, originalMeal: Meal, itemToSwap: string, newItem: string) {
    && swapped.date == originalMeal.date
    && swapped.mealType == originalMeal.mealType
    && swapped.ingredients == Replace(originalMeal.ingredients, itemToSwap, SwapLine(itemToSwap, newItem))
    && swapped.nutrientBreakdown == MealNutrients(t, Some(swapped.ingredients))
    && IsLookupResult(swapped.nutrientBreakdown, EnergyKcal, true, swapped.estimatedCalories)
    && swapped.mealId == 0
    && swapped.isSwapped
    && swapped.originalMealId == Some(originalMeal.mealId)
  }

  /** The row `saveMeal` stores for a meal under a user and an id. */
  function RowOf(id: int, userId: int, meal: Meal): MealRow {
    MealRow(id, userId, StoredDate(meal.date), meal.mealType, meal.ingredients, meal.estimatedCalories,
      meal.isSwapped, meal.originalMealId)
  }

  /**
   * `performAndSaveSwap(user, originalMeal, itemToSwap, newItem)`: the swapped copy is saved
   * once under the user's id; the result is that copy when the save succeeds (`accepted`) and
   * null otherwise. Nothing is stored on failure, and after a success the original meal is no
   * longer among any user's listed meals.
   */
  method PerformAndSaveSwap(store: MealStore, t: Tables, userId: int, originalMeal: Meal,
                            itemToSwap: string, newItem: string, accepted: bool) returns (result: Option<Meal>)
    requires store.Valid()
    modifies store
    ensures store.Valid()
    ensures result.Some? <==> accepted
    ensures result.Some? ==> IsLinkedSwap(result.value, t, originalMeal, itemToSwap, newItem)
    ensures result.Some? ==> store.rows == old(store.rows) + [RowOf(old(store.nextId), userId, result.value)]
    ensures result.None? ==> store.rows == old(store.rows) && store.nextId == old(store.nextId)
    ensures result.Some? ==> forall u, m :: m in store.MealsForUser(u) ==> m.mealId != originalMeal.mealId
  {
    var swappedMeal := PerformSwap(t, originalMeal, itemToSwap, newItem);
    swappedMeal := swappedMeal.(isSwapped := true);
    swappedMeal := swappedMeal.(originalMealId := Some(originalMeal.mealId));
    var success := store.SaveMeal(userId, swappedMeal, accepted);
    if success {
      SwapHidesOriginal(old(store.rows), RowOf(old(store.nextId), userId, swappedMeal), originalMeal.mealId);
      return Some(swappedMeal);
    } else {
      return None;
    }
  }

  /**
   * Once a row naming `id` as its original is added, no user's meal list shows the meal with
   * that id, whatever rows there were before.
   */
  lemma SwapHidesOriginal(rows: seq<MealRow>, swapRow: MealRow, id: int)
    requires swapRow.originalMealId == Some(id)
    ensures forall u, m :: m in ActiveMeals(rows + [swapRow], u) ==> m.mealId != id
  {
    var all := rows + [swapRow];
    assert all[|rows|] == swapRow;
    assert id in SupersededIds(all);
    forall u ensures forall m :: m in ActiveMeals(all, u) ==> m.mealId != id {
      SupersededMealHidden(all, u, id);
    }
  }
}
