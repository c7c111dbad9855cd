/**
 * The plain data carriers of the model package: FoodItem, Goal, SwapSuggestion and Meal.
 * Java builds these with setters on a fresh object; here they are values, and a setter call
 * is a datatype update.
 */
module Model {
  import opened Wrappers
  import opened NutrientMaps

  const MillisPerDay := 86400000

  type MillisOfDay = x: int | 0 <= x < 86400000

  /**
   * A `java.util.Date`: the calendar day it falls on (in the zone the application and the
   * database share) and the milliseconds since that day's midnight.
   */
  datatype Date = Date(day: int, millisOfDay: MillisOfDay)

  /** The instant, in milliseconds since the start of day 0. */
  function Instant(d: Date): int {
    d.day * MillisPerDay + d.millisOfDay
  }

  /**
   * The date a `DATETIME` column keeps for a `Timestamp`: the instant rounded to the nearest
   * whole second, half a second rounding up, which near midnight carries it into the next day.
   */
  function StoredDate(d: Date): (r: Date)
    ensures Instant(r) % 1000 == 0
    ensures Instant(d) - 500 < Instant(r) <= Instant(d) + 500
    ensures r.day == d.day || r.day == d.day + 1
  {
    var seconds := (Instant(d) + 500) / 1000;
    StoredDateBounds(d, seconds);
    DateOfInstant(seconds * 1000)
  }

  /** The date of an instant: its day and the milliseconds since that day's midnight. */
  function DateOfInstant(x: int): (r: Date)
    ensures Instant(r) == x
  {
    Date(x / MillisPerDay, x % MillisPerDay)
  }

  lemma DivModUnique(x: int, q: int, m: int)
    requires 0 <= m < MillisPerDay && x == q * MillisPerDay + m
    ensures x / MillisPerDay == q && x % MillisPerDay == m
  {
  }

  lemma PositiveFactor(a: int, k: int)
    requires k > 0 && a * k > 0
    ensures a > 0
  {
  }

  /** Rounded to whole seconds, an instant stays between its day's midnight and the next. */
  lemma StoredDateBounds(d: Date, seconds: int)
    requires seconds == (Instant(d) + 500) / 1000
    ensures Instant(d) - 500 < seconds * 1000 <= Instant(d) + 500
    ensures (seconds * 1000) % 1000 == 0
    ensures DateOfInstant(seconds * 1000).day == d.day || DateOfInstant(seconds * 1000).day == d.day + 1
  {
    var x := Instant(d);
    var midnight := d.day * 86400;
    assert d.day * MillisPerDay == midnight * 1000;
    assert seconds * 1000 <= x + 500 < seconds * 1000 + 1000;
    PositiveFactor(seconds - midnight + 1, 1000);
    PositiveFactor(midnight + 86400 + 1 - seconds, 1000);
    var millis := seconds * 1000;
    var day := if millis < (d.day + 1) * MillisPerDay then d.day else d.day + 1;
    DivModUnique(millis, day, millis - day * MillisPerDay);
  }

  /** A date already on a whole second is stored as it is. */
  lemma StoredDateOfWholeSecond(d: Date)
    requires Instant(d) % 1000 == 0
    ensures StoredDate(d) == d
  {
    var x := Instant(d);
    var s := x / 1000;
    assert x == s * 1000;
    assert (x + 500) / 1000 == s;
    DivModUnique(x, d.day, d.millisOfDay);
  }

  /** 23:59:59.600 on one day is stored as midnight of the next. */
  lemma LateDateStoredNextDay()
    ensures StoredDate(Date(5, 86399600)) == Date(6, 0)
  {
  }

  /** A food row offered to the user when an ingredient has several database matches. */
  datatype FoodItem = FoodItem(foodId: int, description: string)

  /**
   * One nutritional goal: the nutrient, its type ("Increase" or "Decrease", though nothing
   * checks this), the amount, and whether the amount is a percentage.
   */
  datatype Goal = Goal(nutrient: string, kind: string, value: real, isRelative: bool) {
    predicate IsIncrease() {
      kind == "Increase"
    }

    predicate IsDecrease() {
      kind == "Decrease"
    }
  }

  /** One candidate replacement food with its score and the changes it would make. */
  datatype SwapSuggestion = SwapSuggestion(
    foodName: string,
    foodGroup: Option<string>,
    finalScore: real,
    nutrientChanges: NutrientMap,
    nutrientPercentChanges: NutrientMap)

  /**
   * A logged meal. `originalMealId` is the nullable `Integer` that links a swapped meal to
   * the meal it replaces; `nutrientBreakdown` is the per-nutrient map that `performSwap`
   * attaches with `setNutrientBreakdown`.
   */
  datatype Meal = Meal(
    mealId: int,
    date: Date,
    mealType: string,
    ingredients: string,
    estimatedCalories: real,
    nutrientBreakdown: NutrientMap,
    isSwapped: bool,
    originalMealId: Option<int>)

  /** `new Meal()` followed by `setDate`, `setMealType` and `setIngredients`. */
  function NewMeal(date: Date, mealType: string, ingredients: string): Meal {
    Meal(0, date, mealType, ingredients, 0.0, map[], false, None)
  }
}
