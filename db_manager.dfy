/**
 * DBManager: the queries the core runs against the nutrient database and the meal log.
 * The SQL is modelled as functions over an abstract copy of the tables; rows are kept in the
 * order a query without ORDER BY happens to return them, and where the SQL leaves an order
 * open (ties) the model picks one and every stated property holds for any other.
 */
module DBManager {
  import opened Wrappers
  import opened JavaStrings
  import opened NutrientMaps
  import opened IngredientPattern
  import opened Sorting
  import opened Model

  const CalorieNutrientId := 208
  const ProteinNutrientId := 203
  const FiberNutrientId := 291

  /** A FOOD_NAME row. */
  datatype FoodRow = FoodRow(foodId: int, description: string, foodGroupId: int)

  /** A NUTRIENT_AMOUNT row. */
  datatype AmountRow = AmountRow(foodId: int, nutrientId: int, value: real)

  /**
   * The nutrient database: FOOD_NAME, FOOD_GROUP (keyed by its primary key FoodGroupID) and
   * NUTRIENT_AMOUNT, plus the answers of the two queries whose code is not part of this model:
   * the comprehensive per-100 g profile of a description and the food suggestions for one.
   */
  datatype Tables = Tables(
    foods: seq<FoodRow>,
    groups: map<int, string>,
    amounts: seq<AmountRow>,
    comprehensive: map<string, NutrientMap>,
    suggestions: map<string, seq<FoodItem>>)

  /** SQL `=` on text under the server's case-insensitive default collation. */
  predicate SqlEquals(a: string, b: string) {
    EqualsIgnoreCase(a, b)
  }

  /** `getComprehensiveNutrientProfile(description)`: per-100 g amounts, empty when unknown. */
  function ComprehensiveProfile(t: Tables, description: string): NutrientMap {
    if description in t.comprehensive then t.comprehensive[description] else map[]
  }

  /** `findFoodSuggestions(description, 10)`: at most ten candidate foods. */
  function FoodSuggestions(t: Tables, description: string): (r: seq<FoodItem>)
    ensures |r| <= 10
  {
    var all := if description in t.suggestions then t.suggestions[description] else [];
    Take(all, 10)
  }

  // ----- findFoodId: the words of a description -----

  /** `description.trim().replace(",", "").split("\\s+")`. */
  function SanitizedWords(description: string): seq<string> {
    SplitWhitespace(Replace(Trim(description), ",", ""))
  }

  /** No word keeps a comma or a `\s` char: commas are removed and the text is cut at blanks. */
  lemma SanitizedWordsAreClean(description: string)
    ensures forall i :: 0 <= i < |SanitizedWords(description)| ==>
      ',' !in SanitizedWords(description)[i] && forall c :: c in SanitizedWords(description)[i] ==> !IsRegexSpace(c)
  {
    var s := Replace(Trim(description), ",", "");
    RemoveCharLeavesNone(Trim(description), ',');
    SplitAtSpaceRunsChars(s);
    var pieces := SplitAtSpaceRuns(s);
    var words := SanitizedWords(description);
    forall i | 0 <= i < |words|
      ensures ',' !in words[i] && forall c :: c in words[i] ==> !IsRegexSpace(c)
    {
      assert words[i] == pieces[i];
    }
  }

  // ----- findFoodId: matching a word -----

  /** A char `\w` matches, the class `\b` looks at. */
  predicate IsWordChar(c: char) {
    'a' <= c <= 'z' || 'A' <= c <= 'Z' || '0' <= c <= '9' || c == '_'
  }

  /** `\b` at position `p` of `s`: a word char on exactly one side. */
  predicate WordBoundary(s: string, p: int)
    requires 0 <= p <= |s|
  {
    (p > 0 && IsWordChar(s[p - 1])) != (p < |s| && IsWordChar(s[p]))
  }

  /** `s REGEXP '\bw\b'` for the escaped form of `w`: `w` occurs as a whole word, ignoring case. */
  predicate HasWholeWord(s: string, w: string) {
    exists p :: 0 <= p <= |s| - |w| && OccursAtIgnoringCase(s, w, p) && WordBoundary(s, p) && WordBoundary(s, p + |w|)
  }

  /** The WHERE clause: every word occurs as a whole word. */
  predicate MatchesAllWords(s: string, words: seq<string>) {
    forall i :: 0 <= i < |words| ==> HasWholeWord(s, words[i])
  }

  /** The chars the word escaping prefixes with a backslash. */
  predicate IsRegexMeta(c: char) {
    c == '\\' || c == '.' || c == '[' || c == ']' || c == '{' || c == '}' || c == '(' || c == ')'
    || c == '*' || c == '+' || c == '?' || c == '^' || c == '$' || c == '|'
  }

  /** `word.replaceAll("([\\\\.\\[\\]{}()*+?^$|])", "\\\\$1")`. */
  function Escape(w: string): string {
    if w == [] then []
    else (if IsRegexMeta(w[0]) then ['\\', w[0]] else [w[0]]) + Escape(w[1..])
  }

  /** The literal text a pattern of escapes and plain chars stands for. */
  function Unescape(p: string): string
    decreases |p|
  {
    if p == [] then []
    else if p[0] == '\\' && |p| > 1 then [p[1]] + Unescape(p[2..])
    else [p[0]] + Unescape(p[1..])
  }

  /** A pattern in which every metachar is escaped, so that it matches only literal text. */
  predicate IsLiteralPattern(p: string)
    decreases |p|
  {
    if p == [] then true
    else if p[0] == '\\' then |p| > 1 && IsLiteralPattern(p[2..])
    else !IsRegexMeta(p[0]) && IsLiteralPattern(p[1..])
  }

  /** Escaping leaves no metachar unescaped, and dropping the escapes gives the word back. */
  lemma {:induction false} EscapeRoundTrip(w: string)
    ensures IsLiteralPattern(Escape(w))
    ensures Unescape(Escape(w)) == w
  {
    if w != [] {
      EscapeRoundTrip(w[1..]);
      var e := Escape(w[1..]);
      if IsRegexMeta(w[0]) {
        assert (['\\', w[0]] + e)[2..] == e;
      } else {
        assert ([w[0]] + e)[1..] == e;
      }
      assert w == [w[0]] + w[1..];
    }
  }

  /** The parameter bound to one `REGEXP ?`. */
  function WordPattern(w: string): string {
    "\\b" + Escape(w) + "\\b"
  }

  // ----- findFoodId: ranking -----

  /**
   * The first ORDER BY key: 0 for a description containing "raw" (ignoring case), 1 for one
   * containing none of cooked, canned, frozen, sauce, soup and dish, 2 for the rest.
   */
  function Tier(description: string): nat {
    if ContainsIgnoringCase(description, "raw") then 0
    else if !ContainsIgnoringCase(description, "cooked") && !ContainsIgnoringCase(description, "canned")
      && !ContainsIgnoringCase(description, "frozen") && !ContainsIgnoringCase(description, "sauce")
      && !ContainsIgnoringCase(description, "soup") && !ContainsIgnoringCase(description, "dish") then 1
    else 2
  }

  /** `ORDER BY tier ASC, LENGTH(FoodDescription) ASC`: `a` may come before `b`. */
  predicate RanksNoLater(a: FoodRow, b: FoodRow) {
    Tier(a.description) < Tier(b.description)
    || (Tier(a.description) == Tier(b.description) && |a.description| <= |b.description|)
  }

  /** `LIMIT 1` after the ORDER BY: a row no other row outranks. */
  function BestMatch(rows: seq<FoodRow>): (r: Option<FoodRow>)
    ensures r.None? <==> rows == []
    ensures r.Some? ==> r.value in rows && forall x :: x in rows ==> RanksNoLater(r.value, x)
  {
    if rows == [] then None
    else
      var rest := BestMatch(rows[1..]);
      assert forall x :: x in rows ==> x == rows[0] || x in rows[1..];
      if rest.None? || RanksNoLater(rows[0], rest.value) then Some(rows[0]) else rest
  }

  /** The rows the WHERE clause keeps, in table order. */
  function MatchingFoods(foods: seq<FoodRow>, words: seq<string>): (r: seq<FoodRow>)
    ensures forall x :: x in r <==> x in foods && MatchesAllWords(x.description, words)
  {
    if foods == [] then []
    else
      var rest := MatchingFoods(foods[1..], words);
      assert forall x :: x in foods <==> x == foods[0] || x in foods[1..];
      if MatchesAllWords(foods[0].description, words) then [foods[0]] + rest else rest
  }

  /** The row `findFoodId` reads its id from, if any. */
  function FindFoodRow(t: Tables, description: string): Option<FoodRow> {
    var words := SanitizedWords(description);
    if |words| == 0 then None else BestMatch(MatchingFoods(t.foods, words))
  }

  /** `findFoodId(description)`: the chosen row's id, or -1. */
  function FindFoodId(t: Tables, description: string): int {
    match FindFoodRow(t, description)
    case None => -1
    case Some(f) => f.foodId
  }

  /**
   * The food chosen for a description matches every word of it as a whole word and no
   * matching food outranks it; there is none exactly when the description has no words or
   * no food matches all of them.
   */
  lemma FindFoodRowSpec(t: Tables, description: string)
    ensures var words := SanitizedWords(description);
      && (FindFoodRow(t, description).None? <==>
            |words| == 0 || forall f :: f in t.foods ==> !MatchesAllWords(f.description, words))
      && (FindFoodRow(t, description).Some? ==>
            var f := FindFoodRow(t, description).value;
            && f in t.foods
            && MatchesAllWords(f.description, words)
            && forall g :: g in t.foods && MatchesAllWords(g.description, words) ==> RanksNoLater(f, g))
  {
    var words := SanitizedWords(description);
    if |words| > 0 {
      var m := MatchingFoods(t.foods, words);
      assert FindFoodRow(t, description) == BestMatch(m);
      if BestMatch(m).None? {
        assert m == [];
      }
    }
  }

  /** "Strawberries" contains "raw", so it ranks with the raw foods. */
  lemma StrawberriesRankAsRaw()
    ensures Tier("Strawberries") == 0
  {
    assert OccursAtIgnoringCase("Strawberries", "raw", 2) by {
      assert "Strawberries"[2..5] == "raw";
    }
  }

  // ----- findFoodId: the SQL text and its parameters -----

  const FindFoodSelect := "SELECT FoodID, FoodDescription FROM FOOD_NAME WHERE "
  const WordConditionHead := "FoodDescription REGEXP "
  const WordCondition := WordConditionHead + "?"
  const ConditionSeparator := " AND "
  const FindFoodOrder :=
    " ORDER BY " + "CASE "
    + "    WHEN FoodDescription LIKE '%raw%' THEN 0 "
    + "    WHEN FoodDescription NOT LIKE '%cooked%' AND FoodDescription NOT LIKE '%canned%' AND FoodDescription NOT LIKE '%frozen%' AND FoodDescription NOT LIKE '%sauce%' AND FoodDescription NOT LIKE '%soup%' AND FoodDescription NOT LIKE '%dish%' THEN 1 "
    + "    ELSE 2 " + "END ASC, " + "LENGTH(FoodDescription) ASC " + "LIMIT 1"

  /** The WHERE conditions after `i` of `n` turns of the loop that appends them. */
  function Conditions(i: nat, n: nat): string {
    if i == 0 then []
    else Conditions(i - 1, n) + WordCondition + (if i - 1 < n - 1 then ConditionSeparator else [])
  }

  /** The number of occurrences of `c` in `s`. */
  function CountChar(s: string, c: char): nat {
    if s == [] then 0 else CountChar(s[..|s| - 1], c) + (if s[|s| - 1] == c then 1 else 0)
  }

  lemma {:induction false} CountCharAppend(a: string, b: string, c: char)
    ensures CountChar(a + b, c) == CountChar(a, c) + CountChar(b, c)
    decreases |b|
  {
    if b == [] {
      assert a + b == a;
    } else {
      assert (a + b)[..|a + b| - 1] == a + b[..|b| - 1];
      assert (a + b)[|a + b| - 1] == b[|b| - 1];
      CountCharAppend(a, b[..|b| - 1], c);
    }
  }

  lemma {:induction false} CountCharAbsent(s: string, c: char)
    requires forall i :: 0 <= i < |s| ==> s[i] != c
    ensures CountChar(s, c) == 0
    decreases |s|
  {
    if s != [] {
      CountCharAbsent(s[..|s| - 1], c);
    }
  }

  /** The conditions hold one placeholder per word: every word is bound, none is dropped. */
  lemma {:induction false} ConditionsPlaceholders(i: nat, n: nat)
    ensures CountChar(Conditions(i, n), '?') == i
  {
    if i > 0 {
      ConditionsPlaceholders(i - 1, n);
      var sep := if i - 1 < n - 1 then ConditionSeparator else [];
      CountCharAppend(Conditions(i - 1, n), WordCondition, '?');
      CountCharAppend(Conditions(i - 1, n) + WordCondition, sep, '?');
      CountCharAppend(WordConditionHead, "?", '?');
      CountCharAbsent(WordConditionHead, '?');
      CountCharAbsent(sep, '?');
    }
  }

  /**
   * The two loops of `findFoodId`: one appends a `REGEXP ?` condition per word, joined by
   * AND; the other binds each placeholder to the escaped word between `\b` anchors.
   */
  method BuildFindFoodQuery(words: seq<string>) returns (sql: string, params: seq<string>)
    ensures sql == FindFoodSelect + Conditions(|words|, |words|) + FindFoodOrder
    ensures CountChar(Conditions(|words|, |words|), '?') == |params| == |words|
    ensures forall i :: 0 <= i < |words| ==>
      params[i] == WordPattern(words[i]) && Unescape(Escape(words[i])) == words[i]
  {
    var n := |words|;
    var where := "";
    var i := 0;
    while i < n
      invariant 0 <= i <= n
      invariant where == Conditions(i, n)
    {
      where := where + WordCondition;
      if i < n - 1 {
        where := where + ConditionSeparator;
      }
      i := i + 1;
    }
    sql := FindFoodSelect + where + FindFoodOrder;
    ConditionsPlaceholders(n, n);
    params := [];
    i := 0;
    while i < n
      invariant 0 <= i <= n
      invariant |params| == i
      invariant forall j :: 0 <= j < i ==> params[j] == WordPattern(words[j])
    {
      params := params + [WordPattern(words[i])];
      i := i + 1;
    }
    forall j | 0 <= j < n ensures Unescape(Escape(words[j])) == words[j] {
      EscapeRoundTrip(words[j]);
    }
  }

  // ----- getFoodGroup and getFoodsFromGroup -----

  /** The group name joined to the first FOOD_NAME row with this id, if it has one. */
  function GroupNameOf(t: Tables, foods: seq<FoodRow>, foodId: int): (r: Option<string>)
    ensures r.Some? ==> exists f :: f in foods && f.foodId == foodId && f.foodGroupId in t.groups && t.groups[f.foodGroupId] == r.value
  {
    if foods == [] then None
    else if foods[0].foodId == foodId && foods[0].foodGroupId in t.groups then Some(t.groups[foods[0].foodGroupId])
    else GroupNameOf(t, foods[1..], foodId)
  }

  /** `getFoodGroup(fullIngredientLine)`. */
  function GetFoodGroup(t: Tables, line: string): Option<string> {
    match ParseLine(line)
    case None => None
    case Some(e) =>
      var id := FindFoodId(t, e.description);
      if id == -1 then None else GroupNameOf(t, t.foods, id)
  }

  /**
   * A line yields a group only if it parses and its description has a food match; the group
   * is the name joined to a row with the matched food's id.
   */
  lemma GetFoodGroupSpec(t: Tables, line: string)
    ensures ParseLine(line).None? ==> GetFoodGroup(t, line).None?
    ensures ParseLine(line).Some? && FindFoodRow(t, ParseLine(line).value.description).None? ==>
      GetFoodGroup(t, line).None?
    ensures GetFoodGroup(t, line).Some? ==>
      exists f :: f in t.foods && f.foodId == FindFoodId(t, ParseLine(line).value.description)
        && f.foodGroupId in t.groups && t.groups[f.foodGroupId] == GetFoodGroup(t, line).value
  {
    var p := ParseLine(line);
    if p.Some? {
      var id := FindFoodId(t, p.value.description);
      assert GetFoodGroup(t, line) == if id == -1 then None else GroupNameOf(t, t.foods, id);
    }
  }

  /** `getFoodsFromGroup(foodGroup)`: the descriptions of the foods of that group, in table order. */
  function FoodsFromGroup(t: Tables, foods: seq<FoodRow>, groupName: string): (r: seq<string>)
    ensures forall d :: d in r <==>
      exists f :: f in foods && f.description == d && f.foodGroupId in t.groups && SqlEquals(t.groups[f.foodGroupId], groupName)
  {
    if foods == [] then []
    else
      var f := foods[0];
      var rest := FoodsFromGroup(t, foods[1..], groupName);
      assert forall g :: g in foods <==> g == f || g in foods[1..];
      if f.foodGroupId in t.groups && SqlEquals(t.groups[f.foodGroupId], groupName) then [f.description] + rest else rest
  }

  // ----- getNutrientProfile -----

  /** The name `getNutrientProfile` files a nutrient id under; other nutrients are ignored. */
  function NutrientNameOf(nutrientId: int): Option<string> {
    if nutrientId == CalorieNutrientId then Some("Calories")
    else if nutrientId == ProteinNutrientId then Some("Protein")
    else if nutrientId == FiberNutrientId then Some("Fiber")
    else None
  }

  /** The map the `while (rs.next())` loop has built after reading `rows`. */
  function ProfileOfRows(rows: seq<AmountRow>, foodId: int): NutrientMap {
    if rows == [] then map[]
    else
      var m := ProfileOfRows(rows[..|rows| - 1], foodId);
      var r := rows[|rows| - 1];
      if r.foodId == foodId && NutrientNameOf(r.nutrientId).Some? then m[NutrientNameOf(r.nutrientId).value := r.value]
      else m
  }

  /** `getNutrientProfile(foodDescription)`. */
  function NutrientProfile(t: Tables, description: string): NutrientMap {
    var id := FindFoodId(t, description);
    if id == -1 then map[] else ProfileOfRows(t.amounts, id)
  }

  /** Whether row `i` of `rows` is a nutrient of food `foodId` that files under name `k`. */
  predicate FilesUnder(rows: seq<AmountRow>, i: int, foodId: int, k: string)
    requires 0 <= i < |rows|
  {
    rows[i].foodId == foodId && NutrientNameOf(rows[i].nutrientId) == Some(k)
  }

  /**
   * The profile has a key exactly for each name that some row of the food files under, and its
   * value is that of the last such row (a later `put` overwrites an earlier one).
   */
  lemma {:induction false} ProfileOfRowsSpec(rows: seq<AmountRow>, foodId: int, k: string)
    ensures k in ProfileOfRows(rows, foodId) <==> exists i :: 0 <= i < |rows| && FilesUnder(rows, i, foodId, k)
    ensures k in ProfileOfRows(rows, foodId) ==>
      exists i :: 0 <= i < |rows| && FilesUnder(rows, i, foodId, k) && ProfileOfRows(rows, foodId)[k] == rows[i].value
        && forall j :: i < j < |rows| ==> !FilesUnder(rows, j, foodId, k)
    ensures k in ProfileOfRows(rows, foodId) ==> k == "Calories" || k == "Protein" || k == "Fiber"
  {
    if rows != [] {
      var n := |rows| - 1;
      var init := rows[..n];
      ProfileOfRowsSpec(init, foodId, k);
      assert forall i :: 0 <= i < n ==> (FilesUnder(init, i, foodId, k) <==> FilesUnder(rows, i, foodId, k));
      if !FilesUnder(rows, n, foodId, k) && k in ProfileOfRows(rows, foodId) {
        var i :| 0 <= i < n && FilesUnder(init, i, foodId, k) && ProfileOfRows(init, foodId)[k] == init[i].value
          && forall j :: i < j < n ==> !FilesUnder(init, j, foodId, k);
        assert FilesUnder(rows, i, foodId, k);
      }
    }
  }

  /** Reading one more row puts its value under its name when it is a nutrient of the food. */
  lemma ProfileOfRowsSnoc(rows: seq<AmountRow>, i: nat, foodId: int)
    requires i < |rows|
    ensures ProfileOfRows(rows[..i + 1], foodId) ==
      if rows[i].foodId == foodId && NutrientNameOf(rows[i].nutrientId).Some?
      then ProfileOfRows(rows[..i], foodId)[NutrientNameOf(rows[i].nutrientId).value := rows[i].value]
      else ProfileOfRows(rows[..i], foodId)
  {
    assert rows[..i + 1][..i] == rows[..i];
  }

  /** `getNutrientProfile`: look the food up, then fold its NUTRIENT_AMOUNT rows into a map. */
  method GetNutrientProfile(t: Tables, description: string) returns (nutrients: NutrientMap)
    ensures nutrients == NutrientProfile(t, description)
    ensures FindFoodId(t, description) == -1 ==> nutrients == map[]
  {
    nutrients := map[];
    var foodId := FindFoodId(t, description);
    if foodId == -1 {
      return;
    }
    nutrients := ReadProfile(t.amounts, foodId);
  }

  /** The `while (rs.next())` loop of `getNutrientProfile` over the food's NUTRIENT_AMOUNT rows. */
  method ReadProfile(amounts: seq<AmountRow>, foodId: int) returns (nutrients: NutrientMap)
    ensures nutrients == ProfileOfRows(amounts, foodId)
  {
    nutrients := map[];
    var i := 0;
    while i < |amounts|
      invariant 0 <= i <= |amounts|
      invariant nutrients == ProfileOfRows(amounts[..i], foodId)
    {
      var row := amounts[i];
      ProfileOfRowsSnoc(amounts, i, foodId);
      if row.foodId == foodId {
        if row.nutrientId == CalorieNutrientId {
          nutrients := nutrients["Calories" := row.value];
        } else if row.nutrientId == ProteinNutrientId {
          nutrients := nutrients["Protein" := row.value];
        } else if row.nutrientId == FiberNutrientId {
          nutrients := nutrients["Fiber" := row.value];
        }
      }
      i := i + 1;
    }
    assert amounts[..i] == amounts;
  }

  // ----- getFoodsByNutrientRank -----

  /** A row of the rank query: a food description and its amount of the ranked nutrient. */
  datatype RankedFood = RankedFood(description: string, value: real)

  function AscendingKey(e: RankedFood): real {
    e.value
  }

  function DescendingKey(e: RankedFood): real {
    -e.value
  }

  /** The NUTRIENT_AMOUNT rows of one nutrient joined with FOOD_NAME on FoodID, in table order. */
  function RankCandidates(t: Tables, amounts: seq<AmountRow>, nutrientId: int): (r: seq<RankedFood>)
    ensures forall e :: e in r ==>
      exists a, f :: a in amounts && f in t.foods && a.nutrientId == nutrientId
        && a.foodId == f.foodId && e == RankedFood(f.description, a.value)
  {
    if amounts == [] then []
    else
      var a := amounts[0];
      var here := if a.nutrientId == nutrientId then JoinFood(t.foods, a) else [];
      here + RankCandidates(t, amounts[1..], nutrientId)
  }

  function JoinFood(foods: seq<FoodRow>, a: AmountRow): (r: seq<RankedFood>)
    ensures forall e :: e in r ==> exists f :: f in foods && a.foodId == f.foodId && e == RankedFood(f.description, a.value)
  {
    if foods == [] then []
    else (if foods[0].foodId == a.foodId then [RankedFood(foods[0].description, a.value)] else []) + JoinFood(foods[1..], a)
  }

  /** `switch (nutrientName)`: Protein and Fiber by name, everything else is calories. */
  function NutrientIdFor(nutrientName: string): int {
    if nutrientName == "Protein" then ProteinNutrientId
    else if nutrientName == "Fiber" then FiberNutrientId
    else CalorieNutrientId
  }

  /** `ORDER BY NA.NutrientValue DESC|ASC LIMIT 100` over the joined rows. */
  /** The sort key of `ORDER BY NutrientValue DESC` when `high`, of `ASC` otherwise. */
  function RankKey(high: bool): RankedFood -> real {
    if high then DescendingKey else AscendingKey
  }

  /** `a` may be listed before `b` in the chosen direction. */
  predicate RanksBefore(a: RankedFood, b: RankedFood, high: bool) {
    if high then a.value >= b.value else a.value <= b.value
  }

  /** `ORDER BY NA.NutrientValue DESC|ASC LIMIT 100` over the joined rows. */
  function RankedRows(t: Tables, nutrientName: string, rank: string): seq<RankedFood> {
    var rows := RankCandidates(t, t.amounts, NutrientIdFor(nutrientName));
    Take(SortBy(rows, RankKey(EqualsIgnoreCase(rank, "HIGH"))), 100)
  }

  function Descriptions(rows: seq<RankedFood>): (r: seq<string>)
    ensures |r| == |rows| && forall i :: 0 <= i < |rows| ==> r[i] == rows[i].description
  {
    seq(|rows|, i requires 0 <= i < |rows| => rows[i].description)
  }

  /** Ordering by the chosen key is ordering in the chosen direction. */
  lemma RankKeyOrder(high: bool)
    ensures forall a, b :: RankKey(high)(a) <= RankKey(high)(b) <==> RanksBefore(a, b, high)
  {
  }

  /**
   * The rank query keeps at most 100 rows of the chosen nutrient, highest first for "HIGH" (any
   * case) and lowest first otherwise, and every row it leaves out ranks no better than every
   * row it keeps; with 100 or fewer rows it keeps them all.
   */
  lemma RankedRowsSpec(t: Tables, nutrientName: string, rank: string)
    ensures var all := RankCandidates(t, t.amounts, NutrientIdFor(nutrientName));
      var r := RankedRows(t, nutrientName, rank);
      var high := EqualsIgnoreCase(rank, "HIGH");
      && |r| <= 100
      && (|all| <= 100 ==> |r| == |all| && forall e :: e in all ==> e in r)
      && (forall e :: e in r ==> e in all)
      && (forall i, j :: 0 <= i < j < |r| ==> RanksBefore(r[i], r[j], high))
      && (forall e, k :: e in all && e !in r && k in r ==> RanksBefore(k, e, high))
  {
    var all := RankCandidates(t, t.amounts, NutrientIdFor(nutrientName));
    var high := EqualsIgnoreCase(rank, "HIGH");
    SortedPrefixIsSmallest(all, RankKey(high), 100);
    RankKeyOrder(high);
  }

  /** `getFoodsByNutrientRank(nutrientName, rank)`. */
  method GetFoodsByNutrientRank(t: Tables, nutrientName: string, rank: string) returns (foods: seq<string>)
    ensures foods == Descriptions(RankedRows(t, nutrientName, rank))
    ensures |foods| <= 100
  {
    var nutrientId;
    if nutrientName == "Protein" {
      nutrientId := ProteinNutrientId;
    } else if nutrientName == "Fiber" {
      nutrientId := FiberNutrientId;
    } else {
      nutrientId := CalorieNutrientId;
    }
    var high := EqualsIgnoreCase(rank, "HIGH");
    var joined := RankCandidates(t, t.amounts, nutrientId);
    var resultSet := Take(SortBy(joined, RankKey(high)), 100);
    foods := [];
    var i := 0;
    while i < |resultSet|
      invariant 0 <= i <= |resultSet|
      invariant foods == Descriptions(resultSet[..i])
    {
      foods := foods + [resultSet[i].description];
      i := i + 1;
    }
    assert resultSet[..i] == resultSet;
  }

  // ----- MEAL_LOG -----

  /** A MEAL_LOG row; OriginalMealID is NULL when `originalMealId` is None. */
  datatype MealRow = MealRow(
    mealId: int,
    userId: int,
    date: Date,
    mealType: string,
    ingredients: string,
    estimatedCalories: real,
    isSwapped: bool,
    originalMealId: Option<int>)

  /** The meal `getMealsForUser` builds from a row; the breakdown is not stored. */
  function RowToMeal(r: MealRow): Meal {
    Meal(r.mealId, r.date, r.mealType, r.ingredients, r.estimatedCalories, map[], r.isSwapped, r.originalMealId)
  }

  /** The ids that some row names as its OriginalMealID: meals that were swapped out. */
  function SupersededIds(rows: seq<MealRow>): set<int> {
    set i | 0 <= i < |rows| && rows[i].originalMealId.Some? :: rows[i].originalMealId.value
  }

  function NewestFirst(r: MealRow): real {
    -(Instant(r.date) as real)
  }

  /** The WHERE clause of `getMealsForUser`, in table order. */
  function ActiveRows(rows: seq<MealRow>, all: seq<MealRow>, userId: int): (r: seq<MealRow>)
    ensures forall x :: x in r <==> x in rows && x.userId == userId && x.mealId !in SupersededIds(all)
  {
    if rows == [] then []
    else
      var rest := ActiveRows(rows[1..], all, userId);
      assert forall x :: x in rows <==> x == rows[0] || x in rows[1..];
      if rows[0].userId == userId && rows[0].mealId !in SupersededIds(all) then [rows[0]] + rest else rest
  }

  /** The meals built from `rows`, one per row, in the same order. */
  function MealsOf(rows: seq<MealRow>): (r: seq<Meal>)
    ensures |r| == |rows| && forall i :: 0 <= i < |rows| ==> r[i] == RowToMeal(rows[i])
  {
    seq(|rows|, i requires 0 <= i < |rows| => RowToMeal(rows[i]))
  }

  /** `getMealsForUser(userId)`: the user's meals no row supersedes, newest first. */
  function ActiveMeals(rows: seq<MealRow>, userId: int): seq<Meal> {
    MealsOf(SortBy(ActiveRows(rows, rows, userId), NewestFirst))
  }

  /**
   * A meal is listed exactly when it is one of the user's rows and no row names it as its
   * original; the list runs from the latest date to the earliest.
   */
  lemma ActiveMealsSpec(rows: seq<MealRow>, userId: int)
    ensures forall m :: m in ActiveMeals(rows, userId) <==>
      exists r :: r in rows && r.userId == userId && r.mealId !in SupersededIds(rows) && m == RowToMeal(r)
    ensures forall i, j :: 0 <= i < j < |ActiveMeals(rows, userId)| ==>
      Instant(ActiveMeals(rows, userId)[i].date) >= Instant(ActiveMeals(rows, userId)[j].date)
  {
    var active := ActiveRows(rows, rows, userId);
    SortByMembers(active, NewestFirst);
    ActiveMealsMembers(rows, userId, active, SortBy(active, NewestFirst));
    NewestFirstOrder(SortBy(active, NewestFirst));
  }

  lemma ActiveMealsMembers(rows: seq<MealRow>, userId: int, active: seq<MealRow>, sorted: seq<MealRow>)
    requires active == ActiveRows(rows, rows, userId)
    requires forall x :: x in sorted <==> x in active
    ensures forall m :: m in MealsOf(sorted) <==>
      exists r :: r in rows && r.userId == userId && r.mealId !in SupersededIds(rows) && m == RowToMeal(r)
  {
    var meals := MealsOf(sorted);
    forall m | m in meals
      ensures exists r :: r in rows && r.userId == userId && r.mealId !in SupersededIds(rows) && m == RowToMeal(r)
    {
      var i :| 0 <= i < |meals| && meals[i] == m;
      assert sorted[i] in sorted;
    }
    forall m | exists r :: r in rows && r.userId == userId && r.mealId !in SupersededIds(rows) && m == RowToMeal(r)
      ensures m in meals
    {
      var r :| r in rows && r.userId == userId && r.mealId !in SupersededIds(rows) && m == RowToMeal(r);
      var i :| 0 <= i < |sorted| && sorted[i] == r;
      assert meals[i] == m;
    }
  }

  lemma NewestFirstOrder(sorted: seq<MealRow>)
    requires SortedBy(sorted, NewestFirst)
    ensures forall i, j :: 0 <= i < j < |MealsOf(sorted)| ==>
      Instant(MealsOf(sorted)[i].date) >= Instant(MealsOf(sorted)[j].date)
  {
    var meals := MealsOf(sorted);
    forall i, j | 0 <= i < j < |meals| ensures Instant(meals[i].date) >= Instant(meals[j].date) {
      assert NewestFirst(sorted[i]) <= NewestFirst(sorted[j]);
    }
  }

  /** A meal that a row names as its original is never listed. */
  lemma SupersededMealHidden(rows: seq<MealRow>, userId: int, id: int)
    requires id in SupersededIds(rows)
    ensures forall m :: m in ActiveMeals(rows, userId) ==> m.mealId != id
  {
    ActiveMealsSpec(rows, userId);
  }

  /**
   * The WHERE clause of `hasUserLoggedMealTypeOnDate`: some row of the user whose type equals
   * the given one under the collation and whose stored date falls on the given calendar day.
   */
  predicate LoggedOnDay(rows: seq<MealRow>, userId: int, mealType: string, day: int) {
    exists i :: 0 <= i < |rows| && rows[i].userId == userId && SqlEquals(rows[i].mealType, mealType)
      && rows[i].date.day == day
  }

  /** Appending a row finds the meal type on a day exactly when the row or an older one has it there. */
  lemma LoggedOnDayAppend(rows: seq<MealRow>, r: MealRow, userId: int, mealType: string, day: int)
    ensures LoggedOnDay(rows + [r], userId, mealType, day)
        <==> LoggedOnDay(rows, userId, mealType, day)
             || (r.userId == userId && SqlEquals(r.mealType, mealType) && r.date.day == day)
  {
    var all := rows + [r];
    if LoggedOnDay(all, userId, mealType, day) {
      var i :| 0 <= i < |all| && all[i].userId == userId && SqlEquals(all[i].mealType, mealType)
        && all[i].date.day == day;
      if i < |rows| {
        assert rows[i] == all[i];
      }
    }
    if LoggedOnDay(rows, userId, mealType, day) {
      var i :| 0 <= i < |rows| && rows[i].userId == userId && SqlEquals(rows[i].mealType, mealType)
        && rows[i].date.day == day;
      assert all[i] == rows[i];
    }
    if r.userId == userId && SqlEquals(r.mealType, mealType) && r.date.day == day {
      assert all[|rows|] == r;
    }
  }

  /**
   * A breakfast logged at 23:59:59.600 is stored at midnight, so the same-day test finds it
   * on the next day and not on the day it was logged.
   */
  lemma LateMealCountsForNextDay(userId: int)
    ensures var row := MealRow(1, userId, StoredDate(Date(5, 86399600)), "Breakfast", "", 0.0, false, None);
      LoggedOnDay([row], userId, "Breakfast", 6) && !LoggedOnDay([row], userId, "Breakfast", 5)
  {
    LateDateStoredNextDay();
    var row := MealRow(1, userId, StoredDate(Date(5, 86399600)), "Breakfast", "", 0.0, false, None);
    assert [row][0] == row;
  }

  /** The MEAL_LOG table, with the AUTO_INCREMENT counter that numbers new rows. */
  class MealStore {
    var rows: seq<MealRow>
    var nextId: int

    /** Ids are handed out in increasing order, so every stored id is below the counter. */
    ghost predicate Valid()
      reads this
    {
      forall i :: 0 <= i < |rows| ==> rows[i].mealId < nextId
    }

    constructor()
      ensures Valid() && rows == [] && nextId == 1
    {
      rows := [];
      nextId := 1;
    }

    /**
     * `saveMeal(userId, meal)`: one INSERT. `accepted` is whether the database takes the row
     * (false stands for an SQLException); the stored row gets the next AUTO_INCREMENT id, the
     * date as the DATETIME column keeps it, and NULL for a None `originalMealId`. The Java
     * object's `mealId` and date are left as they were. Once saved, the meal's type is found
     * on the calendar day of its stored date.
     */
    method SaveMeal(userId: int, meal: Meal, accepted: bool) returns (ok: bool)
      requires Valid()
      modifies this
      ensures Valid()
      ensures ok == accepted
      ensures ok ==> rows == old(rows) + [MealRow(old(nextId), userId, StoredDate(meal.date), meal.mealType, meal.ingredients,
        meal.estimatedCalories, meal.isSwapped, meal.originalMealId)] && nextId == old(nextId) + 1
      ensures !ok ==> rows == old(rows) && nextId == old(nextId)
      ensures ok ==> forall i :: 0 <= i < |old(rows)| ==> old(rows)[i].mealId != old(nextId)
      ensures ok ==> HasUserLoggedMealTypeOnDate(userId, meal.mealType, StoredDate(meal.date))
    {
      if !accepted {
        return false;
      }
      var row := MealRow(nextId, userId, StoredDate(meal.date), meal.mealType, meal.ingredients,
        meal.estimatedCalories, meal.isSwapped, meal.originalMealId);
      LoggedOnDayAppend(rows, row, userId, meal.mealType, row.date.day);
      rows := rows + [row];
      nextId := nextId + 1;
      return true;
    }

    /** `getMealsForUser(userId)`. */
    function MealsForUser(userId: int): seq<Meal>
      reads this
    {
      ActiveMeals(rows, userId)
    }

    /** `hasUserLoggedMealTypeOnDate`: the query compares only the calendar day of `date`. */
    predicate HasUserLoggedMealTypeOnDate(userId: int, mealType: string, date: Date)
      reads this
    {
      LoggedOnDay(rows, userId, mealType, date.day)
    }
  }
}
