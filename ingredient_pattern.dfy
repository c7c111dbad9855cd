/**
 * The ingredient-line pattern `(\d+\.?\d*)\s*g\s*(.+)`, compiled with CASE_INSENSITIVE and
 * used with `matches()` (the whole input must match). NutrientCalculator, SwapEngine,
 * MealController, DBManager and VisualizationController each compile their own copy of this
 * same pattern and use it the same way: they match the TRIMMED line and trim group 2.
 * That shared use is `ParseLine`; `Match` is the bare pattern.
 */
module IngredientPattern {
  import opened Wrappers
  import opened JavaStrings

  /** `\d` (ASCII digits; Java's default). */
  predicate IsDigit(c: char) {
    '0' <= c <= '9'
  }

  /** The chars `.` refuses to match (Java's line terminators, UNIX_LINES off). */
  predicate IsLineTerminator(c: char) {
    c == '\n' || c == '\r' || c == '\U{85}' || c == '\U{2028}' || c == '\U{2029}'
  }

  /** `g` under CASE_INSENSITIVE (ASCII folding). */
  predicate IsGramMarker(c: char) {
    c == 'g' || c == 'G'
  }

  /** No line terminator at or after index `i`. */
  predicate NoLineTerminatorFrom(s: string, i: nat) {
    forall k :: i <= k < |s| ==> !IsLineTerminator(s[k])
  }

  /** Every char of s[i..j] is a `\s`. */
  predicate SpacesIn(s: string, i: nat, j: nat)
    requires j <= |s|
  {
    forall k :: i <= k < j ==> IsRegexSpace(s[k])
  }

  /** The quantity and description groups of a matched line. */
  datatype Ingredient = Ingredient(quantity: string, description: string)

  /** Where the run of digits that starts at `i` ends. */
  function SkipDigits(s: string, i: nat): (j: nat)
    requires i <= |s|
    ensures i <= j <= |s|
    ensures forall k :: i <= k < j ==> IsDigit(s[k])
    ensures j < |s| ==> !IsDigit(s[j])
    decreases |s| - i
  {
    if i < |s| && IsDigit(s[i]) then SkipDigits(s, i + 1) else i
  }

  /** Where the run of `\s` chars that starts at `i` ends. */
  function SkipSpaces(s: string, i: nat): (j: nat)
    requires i <= |s|
    ensures i <= j <= |s|
    ensures SpacesIn(s, i, j)
    ensures j < |s| ==> !IsRegexSpace(s[j])
    decreases |s| - i
  {
    if i < |s| && IsRegexSpace(s[i]) then SkipSpaces(s, i + 1) else i
  }

  /** The language of group 1: one or more digits, then optionally a dot and more digits. */
  predicate IsQuantityText(q: string) {
    && |q| > 0
    && IsDigit(q[0])
    && forall j :: 0 <= j < |q| ==>
         IsDigit(q[j]) || (q[j] == '.' && forall k :: 0 <= k < |q| && k != j ==> IsDigit(q[k]))
  }

  /** Where the greedy group 1 ends; 0 when `s` does not start with a digit. */
  function QuantityEnd(s: string): (n: nat)
    ensures n <= |s|
  {
    var d := SkipDigits(s, 0);
    if d == 0 then 0
    else if d < |s| && s[d] == '.' then SkipDigits(s, d + 1)
    else d
  }

  /**
   * Where group 2 starts, the `g` being just before `i`: after the run of blanks the greedy
   * `\s*` takes, or, when the blanks run to the end, one char back, where the engine
   * backtracks to so that `.+` gets a char.
   */
  function DescriptionStart(s: string, i: nat): (k: nat)
    requires i <= |s|
    ensures i <= k <= |s| && (k == |s| ==> i == |s|)
    ensures SpacesIn(s, i, k)
  {
    var w := SkipSpaces(s, i);
    if w < |s| || w == i then w else w - 1
  }

  /** `ingredientPattern.matcher(s).matches()`, with `group(1)` and `group(2)`. */
  function Match(s: string): Option<Ingredient> {
    var q := QuantityEnd(s);
    var g := SkipSpaces(s, q);
    if q == 0 || g >= |s| || !IsGramMarker(s[g]) then None
    else
      var k := DescriptionStart(s, g + 1);
      if k < |s| && NoLineTerminatorFrom(s, k) then Some(Ingredient(s[..q], s[k..])) else None
  }

  /**
   * The pattern, stated as a language: `s` is group 1 = s[..a], `\s*` = s[a..b], the `g` at b,
   * `\s*` = s[b+1..c] and group 2 = s[c..] (at least one char, no line terminator).
   */
  ghost predicate MatchesAt(s: string, a: int, b: int, c: int) {
    && 0 < a <= b < c < |s|
    && IsQuantityText(s[..a])
    && SpacesIn(s, a, b)
    && IsGramMarker(s[b])
    && SpacesIn(s, b + 1, c)
    && NoLineTerminatorFrom(s, c)
  }

  /** `matcher(line.trim())`, then `group(1)` and `group(2).trim()`. */
  function ParseLine(line: string): Option<Ingredient> {
    match Match(Trim(line))
    case None => None
    case Some(m) => Some(Ingredient(m.quantity, Trim(m.description)))
  }

  /** An ingredient line as MealController writes it back: quantity, "g ", description. */
  function CanonicalLine(e: Ingredient): string {
    e.quantity + "g " + e.description
  }

  /** A description that survives being written after "g " and parsed again. */
  predicate IsCleanDescription(d: string) {
    d != [] && IsTrimmed(d) && NoLineTerminatorFrom(d, 0)
  }

  // ----- the greedy matcher agrees with the pattern's language -----

  lemma QuantityEndIsQuantityText(s: string)
    requires QuantityEnd(s) > 0
    ensures IsQuantityText(s[..QuantityEnd(s)])
  {
    var d := SkipDigits(s, 0);
    var q := s[..QuantityEnd(s)];
    if d < |s| && s[d] == '.' {
      forall j | 0 <= j < |q| && j != d ensures IsDigit(q[j]) {
        assert q[j] == s[j];
      }
    }
  }

  /** Any split the language admits has the greedy group 1 as its group 1. */
  lemma QuantityEndOfSplit(s: string, a: nat)
    requires 0 < a < |s| && IsQuantityText(s[..a])
    requires !IsDigit(s[a]) && s[a] != '.'
    ensures QuantityEnd(s) == a
  {
    var q := s[..a];
    assert forall j :: 0 <= j < a ==> q[j] == s[j];
    if j :| 0 <= j < a && !IsDigit(s[j]) {
      assert q[j] == '.';
      assert SkipDigits(s, 0) == j;
      assert SkipDigits(s, j + 1) == a;
    } else {
      assert SkipDigits(s, 0) == a;
    }
  }

  /** A run of blanks followed by a non-blank ends where `SkipSpaces` says. */
  lemma SkipSpacesOfSplit(s: string, i: nat, j: nat)
    requires i <= j <= |s| && SpacesIn(s, i, j) && (j < |s| ==> !IsRegexSpace(s[j]))
    ensures SkipSpaces(s, i) == j
  {
  }

  /** `Match` read off from its parts. */
  lemma MatchOfParts(s: string, a: nat, b: nat, c: nat)
    requires 0 < a == QuantityEnd(s) && b == SkipSpaces(s, a) < |s| && IsGramMarker(s[b])
    requires c == DescriptionStart(s, b + 1) < |s| && NoLineTerminatorFrom(s, c)
    ensures Match(s) == Some(Ingredient(s[..a], s[c..]))
  {
  }

  /** Whatever `Match` returns is a split the language admits, and its groups. */
  lemma MatchSound(s: string)
    requires Match(s).Some?
    ensures exists a, b, c :: MatchesAt(s, a, b, c) && Match(s).value == Ingredient(s[..a], s[c..])
  {
    var a := QuantityEnd(s);
    var b := SkipSpaces(s, a);
    var c := DescriptionStart(s, b + 1);
    QuantityEndIsQuantityText(s);
    MatchOfParts(s, a, b, c);
    assert MatchesAt(s, a, b, c);
  }

  /** Group 2 of any admitted split ends where `DescriptionStart` lands, or runs on past it. */
  lemma DescriptionStartOfSplit(s: string, i: nat, c: nat)
    requires i <= c < |s| && SpacesIn(s, i, c) && NoLineTerminatorFrom(s, c)
    ensures c <= DescriptionStart(s, i) < |s| && NoLineTerminatorFrom(s, DescriptionStart(s, i))
    ensures !IsRegexSpace(s[c]) ==> DescriptionStart(s, i) == c
  {
    if !IsRegexSpace(s[c]) {
      SkipSpacesOfSplit(s, i, c);
    }
  }

  /**
   * Whenever the language admits a split, `Match` succeeds, with the same group 1; when group 2
   * of the split starts with a non-blank, `Match` returns that group 2 too.
   */
  lemma MatchComplete(s: string, a: int, b: int, c: int)
    requires MatchesAt(s, a, b, c)
    ensures Match(s).Some? && Match(s).value.quantity == s[..a]
    ensures !IsRegexSpace(s[c]) ==> Match(s).value.description == s[c..]
  {
    assert !IsDigit(s[a]) && s[a] != '.' by {
      assert a < b ==> IsRegexSpace(s[a]);
    }
    QuantityEndOfSplit(s, a);
    SkipSpacesOfSplit(s, a, b);
    DescriptionStartOfSplit(s, b + 1, c);
    MatchOfParts(s, a, b, DescriptionStart(s, b + 1));
  }

  /** The whole-line pattern matches exactly the strings of its language. */
  lemma MatchIffLanguage(s: string)
    ensures Match(s).Some? <==> exists a, b, c :: MatchesAt(s, a, b, c)
  {
    if Match(s).Some? {
      MatchSound(s);
    }
    if exists a, b, c :: MatchesAt(s, a, b, c) {
      var a, b, c :| MatchesAt(s, a, b, c);
      MatchComplete(s, a, b, c);
    }
  }

  // ----- round trip through the canonical form -----

  /**
   * Writing a quantity text and a clean description as "<q>g <d>" and parsing the line again
   * gives back exactly that quantity text and that description.
   */
  lemma ParseCanonicalLine(e: Ingredient)
    requires IsQuantityText(e.quantity) && IsCleanDescription(e.description)
    ensures ParseLine(CanonicalLine(e)) == Some(e)
  {
    var s := CanonicalLine(e);
    CanonicalLineMatches(e);
    assert s[0] == e.quantity[0] && s[|s| - 1] == e.description[|e.description| - 1];
    ParseTrimmedLine(s);
    TrimOfTrimmed(e.description);
  }

  lemma CanonicalLineMatches(e: Ingredient)
    requires IsQuantityText(e.quantity) && IsCleanDescription(e.description)
    ensures Match(CanonicalLine(e)) == Some(e)
  {
    var q, d := e.quantity, e.description;
    var s := CanonicalLine(e);
    var n := |q|;
    assert s[..n] == q && s[n] == 'g' && s[n + 1] == ' ' && s[n + 2..] == d;
    assert forall k :: n + 2 <= k < |s| ==> s[k] == d[k - n - 2];
    RegexSpaceIsTrimmable(d[0]);
    MatchComplete(s, n, n, n + 2);
  }

  /** On a line with nothing to trim, `ParseLine` is `Match` with group 2 trimmed. */
  lemma ParseTrimmedLine(s: string)
    requires IsTrimmed(s)
    ensures ParseLine(s) == if Match(s).None? then None
      else Some(Ingredient(Match(s).value.quantity, Trim(Match(s).value.description)))
  {
    TrimOfTrimmed(s);
  }

  /** "100 grams rice" is 100 g of "rams rice": the unit is the single letter g. */
  lemma GramsIsReadAsG()
    ensures ParseLine("100 grams rice") == Some(Ingredient("100", "rams rice"))
  {
    GramsLineMatches();
    ParseTrimmedLine("100 grams rice");
    TrimOfTrimmed("rams rice");
  }

  lemma GramsLineMatches()
    ensures Match("100 grams rice") == Some(Ingredient("100", "rams rice"))
  {
    var s := "100 grams rice";
    assert SkipDigits(s, 0) == 3;
    assert SkipSpaces(s, 3) == 4;
    assert SkipSpaces(s, 5) == 5;
    assert NoLineTerminatorFrom(s, 5);
    MatchOfParts(s, 3, 4, 5);
    assert s[..3] == "100" && s[5..] == "rams rice";
  }

  // ----- the numeric value of group 1 (Double.parseDouble, exactly) -----

  function Pow10(n: nat): (p: nat)
    ensures p >= 1
  {
    if n == 0 then 1 else 10 * Pow10(n - 1)
  }

  /** The value of the decimal digits s[i..j]. */
  function DigitsValue(s: string, i: nat, j: nat): nat
    requires i <= j <= |s| && forall k :: i <= k < j ==> IsDigit(s[k])
    decreases j - i
  {
    if j == i then 0
    else
      var c := s[j - 1];
      assert IsDigit(c);
      DigitsValue(s, i, j - 1) * 10 + (c as int - '0' as int)
  }

  /**
   * `Double.parseDouble(group(1))` on exact reals: the digits before the dot plus the digits
   * after it over the matching power of ten. Group 1 always has this form, so the parse never
   * throws.
   */
  function QuantityValue(q: string): (v: real)
    ensures v >= 0.0
  {
    var d := SkipDigits(q, 0);
    var whole := DigitsValue(q, 0, d) as real;
    if d < |q| && q[d] == '.' then
      var f := SkipDigits(q, d + 1);
      whole + (DigitsValue(q, d + 1, f) as real) / (Pow10(f - d - 1) as real)
    else whole
  }

  lemma QuantityValueExamples()
    ensures QuantityValue("150") == 150.0
    ensures QuantityValue("12.5") == 12.5
  {
    assert SkipDigits("150", 0) == 3;
    var s := "12.5";
    assert SkipDigits(s, 0) == 2;
    assert SkipDigits(s, 3) == 4;
  }
}
