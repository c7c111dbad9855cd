/**
 * Nutrient maps (Java `Map<String, Double>` from nutrient name to amount) and the
 * operations the core performs on them: `getOrDefault(k, 0.0)`, `merge(k, v, Double::sum)`,
 * summing values, and finding the value of a key that starts with a given name.
 * Java's HashMap iterates its entries in an unspecified order; the lookups below therefore
 * promise the value of SOME matching key, which is all the source can promise.
 */
module NutrientMaps {
  import opened JavaStrings

  type NutrientMap = map<string, real>

  /** `m.getOrDefault(k, 0.0)`. */
  function Get(m: NutrientMap, k: string): real {
    if k in m then m[k] else 0.0
  }

  /** The map that `merge(k, v, Double::sum)` builds when every entry of `b` is merged into `a`. */
  function Add(a: NutrientMap, b: NutrientMap): (r: NutrientMap)
    ensures r.Keys == a.Keys + b.Keys
    ensures forall k :: k in r ==> r[k] == Get(a, k) + Get(b, k)
  {
    map k | k in a.Keys + b.Keys :: Get(a, k) + Get(b, k)
  }

  /** Every amount multiplied by `f`. */
  function Scale(m: NutrientMap, f: real): (r: NutrientMap)
    ensures r.Keys == m.Keys
    ensures forall k :: k in r ==> r[k] == m[k] * f
  {
    map k | k in m :: m[k] * f
  }

  /** Adding the empty map changes nothing. */
  lemma AddEmpty(a: NutrientMap)
    ensures Add(a, map[]) == a
  {
  }

  /** The order in which three maps are merged does not matter. */
  lemma AddAssociative(a: NutrientMap, b: NutrientMap, c: NutrientMap)
    ensures Add(Add(a, b), c) == Add(a, Add(b, c))
  {
  }

  /** The map built by merging each map of `cs` in turn into an empty one. */
  function SumMaps(cs: seq<NutrientMap>): NutrientMap {
    if cs == [] then map[] else Add(SumMaps(cs[..|cs| - 1]), cs[|cs| - 1])
  }

  /** The amounts of `k` in the maps of `cs`, added up from the first map on. */
  function SumAt(cs: seq<NutrientMap>, k: string): real {
    if cs == [] then 0.0 else Get(cs[0], k) + SumAt(cs[1..], k)
  }

  lemma {:induction false} SumAtSnoc(cs: seq<NutrientMap>, k: string)
    requires cs != []
    ensures SumAt(cs, k) == SumAt(cs[..|cs| - 1], k) + Get(cs[|cs| - 1], k)
    decreases |cs|
  {
    if |cs| > 1 {
      SumAtSnoc(cs[1..], k);
      assert cs[1..][..|cs| - 2] == cs[..|cs| - 1][1..];
    }
  }

  /** The merged map has a key exactly when one of the maps has it. */
  lemma {:induction false} SumMapsKeys(cs: seq<NutrientMap>, k: string)
    ensures k in SumMaps(cs) <==> exists i :: 0 <= i < |cs| && k in cs[i]
    decreases |cs|
  {
    if cs != [] {
      var n := |cs| - 1;
      SumMapsKeys(cs[..n], k);
      assert forall i :: 0 <= i < n ==> cs[..n][i] == cs[i];
    }
  }

  /** The merged value of a key is the sum of the maps' values, absent counting as zero. */
  lemma {:induction false} SumMapsValue(cs: seq<NutrientMap>, k: string)
    ensures Get(SumMaps(cs), k) == SumAt(cs, k)
    decreases |cs|
  {
    if cs != [] {
      SumMapsValue(cs[..|cs| - 1], k);
      SumAtSnoc(cs, k);
    }
  }

  /** `m.merge(k, v, Double::sum)` on a single key is merging the one-entry map `{k: v}`. */
  lemma MergeOneKey(m: NutrientMap, k: string, v: real)
    ensures Add(m, map[k := v]) == m[k := Get(m, k) + v]
  {
  }

  /** Merging one more map at the end of a list. */
  lemma SumMapsSnoc(cs: seq<NutrientMap>, c: NutrientMap)
    ensures SumMaps(cs + [c]) == Add(SumMaps(cs), c)
  {
    assert (cs + [c])[..|cs|] == cs;
  }

  /** Merging two lists of maps one after the other is merging their two sums. */
  lemma {:induction false} SumMapsAppend(a: seq<NutrientMap>, b: seq<NutrientMap>)
    ensures SumMaps(a + b) == Add(SumMaps(a), SumMaps(b))
    decreases |b|
  {
    if b == [] {
      assert a + b == a;
      AddEmpty(SumMaps(a));
    } else {
      var n := |b| - 1;
      assert (a + b)[..|a + b| - 1] == a + b[..n];
      assert (a + b)[|a + b| - 1] == b[n];
      SumMapsAppend(a, b[..n]);
      AddAssociative(SumMaps(a), SumMaps(b[..n]), b[n]);
    }
  }

  /** With no negative amount in any map, no sum is negative. */
  lemma {:induction false} SumMapsNonNegative(cs: seq<NutrientMap>)
    requires forall i, k :: 0 <= i < |cs| && k in cs[i] ==> cs[i][k] >= 0.0
    ensures forall k :: k in SumMaps(cs) ==> SumMaps(cs)[k] >= 0.0
    decreases |cs|
  {
    if cs != [] {
      SumMapsNonNegative(cs[..|cs| - 1]);
    }
  }

  /** Merging the same map twice is merging it once, doubled. */
  lemma AddTwice(a: NutrientMap, c: NutrientMap)
    ensures Add(Add(a, c), c) == Add(a, Scale(c, 2.0))
  {
  }

  /**
   * `for (e : b.entrySet()) acc.merge(e.getKey(), e.getValue(), Double::sum)`, visiting the
   * entries in an arbitrary order.
   */
  method MergeInto(a: NutrientMap, b: NutrientMap) returns (acc: NutrientMap)
    ensures acc == Add(a, b)
  {
    acc := a;
    var pending := b.Keys;
    while pending != {}
      invariant pending <= b.Keys
      invariant acc.Keys == a.Keys + (b.Keys - pending)
      invariant forall k :: k in acc ==> acc[k] == Get(a, k) + (if k in b && k !in pending then b[k] else 0.0)
      decreases pending
    {
      var k :| k in pending;
      acc := acc[k := if k in acc then acc[k] + b[k] else b[k]];
      pending := pending - {k};
    }
  }

  // ----- sums of values -----

  ghost function PickKey<K>(m: map<K, real>): K
    requires m != map[]
  {
    var k :| k in m; k
  }

  /** The sum of all values of `m`, in no particular order. */
  ghost function SumValues<K>(m: map<K, real>): real
    decreases m.Keys
  {
    if m == map[] then 0.0
    else
      var k := PickKey(m);
      m[k] + SumValues(m - {k})
  }

  /** The sum does not depend on which key is taken first. */
  lemma {:induction false} SumValuesRemove<K>(m: map<K, real>, k: K)
    requires k in m
    ensures SumValues(m) == m[k] + SumValues(m - {k})
    decreases m.Keys
  {
    var p := PickKey(m);
    if p != k {
      SumValuesRemove(m - {p}, k);
      SumValuesRemove(m - {k}, p);
      assert m - {p} - {k} == m - {k} - {p};
    }
  }

  lemma {:induction false} SumValuesNonNegative<K>(m: map<K, real>)
    requires forall k :: k in m ==> m[k] >= 0.0
    ensures SumValues(m) >= 0.0
    decreases m.Keys
  {
    if m != map[] {
      SumValuesNonNegative(m - {PickKey(m)});
    }
  }

  lemma {:induction false} SumValuesZero<K>(m: map<K, real>)
    requires forall k :: k in m ==> m[k] == 0.0
    ensures SumValues(m) == 0.0
    decreases m.Keys
  {
    if m != map[] {
      SumValuesZero(m - {PickKey(m)});
    }
  }

  /** `m` restricted to the keys in `s`. */
  function Restrict<K>(m: map<K, real>, s: set<K>): (r: map<K, real>)
    ensures r.Keys == m.Keys * s
    ensures forall k :: k in r ==> r[k] == m[k]
  {
    map k | k in m && k in s :: m[k]
  }

  /** Adding a new key adds its value to the sum. */
  lemma SumValuesInsert<K>(m: map<K, real>, k: K, v: real)
    requires k !in m
    ensures SumValues(m[k := v]) == SumValues(m) + v
  {
    SumValuesRemove(m[k := v], k);
    assert m[k := v] - {k} == m;
  }

  /** Splitting the keys in two splits the sum in two. */
  lemma {:induction false} SumValuesSplit<K>(m: map<K, real>, s: set<K>)
    ensures SumValues(m) == SumValues(Restrict(m, s)) + SumValues(Restrict(m, m.Keys - s))
    decreases m.Keys
  {
    if m != map[] {
      var k := PickKey(m);
      var m' := m - {k};
      SumValuesSplit(m', s);
      SumValuesRemove(m, k);
      if k in s {
        SumValuesRemove(Restrict(m, s), k);
        assert Restrict(m, s) - {k} == Restrict(m', s);
        assert Restrict(m, m.Keys - s) == Restrict(m', m'.Keys - s);
      } else {
        SumValuesRemove(Restrict(m, m.Keys - s), k);
        assert Restrict(m, m.Keys - s) - {k} == Restrict(m', m'.Keys - s);
        assert Restrict(m, s) == Restrict(m', s);
      }
    }
  }

  /** One step of a loop that sums the values of `m` key by key. */
  lemma SumRestrictStep<K>(m: map<K, real>, done: set<K>, k: K)
    requires k in m && k !in done
    ensures SumValues(Restrict(m, done + {k})) == SumValues(Restrict(m, done)) + m[k]
  {
    SumValuesRemove(Restrict(m, done + {k}), k);
    assert Restrict(m, done + {k}) - {k} == Restrict(m, done);
  }

  /** One step of a loop that copies `m` key by key. */
  lemma RestrictInsert<K>(m: map<K, real>, done: set<K>, k: K)
    requires k in m
    ensures Restrict(m, done + {k}) == Restrict(m, done)[k := m[k]]
  {
  }

  /** Allowing a key that `m` does not have changes nothing. */
  lemma RestrictAbsent<K>(m: map<K, real>, s: set<K>, k: K)
    requires k !in m
    ensures Restrict(m, s + {k}) == Restrict(m, s)
  {
  }

  /** Restricting to a superset of the keys changes nothing. */
  lemma RestrictAll<K>(m: map<K, real>, s: set<K>)
    requires m.Keys <= s
    ensures Restrict(m, s) == m
  {
  }

  // ----- lookups by key prefix -----

  /** Whether key `k` (upper-cased first when `upper`) starts with `prefix`. */
  predicate KeyMatches(k: string, prefix: string, upper: bool) {
    StartsWith(if upper then ToUpper(k) else k, prefix)
  }

  /**
   * `v` is what a loop over the entries that returns the first matching value can return:
   * the value of some matching key, or 0.0 when no key matches.
   */
  ghost predicate IsLookupResult(m: NutrientMap, prefix: string, upper: bool, v: real) {
    || (exists k :: k in m && KeyMatches(k, prefix, upper) && m[k] == v)
    || ((forall k :: k in m ==> !KeyMatches(k, prefix, upper)) && v == 0.0)
  }

  /** When only one key matches, the lookup's result is that key's value. */
  lemma LookupOfUniqueKey(m: NutrientMap, prefix: string, upper: bool, k: string, v: real)
    requires k in m && KeyMatches(k, prefix, upper)
    requires forall k' :: k' in m && KeyMatches(k', prefix, upper) ==> k' == k
    requires IsLookupResult(m, prefix, upper, v)
    ensures v == m[k]
  {
  }

  /**
   * A key added to a map that a lookup has already scanned: the result stays valid, and
   * becomes the new key's value when that key matches.
   */
  lemma LookupResultInsert(m: NutrientMap, prefix: string, upper: bool, v: real, k: string, x: real)
    requires k !in m && IsLookupResult(m, prefix, upper, v)
    ensures IsLookupResult(m[k := x], prefix, upper, if KeyMatches(k, prefix, upper) then x else v)
  {
    var m' := m[k := x];
    if !KeyMatches(k, prefix, upper) {
      if exists j :: j in m && KeyMatches(j, prefix, upper) && m[j] == v {
        var j :| j in m && KeyMatches(j, prefix, upper) && m[j] == v;
        assert j in m' && m'[j] == v;
      }
    } else {
      assert k in m' && m'[k] == x;
    }
  }

  /**
   * The search loop shared by `getCalorieValue` and `getNutrientValue`: walk the entries in the
   * map's own order and return the value of the first key that starts with `prefix` (after
   * upper-casing the key when `upper`); 0.0 when none does.
   */
  method LookupByPrefix(m: NutrientMap, prefix: string, upper: bool) returns (v: real)
    ensures IsLookupResult(m, prefix, upper, v)
  {
    var pending := m.Keys;
    while pending != {}
      invariant pending <= m.Keys
      invariant forall k :: k in m && k !in pending ==> !KeyMatches(k, prefix, upper)
      decreases pending
    {
      var k :| k in pending;
      if KeyMatches(k, prefix, upper) {
        return m[k];
      }
      pending := pending - {k};
    }
    return 0.0;
  }

  /** The name under which the database reports calories. */
  const EnergyKcal := "ENERGY (KILOCALORIES)"

  /**
   * `getCalorieValue(nutrients)`: the value of a key whose upper-case form starts with
   * "ENERGY (KILOCALORIES)", or 0.0 when there is none.
   */
  method CalorieValue(nutrients: NutrientMap) returns (calories: real)
    ensures IsLookupResult(nutrients, EnergyKcal, true, calories)
  {
    calories := LookupByPrefix(nutrients, EnergyKcal, true);
  }
}
