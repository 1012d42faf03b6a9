/**
 * The module-level helpers of the recipe collection: language-tag
 * normalisation and the store of user-written ("custom") recipes, whose
 * ids are decimal text keys mapped to a title and a file name.
 */
module RecipeCollection {
  import opened Wrappers
  import opened Strings
  import opened PosixPath

  // ---------------------------------------------------------------- language tags

  /** `s.partition(sep)`: the text before the first `sep`, whether there was one, the rest. */
  function Partition(s: string, sep: char): (r: (string, bool, string))
    ensures r.1 ==> r.0 + [sep] + r.2 == s && sep !in r.0
    ensures !r.1 ==> sep !in s && r.0 == s && r.2 == []
  {
    var i := Find(s, sep);
    if i < 0 then (s, false, [])
    else
      assert s == s[..i] + [sep] + s[i + 1..];
      (s[..i], true, s[i + 1..])
  }

  /**
   * `normalize_language`: `-` counts as `_`; the part before the first `_`
   * is lower-cased and, when there is a separator, the part after it is
   * upper-cased.
   */
  function NormalizeLanguage(x: string): (r: string)
    ensures '-' !in r
  {
    var y := ReplaceAll(x, "-", "_");
    ReplaceAllRemoves(x, '-', "_");
    var (lang, found, country) := Partition(y, '_');
    assert '-' !in lang && '-' !in country by {
      assert forall c :: c in lang ==> c in y;
      assert forall c :: c in country ==> c in y;
    }
    if found then Lower(lang) + "_" + Upper(country) else Lower(lang)
  }

  /** Partitioning at a separator that does not occur before it. */
  lemma PartitionAt(a: string, sep: char, b: string)
    requires sep !in a
    ensures Partition(a + [sep] + b, sep) == (a, true, b)
  {
    var s := a + [sep] + b;
    assert s[|a|] == sep;
    assert forall k :: 0 <= k < |a| ==> s[k] == a[k];
    assert Find(s, sep) == |a|;
    assert s[..|a|] == a && s[|a| + 1..] == b;
  }

  /** The separator itself becomes `_`. */
  lemma ReplaceDashSep(sep: char)
    requires sep == '_' || sep == '-'
    ensures ReplaceAll([sep], "-", "_") == "_"
  {
    var s: string := [sep];
    assert s[1..] == [];
    if sep == '-' {
      assert StartsWith(s, "-");
      assert ReplaceAll(s, "-", "_") == "_" + ReplaceAll(s[1..], "-", "_");
    } else {
      assert s[..1] == s;
      assert !StartsWith(s, "-");
      assert ReplaceAll(s, "-", "_") == [s[0]] + ReplaceAll(s[1..], "-", "_");
    }
  }

  /** Replacing `-` by `_` after the separator. */
  lemma ReplaceDashTail(sep: char, country: string)
    requires sep == '_' || sep == '-'
    requires '-' !in country
    ensures ReplaceAll([sep] + country, "-", "_") == "_" + country
  {
    ReplaceOneAbsent(country, '-', "_");
    ReplaceDashSep(sep);
    ReplaceOneAppend([sep], country, '-', "_");
  }

  /** Replacing `-` by `_` in a tag whose only `-` may be the separator. */
  lemma ReplaceDashAt(lang: string, sep: char, country: string)
    requires sep == '_' || sep == '-'
    requires '-' !in lang && '-' !in country
    ensures ReplaceAll(lang + [sep] + country, "-", "_") == lang + "_" + country
  {
    var tail := [sep] + country;
    ReplaceOneAbsent(lang, '-', "_");
    ReplaceDashTail(sep, country);
    ReplaceOneAppend(lang, tail, '-', "_");
    ConcatAssoc(lang, [sep], country);
    ConcatAssoc(lang, "_", country);
  }

  lemma ConcatAssoc<T>(a: seq<T>, b: seq<T>, c: seq<T>)
    ensures a + b + c == a + (b + c)
  {
  }

  /** A tag with a separator becomes lower-case language, `_`, upper-case country. */
  lemma NormalizeLanguageSplit(lang: string, sep: char, country: string)
    requires sep == '_' || sep == '-'
    requires '_' !in lang && '-' !in lang && '-' !in country
    ensures NormalizeLanguage(lang + [sep] + country) == Lower(lang) + "_" + Upper(country)
  {
    ReplaceDashAt(lang, sep, country);
    PartitionAt(lang, '_', country);
  }

  /** A tag without separator is only lower-cased. */
  lemma NormalizeLanguagePlain(lang: string)
    requires '_' !in lang && '-' !in lang
    ensures NormalizeLanguage(lang) == Lower(lang)
  {
    ReplaceOneAbsent(lang, '-', "_");
  }

  /** Lower-casing twice is lower-casing once. */
  lemma LowerIdempotent(s: string)
    ensures Lower(Lower(s)) == Lower(s)
  {
  }

  /** Upper-casing twice is upper-casing once. */
  lemma UpperIdempotent(s: string)
    ensures Upper(Upper(s)) == Upper(s)
  {
  }

  /** A normalised tag is in normal form: normalising again changes nothing. */
  lemma NormalizeLanguageIdempotent(x: string)
    ensures NormalizeLanguage(NormalizeLanguage(x)) == NormalizeLanguage(x)
  {
    var y := ReplaceAll(x, "-", "_");
    ReplaceAllRemoves(x, '-', "_");
    var (lang, found, country) := Partition(y, '_');
    assert '-' !in lang && '-' !in country by {
      assert forall c :: c in lang ==> c in y;
      assert forall c :: c in country ==> c in y;
    }
    assert '_' !in Lower(lang) && '-' !in Lower(lang) && '-' !in Upper(country);
    LowerIdempotent(lang);
    UpperIdempotent(country);
    if found {
      NormalizeLanguageSplit(Lower(lang), '_', Upper(country));
    } else {
      NormalizeLanguagePlain(Lower(lang));
    }
  }

  /** `-` and `_` are the same separator: normalising after replacing one by the other changes nothing. */
  lemma NormalizeLanguageDash(x: string)
    ensures NormalizeLanguage(ReplaceAll(x, "-", "_")) == NormalizeLanguage(x)
  {
    ReplaceAllRemoves(x, '-', "_");
    ReplaceOneAbsent(ReplaceAll(x, "-", "_"), '-', "_");
  }

  // ---------------------------------------------------------------- custom recipes

  datatype Failure = ValueError

  /** The id text under which a custom recipe is stored, and what it maps to. */
  type Store = map<string, (string, string)>

  /** Every key of the store is text `int()` accepts. */
  predicate AllKeysParse(m: Store) {
    forall k :: k in m ==> ParseInt(k).Some?
  }

  /** `id` is what `add_custom_recipes` starts from: 1000 for an empty store, else the largest id plus one. */
  predicate IsFirstId(m: Store, id: int)
    requires AllKeysParse(m)
  {
    (m == map[] ==> id == 1000)
    && (m != map[] ==>
          (forall k :: k in m ==> ParseInt(k).value < id)
          && (exists k :: k in m && ParseInt(k).value == id - 1))
  }

  /** The largest id among `keys`. */
  ghost function MaxId(keys: set<string>): (r: int)
    requires keys != {} && forall k :: k in keys ==> ParseInt(k).Some?
    ensures forall k :: k in keys ==> ParseInt(k).value <= r
    ensures exists k :: k in keys && ParseInt(k).value == r
  {
    var k :| k in keys;
    if keys == {k} then ParseInt(k).value
    else
      var rest := MaxId(keys - {k});
      if ParseInt(k).value > rest then ParseInt(k).value else rest
  }

  /** The first id `add_custom_recipes` hands out. */
  ghost function FirstId(m: Store): (r: int)
    requires AllKeysParse(m)
    ensures IsFirstId(m, r)
  {
    if m == map[] then 1000 else MaxId(m.Keys) + 1
  }

  /** The first id is determined by the store. */
  lemma FirstIdUnique(m: Store, a: int, b: int)
    requires AllKeysParse(m) && IsFirstId(m, a) && IsFirstId(m, b)
    ensures a == b
  {
    if m != map[] {
      var ka :| ka in m && ParseInt(ka).value == a - 1;
      var kb :| kb in m && ParseInt(kb).value == b - 1;
      assert ParseInt(ka).value < b && ParseInt(kb).value < a;
    }
  }

  /** The store after recipes titled `titles` were given consecutive ids from `id`. */
  function Added(m: Store, id: int, titles: seq<string>, fileName: (string, string) -> string): (r: Store)
    ensures forall k :: k in m ==> k in r
    decreases |titles|
  {
    if titles == [] then m
    else
      var key := IntToString(id);
      Added(m[key := (titles[0], fileName(key, titles[0]))], id + 1, titles[1..], fileName)
  }

  lemma AddedStep(m: Store, id: int, titles: seq<string>, i: nat, fileName: (string, string) -> string)
    requires i < |titles|
    ensures var key := IntToString(id);
            Added(m, id, titles[i..], fileName) == Added(m[key := (titles[i], fileName(key, titles[i]))], id + 1, titles[i + 1..], fileName)
  {
    assert titles[i..][0] == titles[i] && titles[i..][1..] == titles[i + 1..];
  }

  /** Recipe `i` of the batch is stored under id `id + i` with its title and file name. */
  lemma {:induction false} AddedStoresEach(m: Store, id: int, titles: seq<string>, fileName: (string, string) -> string, i: nat)
    requires i < |titles|
    ensures var key := IntToString(id + i);
            key in Added(m, id, titles, fileName)
            && Added(m, id, titles, fileName)[key] == (titles[i], fileName(key, titles[i]))
    decreases |titles|
  {
    var key := IntToString(id);
    var m' := m[key := (titles[0], fileName(key, titles[0]))];
    if i == 0 {
      ParseIntToString(id);
      AddedKeepsOthers(m', id + 1, titles[1..], fileName, key);
    } else {
      AddedStoresEach(m', id + 1, titles[1..], fileName, i - 1);
    }
  }

  /** A key that is not among the new ids keeps its entry (or stays absent). */
  lemma {:induction false} AddedKeepsOthers(m: Store, id: int, titles: seq<string>, fileName: (string, string) -> string, k: string)
    requires ParseInt(k).Some? ==> ParseInt(k).value < id
    ensures k in Added(m, id, titles, fileName) <==> k in m
    ensures k in m ==> Added(m, id, titles, fileName)[k] == m[k]
    decreases |titles|
  {
    if titles != [] {
      var key := IntToString(id);
      ParseIntToString(id);
      assert k != key;
      AddedKeepsOthers(m[key := (titles[0], fileName(key, titles[0]))], id + 1, titles[1..], fileName, k);
    }
  }

  /** Adding never disturbs a recipe that was already stored. */
  lemma AddKeepsExisting(m: Store, titles: seq<string>, fileName: (string, string) -> string, k: string)
    requires AllKeysParse(m) && k in m
    ensures var m' := Added(m, FirstId(m), titles, fileName);
            k in m' && m'[k] == m[k]
  {
    AddedKeepsOthers(m, FirstId(m), titles, fileName, k);
  }

  /** The store after `update_custom_recipes` ran over `items` (id text, title): the new store, and whether every id parsed. */
  function Updated(m: Store, items: seq<(string, string)>, fileName: (string, string) -> string): (r: (Store, bool))
    ensures forall k :: k in m ==> k in r.0 && r.0[k].1 == m[k].1
    decreases |items|
  {
    if items == [] then (m, true)
    else
      match ParseInt(items[0].0)
      case None => (m, false)
      case Some(n) =>
        var key := IntToString(n);
        var fname := if key in m then m[key].1 else fileName(key, items[0].1);
        Updated(m[key := (items[0].1, fname)], items[1..], fileName)
  }

  /** One item whose id parses is stored, then the rest are applied. */
  lemma UpdatedStep(m: Store, items: seq<(string, string)>, fileName: (string, string) -> string)
    requires items != [] && ParseInt(items[0].0).Some?
    ensures var key := IntToString(ParseInt(items[0].0).value);
            var fname := if key in m then m[key].1 else fileName(key, items[0].1);
            Updated(m, items, fileName) == Updated(m[key := (items[0].1, fname)], items[1..], fileName)
  {
  }

  /** The update fails exactly when some id is not an integer. */
  lemma {:induction false} UpdatedOk(m: Store, items: seq<(string, string)>, fileName: (string, string) -> string)
    ensures Updated(m, items, fileName).1 <==> forall j :: 0 <= j < |items| ==> ParseInt(items[j].0).Some?
    decreases |items|
  {
    if items != [] && ParseInt(items[0].0).Some? {
      var key := IntToString(ParseInt(items[0].0).value);
      var fname := if key in m then m[key].1 else fileName(key, items[0].1);
      UpdatedOk(m[key := (items[0].1, fname)], items[1..], fileName);
      assert forall j :: 0 < j < |items| ==> items[j] == items[1..][j - 1];
    }
  }

  /** A recipe that already had a file keeps that file name, whatever is updated. */
  lemma {:induction false} UpdatedKeepsFileName(m: Store, items: seq<(string, string)>, fileName: (string, string) -> string, k: string)
    requires k in m
    ensures k in Updated(m, items, fileName).0 && Updated(m, items, fileName).0[k].1 == m[k].1
    decreases |items|
  {
    if items != [] && ParseInt(items[0].0).Some? {
      var key := IntToString(ParseInt(items[0].0).value);
      var fname := if key in m then m[key].1 else fileName(key, items[0].1);
      UpdatedKeepsFileName(m[key := (items[0].1, fname)], items[1..], fileName, k);
    }
  }

  /** The id text an update item is stored under, when it parses. */
  predicate TargetsKey(item: (string, string), k: string) {
    ParseInt(item.0).Some? && IntToString(ParseInt(item.0).value) == k
  }

  /** A key no item targets keeps its entry. */
  lemma {:induction false} UpdatedKeepsOthers(m: Store, items: seq<(string, string)>, fileName: (string, string) -> string, k: string)
    requires forall j :: 0 <= j < |items| ==> !TargetsKey(items[j], k)
    ensures k in Updated(m, items, fileName).0 <==> k in m
    ensures k in m ==> Updated(m, items, fileName).0[k] == m[k]
    decreases |items|
  {
    if items != [] && ParseInt(items[0].0).Some? {
      var key := IntToString(ParseInt(items[0].0).value);
      assert !TargetsKey(items[0], k);
      var fname := if key in m then m[key].1 else fileName(key, items[0].1);
      assert forall j :: 0 <= j < |items| - 1 ==> items[1..][j] == items[j + 1];
      UpdatedKeepsOthers(m[key := (items[0].1, fname)], items[1..], fileName, k);
    }
  }

  /**
   * The last item that targets a key decides its title, provided every
   * earlier item parsed (an id that does not parse stops the update, but
   * what was stored before it stays).
   */
  lemma {:induction false} UpdatedLastWins(m: Store, items: seq<(string, string)>, fileName: (string, string) -> string, i: nat, k: string)
    requires i < |items| && TargetsKey(items[i], k)
    requires forall j :: 0 <= j < i ==> ParseInt(items[j].0).Some?
    requires forall j :: i < j < |items| ==> !TargetsKey(items[j], k)
    ensures k in Updated(m, items, fileName).0 && Updated(m, items, fileName).0[k].0 == items[i].1
    decreases |items|
  {
    if i == 0 {
      UpdatedHeadWins(m, items, fileName, k);
    } else {
      assert ParseInt(items[0].0).Some?;
      var key := IntToString(ParseInt(items[0].0).value);
      var fname := if key in m then m[key].1 else fileName(key, items[0].1);
      var m' := m[key := (items[0].1, fname)];
      UpdatedStep(m, items, fileName);
      assert Updated(m, items, fileName) == Updated(m', items[1..], fileName);
      LastInTail(items, i, k);
      UpdatedLastWins(m', items[1..], fileName, i - 1, k);
    }
  }

  /** The first item targets the key and no later one does: its title is stored. */
  lemma UpdatedHeadWins(m: Store, items: seq<(string, string)>, fileName: (string, string) -> string, k: string)
    requires items != [] && TargetsKey(items[0], k)
    requires forall j :: 0 < j < |items| ==> !TargetsKey(items[j], k)
    ensures k in Updated(m, items, fileName).0 && Updated(m, items, fileName).0[k].0 == items[0].1
  {
    var key := IntToString(ParseInt(items[0].0).value);
    var fname := if key in m then m[key].1 else fileName(key, items[0].1);
    var rest := items[1..];
    UpdatedStep(m, items, fileName);
    forall j | 0 <= j < |rest| ensures !TargetsKey(rest[j], k) {
      assert rest[j] == items[j + 1];
    }
    UpdatedKeepsOthers(m[key := (items[0].1, fname)], rest, fileName, k);
  }

  lemma LastInTail(items: seq<(string, string)>, i: nat, k: string)
    requires 0 < i < |items| && TargetsKey(items[i], k)
    requires forall j :: 0 <= j < i ==> ParseInt(items[j].0).Some?
    requires forall j :: i < j < |items| ==> !TargetsKey(items[j], k)
    ensures TargetsKey(items[1..][i - 1], k)
    ensures forall j :: 0 <= j < i - 1 ==> ParseInt(items[1..][j].0).Some?
    ensures forall j :: i - 1 < j < |items| - 1 ==> !TargetsKey(items[1..][j], k)
  {
    var rest := items[1..];
    assert forall j :: 0 <= j < |rest| ==> rest[j] == items[j + 1];
  }

  /** The persistent store of custom recipes (the `custom_recipes` JSON file). */
  class CustomRecipes {
    var recipes: Store

    constructor (initial: Store)
      ensures recipes == initial
    {
      recipes := initial;
    }

    /**
     * `add_custom_recipes` for a batch of titles: the first id comes from the
     * current keys (every key is read with `int()`, which may raise), then
     * each title gets the next id. `fileName` is `custom_recipe_filename`.
     */
    method AddCustomRecipes(titles: seq<string>, fileName: (string, string) -> string) returns (r: Result<(), Failure>)
      modifies this
      ensures r.Err? <==> !AllKeysParse(old(recipes))
      ensures r.Err? ==> recipes == old(recipes)
      ensures r.Ok? ==> AllKeysParse(old(recipes)) && recipes == Added(old(recipes), FirstId(old(recipes)), titles, fileName)
    {
      var start := FirstFreeId(recipes);
      if start.Err? {
        return Err(ValueError);
      }
      FirstIdUnique(recipes, start.value, FirstId(recipes));
      var id := start.value;
      var i := 0;
      while i < |titles|
        invariant 0 <= i <= |titles| && id == start.value + i
        invariant Added(old(recipes), start.value, titles, fileName) == Added(recipes, id, titles[i..], fileName)
      {
        var key := IntToString(id);
        AddedStep(recipes, id, titles, i, fileName);
        recipes := recipes[key := (titles[i], fileName(key, titles[i]))];
        id := id + 1;
        i := i + 1;
      }
      return Ok(());
    }

    /**
     * `update_custom_recipes`: each item's id is normalised through `int()`;
     * an existing id keeps its file name, a new one gets `fileName(id, title)`.
     * An id that does not parse raises, after the earlier items were stored.
     */
    method UpdateCustomRecipes(items: seq<(string, string)>, fileName: (string, string) -> string) returns (r: Result<(), Failure>)
      modifies this
      ensures (recipes, r.Ok?) == Updated(old(recipes), items, fileName)
    {
      var i := 0;
      while i < |items|
        invariant 0 <= i <= |items|
        invariant Updated(old(recipes), items, fileName) == Updated(recipes, items[i..], fileName)
      {
        assert items[i..][1..] == items[i + 1..];
        var n := ParseInt(items[i].0);
        if n.None? {
          return Err(ValueError);
        }
        var key := IntToString(n.value);
        var fname := if key in recipes then recipes[key].1 else fileName(key, items[i].1);
        recipes := recipes[key := (items[i].1, fname)];
        i := i + 1;
      }
      return Ok(());
    }
  }

  /** `max(map(int, keys)) + 1`, or 1000 for no keys; `Err` when a key is not an integer. */
  method FirstFreeId(m: Store) returns (r: Result<int, Failure>)
    ensures r.Err? <==> !AllKeysParse(m)
    ensures r.Ok? ==> IsFirstId(m, r.value)
  {
    var keys := m.Keys;
    var seen: set<string> := {};
    var best := 999;
    while keys != {}
      invariant keys + seen == m.Keys && keys !! seen
      invariant forall k :: k in seen ==> ParseInt(k).Some? && ParseInt(k).value <= best
      invariant seen == {} ==> best == 999
      invariant seen != {} ==> exists k :: k in seen && ParseInt(k).value == best
      decreases keys
    {
      var k :| k in keys;
      var v := ParseInt(k);
      if v.None? {
        return Err(ValueError);
      }
      if seen == {} || v.value > best {
        best := v.value;
      }
      keys := keys - {k};
      seen := seen + {k};
    }
    assert seen == m.Keys;
    return Ok(best + 1);
  }
}
