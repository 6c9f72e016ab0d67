/**
 * The raw-materials list page (`app/catalog/raw-materials/page.tsx`): the
 * filter pass that narrows the table, the updates of the active-filter
 * object, and the badge a disposition is shown with. The fuzzy search is a
 * library call; its hits are a parameter.
 */
module RawMaterialsPage {
  import opened Wrappers
  import opened Text
  import opened Objects
  import opened Types
  import opened Seqs
  import CatalogData

  /** An item passes one filter entry: an empty list imposes nothing, otherwise its field value must be listed. */
  predicate Passes(item: RawMaterial, entry: (string, seq<string>)) {
    |entry.1| > 0 ==> CatalogData.Field(item, entry.0).Some? && CatalogData.Field(item, entry.0).value in entry.1
  }

  /** An item passes every entry: AND across categories, OR within one. */
  predicate Survives(item: RawMaterial, filters: Object<seq<string>>) {
    forall i | 0 <= i < |filters| :: Passes(item, filters[i])
  }

  /** The items that survive, in their original order. */
  function Survivors(items: seq<RawMaterial>, filters: Object<seq<string>>): (r: seq<RawMaterial>)
    ensures |r| <= |items|
    ensures forall x :: x in r <==> x in items && Survives(x, filters)
  {
    if items == [] then []
    else (if Survives(items[0], filters) then [items[0]] else []) + Survivors(items[1..], filters)
  }

  /** `result.filter(item => values.includes(item[key]))`. */
  function KeepMatching(items: seq<RawMaterial>, key: string, values: seq<string>): seq<RawMaterial> {
    if items == [] then []
    else (if Passes(items[0], (key, values)) then [items[0]] else []) + KeepMatching(items[1..], key, values)
  }

  /** Filtering the survivors of some entries by one more entry gives the survivors of all of them. */
  lemma {:induction false} KeepMatchingSurvivors(items: seq<RawMaterial>, filters: Object<seq<string>>, key: string, values: seq<string>)
    ensures KeepMatching(Survivors(items, filters), key, values) == Survivors(items, filters + [(key, values)])
  {
    if items != [] {
      KeepMatchingSurvivors(items[1..], filters, key, values);
      var x := items[0];
      assert Survives(x, filters + [(key, values)]) <==> Survives(x, filters) && Passes(x, (key, values)) by {
        assert forall i | 0 <= i < |filters| :: (filters + [(key, values)])[i] == filters[i];
        assert (filters + [(key, values)])[|filters|] == (key, values);
      }
      var s := Survivors(items, filters);
      var rest := Survivors(items[1..], filters);
      if Survives(x, filters) {
        assert s == [x] + rest;
        assert s[1..] == rest;
        assert KeepMatching(s, key, values) == (if Passes(x, (key, values)) then [x] else []) + KeepMatching(rest, key, values);
      } else {
        assert s == rest;
      }
    }
  }

  /** An entry with an empty list keeps everything. */
  lemma {:induction false} EmptyEntryKeepsAll(items: seq<RawMaterial>, key: string)
    ensures KeepMatching(items, key, []) == items
  {
    if items != [] {
      EmptyEntryKeepsAll(items[1..], key);
    }
  }

  /**
   * `filteredData`: the search hits when the query is not blank, otherwise
   * every material; then each entry with a non-empty list narrows the result
   * in turn. The result is the one-pass filter by all entries together.
   */
  method FilteredData(materials: seq<RawMaterial>, searchQuery: string, searchHits: seq<RawMaterial>,
                      activeFilters: Object<seq<string>>)
    returns (result: seq<RawMaterial>)
    ensures result == Survivors(if IsBlank(searchQuery) then materials else searchHits, activeFilters)
  {
    result := materials;
    if Trim(searchQuery) != [] {
      result := searchHits;
    }
    ghost var base := result;
    SurvivorsOfNone(base);
    var i := 0;
    while i < |activeFilters|
      invariant 0 <= i <= |activeFilters|
      invariant FilteredBy(base, activeFilters, i, result)
    {
      var key := activeFilters[i].0;
      var values := activeFilters[i].1;
      var narrowed := result;
      if |values| > 0 {
        narrowed := KeepMatching(result, key, values);
      }
      FilterStep(base, activeFilters, i, result, narrowed);
      result := narrowed;
      i := i + 1;
    }
    assert activeFilters[..i] == activeFilters;
    assert FilteredBy(base, activeFilters, i, result);
  }

  /** One turn of the filter loop: entry `i` narrows the survivors of the entries before it. */
  /** `result` is what the loop holds after the first `i` entries. */
  ghost predicate FilteredBy(base: seq<RawMaterial>, filters: Object<seq<string>>, i: nat, result: seq<RawMaterial>) {
    i <= |filters| && result == Survivors(base, filters[..i])
  }

  lemma FilterStep(base: seq<RawMaterial>, filters: Object<seq<string>>, i: nat, before: seq<RawMaterial>, after: seq<RawMaterial>)
    requires i < |filters|
    requires FilteredBy(base, filters, i, before)
    requires after == if |filters[i].1| > 0 then KeepMatching(before, filters[i].0, filters[i].1) else before
    ensures FilteredBy(base, filters, i + 1, after)
  {
    var (key, values) := filters[i];
    KeepMatchingSurvivors(base, filters[..i], key, values);
    assert filters[..i + 1] == filters[..i] + [(key, values)];
    EmptyEntryKeepsAll(before, key);
  }

  /** Without entries every item survives. */
  lemma {:induction false} SurvivorsOfNone(items: seq<RawMaterial>)
    ensures Survivors(items, []) == items
  {
    if items != [] {
      SurvivorsOfNone(items[1..]);
    }
  }

  /** With only empty lists nothing is filtered out: a blank query then shows every material. */
  lemma {:induction false} SurvivorsOfEmptyLists(items: seq<RawMaterial>, filters: Object<seq<string>>)
    requires forall i | 0 <= i < |filters| :: filters[i].1 == []
    ensures Survivors(items, filters) == items
  {
    if items != [] {
      SurvivorsOfEmptyLists(items[1..], filters);
    }
  }

  /** The filter pass keeps the input's order. */
  lemma {:induction false} SurvivorsInOrder(items: seq<RawMaterial>, filters: Object<seq<string>>)
    ensures IsSubsequence(Survivors(items, filters), items)
  {
    if items != [] {
      SurvivorsInOrder(items[1..], filters);
      var rest := Survivors(items[1..], filters);
      if Survives(items[0], filters) {
        assert Survivors(items, filters) == [items[0]] + rest;
        assert ([items[0]] + rest)[1..] == rest;
      } else {
        assert Survivors(items, filters) == rest;
      }
    }
  }

  /** `handleFilterChange`: the category's list replaced, every other category kept. */
  function HandleFilterChange(active: Object<seq<string>>, categoryId: string, values: seq<string>): (r: Object<seq<string>>)
    ensures Get(r, categoryId) == Some(values)
    ensures forall k | k != categoryId :: Get(r, k) == Get(active, k)
    ensures Keys(r) == if categoryId in Keys(active) then Keys(active) else Keys(active) + [categoryId]
  {
    forall k ensures Get(Put(active, categoryId, values), k) == if k == categoryId then Some(values) else Get(active, k) {
      PutGet(active, categoryId, values, k);
    }
    Put(active, categoryId, values)
  }

  /** `handleClearFilters`: no category has an entry, so every material survives. */
  function HandleClearFilters(): (r: Object<seq<string>>)
    ensures forall k :: Get(r, k).None?
    ensures forall items: seq<RawMaterial> :: Survivors(items, r) == items
  {
    forall items: seq<RawMaterial> ensures Survivors(items, []) == items {
      SurvivorsOfNone(items);
    }
    []
  }

  /** The badge variant of a disposition cell. */
  datatype Badge = Restricted | Warning | Success

  const Restringido := "restringido"
  /** "crítico", with U+00ED. */
  const Critico := "cr\U{00ED}tico"

  /** `restringido` wins over `crítico`; neither gives success. The match ignores case. */
  function BadgeFor(disposition: string): (r: Badge)
    ensures r == Restricted <==> Contains(LowerAll(disposition), Restringido)
    ensures r == Warning <==> !Contains(LowerAll(disposition), Restringido) && Contains(LowerAll(disposition), Critico)
  {
    var value := LowerAll(disposition);
    if Contains(value, Restringido) then Restricted
    else if Contains(value, Critico) then Warning
    else Success
  }

  /** Lowering is idempotent, so the badge does not depend on the case of the text. */
  lemma BadgeIgnoresCase(disposition: string)
    ensures BadgeFor(LowerAll(disposition)) == BadgeFor(disposition)
  {
    assert LowerAll(LowerAll(disposition)) == LowerAll(disposition);
  }

  /** A disposition with "Restringido" anywhere in it is restricted, whatever else it says ("crítico" included). */
  lemma RestrictedAnywhere(a: string, b: string)
    ensures BadgeFor(a + "Restringido" + b) == Restricted
  {
    var s := a + "Restringido" + b;
    LowerAllAroundWord(a, b);
    ContainsMiddle(LowerAll(a), Restringido, LowerAll(b));
    assert Contains(LowerAll(s), Restringido);
  }

  /** Lowering a text around "Restringido" lowers the word to `Restringido`. */
  lemma LowerAllAroundWord(a: string, b: string)
    ensures LowerAll(a + "Restringido" + b) == LowerAll(a) + Restringido + LowerAll(b)
  {
    LowerAllAppend(a + "Restringido", b);
    LowerAllAppend(a, "Restringido");
    LowerWord();
  }

  lemma LowerWord()
    ensures LowerAll("Restringido") == Restringido
  {
    LowerLiteral("Restringido", Restringido);
  }

  /** Compares character by character, with the two words held as parameters. */
  lemma LowerLiteral(w: string, t: string)
    requires w == "Restringido" && t == Restringido
    ensures LowerAll(w) == t
  {
    assert forall i | 0 <= i < |w| :: Lower(w[i]) == t[i];
  }

  /** A text contains whatever occurs in its middle. */
  lemma ContainsMiddle(x: string, p: string, y: string)
    ensures Contains(x + p + y, p)
  {
    var v := x + p + y;
    assert v[|x|..|x| + |p|] == p;
    assert OccursAt(v, p, |x|);
    ContainsAt(v, p);
  }

  /** "CRÍTICO" is a warning: the accented capital lowers to the accented small letter. */
  lemma WarningExample()
    ensures BadgeFor("CR\U{00CD}TICO") == Warning
  {
    var v := LowerAll("CR\U{00CD}TICO");
    assert v == Critico;
    assert StartsWith(v, Critico);
    NotContainsShort(v, Restringido);
  }

  /** "Libre" is a success. */
  lemma SuccessExample()
    ensures BadgeFor("Libre") == Success
  {
    NotContainsShort(LowerAll("Libre"), Restringido);
    NotContainsShort(LowerAll("Libre"), Critico);
  }

  /** Lowering works character by character. */
  lemma LowerAllAppend(a: string, b: string)
    ensures LowerAll(a + b) == LowerAll(a) + LowerAll(b)
  {
  }

  /** A pattern longer than the text does not occur in it. */
  lemma {:induction false} NotContainsShort(s: string, p: string)
    requires |s| < |p|
    ensures !Contains(s, p)
  {
    if s != [] {
      NotContainsShort(s[1..], p);
    }
  }
}
