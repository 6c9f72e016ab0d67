/**
 * The data layer of `lib/data.ts`: the finished-product taxonomy built by
 * laying the generated data over the fixed default families, and the
 * accessors the pages use. The generated data and the default table are
 * parameters.
 */
module CatalogData {
  import opened Wrappers
  import opened Text
  import opened Types
  import opened Seqs

  /** A category of the default table; its product list and count may be absent. */
  datatype DefaultCategory = DefaultCategory(
    name: string,
    slug: string,
    products: Option<seq<FinishedProduct>>,
    count: Option<int>)

  /** A family of the default table. */
  datatype DefaultFamily = DefaultFamily(name: string, slug: string, categories: seq<DefaultCategory>)

  // ---------------------------------------------------------------------------
  // The merge
  // ---------------------------------------------------------------------------

  /** `dataFamilies.find(f => f.slug === slug)`. */
  function DataFamily(dataFamilies: seq<ProductFamily>, slug: string): Option<ProductFamily> {
    Find(dataFamilies, (f: ProductFamily) => f.slug == slug)
  }

  /** `dataFamily?.categories.find(c => c.slug === slug)`. */
  function DataCategory(dataFamily: Option<ProductFamily>, slug: string): Option<ProductCategory> {
    if dataFamily.None? then None
    else Find(dataFamily.value.categories, (c: ProductCategory) => c.slug == slug)
  }

  /** A product re-labelled with the default family and category it is listed under. */
  function Stamp(p: FinishedProduct, df: DefaultFamily, dc: DefaultCategory): FinishedProduct {
    p.(family := df.name, familySlug := df.slug, category := dc.name, categorySlug := dc.slug)
  }

  /** `products.map(p => ({...p, family, family_slug, category, category_slug}))`. */
  function StampAll(ps: seq<FinishedProduct>, df: DefaultFamily, dc: DefaultCategory): (r: seq<FinishedProduct>)
    ensures |r| == |ps| && forall i | 0 <= i < |ps| :: r[i] == Stamp(ps[i], df, dc)
  {
    seq(|ps|, i requires 0 <= i < |ps| => Stamp(ps[i], df, dc))
  }

  /** `dataCat?.products || dc.products || []`: a data category's list always wins, even when empty. */
  function ResolvedProducts(dataCat: Option<ProductCategory>, dc: DefaultCategory): seq<FinishedProduct> {
    if dataCat.Some? then dataCat.value.products else dc.products.GetOr([])
  }

  /** `dataCat?.count || dc.count || products.length`: the first non-zero count, else the list's length. */
  function ResolvedCount(dataCat: Option<ProductCategory>, dc: DefaultCategory, products: seq<FinishedProduct>): int {
    if dataCat.Some? && dataCat.value.count != 0 then dataCat.value.count
    else if dc.count.Some? && dc.count.value != 0 then dc.count.value
    else |products|
  }

  /**
   * One default category, resolved against the same-slug data category of
   * the family. Its products are that data category's list when there is
   * one, otherwise the default's own list, otherwise none; its count is the
   * first non-zero of the data count and the default count, otherwise the
   * list's length. Every product carries the default family's and
   * category's names and slugs.
   */
  function ResolveCategory(df: DefaultFamily, dc: DefaultCategory, dataFamily: Option<ProductFamily>): (c: ProductCategory)
    ensures c.name == dc.name && c.slug == dc.slug && c.family == df.name && c.familySlug == df.slug
    ensures var dataCat := DataCategory(dataFamily, dc.slug);
      && (dataCat.Some? ==> |c.products| == |dataCat.value.products|)
      && (dataCat.None? && dc.products.Some? ==> |c.products| == |dc.products.value|)
      && (dataCat.None? && dc.products.None? ==> c.products == [])
      && (dataCat.Some? && dataCat.value.count != 0 ==> c.count == dataCat.value.count)
      && (!(dataCat.Some? && dataCat.value.count != 0) && dc.count.Some? && dc.count.value != 0 ==> c.count == dc.count.value)
      && (!(dataCat.Some? && dataCat.value.count != 0) && !(dc.count.Some? && dc.count.value != 0) ==> c.count == |c.products|)
    ensures var dataCat := DataCategory(dataFamily, dc.slug);
      dataCat.Some? ==> forall i | 0 <= i < |c.products| :: c.products[i] == Stamp(dataCat.value.products[i], df, dc)
    ensures var dataCat := DataCategory(dataFamily, dc.slug);
      dataCat.None? && dc.products.Some? ==> forall i | 0 <= i < |c.products| :: c.products[i] == Stamp(dc.products.value[i], df, dc)
    ensures forall p | p in c.products ::
      p.family == df.name && p.familySlug == df.slug && p.category == dc.name && p.categorySlug == dc.slug
  {
    var dataCat := DataCategory(dataFamily, dc.slug);
    var products := ResolvedProducts(dataCat, dc);
    ProductCategory(dc.name, dc.slug, df.name, df.slug, StampAll(products, df, dc), ResolvedCount(dataCat, dc, products))
  }

  /** `df.categories.map(...)`. */
  function DefaultCategories(df: DefaultFamily, dataFamily: Option<ProductFamily>): (r: seq<ProductCategory>)
    ensures |r| == |df.categories|
    ensures forall i | 0 <= i < |r| :: r[i] == ResolveCategory(df, df.categories[i], dataFamily)
  {
    seq(|df.categories|, i requires 0 <= i < |df.categories| => ResolveCategory(df, df.categories[i], dataFamily))
  }

  /** The slugs of a category list, in order. */
  function Slugs(cats: seq<ProductCategory>): (r: seq<string>)
    ensures |r| == |cats| && forall i | 0 <= i < |cats| :: r[i] == cats[i].slug
  {
    seq(|cats|, i requires 0 <= i < |cats| => cats[i].slug)
  }

  /** A data category moved under the default family: `{...dc, family, family_slug}`. */
  function Rehome(c: ProductCategory, df: DefaultFamily): ProductCategory {
    c.(family := df.name, familySlug := df.slug)
  }

  /**
   * The effect of the `forEach` over the data family's categories: each one
   * whose slug is not yet in the growing list is pushed, re-homed.
   */
  function AppendMissing(categories: seq<ProductCategory>, data: seq<ProductCategory>, df: DefaultFamily): seq<ProductCategory> {
    if data == [] then categories
    else
      var acc := AppendMissing(categories, data[..|data| - 1], df);
      var c := data[|data| - 1];
      if c.slug in Slugs(acc) then acc else acc + [Rehome(c, df)]
  }

  /** The loop itself: `if (!categories.find(c => c.slug === dc.slug)) categories.push(...)`. */
  method PushMissing(categories: seq<ProductCategory>, data: seq<ProductCategory>, df: DefaultFamily)
    returns (r: seq<ProductCategory>)
    ensures r == AppendMissing(categories, data, df)
  {
    r := categories;
    var i := 0;
    while i < |data|
      invariant 0 <= i <= |data|
      invariant r == AppendMissing(categories, data[..i], df)
    {
      var c := data[i];
      assert data[..i + 1][..i] == data[..i];
      var existing := Find(r, (x: ProductCategory) => x.slug == c.slug);
      if existing.None? {
        assert c.slug !in Slugs(r);
        r := r + [Rehome(c, df)];
      } else {
        var k :| 0 <= k < |r| && r[k] == existing.value && r[k].slug == c.slug;
        assert Slugs(r)[k] == c.slug;
      }
      i := i + 1;
    }
    assert data[..|data|] == data;
  }

  /** The merged family for one default family. */
  function MergeFamily(df: DefaultFamily, dataFamilies: seq<ProductFamily>): ProductFamily {
    var dataFamily := DataFamily(dataFamilies, df.slug);
    var defaults := DefaultCategories(df, dataFamily);
    var categories := if dataFamily.Some? then AppendMissing(defaults, dataFamily.value.categories, df) else defaults;
    ProductFamily(df.name, df.slug, categories, Sum(categories, CategoryCount))
  }

  /** The same, with the append done by the loop. */
  method MergeFamilyLoop(df: DefaultFamily, dataFamilies: seq<ProductFamily>) returns (f: ProductFamily)
    ensures f == MergeFamily(df, dataFamilies)
  {
    var dataFamily := DataFamily(dataFamilies, df.slug);
    var categories := DefaultCategories(df, dataFamily);
    if dataFamily.Some? {
      categories := PushMissing(categories, dataFamily.value.categories, df);
    }
    f := ProductFamily(df.name, df.slug, categories, Sum(categories, CategoryCount));
  }

  /**
   * `getFinishedProductFamilies`: one family per default family, in the
   * default order and with its name and slug; data families matching no
   * default are dropped. `data` is `finishedProductsData.families`, possibly
   * absent.
   */
  function FinishedProductFamilies(defaults: seq<DefaultFamily>, data: Option<seq<ProductFamily>>): (r: seq<ProductFamily>)
    ensures |r| == |defaults|
    ensures forall i | 0 <= i < |r| :: r[i].name == defaults[i].name && r[i].slug == defaults[i].slug
    ensures forall i | 0 <= i < |r| :: r[i] == MergeFamily(defaults[i], data.GetOr([]))
    ensures forall f | f in r :: f.count == Sum(f.categories, CategoryCount)
  {
    var dataFamilies := data.GetOr([]);
    seq(|defaults|, i requires 0 <= i < |defaults| => MergeFamily(defaults[i], dataFamilies))
  }

  // ---------------------------------------------------------------------------
  // What the merge promises
  // ---------------------------------------------------------------------------

  /** The merged family starts with its default categories, resolved, followed by the appended data categories. */
  lemma MergeFamilyShape(df: DefaultFamily, dataFamilies: seq<ProductFamily>)
    ensures var f := MergeFamily(df, dataFamilies);
      && |df.categories| <= |f.categories|
      && f.categories[..|df.categories|] == DefaultCategories(df, DataFamily(dataFamilies, df.slug))
      && f.count == Sum(f.categories, CategoryCount)
  {
    var dataFamily := DataFamily(dataFamilies, df.slug);
    var defaults := DefaultCategories(df, dataFamily);
    if dataFamily.Some? {
      AppendMissingPrefix(defaults, dataFamily.value.categories, df);
    }
  }

  /** The appended list keeps the given categories in front. */
  lemma {:induction false} AppendMissingPrefix(categories: seq<ProductCategory>, data: seq<ProductCategory>, df: DefaultFamily)
    ensures var r := AppendMissing(categories, data, df);
      |categories| <= |r| && r[..|categories|] == categories
  {
    if data != [] {
      AppendMissingPrefix(categories, data[..|data| - 1], df);
    }
  }

  /**
   * The appended categories are data categories (re-homed to the default
   * family) whose slug was not yet present, each slug at most once, so a
   * list whose slugs are distinct stays so: no default category is duplicated.
   */
  lemma {:induction false} AppendMissingDistinct(categories: seq<ProductCategory>, data: seq<ProductCategory>, df: DefaultFamily)
    requires Distinct(Slugs(categories))
    ensures var r := AppendMissing(categories, data, df);
      && Distinct(Slugs(r))
      && forall i | |categories| <= i < |r| ::
           r[i].family == df.name && r[i].familySlug == df.slug
           && r[i].slug !in Slugs(categories)
           && exists c | c in data :: r[i] == Rehome(c, df)
  {
    if data != [] {
      var acc := AppendMissing(categories, data[..|data| - 1], df);
      AppendMissingDistinct(categories, data[..|data| - 1], df);
      AppendMissingPrefix(categories, data[..|data| - 1], df);
      var c := data[|data| - 1];
      if c.slug !in Slugs(acc) {
        var r := acc + [Rehome(c, df)];
        assert Slugs(r) == Slugs(acc) + [c.slug];
        forall i | |categories| <= i < |r| ensures r[i].slug !in Slugs(categories) {
          if i < |acc| {
            assert r[i] == acc[i];
          } else {
            assert forall j | 0 <= j < |categories| :: Slugs(categories)[j] == Slugs(acc)[j];
          }
        }
        forall i | |categories| <= i < |r| ensures exists c' | c' in data :: r[i] == Rehome(c', df) {
          if i < |acc| {
            assert r[i] == acc[i];
            var c' :| c' in data[..|data| - 1] && acc[i] == Rehome(c', df);
            assert c' in data;
          } else {
            assert c in data;
          }
        }
      } else {
        forall i | |categories| <= i < |acc| ensures exists c' | c' in data :: acc[i] == Rehome(c', df) {
          var c' :| c' in data[..|data| - 1] && acc[i] == Rehome(c', df);
          assert c' in data;
        }
      }
    }
  }

  /** A default family whose categories have distinct slugs yields a merged family whose categories do too. */
  lemma MergedSlugsDistinct(df: DefaultFamily, dataFamilies: seq<ProductFamily>)
    requires forall i, j | 0 <= i < j < |df.categories| :: df.categories[i].slug != df.categories[j].slug
    ensures Distinct(Slugs(MergeFamily(df, dataFamilies).categories))
  {
    var dataFamily := DataFamily(dataFamilies, df.slug);
    var defaults := DefaultCategories(df, dataFamily);
    assert forall i | 0 <= i < |defaults| :: Slugs(defaults)[i] == df.categories[i].slug;
    if dataFamily.Some? {
      AppendMissingDistinct(defaults, dataFamily.value.categories, df);
    }
  }

  /** A data category is present after the append exactly when its slug is: nothing of the data is lost by slug. */
  lemma {:induction false} AppendMissingCovers(categories: seq<ProductCategory>, data: seq<ProductCategory>, df: DefaultFamily)
    ensures var r := AppendMissing(categories, data, df);
      forall s :: s in Slugs(r) <==> s in Slugs(categories) || s in Slugs(data)
  {
    if data != [] {
      AppendMissingCovers(categories, data[..|data| - 1], df);
      AppendOneSlugs(AppendMissing(categories, data[..|data| - 1], df), data[|data| - 1], df);
      SlugsOfSnoc(data);
    }
  }

  /** One step of the append: the slugs after it are the slugs before it and the data category's slug. */
  lemma AppendOneSlugs(acc: seq<ProductCategory>, c: ProductCategory, df: DefaultFamily)
    ensures var r := if c.slug in Slugs(acc) then acc else acc + [Rehome(c, df)];
      forall s :: s in Slugs(r) <==> s in Slugs(acc) || s == c.slug
  {
    if c.slug !in Slugs(acc) {
      assert Slugs(acc + [Rehome(c, df)]) == Slugs(acc) + [c.slug];
    }
  }

  /** The slugs of a non-empty list are those of its front, then the slug of its last element. */
  lemma SlugsOfSnoc(data: seq<ProductCategory>)
    requires data != []
    ensures Slugs(data) == Slugs(data[..|data| - 1]) + [data[|data| - 1].slug]
  {
  }

  /** Every data category re-homed to the default family, in data order. */
  function RehomeAll(data: seq<ProductCategory>, df: DefaultFamily): (r: seq<ProductCategory>)
    ensures |r| == |data| && forall i | 0 <= i < |data| :: r[i] == Rehome(data[i], df)
  {
    seq(|data|, i requires 0 <= i < |data| => Rehome(data[i], df))
  }

  /** `data[j]` is the first of the data categories with its slug. */
  predicate FirstOfSlug(data: seq<ProductCategory>, j: int)
    requires 0 <= j < |data|
  {
    forall k | 0 <= k < j :: data[k].slug != data[j].slug
  }

  /** The appended categories keep the order of the data family's categories. */
  lemma {:induction false} AppendMissingInOrder(categories: seq<ProductCategory>, data: seq<ProductCategory>, df: DefaultFamily)
    ensures var r := AppendMissing(categories, data, df);
      |categories| <= |r| && IsSubsequence(r[|categories|..], RehomeAll(data, df))
  {
    if data == [] {
      assert AppendMissing(categories, data, df)[|categories|..] == [];
    } else {
      var n := |data| - 1;
      var acc := AppendMissing(categories, data[..n], df);
      AppendMissingInOrder(categories, data[..n], df);
      var x := Rehome(data[n], df);
      assert RehomeAll(data, df) == RehomeAll(data[..n], df) + [x];
      if data[n].slug in Slugs(acc) {
        SubsequenceAppendRight(acc[|categories|..], RehomeAll(data[..n], df), x);
      } else {
        assert (acc + [x])[|categories|..] == acc[|categories|..] + [x];
        SubsequenceAppendBoth(acc[|categories|..], RehomeAll(data[..n], df), x);
      }
    }
  }

  /**
   * Each appended category is the first data category with its slug, and
   * that slug is not among the given categories: of several data categories
   * sharing a new slug, the earliest is kept and the later ones dropped.
   */
  lemma {:induction false} AppendMissingFirstOfSlug(categories: seq<ProductCategory>, data: seq<ProductCategory>, df: DefaultFamily)
    ensures var r := AppendMissing(categories, data, df);
      forall i | |categories| <= i < |r| :: exists j | 0 <= j < |data| ::
        && r[i] == Rehome(data[j], df)
        && data[j].slug !in Slugs(categories)
        && FirstOfSlug(data, j)
  {
    if data != [] {
      var n := |data| - 1;
      var acc := AppendMissing(categories, data[..n], df);
      var r := AppendMissing(categories, data, df);
      AppendMissingFirstOfSlug(categories, data[..n], df);
      AppendMissingPrefix(categories, data[..n], df);
      forall i | |categories| <= i < |r|
        ensures exists j | 0 <= j < |data| ::
          r[i] == Rehome(data[j], df) && data[j].slug !in Slugs(categories) && FirstOfSlug(data, j)
      {
        if i < |acc| {
          assert r[i] == acc[i];
          var j :| 0 <= j < n && acc[i] == Rehome(data[..n][j], df)
            && data[..n][j].slug !in Slugs(categories) && FirstOfSlug(data[..n], j);
          assert forall k | 0 <= k < j :: data[..n][k] == data[k];
          assert FirstOfSlug(data, j);
        } else {
          AppendMissingCovers(categories, data[..n], df);
          assert data[n].slug !in Slugs(acc);
          forall k | 0 <= k < n ensures data[k].slug != data[n].slug {
            assert Slugs(data[..n])[k] == data[k].slug;
          }
          assert FirstOfSlug(data, n);
        }
      }
    }
  }

  /**
   * What follows the defaults in a merged family: data categories of the
   * same-slug data family, re-homed, in data order, each the first with its
   * slug and none with a default category's slug.
   */
  lemma MergeFamilyAppended(df: DefaultFamily, dataFamilies: seq<ProductFamily>)
    ensures var f := MergeFamily(df, dataFamilies);
      var dataFamily := DataFamily(dataFamilies, df.slug);
      var data := if dataFamily.Some? then dataFamily.value.categories else [];
      && |df.categories| <= |f.categories|
      && IsSubsequence(f.categories[|df.categories|..], RehomeAll(data, df))
      && forall i | |df.categories| <= i < |f.categories| :: exists j | 0 <= j < |data| ::
           && f.categories[i] == Rehome(data[j], df)
           && data[j].slug !in Slugs(DefaultCategories(df, dataFamily))
           && FirstOfSlug(data, j)
  {
    var dataFamily := DataFamily(dataFamilies, df.slug);
    var defaults := DefaultCategories(df, dataFamily);
    if dataFamily.Some? {
      AppendMissingInOrder(defaults, dataFamily.value.categories, df);
      AppendMissingFirstOfSlug(defaults, dataFamily.value.categories, df);
    } else {
      assert MergeFamily(df, dataFamilies).categories[|df.categories|..] == [];
    }
  }
  // ---------------------------------------------------------------------------
  // Accessors
  // ---------------------------------------------------------------------------

  /** `getFinishedProductsCount`: the sum of the family counts. */
  function FinishedProductsCount(families: seq<ProductFamily>): int {
    Sum(families, FamilyCount)
  }

  /** All products of some categories, category by category. */
  function CategoriesProducts(cats: seq<ProductCategory>): seq<FinishedProduct> {
    if cats == [] then [] else CategoriesProducts(cats[..|cats| - 1]) + cats[|cats| - 1].products
  }

  /** All products, family by family, then category by category. */
  function Flatten(families: seq<ProductFamily>): seq<FinishedProduct> {
    if families == [] then [] else Flatten(families[..|families| - 1]) + CategoriesProducts(families[|families| - 1].categories)
  }

  /** `getAllFinishedProducts`: three nested `forEach` loops pushing every product. */
  method AllFinishedProducts(families: seq<ProductFamily>) returns (all: seq<FinishedProduct>)
    ensures all == Flatten(families)
  {
    all := [];
    var i := 0;
    while i < |families|
      invariant 0 <= i <= |families|
      invariant all == Flatten(families[..i])
    {
      var cats := families[i].categories;
      assert families[..i + 1][..i] == families[..i];
      var j := 0;
      while j < |cats|
        invariant 0 <= j <= |cats|
        invariant all == Flatten(families[..i]) + CategoriesProducts(cats[..j])
      {
        var products := cats[j].products;
        assert cats[..j + 1][..j] == cats[..j];
        var k := 0;
        while k < |products|
          invariant 0 <= k <= |products|
          invariant all == Flatten(families[..i]) + CategoriesProducts(cats[..j]) + products[..k]
        {
          assert products[..k + 1] == products[..k] + [products[k]];
          all := all + [products[k]];
          k := k + 1;
        }
        assert products[..k] == products;
        j := j + 1;
      }
      assert cats[..j] == cats;
      i := i + 1;
    }
    assert families[..i] == families;
  }

  /** The category counts are the list lengths. */
  predicate CountsExact(cats: seq<ProductCategory>) {
    forall c | c in cats :: c.count == |c.products|
  }

  lemma {:induction false} CategoriesProductsLength(cats: seq<ProductCategory>)
    requires CountsExact(cats)
    ensures |CategoriesProducts(cats)| == Sum(cats, CategoryCount)
  {
    if cats != [] {
      CategoriesProductsLength(cats[..|cats| - 1]);
    }
  }

  /**
   * The flattened list has as many products as `getFinishedProductsCount`
   * says whenever each family's count is the sum of its category counts (as
   * the merge makes it) and each category's count is its list's length.
   */
  lemma {:induction false} FlattenLength(families: seq<ProductFamily>)
    requires forall f | f in families :: f.count == Sum(f.categories, CategoryCount) && CountsExact(f.categories)
    ensures |Flatten(families)| == FinishedProductsCount(families)
  {
    if families != [] {
      var n := |families| - 1;
      assert forall f | f in families[..n] :: f in families;
      FlattenLength(families[..n]);
      assert families[n] in families;
      CategoriesProductsLength(families[n].categories);
    }
  }

  /** `getFamilyBySlug`. */
  function FamilyBySlug(families: seq<ProductFamily>, slug: string): (r: Option<ProductFamily>)
    ensures r.None? <==> forall i | 0 <= i < |families| :: families[i].slug != slug
    ensures r.Some? ==> r.value.slug == slug
    ensures r.Some? ==> exists i | 0 <= i < |families| ::
      families[i] == r.value && forall j | 0 <= j < i :: families[j].slug != slug
  {
    Find(families, (f: ProductFamily) => f.slug == slug)
  }

  /** `getCategoryBySlug`: undefined when the family is. */
  function CategoryBySlug(families: seq<ProductFamily>, familySlug: string, categorySlug: string): (r: Option<ProductCategory>)
    ensures FamilyBySlug(families, familySlug).None? ==> r.None?
    ensures r.Some? ==> r.value.slug == categorySlug && r.value in FamilyBySlug(families, familySlug).value.categories
    ensures FamilyBySlug(families, familySlug).Some? && r.None? ==>
      forall c | c in FamilyBySlug(families, familySlug).value.categories :: c.slug != categorySlug
    ensures r.Some? ==> var cats := FamilyBySlug(families, familySlug).value.categories;
      exists i | 0 <= i < |cats| :: cats[i] == r.value && forall j | 0 <= j < i :: cats[j].slug != categorySlug
  {
    match FamilyBySlug(families, familySlug)
    case None => None
    case Some(f) => Find(f.categories, (c: ProductCategory) => c.slug == categorySlug)
  }

  /** `getProductBySku`: undefined when the category is. */
  function ProductBySku(families: seq<ProductFamily>, familySlug: string, categorySlug: string, sku: string): (r: Option<FinishedProduct>)
    ensures CategoryBySlug(families, familySlug, categorySlug).None? ==> r.None?
    ensures r.Some? ==> r.value.skuCode == sku && r.value in CategoryBySlug(families, familySlug, categorySlug).value.products
    ensures CategoryBySlug(families, familySlug, categorySlug).Some? && r.None? ==>
      forall p | p in CategoryBySlug(families, familySlug, categorySlug).value.products :: p.skuCode != sku
    ensures r.Some? ==> var ps := CategoryBySlug(families, familySlug, categorySlug).value.products;
      exists i | 0 <= i < |ps| :: ps[i] == r.value && forall j | 0 <= j < i :: ps[j].skuCode != sku
  {
    match CategoryBySlug(families, familySlug, categorySlug)
    case None => None
    case Some(c) => Find(c.products, (p: FinishedProduct) => p.skuCode == sku)
  }

  /** `getRawMaterialByCode`. */
  function RawMaterialByCode(items: seq<RawMaterial>, code: string): (r: Option<RawMaterial>)
    ensures r.None? <==> forall i | 0 <= i < |items| :: items[i].code != code
    ensures r.Some? ==> r.value.code == code
    ensures r.Some? ==> exists i | 0 <= i < |items| ::
      items[i] == r.value && forall j | 0 <= j < i :: items[j].code != code
  {
    Find(items, (m: RawMaterial) => m.code == code)
  }

  // ---------------------------------------------------------------------------
  // getUniqueValues
  // ---------------------------------------------------------------------------

  /** `item[field]` for the string-valued properties of a raw material; `None` for anything else. */
  function Field(m: RawMaterial, field: string): Option<string> {
    if field == "code" then Some(m.code)
    else if field == "name" then Some(m.name)
    else if field == "cas" then Some(m.cas)
    else if field == "transport_name" then Some(m.transportName)
    else if field == "functional_category" then Some(m.functionalCategory)
    else if field == "chemical_family" then Some(m.chemicalFamily)
    else if field == "disposition" then Some(m.disposition)
    else if field == "provider" then m.provider
    else if field == "provider_code" then m.providerCode
    else if field == "lead_time_days" then m.leadTimeDays
    else if field == "tds_file_id" then m.tds.fileId
    else if field == "sds_file_id" then m.sds.fileId
    else if field == "coa_cedis_file_id" then m.coaCedis.fileId
    else if field == "coa_branches_file_id" then m.coaBranches.fileId
    else if field == "label_file_id" then m.labelDoc.fileId
    else if field == "tds_view_url" then m.tds.viewUrl
    else if field == "tds_download_url" then m.tds.downloadUrl
    else if field == "sds_view_url" then m.sds.viewUrl
    else if field == "sds_download_url" then m.sds.downloadUrl
    else if field == "coa_cedis_view_url" then m.coaCedis.viewUrl
    else if field == "coa_cedis_download_url" then m.coaCedis.downloadUrl
    else if field == "coa_branches_view_url" then m.coaBranches.viewUrl
    else if field == "coa_branches_download_url" then m.coaBranches.downloadUrl
    else if field == "label_view_url" then m.labelDoc.viewUrl
    else if field == "label_download_url" then m.labelDoc.downloadUrl
    else None
  }

  /** Strictly increasing in code-point order, hence without repeats. */
  predicate StrictlySorted(s: seq<string>) {
    forall i, j | 0 <= i < j < |s| :: Below(s[i], s[j])
  }

  /** A strictly sorted list has no value twice. */
  lemma SortedDistinct(s: seq<string>)
    requires StrictlySorted(s)
    ensures forall i, j | 0 <= i < j < |s| :: s[i] != s[j]
  {
    forall i, j | 0 <= i < j < |s| ensures s[i] != s[j] {
      if s[i] == s[j] { BelowIrreflexive(s[i]); }
    }
  }

  /** `v` inserted at its place in a sorted list. */
  function Insert(s: seq<string>, v: string): (r: seq<string>)
    ensures |r| == |s| + 1
    ensures forall x :: x in r <==> x in s || x == v
  {
    if s == [] then [v]
    else if Below(v, s[0]) then [v] + s
    else [s[0]] + Insert(s[1..], v)
  }

  /** Inserting a new value keeps the list strictly sorted. */
  lemma {:induction false} InsertSorted(s: seq<string>, v: string)
    requires StrictlySorted(s) && v !in s
    ensures StrictlySorted(Insert(s, v))
  {
    if s != [] {
      if Below(v, s[0]) {
        forall j | 1 <= j < |s| ensures Below(v, s[j]) {
          BelowTransitive(v, s[0], s[j]);
        }
      } else {
        BelowTotal(v, s[0]);
        InsertSorted(s[1..], v);
        var r := Insert(s, v);
        assert r == [s[0]] + Insert(s[1..], v);
        forall j | 1 <= j < |r| ensures Below(s[0], r[j]) {
          assert r[j] in Insert(s[1..], v);
        }
      }
    }
  }

  /**
   * `getUniqueValues`: a `Set` of the field's non-empty string values,
   * then sorted. The result is strictly sorted and holds exactly those values.
   */
  method UniqueValues(items: seq<RawMaterial>, field: string) returns (r: seq<string>)
    ensures StrictlySorted(r)
    ensures forall v :: v in r <==> exists i | 0 <= i < |items| :: Field(items[i], field) == Some(v) && v != ""
  {
    var values: set<string> := {};
    var i := 0;
    while i < |items|
      invariant 0 <= i <= |items|
      invariant forall v :: v in values <==> exists k | 0 <= k < i :: Field(items[k], field) == Some(v) && v != ""
    {
      var value := Field(items[i], field);
      if value.Some? && value.value != "" {
        values := values + {value.value};
      }
      i := i + 1;
    }
    r := [];
    var rest := values;
    while rest != {}
      invariant rest <= values
      invariant StrictlySorted(r)
      invariant forall v :: v in r <==> v in values && v !in rest
      decreases |rest|
    {
      var v :| v in rest;
      InsertSorted(r, v);
      r := Insert(r, v);
      rest := rest - {v};
    }
  }
}
