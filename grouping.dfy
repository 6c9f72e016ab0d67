/**
 * The family/category grouping of `processFinishedProducts` in
 * `scripts/build-data.mjs`: a `Map` from family slug to a bucket holding a
 * `Map` from category slug to a bucket of products, both in insertion order,
 * then converted to arrays with counts.
 */
module Grouping {
  import opened Wrappers
  import opened Types
  import opened Seqs

  /** A category entry of the inner map, before its count is attached. */
  datatype CategoryBucket = CategoryBucket(
    name: string,
    slug: string,
    family: string,
    familySlug: string,
    products: seq<FinishedProduct>)

  /** A family entry of the outer map. */
  datatype FamilyBucket = FamilyBucket(name: string, slug: string, categories: seq<CategoryBucket>)

  /** The keys of the inner map, in insertion order. */
  function CategoryKeys(cats: seq<CategoryBucket>): (ks: seq<string>)
    ensures |ks| == |cats| && forall i | 0 <= i < |cats| :: ks[i] == cats[i].slug
  {
    seq(|cats|, i requires 0 <= i < |cats| => cats[i].slug)
  }

  /** The keys of the outer map, in insertion order. */
  function FamilyKeys(fams: seq<FamilyBucket>): (ks: seq<string>)
    ensures |ks| == |fams| && forall i | 0 <= i < |fams| :: ks[i] == fams[i].slug
  {
    seq(|fams|, i requires 0 <= i < |fams| => fams[i].slug)
  }

  /** One product into the inner map: a new bucket named after it when its category slug is new, then push. */
  function AddToCategories(cats: seq<CategoryBucket>, p: FinishedProduct): seq<CategoryBucket> {
    match IndexOf(CategoryKeys(cats), p.categorySlug)
    case None => cats + [CategoryBucket(p.category, p.categorySlug, p.family, p.familySlug, [p])]
    case Some(k) => cats[k := cats[k].(products := cats[k].products + [p])]
  }

  /** One product into the outer map: a new family bucket when its family slug is new, then into that family's categories. */
  function AddProduct(fams: seq<FamilyBucket>, p: FinishedProduct): seq<FamilyBucket> {
    match IndexOf(FamilyKeys(fams), p.familySlug)
    case None => fams + [FamilyBucket(p.family, p.familySlug, AddToCategories([], p))]
    case Some(k) => fams[k := fams[k].(categories := AddToCategories(fams[k].categories, p))]
  }

  /** The maps after the `forEach` over the products, in order. */
  function Group(ps: seq<FinishedProduct>): seq<FamilyBucket> {
    if ps == [] then [] else AddProduct(Group(ps[..|ps| - 1]), ps[|ps| - 1])
  }

  /**
   * The record loop: look the family slug up (`has`/`get`), create the bucket
   * if missing (`set`), do the same for the category, and push the product.
   */
  method GroupProducts(ps: seq<FinishedProduct>) returns (fams: seq<FamilyBucket>)
    ensures fams == Group(ps)
  {
    fams := [];
    var i := 0;
    while i < |ps|
      invariant 0 <= i <= |ps|
      invariant GroupedUpTo(ps, i, fams)
    {
      ghost var before := fams;
      fams := PushProduct(fams, ps[i]);
      GroupStep(ps, i, before, fams);
      i := i + 1;
    }
    assert ps[..|ps|] == ps;
  }

  /** One pass of the record loop: the family bucket, created if missing, gets the product. */
  method PushProduct(fams: seq<FamilyBucket>, p: FinishedProduct) returns (r: seq<FamilyBucket>)
    ensures r == AddProduct(fams, p)
  {
    r := fams;
    var k := IndexOf(FamilyKeys(r), p.familySlug);
    if k.None? {
      r := r + [FamilyBucket(p.family, p.familySlug, [])];
      k := Some(|r| - 1);
    }
    var cats := PushToCategories(r[k.value].categories, p);
    r := r[k.value := r[k.value].(categories := cats)];
  }

  /** The inner half of the loop: the category bucket, created if missing, gets the product pushed. */
  method PushToCategories(cats: seq<CategoryBucket>, p: FinishedProduct) returns (r: seq<CategoryBucket>)
    ensures r == AddToCategories(cats, p)
  {
    r := cats;
    var c := IndexOf(CategoryKeys(r), p.categorySlug);
    ghost var found := c;
    if c.None? {
      r := r + [CategoryBucket(p.category, p.categorySlug, p.family, p.familySlug, [])];
      c := Some(|r| - 1);
    }
    var bucket := r[c.value];
    bucket := bucket.(products := bucket.products + [p]);
    if found.None? {
      assert bucket.products == [] + [p] == [p];
      assert r[..c.value] == cats;
    }
    r := r[c.value := bucket];
  }

  /** `fams` is the grouping of the first `i` products. */
  ghost predicate GroupedUpTo(ps: seq<FinishedProduct>, i: nat, fams: seq<FamilyBucket>) {
    i <= |ps| && fams == Group(ps[..i])
  }

  /** The grouping of one more product adds that product to the earlier grouping. */
  lemma GroupStep(ps: seq<FinishedProduct>, i: nat, before: seq<FamilyBucket>, after: seq<FamilyBucket>)
    requires i < |ps| && GroupedUpTo(ps, i, before) && after == AddProduct(before, ps[i])
    ensures GroupedUpTo(ps, i + 1, after)
  {
    assert ps[..i + 1][..i] == ps[..i];
  }

  // ---------------------------------------------------------------------------
  // What the grouping promises
  // ---------------------------------------------------------------------------

  /** The products of category `cs`, or none when there is no such bucket. */
  function CategoryProducts(cats: seq<CategoryBucket>, cs: string): seq<FinishedProduct> {
    match IndexOf(CategoryKeys(cats), cs)
    case None => []
    case Some(k) => cats[k].products
  }

  /** The products of category `cs` of family `fs`, or none when there is no such bucket. */
  function BucketProducts(fams: seq<FamilyBucket>, fs: string, cs: string): seq<FinishedProduct> {
    match IndexOf(FamilyKeys(fams), fs)
    case None => []
    case Some(k) => CategoryProducts(fams[k].categories, cs)
  }

  /** The products carrying both slugs, in their original order. */
  function Select(ps: seq<FinishedProduct>, fs: string, cs: string): (r: seq<FinishedProduct>)
    ensures forall q | q in r :: q in ps && q.familySlug == fs && q.categorySlug == cs
  {
    if ps == [] then []
    else
      var last := ps[|ps| - 1];
      Select(ps[..|ps| - 1], fs, cs) + (if last.familySlug == fs && last.categorySlug == cs then [last] else [])
  }

  lemma CategoryKeysAppend(cats: seq<CategoryBucket>, b: CategoryBucket)
    ensures CategoryKeys(cats + [b]) == CategoryKeys(cats) + [b.slug]
  {
  }

  lemma FamilyKeysAppend(fams: seq<FamilyBucket>, b: FamilyBucket)
    ensures FamilyKeys(fams + [b]) == FamilyKeys(fams) + [b.slug]
  {
  }

  /** Adding a product appends it to its own category's products and leaves every other category as it was. */
  lemma AddToCategoriesProducts(cats: seq<CategoryBucket>, p: FinishedProduct, cs: string)
    ensures CategoryProducts(AddToCategories(cats, p), cs)
      == CategoryProducts(cats, cs) + (if p.categorySlug == cs then [p] else [])
  {
    var keys := CategoryKeys(cats);
    match IndexOf(keys, p.categorySlug)
    case None =>
      var b := CategoryBucket(p.category, p.categorySlug, p.family, p.familySlug, [p]);
      CategoryKeysAppend(cats, b);
      IndexOfAppend(keys, p.categorySlug, cs);
    case Some(k0) =>
      var r := AddToCategories(cats, p);
      assert CategoryKeys(r) == keys;
  }

  /** The same one level up: only the product's own (family, category) bucket grows, by that product. */
  lemma AddProductProducts(fams: seq<FamilyBucket>, p: FinishedProduct, fs: string, cs: string)
    ensures BucketProducts(AddProduct(fams, p), fs, cs)
      == BucketProducts(fams, fs, cs) + (if p.familySlug == fs && p.categorySlug == cs then [p] else [])
  {
    var keys := FamilyKeys(fams);
    match IndexOf(keys, p.familySlug)
    case None =>
      var b := FamilyBucket(p.family, p.familySlug, AddToCategories([], p));
      FamilyKeysAppend(fams, b);
      IndexOfAppend(keys, p.familySlug, fs);
      AddToCategoriesProducts([], p, cs);
    case Some(k0) =>
      var r := AddProduct(fams, p);
      assert FamilyKeys(r) == keys;
      AddToCategoriesProducts(fams[k0].categories, p, cs);
  }

  /**
   * Every product lands in exactly the bucket of its two slugs, and each
   * bucket holds its products in record order.
   */
  lemma {:induction false} GroupSelect(ps: seq<FinishedProduct>, fs: string, cs: string)
    ensures BucketProducts(Group(ps), fs, cs) == Select(ps, fs, cs)
  {
    if ps != [] {
      GroupSelect(ps[..|ps| - 1], fs, cs);
      AddProductProducts(Group(ps[..|ps| - 1]), ps[|ps| - 1], fs, cs);
    }
  }

  /** Both maps are keyed: no family slug twice, no category slug twice within a family. */
  predicate Keyed(fams: seq<FamilyBucket>) {
    && Distinct(FamilyKeys(fams))
    && forall i | 0 <= i < |fams| :: Distinct(CategoryKeys(fams[i].categories))
  }

  lemma AddToCategoriesKeyed(cats: seq<CategoryBucket>, p: FinishedProduct)
    requires Distinct(CategoryKeys(cats))
    ensures Distinct(CategoryKeys(AddToCategories(cats, p)))
  {
    var keys := CategoryKeys(cats);
    match IndexOf(keys, p.categorySlug)
    case None =>
      CategoryKeysAppend(cats, CategoryBucket(p.category, p.categorySlug, p.family, p.familySlug, [p]));
    case Some(k0) =>
      assert CategoryKeys(AddToCategories(cats, p)) == keys;
  }

  lemma AddProductKeyed(fams: seq<FamilyBucket>, p: FinishedProduct)
    requires Keyed(fams)
    ensures Keyed(AddProduct(fams, p))
  {
    var keys := FamilyKeys(fams);
    match IndexOf(keys, p.familySlug)
    case None =>
      AddToCategoriesKeyed([], p);
      FamilyKeysAppend(fams, FamilyBucket(p.family, p.familySlug, AddToCategories([], p)));
    case Some(k0) =>
      AddToCategoriesKeyed(fams[k0].categories, p);
      assert FamilyKeys(AddProduct(fams, p)) == keys;
  }

  /** The grouping never produces two families with one slug, nor two categories with one slug in a family. */
  lemma {:induction false} GroupKeyed(ps: seq<FinishedProduct>)
    ensures Keyed(Group(ps))
  {
    if ps != [] {
      GroupKeyed(ps[..|ps| - 1]);
      AddProductKeyed(Group(ps[..|ps| - 1]), ps[|ps| - 1]);
    }
  }

  /** `cat.products.length`. */
  function CategorySize(c: CategoryBucket): int {
    |c.products|
  }

  /** The family's total: the sum of its categories' sizes. */
  function FamilySize(f: FamilyBucket): int {
    Sum(f.categories, CategorySize)
  }

  lemma AddToCategoriesSize(cats: seq<CategoryBucket>, p: FinishedProduct)
    ensures Sum(AddToCategories(cats, p), CategorySize) == Sum(cats, CategorySize) + 1
  {
    match IndexOf(CategoryKeys(cats), p.categorySlug)
    case None =>
      SumAppend(cats, CategoryBucket(p.category, p.categorySlug, p.family, p.familySlug, [p]), CategorySize);
    case Some(k) =>
      SumUpdate(cats, k, cats[k].(products := cats[k].products + [p]), CategorySize);
  }

  lemma AddProductSize(fams: seq<FamilyBucket>, p: FinishedProduct)
    ensures Sum(AddProduct(fams, p), FamilySize) == Sum(fams, FamilySize) + 1
  {
    match IndexOf(FamilyKeys(fams), p.familySlug)
    case None =>
      AddToCategoriesSize([], p);
      SumAppend(fams, FamilyBucket(p.family, p.familySlug, AddToCategories([], p)), FamilySize);
    case Some(k) =>
      AddToCategoriesSize(fams[k].categories, p);
      SumUpdate(fams, k, fams[k].(categories := AddToCategories(fams[k].categories, p)), FamilySize);
  }

  /** No product is lost or duplicated: the families' sizes add up to the number of products. */
  lemma {:induction false} GroupTotal(ps: seq<FinishedProduct>)
    ensures Sum(Group(ps), FamilySize) == |ps|
  {
    if ps != [] {
      GroupTotal(ps[..|ps| - 1]);
      AddProductSize(Group(ps[..|ps| - 1]), ps[|ps| - 1]);
    }
  }

  // ---------------------------------------------------------------------------
  // Labels: each bucket is named by the record that created it
  // ---------------------------------------------------------------------------

  /** The name of family bucket `fs`, if there is one. */
  function FamilyName(fams: seq<FamilyBucket>, fs: string): Option<string> {
    match IndexOf(FamilyKeys(fams), fs)
    case None => None
    case Some(k) => Some(fams[k].name)
  }

  /** The family of the first product with family slug `fs`, if any. */
  function FirstFamily(ps: seq<FinishedProduct>, fs: string): Option<string> {
    if ps == [] then None
    else
      var earlier := FirstFamily(ps[..|ps| - 1], fs);
      if earlier.Some? then earlier
      else if ps[|ps| - 1].familySlug == fs then Some(ps[|ps| - 1].family)
      else None
  }

  lemma AddProductFamilyName(fams: seq<FamilyBucket>, p: FinishedProduct, fs: string)
    ensures FamilyName(AddProduct(fams, p), fs) ==
      if FamilyName(fams, fs).Some? then FamilyName(fams, fs)
      else if p.familySlug == fs then Some(p.family)
      else None
  {
    var keys := FamilyKeys(fams);
    match IndexOf(keys, p.familySlug)
    case None =>
      FamilyKeysAppend(fams, FamilyBucket(p.family, p.familySlug, AddToCategories([], p)));
      IndexOfAppend(keys, p.familySlug, fs);
    case Some(k0) =>
      assert FamilyKeys(AddProduct(fams, p)) == keys;
  }

  /**
   * A family bucket exists exactly for the family slugs that occur, and it
   * carries the family name of the first product with that slug (later rows
   * spelling the family differently do not rename it).
   */
  lemma {:induction false} GroupFamilyName(ps: seq<FinishedProduct>, fs: string)
    ensures FamilyName(Group(ps), fs) == FirstFamily(ps, fs)
  {
    if ps != [] {
      GroupFamilyName(ps[..|ps| - 1], fs);
      AddProductFamilyName(Group(ps[..|ps| - 1]), ps[|ps| - 1], fs);
    }
  }

  /** The (name, family) labels of category bucket `cs` of family `fs`, if there is one. */
  function CategoryLabel(fams: seq<FamilyBucket>, fs: string, cs: string): Option<(string, string)> {
    match IndexOf(FamilyKeys(fams), fs)
    case None => None
    case Some(k) =>
      match IndexOf(CategoryKeys(fams[k].categories), cs)
      case None => None
      case Some(c) => Some((fams[k].categories[c].name, fams[k].categories[c].family))
  }

  /** The (category, family) of the first product with both slugs, if any. */
  function FirstCategory(ps: seq<FinishedProduct>, fs: string, cs: string): Option<(string, string)> {
    if ps == [] then None
    else
      var earlier := FirstCategory(ps[..|ps| - 1], fs, cs);
      var last := ps[|ps| - 1];
      if earlier.Some? then earlier
      else if last.familySlug == fs && last.categorySlug == cs then Some((last.category, last.family))
      else None
  }

  lemma AddToCategoriesLabel(cats: seq<CategoryBucket>, p: FinishedProduct, cs: string)
    ensures var r := AddToCategories(cats, p);
      match IndexOf(CategoryKeys(r), cs)
      case None => IndexOf(CategoryKeys(cats), cs).None? && p.categorySlug != cs
      case Some(c) =>
        match IndexOf(CategoryKeys(cats), cs)
        case Some(c0) => c == c0 && r[c].name == cats[c0].name && r[c].family == cats[c0].family
        case None => p.categorySlug == cs && r[c].name == p.category && r[c].family == p.family
  {
    var keys := CategoryKeys(cats);
    match IndexOf(keys, p.categorySlug)
    case None =>
      CategoryKeysAppend(cats, CategoryBucket(p.category, p.categorySlug, p.family, p.familySlug, [p]));
      IndexOfAppend(keys, p.categorySlug, cs);
    case Some(k0) =>
      assert CategoryKeys(AddToCategories(cats, p)) == keys;
  }

  lemma AddProductCategoryLabel(fams: seq<FamilyBucket>, p: FinishedProduct, fs: string, cs: string)
    ensures CategoryLabel(AddProduct(fams, p), fs, cs) ==
      if CategoryLabel(fams, fs, cs).Some? then CategoryLabel(fams, fs, cs)
      else if p.familySlug == fs && p.categorySlug == cs then Some((p.category, p.family))
      else None
  {
    var keys := FamilyKeys(fams);
    match IndexOf(keys, p.familySlug)
    case None =>
      FamilyKeysAppend(fams, FamilyBucket(p.family, p.familySlug, AddToCategories([], p)));
      IndexOfAppend(keys, p.familySlug, fs);
      AddToCategoriesLabel([], p, cs);
    case Some(k0) =>
      assert FamilyKeys(AddProduct(fams, p)) == keys;
      AddToCategoriesLabel(fams[k0].categories, p, cs);
  }

  /**
   * A category bucket carries the category and the family spelling of the
   * first product with its two slugs, which need not be the family bucket's
   * own name when rows spell the family differently.
   */
  lemma {:induction false} GroupCategoryLabel(ps: seq<FinishedProduct>, fs: string, cs: string)
    ensures CategoryLabel(Group(ps), fs, cs) == FirstCategory(ps, fs, cs)
  {
    if ps != [] {
      GroupCategoryLabel(ps[..|ps| - 1], fs, cs);
      AddProductCategoryLabel(Group(ps[..|ps| - 1]), ps[|ps| - 1], fs, cs);
    }
  }

  // ---------------------------------------------------------------------------
  // Conversion to arrays
  // ---------------------------------------------------------------------------

  /** `{...cat, count: cat.products.length}`. */
  function ToCategory(c: CategoryBucket): (r: ProductCategory)
    ensures r.count == |r.products| && r.products == c.products
  {
    ProductCategory(c.name, c.slug, c.family, c.familySlug, c.products, |c.products|)
  }

  /** One family: its categories with counts, and the sum of their product counts. */
  function ToFamily(f: FamilyBucket): (r: ProductFamily)
    ensures r.name == f.name && r.slug == f.slug && |r.categories| == |f.categories|
    ensures forall i | 0 <= i < |f.categories| :: r.categories[i] == ToCategory(f.categories[i])
    ensures r.count == Sum(r.categories, CategoryCount) == FamilySize(f)
  {
    var cats := seq(|f.categories|, i requires 0 <= i < |f.categories| => ToCategory(f.categories[i]));
    SumPointwise(f.categories, CategorySize, cats, CategoryCount);
    ProductFamily(f.name, f.slug, cats, Sum(f.categories, CategorySize))
  }

  /** `Array.from(familyMap.values()).map(...)`. */
  function ToFamilies(fams: seq<FamilyBucket>): (r: seq<ProductFamily>)
    ensures |r| == |fams| && forall i | 0 <= i < |fams| :: r[i] == ToFamily(fams[i])
    ensures Sum(r, FamilyCount) == Sum(fams, FamilySize)
  {
    var r := seq(|fams|, i requires 0 <= i < |fams| => ToFamily(fams[i]));
    SumPointwise(fams, FamilySize, r, FamilyCount);
    r
  }
}
