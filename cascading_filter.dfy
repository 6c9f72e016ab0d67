/**
 * The family → category → product picker of
 * `components/CascadingProductFilter.tsx`. The three selections are state
 * the handlers set; a change of family runs the effect that auto-selects a
 * lone category and clears the product. Navigation is returned as the
 * target path instead of being performed.
 */
module CascadingFilter {
  import opened Wrappers
  import opened Types
  import opened Seqs
  import CatalogData

  class Picker {
    /** The families offered, as passed in by the page. */
    const families: seq<ProductFamily>
    var selectedFamily: Option<ProductFamily>
    var selectedCategory: Option<ProductCategory>
    var selectedProduct: Option<FinishedProduct>

    /**
     * A selected product implies a selected category, which implies a
     * selected family; each selection is one of those offered one level up.
     */
    ghost predicate Valid()
      reads this
    {
      && (selectedFamily.Some? ==> selectedFamily.value in families)
      && (selectedCategory.Some? ==> selectedFamily.Some? && selectedCategory.value in selectedFamily.value.categories)
      && (selectedProduct.Some? ==> selectedCategory.Some? && selectedProduct.value in selectedCategory.value.products)
    }

    /** Nothing is selected at first. */
    constructor(families: seq<ProductFamily>)
      ensures this.families == families
      ensures selectedFamily.None? && selectedCategory.None? && selectedProduct.None?
      ensures Valid()
    {
      this.families := families;
      selectedFamily := None;
      selectedCategory := None;
      selectedProduct := None;
    }

    /** The categories listed in the second step: the selected family's, none before a family is chosen. */
    function OfferedCategories(): (r: seq<ProductCategory>)
      reads this
      ensures selectedFamily.None? ==> r == []
      ensures selectedFamily.Some? ==> r == selectedFamily.value.categories
    {
      if selectedFamily.Some? then selectedFamily.value.categories else []
    }

    /** The products listed in the third step: the selected category's, none before a category is chosen. */
    function OfferedProducts(): (r: seq<FinishedProduct>)
      reads this
      ensures selectedCategory.None? ==> r == []
      ensures selectedCategory.Some? ==> r == selectedCategory.value.products
    {
      if selectedCategory.Some? then selectedCategory.value.products else []
    }

    /** Each step is usable once the one before it has a selection, and only then offers anything. */
    lemma StepsEnabledInOrder()
      requires Valid()
      ensures selectedProduct.Some? ==> selectedCategory.Some? && selectedFamily.Some?
      ensures selectedCategory.Some? ==> selectedCategory.value in OfferedCategories()
      ensures selectedProduct.Some? ==> selectedProduct.value in OfferedProducts()
      ensures selectedFamily.None? ==> OfferedCategories() == [] && OfferedProducts() == []
    {
    }

    /**
     * Choosing the `i`-th family. When it differs from the current one the
     * effect runs: a family with exactly one category has it selected,
     * otherwise the category is cleared, and the product is cleared in both
     * cases. Choosing the current family again changes nothing.
     */
    method SelectFamily(i: nat)
      requires Valid() && i < |families|
      modifies this
      ensures Valid()
      ensures selectedFamily == Some(families[i])
      ensures old(selectedFamily) == Some(families[i]) ==>
        selectedCategory == old(selectedCategory) && selectedProduct == old(selectedProduct)
      ensures old(selectedFamily) != Some(families[i]) ==>
        && selectedProduct.None?
        && selectedCategory == (if |families[i].categories| == 1 then Some(families[i].categories[0]) else None)
    {
      var f := families[i];
      if selectedFamily != Some(f) {
        selectedFamily := Some(f);
        FamilyChanged();
      }
    }

    /** The effect on `selectedFamily`. */
    method FamilyChanged()
      requires selectedFamily.Some? ==> selectedFamily.value in families
      modifies this
      ensures Valid()
      ensures selectedFamily == old(selectedFamily)
      ensures selectedProduct.None?
      ensures selectedCategory ==
        if selectedFamily.Some? && |selectedFamily.value.categories| == 1 then Some(selectedFamily.value.categories[0]) else None
    {
      if selectedFamily.Some? {
        if |selectedFamily.value.categories| == 1 {
          selectedCategory := Some(selectedFamily.value.categories[0]);
        } else {
          selectedCategory := None;
        }
        selectedProduct := None;
      } else {
        selectedCategory := None;
        selectedProduct := None;
      }
    }

    /** Choosing one of the offered categories also clears the product. */
    method ChooseCategory(i: nat)
      requires Valid() && i < |OfferedCategories()|
      modifies this
      ensures Valid()
      ensures selectedFamily == old(selectedFamily)
      ensures selectedCategory == Some(old(OfferedCategories())[i])
      ensures selectedProduct.None?
    {
      selectedCategory := Some(OfferedCategories()[i]);
      selectedProduct := None;
    }

    /** Choosing one of the offered products. */
    method ChooseProduct(i: nat)
      requires Valid() && i < |OfferedProducts()|
      modifies this
      ensures Valid()
      ensures selectedFamily == old(selectedFamily) && selectedCategory == old(selectedCategory)
      ensures selectedProduct == Some(old(OfferedProducts())[i])
    {
      selectedProduct := Some(OfferedProducts()[i]);
    }

    /** `reset`: every selection cleared (the family effect, if it runs, clears the same two again). */
    method Reset()
      modifies this
      ensures Valid()
      ensures selectedFamily.None? && selectedCategory.None? && selectedProduct.None?
    {
      selectedFamily := None;
      selectedCategory := None;
      selectedProduct := None;
    }

    /**
     * `handleGo`: no navigation without a product; otherwise the product's
     * page under its own family and category slugs.
     */
    function HandleGo(basePath: string): (r: Option<string>)
      reads this
      ensures r.None? <==> selectedProduct.None?
      ensures r.Some? ==> r.value == GoTarget(basePath, selectedProduct.value)
    {
      if selectedProduct.Some? then Some(GoTarget(basePath, selectedProduct.value)) else None
    }
  }

  const ProductsPath := "/catalog/finished-products/"

  /** `<basePath>/catalog/finished-products/<family_slug>/<category_slug>/<sku_code>`. */
  function GoTarget(basePath: string, p: FinishedProduct): string {
    basePath + ProductsPath + p.familySlug + "/" + p.categorySlug + "/" + p.skuCode
  }

  /** The family and category slugs are path segments: with no `/` in them the target splits back into them. */
  lemma GoTargetSegments(basePath: string, p: FinishedProduct)
    requires '/' !in p.familySlug && '/' !in p.categorySlug
    ensures var t := GoTarget(basePath, p);
      var rest := t[|basePath + ProductsPath|..];
      && rest[..|p.familySlug|] == p.familySlug && rest[|p.familySlug|] == '/'
      && rest[|p.familySlug| + 1..][..|p.categorySlug|] == p.categorySlug
      && rest[|p.familySlug| + 1 + |p.categorySlug|] == '/'
      && rest[|p.familySlug| + 2 + |p.categorySlug|..] == p.skuCode
  {
    var rest := p.familySlug + "/" + p.categorySlug + "/" + p.skuCode;
    assert GoTarget(basePath, p) == (basePath + ProductsPath) + rest;
    assert GoTarget(basePath, p)[|basePath + ProductsPath|..] == rest;
    assert rest[|p.familySlug| + 1..] == p.categorySlug + "/" + p.skuCode;
  }

  /**
   * The page the target opens finds the product again: when family slugs are
   * distinct, category slugs are distinct within the family, and the product
   * carries the slugs of the family and category it is listed under (as the
   * merged data guarantees for the default categories), the product lookup
   * by those slugs and the SKU returns a product with that SKU, the first
   * such in the category.
   */
  lemma GoTargetResolves(families: seq<ProductFamily>, fam: ProductFamily, cat: ProductCategory, p: FinishedProduct)
    requires fam in families && cat in fam.categories && p in cat.products
    requires forall i, j | 0 <= i < j < |families| :: families[i].slug != families[j].slug
    requires forall i, j | 0 <= i < j < |fam.categories| :: fam.categories[i].slug != fam.categories[j].slug
    requires p.familySlug == fam.slug && p.categorySlug == cat.slug
    ensures CatalogData.FamilyBySlug(families, p.familySlug) == Some(fam)
    ensures CatalogData.CategoryBySlug(families, p.familySlug, p.categorySlug) == Some(cat)
    ensures var found := CatalogData.ProductBySku(families, p.familySlug, p.categorySlug, p.skuCode);
      found.Some? && found.value.skuCode == p.skuCode
  {
    FamilyFound(families, fam);
    CategoryFound(families, fam, cat);
    var pi :| 0 <= pi < |cat.products| && cat.products[pi] == p;
    assert cat.products[pi].skuCode == p.skuCode;
  }

  /** With distinct family slugs, a listed family is the one its slug finds. */
  lemma FamilyFound(families: seq<ProductFamily>, fam: ProductFamily)
    requires fam in families
    requires forall i, j | 0 <= i < j < |families| :: families[i].slug != families[j].slug
    ensures CatalogData.FamilyBySlug(families, fam.slug) == Some(fam)
  {
    var f := CatalogData.FamilyBySlug(families, fam.slug);
    var fi :| 0 <= fi < |families| && families[fi] == fam;
    assert families[fi].slug == fam.slug;
    var k :| 0 <= k < |families| && families[k] == f.value && forall j | 0 <= j < k :: families[j].slug != fam.slug;
    assert k == fi;
  }

  /** With distinct category slugs in the found family, a listed category is the one its slug finds. */
  lemma CategoryFound(families: seq<ProductFamily>, fam: ProductFamily, cat: ProductCategory)
    requires CatalogData.FamilyBySlug(families, fam.slug) == Some(fam) && cat in fam.categories
    requires forall i, j | 0 <= i < j < |fam.categories| :: fam.categories[i].slug != fam.categories[j].slug
    ensures CatalogData.CategoryBySlug(families, fam.slug, cat.slug) == Some(cat)
  {
    var c := CatalogData.CategoryBySlug(families, fam.slug, cat.slug);
    var ci :| 0 <= ci < |fam.categories| && fam.categories[ci] == cat;
    assert fam.categories[ci].slug == cat.slug;
    var m :| 0 <= m < |fam.categories| && fam.categories[m] == c.value && forall j | 0 <= j < m :: fam.categories[j].slug != cat.slug;
    assert m == ci;
  }
}
