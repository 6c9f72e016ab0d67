/**
 * The catalog's entities as declared in `lib/types.ts`. Optional properties
 * are `Option`s; the document columns of each entity are grouped per document.
 */
module Types {
  import opened Wrappers

  /** One document reference: the sheet's file id and the two links derived from it. */
  datatype DocRef = DocRef(fileId: Option<string>, viewUrl: Option<string>, downloadUrl: Option<string>)

  /** A raw material (materia prima). */
  datatype RawMaterial = RawMaterial(
    code: string,
    name: string,
    cas: string,
    transportName: string,
    functionalCategory: string,
    chemicalFamily: string,
    disposition: string,
    provider: Option<string>,
    providerCode: Option<string>,
    leadTimeDays: Option<string>,
    tds: DocRef,
    sds: DocRef,
    coaCedis: DocRef,
    coaBranches: DocRef,
    labelDoc: DocRef)

  /** A finished product (producto terminado), stamped with its family and category. */
  datatype FinishedProduct = FinishedProduct(
    family: string,
    familySlug: string,
    category: string,
    categorySlug: string,
    skuCode: string,
    baseProduct: string,
    variant: string,
    status: string,
    updatedAt: string,
    tds: DocRef,
    sds: DocRef,
    internalQc: DocRef,
    labelDoc: DocRef)

  /** A category of a family, with its products and their count. */
  datatype ProductCategory = ProductCategory(
    name: string,
    slug: string,
    family: string,
    familySlug: string,
    products: seq<FinishedProduct>,
    count: int)

  /** A product family with its categories and the total of their counts. */
  datatype ProductFamily = ProductFamily(
    name: string,
    slug: string,
    categories: seq<ProductCategory>,
    count: int)

  /** A category's `count`, as a weight for sums over categories. */
  function CategoryCount(c: ProductCategory): int {
    c.count
  }

  /** A family's `count`, as a weight for sums over families. */
  function FamilyCount(f: ProductFamily): int {
    f.count
  }

  /** The generated `raw-materials.json`. */
  datatype RawMaterialsData = RawMaterialsData(items: seq<RawMaterial>, count: int, lastUpdated: string)

  /** The generated `finished-products.json`. */
  datatype FinishedProductsData = FinishedProductsData(families: seq<ProductFamily>, count: int, lastUpdated: string)
}

/**
 * A JavaScript object with string keys: an association list in insertion
 * order, as `Object.keys`, `Object.entries` and object spread see it.
 */
module Objects {
  import opened Wrappers

  type Object<V> = seq<(string, V)>

  /** `Object.keys`. */
  function Keys<V>(o: Object<V>): (ks: seq<string>)
    ensures |ks| == |o| && forall i | 0 <= i < |o| :: ks[i] == o[i].0
  {
    if o == [] then [] else [o[0].0] + Keys(o[1..])
  }

  /** Each key occurs once, as in every JavaScript object. */
  predicate DistinctKeys<V>(o: Object<V>) {
    forall i, j | 0 <= i < j < |o| :: o[i].0 != o[j].0
  }

  /** `o[k]`: the value stored under `k`, or `None` for `undefined`. */
  function Get<V>(o: Object<V>, k: string): (r: Option<V>)
    ensures r.None? <==> k !in Keys(o)
    ensures r.Some? ==> exists i | 0 <= i < |o| :: o[i] == (k, r.value)
  {
    if o == [] then None else if o[0].0 == k then Some(o[0].1) else Get(o[1..], k)
  }

  /** `{...o, [k]: v}`: an existing key keeps its place and takes the new value; a new key goes last. */
  function Put<V>(o: Object<V>, k: string, v: V): (r: Object<V>)
    ensures Keys(r) == if k in Keys(o) then Keys(o) else Keys(o) + [k]
  {
    if o == [] then [(k, v)]
    else if o[0].0 == k then [(k, v)] + o[1..]
    else
      var r := [o[0]] + Put(o[1..], k, v);
      assert Keys(r) == [o[0].0] + Keys(Put(o[1..], k, v));
      assert Keys(o) == [o[0].0] + Keys(o[1..]);
      r
  }

  /** After `Put`, `k` reads the new value and every other key reads what it read before. */
  lemma {:induction false} PutGet<V>(o: Object<V>, k: string, v: V, k': string)
    ensures Get(Put(o, k, v), k') == if k' == k then Some(v) else Get(o, k')
  {
    if o != [] && o[0].0 != k {
      PutGet(o[1..], k, v, k');
      assert Put(o, k, v)[1..] == Put(o[1..], k, v);
    }
  }

  /** `Put` keeps the keys distinct. */
  lemma PutDistinct<V>(o: Object<V>, k: string, v: V)
    requires DistinctKeys(o)
    ensures DistinctKeys(Put(o, k, v))
  {
    var r := Put(o, k, v);
    var before, after := Keys(o), Keys(r);
    forall i, j | 0 <= i < j < |r| ensures r[i].0 != r[j].0 {
      assert r[i].0 == after[i] && r[j].0 == after[j];
      if j < |o| {
        assert after[i] == before[i] == o[i].0 && after[j] == before[j] == o[j].0;
      } else {
        assert k !in before && after == before + [k];
        assert after[j] == k && after[i] == before[i];
      }
    }
  }
}
