/**
 * `processRawMaterials` and `processFinishedProducts` of
 * `scripts/build-data.mjs`: from the parsed sheet rows (one object per row,
 * keyed by header) to the two generated data files, or to the error the
 * build stops with. The clock and `Math.random` are parameters.
 */
module BuildData {
  import opened Wrappers
  import opened Text
  import opened Objects
  import opened Types
  import opened Seqs
  import Utils
  import BuildHelpers
  import opened BuildValidation
  import opened Grouping

  const RawRequired := ["code", "name", "cas", "transport_name", "functional_category", "chemical_family", "disposition"]
  const FinishedRequired := ["family", "category", "base_product", "status"]

  /** `record[k] || ''`. */
  function Cell(r: Object<string>, k: string): string {
    OrText(Get(r, k), "")
  }

  /** A document column: the id as written (or ''), and both links derived from it. */
  function DocFrom(v: Option<string>): (d: DocRef)
    ensures d.fileId == Some(OrText(v, ""))
    ensures d.viewUrl.Some? <==> d.downloadUrl.Some?
    ensures d.viewUrl.Some? <==> v.Some? && !IsBlank(v.value)
    ensures d.viewUrl == Utils.DriveViewUrl(BuildHelpers.ExtractDriveId(v))
    ensures d.downloadUrl == Utils.DriveDownloadUrl(BuildHelpers.ExtractDriveId(v))
  {
    DocRef(Some(OrText(v, "")), BuildHelpers.DriveViewUrl(v), BuildHelpers.DriveDownloadUrl(v))
  }

  // ---------------------------------------------------------------------------
  // Raw materials
  // ---------------------------------------------------------------------------

  /**
   * The certificate column as the sheet may spell it: `coa_cedis_file_id`,
   * or the misspelt `coa_cedis_file_ed` when the first is empty or absent.
   */
  function CoaCedis(r: Object<string>): (v: Option<string>)
    ensures Truthy(Get(r, "coa_cedis_file_id")) ==> v == Get(r, "coa_cedis_file_id")
    ensures !Truthy(Get(r, "coa_cedis_file_id")) ==> v == Get(r, "coa_cedis_file_ed")
  {
    Or(Get(r, "coa_cedis_file_id"), Get(r, "coa_cedis_file_ed"))
  }

  /** One sheet row as a raw material. */
  function ToRawMaterial(r: Object<string>): RawMaterial {
    RawMaterial(
      Get(r, "code").GetOr(""),
      Get(r, "name").GetOr(""),
      Cell(r, "cas"),
      Cell(r, "transport_name"),
      Get(r, "functional_category").GetOr(""),
      Get(r, "chemical_family").GetOr(""),
      Get(r, "disposition").GetOr(""),
      Some(Cell(r, "provider")),
      Some(Cell(r, "provider_code")),
      Some(Cell(r, "lead_time_days")),
      DocFrom(Get(r, "tds_file_id")),
      DocFrom(Get(r, "sds_file_id")),
      DocFrom(CoaCedis(r)),
      DocFrom(Get(r, "coa_branches_file_id")),
      DocFrom(Get(r, "label_file_id")))
  }

  /** `records.map(...)`. */
  function RawItems(records: seq<Object<string>>): (items: seq<RawMaterial>)
    ensures |items| == |records| && forall i | 0 <= i < |records| :: items[i] == ToRawMaterial(records[i])
  {
    seq(|records|, i requires 0 <= i < |records| => ToRawMaterial(records[i]))
  }

  /**
   * `processRawMaterials`: the column check, then the duplicate check on
   * `code`, then one item per row in row order, counted, stamped with `now`.
   * On success no two items share a non-empty code.
   */
  method ProcessRawMaterials(records: seq<Object<string>>, now: string) returns (r: Result<RawMaterialsData, BuildError>)
    ensures ValidateColumns(records, RawRequired, "MP").Fail? ==> r == Err(ValidateColumns(records, RawRequired, "MP").error)
    ensures ValidateColumns(records, RawRequired, "MP").Pass? ==>
      (r.Ok? <==> DuplicateRows(ColumnValues(records, "code")) == [])
    ensures r.Err? && ValidateColumns(records, RawRequired, "MP").Pass? ==>
      r.error == DuplicateValues("code", "MP", DuplicateRows(ColumnValues(records, "code")))
    ensures r.Ok? ==> r.value == RawMaterialsData(RawItems(records), |records|, now)
    ensures r.Ok? ==> forall i, j | 0 <= i < j < |records| ::
      r.value.items[j].code != "" ==> r.value.items[i].code != r.value.items[j].code
  {
    var columns := ValidateColumns(records, RawRequired, "MP");
    if columns.Fail? {
      return Err(columns.error);
    }
    var duplicates := CheckDuplicates(records, "code", "MP");
    if duplicates.Fail? {
      return Err(duplicates.error);
    }
    var items := RawItems(records);
    NoDuplicateCodes(records);
    CodesDistinct(records);
    r := Ok(RawMaterialsData(items, |items|, now));
  }

  /** An empty duplicate report on `code` means the non-empty codes are pairwise distinct. */
  lemma NoDuplicateCodes(records: seq<Object<string>>)
    requires DuplicateRows(ColumnValues(records, "code")) == []
    ensures forall i, j | 0 <= i < j < |records| :: Truthy(Get(records[j], "code")) ==> Get(records[i], "code") != Get(records[j], "code")
  {
    DuplicateRowsEmpty(ColumnValues(records, "code"));
  }

  /** Distinct non-empty codes in the rows give distinct non-empty codes in the items. */
  lemma CodesDistinct(records: seq<Object<string>>)
    requires forall i, j | 0 <= i < j < |records| :: Truthy(Get(records[j], "code")) ==> Get(records[i], "code") != Get(records[j], "code")
    ensures var items := RawItems(records);
      forall i, j | 0 <= i < j < |records| :: items[j].code != "" ==> items[i].code != items[j].code
  {
    var items := RawItems(records);
    forall i, j | 0 <= i < j < |records| && items[j].code != "" ensures items[i].code != items[j].code {
      RawCode(records[i]);
      RawCode(records[j]);
    }
  }

  lemma RawCode(r: Object<string>)
    ensures ToRawMaterial(r).code == Get(r, "code").GetOr("")
  {
  }

  /** The misspelt certificate column is read exactly when the correct one is empty or missing. */
  lemma CoaCedisFallback(r: Object<string>)
    ensures ToRawMaterial(r).coaCedis.fileId ==
      Some(if Truthy(Get(r, "coa_cedis_file_id")) then Cell(r, "coa_cedis_file_id") else Cell(r, "coa_cedis_file_ed"))
  {
  }

  // ---------------------------------------------------------------------------
  // Finished products
  // ---------------------------------------------------------------------------

  /** A row whose non-empty `updated_at` fails `isValidDate`. */
  predicate BadDate(r: Object<string>, dateParses: string -> bool) {
    Truthy(Get(r, "updated_at")) && !BuildHelpers.IsValidDate(Get(r, "updated_at"), dateParses)
  }

  /** The sheet rows (index plus two) with a bad date, in order. */
  function InvalidDateRows(records: seq<Object<string>>, dateParses: string -> bool): (rows: seq<nat>)
    ensures forall n | n in rows :: 2 <= n < |records| + 2 && BadDate(records[n - 2], dateParses)
    ensures forall i | 0 <= i < |records| && BadDate(records[i], dateParses) :: i + 2 in rows
  {
    var bad := r => BadDate(r, dateParses);
    var rows := RowsWhere(records, bad);
    assert forall i | 0 <= i < |records| :: bad(records[i]) == BadDate(records[i], dateParses);
    rows
  }

  /** The rows kept: a base product, and at least one of family, category or SKU. */
  predicate Keep(r: Object<string>) {
    Truthy(Get(r, "base_product"))
    && (Truthy(Get(r, "family")) || Truthy(Get(r, "category")) || Truthy(Get(r, "sku_code")))
  }

  /** `records.filter(...)` with `Keep`, in order. */
  function Kept(records: seq<Object<string>>): (r: seq<Object<string>>)
    ensures |r| <= |records|
    ensures forall q :: q in r <==> q in records && Keep(q)
    ensures IsSubsequence(r, records)
    ensures forall q :: multiset(r)[q] == if Keep(q) then multiset(records)[q] else 0
  {
    if records == [] then []
    else
      var n := |records| - 1;
      var last := records[n];
      var before := Kept(records[..n]);
      FrontLast(records);
      KeptSnoc(records[..n], last, before);
      if Keep(last) then
        SubsequenceAppendBoth(before, records[..n], last);
        before + [last]
      else
        SubsequenceAppendRight(before, records[..n], last);
        before
  }

  /** The rows kept from a prefix, extended by one more row, keep their membership and count laws. */
  lemma KeptSnoc(prefix: seq<Object<string>>, last: Object<string>, before: seq<Object<string>>)
    requires forall q :: q in before <==> q in prefix && Keep(q)
    requires forall q :: multiset(before)[q] == if Keep(q) then multiset(prefix)[q] else 0
    ensures var r := if Keep(last) then before + [last] else before;
      && (forall q :: q in r <==> q in prefix + [last] && Keep(q))
      && (forall q :: multiset(r)[q] == if Keep(q) then multiset(prefix + [last])[q] else 0)
  {
    assert multiset(prefix + [last]) == multiset(prefix) + multiset{last};
    if Keep(last) {
      assert multiset(before + [last]) == multiset(before) + multiset{last};
    }
  }

  /** `{...r, family: r.family || 'General', category: r.category || 'General'}`. */
  function Normalize(r: Object<string>): Object<string> {
    var withFamily := Put(r, "family", OrText(Get(r, "family"), "General"));
    Put(withFamily, "category", OrText(Get(r, "category"), "General"))
  }

  /** Normalizing fills in family and category and leaves every other column alone. */
  lemma NormalizeGet(r: Object<string>, k: string)
    ensures Get(Normalize(r), k) ==
      if k == "family" then Some(OrText(Get(r, "family"), "General"))
      else if k == "category" then Some(OrText(Get(r, "category"), "General"))
      else Get(r, k)
  {
    var withFamily := Put(r, "family", OrText(Get(r, "family"), "General"));
    PutGet(r, "family", OrText(Get(r, "family"), "General"), k);
    PutGet(withFamily, "category", OrText(Get(r, "category"), "General"), k);
  }

  /** One normalized row as a product, `index` being its place among the kept rows. */
  function ToProduct(r: Object<string>, index: nat, today: string, randomSuffix: nat -> string): FinishedProduct {
    FinishedProduct(
      Get(r, "family").GetOr(""),
      BuildHelpers.Slugify(Get(r, "family")),
      Get(r, "category").GetOr(""),
      BuildHelpers.Slugify(Get(r, "category")),
      OrText(Or(Get(r, "sku_code"), Get(r, "code")), "PROD-" + randomSuffix(index)),
      OrText(Get(r, "base_product"), "Sin Nombre"),
      OrText(Or(Get(r, "variant"), Get(r, "base_product")), ""),
      OrText(Get(r, "status"), "Activo"),
      OrText(Get(r, "updated_at"), today),
      DocFrom(Get(r, "tds_file_id")),
      DocFrom(Get(r, "sds_file_id")),
      DocFrom(Get(r, "internal_qc_file_id")),
      DocFrom(Get(r, "label_file_id")))
  }

  /** The products of the kept, normalized rows, in order. */
  function Products(records: seq<Object<string>>, today: string, randomSuffix: nat -> string): (ps: seq<FinishedProduct>)
    ensures |ps| == |Kept(records)|
  {
    var kept := Kept(records);
    seq(|kept|, i requires 0 <= i < |kept| => ToProduct(Normalize(kept[i]), i, today, randomSuffix))
  }

  /**
   * What a product of the build holds: the row's own base product (so the
   * 'Sin Nombre' default never applies), family and category filled in with
   * 'General' and slugged by the build's `slugify`, and a non-empty variant,
   * SKU and status.
   */
  lemma ProductFields(records: seq<Object<string>>, today: string, randomSuffix: nat -> string, i: nat)
    requires i < |Kept(records)|
    ensures var r := Kept(records)[i];
      var p := Products(records, today, randomSuffix)[i];
      && Truthy(Get(r, "base_product")) && p.baseProduct == Get(r, "base_product").value
      && p.family == OrText(Get(r, "family"), "General") && p.family != []
      && p.familySlug == BuildHelpers.Slugify(Some(p.family))
      && p.category == OrText(Get(r, "category"), "General") && p.category != []
      && p.categorySlug == BuildHelpers.Slugify(Some(p.category))
      && p.variant != [] && p.skuCode != [] && p.status != []
  {
    ProductNames(records, today, randomSuffix, i);
    ProductDefaults(records, today, randomSuffix, i);
  }

  /** Family and category of the `i`-th product, from its kept row. */
  lemma ProductNames(records: seq<Object<string>>, today: string, randomSuffix: nat -> string, i: nat)
    requires i < |Kept(records)|
    ensures var r := Kept(records)[i];
      var p := Products(records, today, randomSuffix)[i];
      && p.family == OrText(Get(r, "family"), "General") && p.family != []
      && p.familySlug == BuildHelpers.Slugify(Some(p.family))
      && p.category == OrText(Get(r, "category"), "General") && p.category != []
      && p.categorySlug == BuildHelpers.Slugify(Some(p.category))
  {
    var r := Kept(records)[i];
    KeptRow(records, today, randomSuffix, i);
    NormalizeGet(r, "family");
    NormalizeGet(r, "category");
    RowNames(r, Normalize(r), i, today, randomSuffix);
  }

  /** The `i`-th product comes from the `i`-th kept row, which has a base product. */
  lemma KeptRow(records: seq<Object<string>>, today: string, randomSuffix: nat -> string, i: nat)
    requires i < |Kept(records)|
    ensures Truthy(Get(Kept(records)[i], "base_product"))
    ensures Products(records, today, randomSuffix)[i] == ToProduct(Normalize(Kept(records)[i]), i, today, randomSuffix)
  {
    assert Kept(records)[i] in Kept(records);
  }

  /**
   * The fallbacks of the other columns: the variant falls back to the base
   * product, the SKU to the row's `code` and then to a generated `PROD-` code,
   * the status to 'Activo' and the update date to today.
   */
  lemma ProductDefaults(records: seq<Object<string>>, today: string, randomSuffix: nat -> string, i: nat)
    requires i < |Kept(records)|
    ensures var r := Kept(records)[i];
      var p := Products(records, today, randomSuffix)[i];
      && Truthy(Get(r, "base_product")) && p.baseProduct == Get(r, "base_product").value
      && p.variant == OrText(Or(Get(r, "variant"), Get(r, "base_product")), "")
      && p.status == OrText(Get(r, "status"), "Activo")
      && p.skuCode == OrText(Or(Get(r, "sku_code"), Get(r, "code")), "PROD-" + randomSuffix(i))
      && p.updatedAt == OrText(Get(r, "updated_at"), today)
  {
    var r := Kept(records)[i];
    KeptRow(records, today, randomSuffix, i);
    RowDefaults(r, Normalize(r), i, today, randomSuffix);
  }

  /** Family and category get their 'General' fallback and the build's slugs. */
  lemma RowNames(r: Object<string>, n: Object<string>, i: nat, today: string, randomSuffix: nat -> string)
    requires Get(n, "family") == Some(OrText(Get(r, "family"), "General"))
    requires Get(n, "category") == Some(OrText(Get(r, "category"), "General"))
    ensures var p := ToProduct(n, i, today, randomSuffix);
      && p.family == OrText(Get(r, "family"), "General") && p.family != []
      && p.familySlug == BuildHelpers.Slugify(Some(p.family))
      && p.category == OrText(Get(r, "category"), "General") && p.category != []
      && p.categorySlug == BuildHelpers.Slugify(Some(p.category))
  {
    var p := ToProduct(n, i, today, randomSuffix);
    var family := Get(n, "family");
    var category := Get(n, "category");
    assert p.family == family.value && p.familySlug == BuildHelpers.Slugify(family);
    assert p.category == category.value && p.categorySlug == BuildHelpers.Slugify(category);
  }

  /** The columns `Normalize` leaves alone keep their fallbacks in the product. */
  lemma RowDefaults(r: Object<string>, n: Object<string>, i: nat, today: string, randomSuffix: nat -> string)
    requires Truthy(Get(r, "base_product")) && n == Normalize(r)
    ensures var p := ToProduct(n, i, today, randomSuffix);
      && p.baseProduct == Get(r, "base_product").value
      && p.variant == OrText(Or(Get(r, "variant"), Get(r, "base_product")), "")
      && p.status == OrText(Get(r, "status"), "Activo")
      && p.skuCode == OrText(Or(Get(r, "sku_code"), Get(r, "code")), "PROD-" + randomSuffix(i))
      && p.updatedAt == OrText(Get(r, "updated_at"), today)
  {
    NormalizeGet(r, "base_product");
    NormalizeGet(r, "variant");
    NormalizeGet(r, "sku_code");
    NormalizeGet(r, "code");
    NormalizeGet(r, "status");
    NormalizeGet(r, "updated_at");
  }

  /**
   * `processFinishedProducts`: the column check, then the date check (any bad
   * `updated_at` stops the build), then the kept rows grouped by family and
   * category. The total count is the number of kept rows.
   */
  method ProcessFinishedProducts(
    records: seq<Object<string>>, dateParses: string -> bool, today: string, now: string, randomSuffix: nat -> string)
    returns (r: Result<FinishedProductsData, BuildError>)
    ensures ValidateColumns(records, FinishedRequired, "PT").Fail? ==> r == Err(ValidateColumns(records, FinishedRequired, "PT").error)
    ensures ValidateColumns(records, FinishedRequired, "PT").Pass? ==>
      (r.Ok? <==> forall i | 0 <= i < |records| :: !BadDate(records[i], dateParses))
    ensures r.Err? && ValidateColumns(records, FinishedRequired, "PT").Pass? ==>
      r.error == InvalidDates("PT", InvalidDateRows(records, dateParses))
    ensures r.Ok? ==> r.value.families == ToFamilies(Group(Products(records, today, randomSuffix)))
    ensures r.Ok? ==> r.value.count == |Kept(records)| && r.value.lastUpdated == now
  {
    var columns := ValidateColumns(records, FinishedRequired, "PT");
    if columns.Fail? {
      return Err(columns.error);
    }
    var invalid := InvalidDateRows(records, dateParses);
    if |invalid| > 0 {
      assert invalid[0] in invalid;
      return Err(InvalidDates("PT", invalid));
    }
    assert forall i | 0 <= i < |records| :: !BadDate(records[i], dateParses) by {
      forall i | 0 <= i < |records| ensures !BadDate(records[i], dateParses) {
        assert i + 2 !in invalid;
      }
    }
    var products := Products(records, today, randomSuffix);
    var buckets := GroupProducts(products);
    var families := ToFamilies(buckets);
    GroupTotal(products);
    r := Ok(FinishedProductsData(families, Sum(families, FamilyCount), now));
  }
}
