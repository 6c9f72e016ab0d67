# Product catalog — verified model

A Dafny model of the data pipeline and the small client-side algorithms of a
Next.js product catalog for raw materials (materias primas) and finished
products (productos terminados).

- **The build script** (`scripts/build-data.mjs`) turns two parsed spreadsheets
  into JSON. It checks required columns, duplicate codes and dates, derives
  Google Drive view and download links from whatever file reference a cell
  holds, and groups finished products by family and category slug.
- **The data layer** (`lib/data.ts`) lays the generated families over a fixed
  table of default families and categories. It answers lookups by slug, code
  and SKU, counts, flattens, and lists the distinct values of a raw-material
  field.
- **The client helpers** (`lib/utils.ts`) build Drive links and slugs.
- **The UI algorithms**: the pagination window and row range of the data table,
  the filter popover's toggle and total, the raw-materials page's filter pass
  and disposition badge, and the family → category → product picker.

Modules, one per source file or concern:

- `Wrappers`, `Text`, `Seqs`: `Option`/`Result`, JavaScript string semantics
  (truthiness, `trim`, lower/upper case, `includes`, sort order), sums and
  `find`.
- `Types`, `Objects`: the entities of `lib/types.ts`, and JavaScript objects as
  insertion-ordered association lists.
- `Utils`: `lib/utils.ts`.
- `BuildHelpers`, `BuildValidation`, `Grouping`, `BuildData`: `scripts/build-data.mjs`.
- `CatalogData`: `lib/data.ts`.
- `Pagination`: `components/DataTable.tsx`.
- `FilterPanel`: `components/Filters.tsx`.
- `RawMaterialsPage`: `app/catalog/raw-materials/page.tsx`.
- `CascadingFilter`: `components/CascadingProductFilter.tsx`, a class whose
  three selection fields the handlers update.

The loops of the source are methods proved equal to a specification function:
`CheckDuplicates`, `GroupProducts`, `PushMissing`, `AllFinishedProducts`,
`UniqueValues`, `VisiblePages` and `FilteredData`. What the source promises is
proved about those functions in lemmas.

## Model

| member | source | states |
|---|---|---|
| Utils.DriveViewUrl | lib/utils.ts:12-15 | no link exactly for a missing, empty or white-space id; otherwise the view template with the id spliced in untrimmed |
| Utils.DriveDownloadUrl | lib/utils.ts:17-20 | same rule for missing ids; otherwise the download template with the id |
| Utils.Slugify | lib/utils.ts:22-29 | result is a well-formed slug (only a-z, 0-9 and single inner hyphens); it is the maximal a-z0-9 runs of the folded text joined by single hyphens, so it is empty iff the text has none |
| Utils.Runs | lib/utils.ts:27 | the runs of a-z0-9 characters between gaps: each is non-empty and made of a-z0-9 only, and when the text starts with such a character the first run starts with it |
| Utils.StripHyphenateRuns | lib/utils.ts:27-28 | replacing each gap by a hyphen and trimming hyphens at both ends gives the runs joined by single hyphens |
| Utils.SlugifyIdempotent | lib/utils.ts:22-29 | slugifying a slug changes nothing |
| Utils.SlugifyFixed | lib/utils.ts:22-29 | every well-formed slug is a fixed point |
| Utils.SlugifyNoFallback | lib/utils.ts:22-29 | no fallback: '' and punctuation-only text give '' |
| Utils.SlugifyAccented | lib/utils.ts:22-29 | accents are dropped after NFD ("Línea Auto" gives "linea-auto") |
| Utils.UnslugifyIsRetitle | lib/utils.ts:31-36 | split/capitalize/join is, character by character: every hyphen becomes a space, the first character of each piece is upper-cased, the rest is kept |
| Utils.SlugifyUnslugify | lib/utils.ts:22-36 | for every well-formed slug s, slugify(unslugify(s)) == s |
| BuildHelpers.Slugify | scripts/build-data.mjs:52-68 | never empty and always a well-formed slug; 'general' exactly when the input is missing or has no a-z0-9 after trim and folding; otherwise the client slugify of the trimmed text |
| BuildHelpers.SlugifyIdempotent | scripts/build-data.mjs:52-68 | slugify(slugify(x)) == slugify(x) |
| BuildHelpers.SlugifyBlankFallback | scripts/build-data.mjs:54-56 | missing and white-space-only input fall back to 'general' |
| BuildHelpers.SlugifyPunctuationFallback | scripts/build-data.mjs:58-63 | input whose cleaned result is empty falls back to 'general' |
| BuildHelpers.FirstMarker | scripts/build-data.mjs:80-88 | the leftmost index where a recognizer's regular expression matches, or none anywhere |
| BuildHelpers.IdRun | scripts/build-data.mjs:80-88 | the greedy `[a-zA-Z0-9_-]+` capture: a prefix of id characters ended by a non-id character or the end |
| BuildHelpers.Recognize | scripts/build-data.mjs:80-88 | a captured id is non-empty, made of id characters, and a substring of the text |
| BuildHelpers.ExtractDriveId | scripts/build-data.mjs:73-91 | null exactly for missing or white-space-only input; otherwise a non-blank substring of the input chosen by the first rule that applies: `/file/d/<id>`, a trimmed token without '/' longer than 20 UTF-16 units, `?id=`/`&id=`, else the trimmed input |
| BuildHelpers.CanonicalIdKept | scripts/build-data.mjs:73-91 | a bare id is returned unchanged |
| BuildHelpers.BareTokenKept | scripts/build-data.mjs:84 | a trimmed token with no '/' and length over 20 is returned as is |
| BuildHelpers.DriveViewUrl | scripts/build-data.mjs:96-100 | undefined iff no id is extracted; otherwise the view template around the extracted id |
| BuildHelpers.DriveDownloadUrl | scripts/build-data.mjs:105-109 | undefined iff no id is extracted; otherwise the download template around the extracted id |
| BuildHelpers.ViewUrlRoundTrip | scripts/build-data.mjs:73-100 | extracting from a view link gives back its id |
| BuildHelpers.DownloadUrlRoundTrip | scripts/build-data.mjs:73-109 | extracting from a download link gives back its id |
| BuildHelpers.ExtractedIdStable | scripts/build-data.mjs:73-109 | when the extracted id is made only of id characters (letters, digits, '-' and '_'), the view and download links built from the reference extract back to the same id |
| BuildHelpers.IsValidDate | scripts/build-data.mjs:114-120 | true only for a non-empty value matching the date regex, and then exactly when it parses as a Date |
| BuildHelpers.DocumentedDatesMatch | scripts/build-data.mjs:116 | exact YYYY-MM-DD and exact YYYY values pass the regex |
| BuildHelpers.DateRegexHalfAnchored | scripts/build-data.mjs:116 | each alternative of the regex is anchored on one side only: a timestamp and "15/01/2024" pass, "2024/01/15" does not |
| BuildValidation.Missing | scripts/build-data.mjs:167-168 | the required columns absent from the headers, as a subsequence of the required list (so in required order) |
| BuildValidation.ValidateColumns | scripts/build-data.mjs:161-179 | passes on an empty sheet; otherwise fails iff a required column is missing from the first record's keys, listing exactly the missing columns in required order, and the keys found |
| BuildValidation.DuplicateRowsSound | scripts/build-data.mjs:184-194 | every reported entry is a non-empty value on its row (index+2) that occurred on an earlier row |
| BuildValidation.DuplicateRowsComplete | scripts/build-data.mjs:184-194 | every non-empty value that repeats an earlier row is reported at its row |
| BuildValidation.DuplicateRowsEmpty | scripts/build-data.mjs:184-204 | the report is empty iff the non-empty values are pairwise distinct |
| BuildValidation.CheckDuplicates | scripts/build-data.mjs:184-204 | the set-and-loop pass fails iff the report is non-empty, with exactly that report |
| BuildValidation.DuplicateRowsExample | scripts/build-data.mjs:184-194 | three copies give two entries (rows 3 and 6); empty values are never reported |
| BuildData.DocFrom | scripts/build-data.mjs:231-246 | file id kept as written (or ''); view and download links both present iff the cell is non-blank, built from the extracted id |
| BuildData.CoaCedis | scripts/build-data.mjs:233 | the typo column `coa_cedis_file_ed` is used when `coa_cedis_file_id` is empty |
| BuildData.CoaCedisFallback | scripts/build-data.mjs:233-242 | the material's COA (CEDIS) id comes from the typo column exactly when the real one is empty |
| BuildData.RawItems | scripts/build-data.mjs:219-247 | one item per record, in input order |
| BuildData.ProcessRawMaterials | scripts/build-data.mjs:213-256 | the column error first; then Ok iff no duplicate codes, else the duplicate error; on Ok one item per record, count = number of records, and non-empty codes are unique |
| BuildData.InvalidDateRows | scripts/build-data.mjs:268-274 | a row number is listed iff that row has a non-empty date that fails the check (all rows scanned) |
| BuildData.Kept | scripts/build-data.mjs:283 | a subsequence of the rows; each kept row appears as often as in the input, each other row not at all; a row is kept iff base_product is non-empty and one of family/category/sku_code is |
| BuildData.NormalizeGet | scripts/build-data.mjs:286-290 | a missing family or category becomes 'General'; every other column is unchanged |
| BuildData.Products | scripts/build-data.mjs:301-356 | one product per kept row |
| BuildData.ProductFields | scripts/build-data.mjs:286-356 | each product's base product is the row's own; family/category are the normalized names with their fallback slugs; variant, SKU and status are never empty |
| BuildData.ProductDefaults | scripts/build-data.mjs:329-341 | variant is variant, else base_product; SKU is sku_code, else code, else 'PROD-' and a generated suffix; status is status, else 'Activo'; updated_at is the row's, else today |
| BuildData.ProcessFinishedProducts | scripts/build-data.mjs:261-386 | the column error first; then Ok iff no row has a bad date, else a date error (carrying the warned row numbers); on Ok the grouped families, total count = number of kept rows, and the run's timestamp |
| Grouping.GroupProducts | scripts/build-data.mjs:298-361 | the has/set/get/push loop builds exactly the fold of single-product insertions |
| Grouping.PushProduct | scripts/build-data.mjs:303-356 | one pass of the loop body adds the product exactly as the single-product insertion does: a new family bucket when the family slug is new, then into that family's categories |
| Grouping.PushToCategories | scripts/build-data.mjs:316-356 | the category half of the loop body: a new bucket named after the product when its category slug is new, then the product pushed to that bucket |
| Grouping.AddToCategoriesProducts | scripts/build-data.mjs:316-332 | inserting a product appends it to its own category's list and changes no other list |
| Grouping.AddProductProducts | scripts/build-data.mjs:303-332 | the same one level up, keyed by family slug and category slug |
| Grouping.GroupSelect | scripts/build-data.mjs:298-361 | every kept row lands exactly once, in source order, in the bucket keyed by its (family slug, category slug) |
| Grouping.GroupKeyed | scripts/build-data.mjs:306-324 | family slugs are distinct, and category slugs are distinct within each family |
| Grouping.GroupTotal | scripts/build-data.mjs:298-377 | the buckets hold as many products as there are rows |
| Grouping.GroupFamilyName | scripts/build-data.mjs:306-311 | a family's name comes from the first row with its slug |
| Grouping.GroupCategoryLabel | scripts/build-data.mjs:316-323 | a category's name and family name come from the first row with both slugs |
| Grouping.ToCategory | scripts/build-data.mjs:367-370 | a category's count is its list's length |
| Grouping.ToFamily | scripts/build-data.mjs:364-375 | a family keeps name and slug; its i-th category is the i-th bucket with its count; its count is the sum of its category counts |
| Grouping.ToFamilies | scripts/build-data.mjs:364-377 | the total of the family counts is the total of the bucket sizes |
| CatalogData.ResolveCategory | lib/data.ts:308-328 | products: the same-slug data category's list if one exists, else the default list, else none; count: the data count if non-zero, else the default count if non-zero, else the list's length; the i-th product is the i-th product of the chosen list stamped with the default family's and category's names and slugs |
| CatalogData.PushMissing | lib/data.ts:331-341 | the push loop equals the append of data categories whose slug is not yet present |
| CatalogData.MergeFamilyLoop | lib/data.ts:304-349 | building a family with the loop gives the merged family |
| CatalogData.FinishedProductFamilies | lib/data.ts:301-351 | one family per default family, same order, name and slug, each the merge for that default; each family's count is the sum of its category counts |
| CatalogData.MergeFamilyShape | lib/data.ts:308-343 | the merged family starts with the resolved default categories, and its count is the sum of its category counts |
| CatalogData.AppendMissingPrefix | lib/data.ts:331-341 | the appended categories come after the defaults |
| CatalogData.AppendMissingDistinct | lib/data.ts:331-341 | appended categories are data categories, re-homed to the default family, with slugs not among the defaults; slugs stay distinct |
| CatalogData.MergedSlugsDistinct | lib/data.ts:304-343 | no default category slug is duplicated in a merged family |
| CatalogData.AppendMissingCovers | lib/data.ts:331-341 | a slug is in the result iff it is a default slug or a data category's slug |
| CatalogData.AppendMissingInOrder | lib/data.ts:331-341 | the appended categories are re-homed data categories in data order (a subsequence of the re-homed data list) |
| CatalogData.AppendMissingFirstOfSlug | lib/data.ts:331-341 | each appended category is the re-homed first data category of its slug, and that slug is not a default slug |
| CatalogData.MergeFamilyAppended | lib/data.ts:304-343 | after the resolved defaults, the merged family holds re-homed data categories in data order, each the first data category of its slug and absent from the defaults |
| CatalogData.AllFinishedProducts | lib/data.ts:353-366 | the nested loops list the products in family → category → product order |
| CatalogData.FlattenLength | lib/data.ts:343-371 | the flattened list is as long as the products count whenever category counts are list lengths and family counts their sums |
| CatalogData.CategoriesProductsLength | lib/data.ts:353-366 | a family's product list is as long as the sum of its exact category counts |
| CatalogData.FamilyBySlug | lib/data.ts:373-376 | the first family with the slug, or undefined iff none has it |
| CatalogData.CategoryBySlug | lib/data.ts:378-382 | undefined when the family is or no category has the slug; otherwise the category at the first index holding the slug |
| CatalogData.ProductBySku | lib/data.ts:384-388 | undefined when the category is or no product has the SKU; otherwise the product at the first index holding the SKU |
| CatalogData.RawMaterialByCode | lib/data.ts:292-295 | the first material with the code, or undefined iff none has it |
| CatalogData.InsertSorted | lib/data.ts:398 | inserting a new value keeps a strictly sorted list strictly sorted |
| CatalogData.SortedDistinct | lib/data.ts:390-399 | a strictly sorted list has no repeats |
| CatalogData.UniqueValues | lib/data.ts:390-399 | strictly sorted, and a value is listed iff it is the non-empty value of the field on some item |
| Pagination.VisiblePages | components/DataTable.tsx:50-68 | all pages when at most 7 (none for 0); otherwise 7 entries from page 1 to the last, in the three shapes by current page; numbers strictly increasing and within range; the current page is always shown |
| Pagination.PageCount | components/DataTable.tsx:50 | the smallest number of pages that holds every row |
| Pagination.RangeOfPage | components/DataTable.tsx:150-156 | on an existing page the range is non-empty, within the rows, a full page except the last, and reaches the last row only on the last page |
| Pagination.RangesAdjacent | components/DataTable.tsx:150-156 | consecutive pages show adjacent ranges |
| Pagination.RangeOfEmptyTable | components/DataTable.tsx:150-156 | an empty table shows 0 to 0 |
| FilterPanel.Current | components/Filters.tsx:36 | a category without an entry counts as nothing chosen |
| FilterPanel.RemoveAll | components/Filters.tsx:38 | a subsequence of the selection with every occurrence of the option removed and every other value kept as often as before |
| FilterPanel.Toggle | components/Filters.tsx:37-39 | a chosen option is removed everywhere; an unchosen one is appended at the end |
| FilterPanel.ToggleFlips | components/Filters.tsx:37-39 | after a click the option is chosen iff it was not; other options are unaffected |
| FilterPanel.ToggleTwice | components/Filters.tsx:37-39 | two clicks on an unchosen option restore the list |
| FilterPanel.ToggleOption | components/Filters.tsx:35-41 | reports only the clicked category, with its new list |
| FilterPanel.TotalActiveFilters | components/Filters.tsx:30-33 | the sum of the selection-list lengths, never negative |
| FilterPanel.TotalAfterPut | components/Filters.tsx:30-33 | storing one category's list changes the total by the difference of the lengths |
| FilterPanel.TotalAfterToggle | components/Filters.tsx:30-41 | once stored, choosing an option raises the total by one and dropping it lowers the total |
| RawMaterialsPage.Survivors | app/catalog/raw-materials/page.tsx:190-197 | an item is kept iff every entry with a non-empty list names its field value (AND across keys, OR within a key) |
| RawMaterialsPage.KeepMatchingSurvivors | app/catalog/raw-materials/page.tsx:190-197 | one more filter step yields the survivors of all entries so far |
| RawMaterialsPage.EmptyEntryKeepsAll | app/catalog/raw-materials/page.tsx:192 | an entry with an empty list imposes nothing |
| RawMaterialsPage.FilteredData | app/catalog/raw-materials/page.tsx:182-200 | the search hits for a non-blank query, else all materials, narrowed by the one-pass filter of all entries |
| RawMaterialsPage.SurvivorsOfEmptyLists | app/catalog/raw-materials/page.tsx:182-199 | with only empty lists (and a blank query) every material is shown |
| RawMaterialsPage.SurvivorsInOrder | app/catalog/raw-materials/page.tsx:193-195 | the filter pass returns an order-preserving subsequence |
| RawMaterialsPage.HandleFilterChange | app/catalog/raw-materials/page.tsx:206-208 | only the given category's list changes; a new category is added last |
| RawMaterialsPage.HandleClearFilters | app/catalog/raw-materials/page.tsx:210-212 | no category has an entry, so nothing is filtered out |
| RawMaterialsPage.BadgeFor | app/catalog/raw-materials/page.tsx:72-77 | restricted iff the lower-cased text contains 'restringido'; warning iff it does not but contains 'crítico'; success otherwise |
| RawMaterialsPage.BadgeIgnoresCase | app/catalog/raw-materials/page.tsx:72-74 | the badge does not depend on letter case |
| RawMaterialsPage.RestrictedAnywhere | app/catalog/raw-materials/page.tsx:72-77 | 'Restringido' anywhere wins, whatever else the text says |
| RawMaterialsPage.WarningExample | app/catalog/raw-materials/page.tsx:74-77 | "CRÍTICO" is a warning: the accented capital is lowered too |
| RawMaterialsPage.SuccessExample | app/catalog/raw-materials/page.tsx:76-77 | a text with neither word is a success |
| CascadingFilter.Picker.constructor | components/CascadingProductFilter.tsx:24-26 | nothing selected at first |
| CascadingFilter.Picker.OfferedCategories | components/CascadingProductFilter.tsx:110-135 | the second step offers the selected family's categories, nothing before a family is chosen |
| CascadingFilter.Picker.OfferedProducts | components/CascadingProductFilter.tsx:159-184 | the third step offers the selected category's products, nothing before a category is chosen |
| CascadingFilter.Picker.StepsEnabledInOrder | components/CascadingProductFilter.tsx:110-178 | a product implies a category, which implies a family, and each selection is among those offered |
| CascadingFilter.Picker.SelectFamily | components/CascadingProductFilter.tsx:33-45 | a new family auto-selects its only category or clears the category, and clears the product; the same family again changes nothing |
| CascadingFilter.Picker.FamilyChanged | components/CascadingProductFilter.tsx:33-45 | the effect: lone category selected or category cleared, product cleared, both cleared for no family |
| CascadingFilter.Picker.ChooseCategory | components/CascadingProductFilter.tsx:132-135 | choosing a category also clears the product |
| CascadingFilter.Picker.ChooseProduct | components/CascadingProductFilter.tsx:181-184 | chooses one of the offered products, family and category unchanged |
| CascadingFilter.Picker.Reset | components/CascadingProductFilter.tsx:53-57 | family, category and product all cleared |
| CascadingFilter.Picker.HandleGo | components/CascadingProductFilter.tsx:47-51 | no navigation without a product; otherwise the product's page under its family and category slugs |
| CascadingFilter.GoTargetSegments | components/CascadingProductFilter.tsx:49 | the target ends in family slug, '/', category slug, '/', SKU |
| CascadingFilter.GoTargetResolves | components/CascadingProductFilter.tsx:47-51 | with distinct slugs and a stamped product, the product lookup by the target's segments finds that family, that category and a product with the SKU |

## Left out

- Network, files and process control: fetching the CSVs, writing the JSON, exiting, and console logging. The parsed records are the input.
- CSV parsing. A record is an insertion-ordered list of (column, text) pairs, and a column missing from the record reads as undefined.
- The `Date` constructor in `isValidDate` is the parameter `dateParses`. The `new Date()` timestamps are the parameters `today` and `now`. `Math.random` in the SKU fallback is the parameter `randomSuffix`.
- Unicode: `toLowerCase`, `toUpperCase` and NFD with combining-mark removal are exact for ASCII and Latin-1 only. Other characters are left as they are.
- `getUniqueValues` sorts by code point. JavaScript's `sort()` compares UTF-16 code units, which differs only for characters outside the Basic Multilingual Plane.
- Fuse.js fuzzy search is a library call. Its hits are the parameter `searchHits`, used exactly when the trimmed query is non-empty.
- The table library's sorting and pagination internals, React rendering, popover open flags, `router.push` and `getBasePath`. The page count, page index and base path are parameters, and `PageCount` states the library's rounding-up division.
- CascadingFilter.Picker.SelectFamily: React runs the effect when the family object changes by reference. The model compares families by value, so two distinct but equal family objects count as the same family.
- CascadingFilter.Picker.ChooseCategory and CascadingFilter.Picker.ChooseProduct choose by index among the offered items, because the menus only render those.
- The contents of the default-family table in `lib/data.ts` are data. The table is the parameter `defaults` of `FinishedProductFamilies`, and `FinishedProductFamilies` also takes the generated families as a parameter.
- `getRawMaterials` and `getRawMaterialsCount` only read the generated file and are not modelled.
- BuildData.ProcessFinishedProducts: the script only warns each bad row's number and then throws a fixed message; the model carries those row numbers in the error value instead of in log lines.
- RawMaterialsPage.HandleFilterChange: objects keep plain insertion order. JavaScript lists integer-like keys first, in ascending order, so "a new category is added last" holds only for keys that are not integer-like; every filter key of the page is a column name.
- BuildData.ProductFields: the 'Sin Nombre' default for `base_product` is modelled, but kept rows always have a non-empty `base_product`, so it never applies.
