/**
 * The two checks `scripts/build-data.mjs` runs on the parsed sheet before it
 * builds anything: required columns (read from the first record's headers)
 * and repeated values in one column. A failed check is the error the build
 * aborts with, as a value.
 */
module BuildValidation {
  import opened Wrappers
  import opened Text
  import opened Objects
  import opened Seqs

  /** One repeated value and the sheet row it was found on (header is row 1). */
  datatype Duplicate = Duplicate(value: string, row: nat)

  /** The reasons the build stops. */
  datatype BuildError =
    | MissingColumns(entity: string, missing: seq<string>, found: seq<string>)
    | DuplicateValues(column: string, entity: string, duplicates: seq<Duplicate>)
    | InvalidDates(entity: string, rows: seq<nat>)

  /** The required columns absent from `headers`, in the order they are required. */
  function Missing(required: seq<string>, headers: seq<string>): (r: seq<string>)
    ensures forall c :: c in r <==> c in required && c !in headers
    ensures |r| <= |required|
    ensures IsSubsequence(r, required)
  {
    if required == [] then []
    else if required[0] in headers then Missing(required[1..], headers)
    else
      var rest := Missing(required[1..], headers);
      assert ([required[0]] + rest)[1..] == rest;
      [required[0]] + rest
  }

  /**
   * `validateColumns`: an empty sheet passes; otherwise every required
   * column must be among the first record's keys, and the error lists the
   * missing ones and the keys found.
   */
  function ValidateColumns(records: seq<Object<string>>, required: seq<string>, name: string): (r: Outcome<BuildError>)
    ensures records == [] ==> r.Pass?
    ensures records != [] ==> (r.Pass? <==> forall c | c in required :: c in Keys(records[0]))
    ensures r.Fail? ==>
      && r.error.MissingColumns? && r.error.entity == name
      && r.error.found == Keys(records[0]) && r.error.missing != []
      && r.error.missing == Missing(required, Keys(records[0]))
      && IsSubsequence(r.error.missing, required)
      && forall c :: c in r.error.missing <==> c in required && c !in Keys(records[0])
  {
    if records == [] then Pass
    else
      var headers := Keys(records[0]);
      var missing := Missing(required, headers);
      assert |missing| > 0 ==> missing[0] in missing;
      if |missing| > 0 then Fail(MissingColumns(name, missing, headers)) else Pass
  }

  /** `record[column]` for every record, in row order. */
  function ColumnValues(records: seq<Object<string>>, column: string): (vs: seq<Option<string>>)
    ensures |vs| == |records| && forall i | 0 <= i < |records| :: vs[i] == Get(records[i], column)
  {
    if records == [] then [] else ColumnValues(records[..|records| - 1], column) + [Get(records[|records| - 1], column)]
  }

  /**
   * The duplicate report over a column's values, one entry per row whose
   * value is non-empty and already appeared in an earlier row; the row
   * number is the index plus two (header row and 1-based numbering).
   */
  function DuplicateRows(vs: seq<Option<string>>): seq<Duplicate> {
    if vs == [] then []
    else
      var earlier := vs[..|vs| - 1];
      var v := vs[|vs| - 1];
      if Truthy(v) && v in earlier then DuplicateRows(earlier) + [Duplicate(v.value, |vs| + 1)]
      else DuplicateRows(earlier)
  }

  /** Every entry names a non-empty value at its row that also occurs on an earlier row. */
  lemma {:induction false} DuplicateRowsSound(vs: seq<Option<string>>, d: Duplicate)
    requires d in DuplicateRows(vs)
    ensures 2 <= d.row < |vs| + 2 && d.value != []
    ensures vs[d.row - 2] == Some(d.value) && Some(d.value) in vs[..d.row - 2]
  {
    var earlier := vs[..|vs| - 1];
    if d !in DuplicateRows(earlier) {
      assert d == Duplicate(vs[|vs| - 1].value, |vs| + 1);
    } else {
      DuplicateRowsSound(earlier, d);
      assert earlier[..d.row - 2] == vs[..d.row - 2];
    }
  }

  /** Every non-empty value that repeats an earlier row is reported at its row. */
  lemma {:induction false} DuplicateRowsComplete(vs: seq<Option<string>>, i: nat)
    requires i < |vs| && Truthy(vs[i]) && vs[i] in vs[..i]
    ensures Duplicate(vs[i].value, i + 2) in DuplicateRows(vs)
  {
    var earlier := vs[..|vs| - 1];
    if i < |vs| - 1 {
      assert earlier[..i] == vs[..i];
      DuplicateRowsComplete(earlier, i);
    } else {
      assert earlier == vs[..i];
    }
  }

  /** The report is empty exactly when the non-empty values are pairwise distinct. */
  lemma DuplicateRowsEmpty(vs: seq<Option<string>>)
    ensures DuplicateRows(vs) == [] <==> forall i, j | 0 <= i < j < |vs| :: Truthy(vs[j]) ==> vs[i] != vs[j]
  {
    if DuplicateRows(vs) == [] {
      forall i, j | 0 <= i < j < |vs| && Truthy(vs[j]) ensures vs[i] != vs[j] {
        if vs[i] == vs[j] {
          assert vs[i] == vs[..j][i];
          DuplicateRowsComplete(vs, j);
        }
      }
    } else {
      var d := DuplicateRows(vs)[0];
      DuplicateRowsSound(vs, d);
      var j := d.row - 2;
      var i :| 0 <= i < j && vs[..j][i] == Some(d.value);
      assert vs[i] == vs[j];
    }
  }

  /** The values in `vs`, as a set. */
  ghost function Elements(vs: seq<Option<string>>): set<Option<string>> {
    set v | v in vs
  }

  /** One row of the walk: the values read, the set of values seen and the report, extended by row `i`. */
  lemma WalkStep(records: seq<Object<string>>, column: string, i: nat, seen: set<Option<string>>, duplicates: seq<Duplicate>)
    requires i < |records|
    requires seen == Elements(ColumnValues(records[..i], column))
    requires duplicates == DuplicateRows(ColumnValues(records[..i], column))
    ensures var v := Get(records[i], column);
      && seen + {v} == Elements(ColumnValues(records[..i + 1], column))
      && (if Truthy(v) && v in seen then duplicates + [Duplicate(v.value, i + 2)] else duplicates)
        == DuplicateRows(ColumnValues(records[..i + 1], column))
  {
    ColumnValuesSnoc(records, column, i);
    SeenStep(ColumnValues(records[..i], column), Get(records[i], column), seen, duplicates);
  }

  /** The values of one more row are the earlier values and that row's value. */
  lemma ColumnValuesSnoc(records: seq<Object<string>>, column: string, i: nat)
    requires i < |records|
    ensures ColumnValues(records[..i + 1], column) == ColumnValues(records[..i], column) + [Get(records[i], column)]
  {
    assert records[..i + 1][..i] == records[..i];
  }

  /** The set of values seen and the report, extended by one more value. */
  lemma SeenStep(prefix: seq<Option<string>>, v: Option<string>, seen: set<Option<string>>, duplicates: seq<Duplicate>)
    requires seen == Elements(prefix) && duplicates == DuplicateRows(prefix)
    ensures seen + {v} == Elements(prefix + [v])
    ensures (if Truthy(v) && v in seen then duplicates + [Duplicate(v.value, |prefix| + 2)] else duplicates)
      == DuplicateRows(prefix + [v])
  {
    ElementsSnoc(prefix, v);
    DuplicateRowsSnoc(prefix, v);
    assert v in seen <==> v in prefix;
  }

  /** One more value adds a report entry exactly when it is non-empty and already occurred. */
  lemma DuplicateRowsSnoc(prefix: seq<Option<string>>, v: Option<string>)
    ensures DuplicateRows(prefix + [v])
      == if Truthy(v) && v in prefix then DuplicateRows(prefix) + [Duplicate(v.value, |prefix| + 2)] else DuplicateRows(prefix)
  {
    var vs := prefix + [v];
    assert vs[..|vs| - 1] == prefix && vs[|vs| - 1] == v;
  }

  /** The values of a sequence extended by one more. */
  lemma ElementsSnoc(prefix: seq<Option<string>>, v: Option<string>)
    ensures Elements(prefix) + {v} == Elements(prefix + [v])
  {
    forall x | x in Elements(prefix + [v]) ensures x in Elements(prefix) + {v} {
      var k :| 0 <= k < |prefix| + 1 && (prefix + [v])[k] == x;
      if k < |prefix| {
        assert prefix[k] == x;
      }
    }
  }

  /**
   * `checkDuplicates`: walks the records with a set of values seen so far
   * (empty values are recorded too, but never reported) and fails with the
   * collected duplicates if there are any.
   */
  method CheckDuplicates(records: seq<Object<string>>, column: string, name: string) returns (r: Outcome<BuildError>)
    ensures r.Pass? <==> DuplicateRows(ColumnValues(records, column)) == []
    ensures r.Fail? ==> r.error == DuplicateValues(column, name, DuplicateRows(ColumnValues(records, column)))
  {
    var seen: set<Option<string>> := {};
    var duplicates: seq<Duplicate> := [];
    var index := 0;
    while index < |records|
      invariant 0 <= index <= |records|
      invariant seen == Elements(ColumnValues(records[..index], column))
      invariant duplicates == DuplicateRows(ColumnValues(records[..index], column))
    {
      var value := Get(records[index], column);
      WalkStep(records, column, index, seen, duplicates);
      if Truthy(value) && value in seen {
        duplicates := duplicates + [Duplicate(value.value, index + 2)];
      }
      seen := seen + {value};
      index := index + 1;
    }
    assert records[..index] == records;
    if |duplicates| > 0 {
      r := Fail(DuplicateValues(column, name, duplicates));
    } else {
      r := Pass;
    }
  }

  /** Three rows with the same code: the second and the fifth are reported (sheet rows 3 and 6); the empty values are not. */
  lemma DuplicateRowsExample()
    ensures DuplicateRows([Some("MP-1"), Some("MP-1"), Some(""), Some(""), Some("MP-1")])
      == [Duplicate("MP-1", 3), Duplicate("MP-1", 6)]
  {
    var v1 := [Some("MP-1")];
    assert DuplicateRows(v1) == [] by { assert v1[..0] == []; }
    var v2 := v1 + [Some("MP-1")];
    assert v2[..1] == v1;
    assert DuplicateRows(v2) == [Duplicate("MP-1", 3)];
    var v3 := v2 + [Some("")];
    assert v3[..2] == v2;
    var v4 := v3 + [Some("")];
    assert v4[..3] == v3;
    var v5 := v4 + [Some("MP-1")];
    assert v5[..4] == v4;
    assert v5[4] in v4 by { assert v4[0] == Some("MP-1"); }
    assert v5 == [Some("MP-1"), Some("MP-1"), Some(""), Some(""), Some("MP-1")];
  }
}
