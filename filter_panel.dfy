/**
 * The filter popover of `components/Filters.tsx`: the active selections are an
 * object from filter category to the chosen options; a click toggles one
 * option and reports the category's new list to the page, and the trigger
 * shows the total number of chosen options.
 */
module FilterPanel {
  import opened Wrappers
  import opened Objects
  import opened Seqs

  /** `activeFilters[categoryId] || []`: a category without an entry has nothing chosen. */
  function Current(active: Object<seq<string>>, categoryId: string): (r: seq<string>)
    ensures categoryId !in Keys(active) ==> r == []
    ensures categoryId in Keys(active) ==> Some(r) == Get(active, categoryId)
  {
    Get(active, categoryId).GetOr([])
  }

  /** `current.filter(v => v !== option)`. */
  function RemoveAll(current: seq<string>, option: string): (r: seq<string>)
    ensures forall v :: v in r <==> v in current && v != option
    ensures |r| <= |current|
    ensures IsSubsequence(r, current)
    ensures forall v :: multiset(r)[v] == if v == option then 0 else multiset(current)[v]
  {
    if current == [] then []
    else
      var rest := RemoveAll(current[1..], option);
      assert current == [current[0]] + current[1..];
      if current[0] == option then rest
      else
        assert ([current[0]] + rest)[1..] == rest;
        [current[0]] + rest
  }

  /** Removing an option that is not there changes nothing. */
  lemma {:induction false} RemoveAllAbsent(current: seq<string>, option: string)
    requires option !in current
    ensures RemoveAll(current, option) == current
  {
    if current != [] {
      RemoveAllAbsent(current[1..], option);
    }
  }

  /** Removing after appending the same absent option gives back the list. */
  lemma {:induction false} RemoveAllAppended(current: seq<string>, option: string)
    requires option !in current
    ensures RemoveAll(current + [option], option) == current
  {
    if current == [] {
      assert current + [option] == [option];
    } else {
      assert (current + [option])[1..] == current[1..] + [option];
      RemoveAllAppended(current[1..], option);
    }
  }

  /** The list of a category after one click on `option`. */
  function Toggle(current: seq<string>, option: string): (r: seq<string>)
    ensures option in current ==> option !in r && forall v | v != option :: v in r <==> v in current
    ensures option !in current ==> r == current + [option]
  {
    if option in current then RemoveAll(current, option) else current + [option]
  }

  /** After a click the option is chosen exactly when it was not; no other option changes. */
  lemma ToggleFlips(current: seq<string>, option: string)
    ensures option in Toggle(current, option) <==> option !in current
    ensures forall v | v != option :: v in Toggle(current, option) <==> v in current
  {
  }

  /** Two clicks on an option that was not chosen give back the original list. */
  lemma ToggleTwice(current: seq<string>, option: string)
    requires option !in current
    ensures Toggle(Toggle(current, option), option) == current
  {
    RemoveAllAppended(current, option);
  }

  /**
   * `toggleOption`: the category and its new list, the pair passed to
   * `onFilterChange`; only that category is reported.
   */
  function ToggleOption(active: Object<seq<string>>, categoryId: string, option: string): (r: (string, seq<string>))
    ensures r.0 == categoryId
    ensures option in r.1 <==> option !in Current(active, categoryId)
    ensures forall v | v != option :: v in r.1 <==> v in Current(active, categoryId)
    ensures categoryId !in Keys(active) ==> r.1 == [option]
  {
    (categoryId, Toggle(Current(active, categoryId), option))
  }

  /** The number of options in one entry. */
  function EntrySize(e: (string, seq<string>)): int {
    |e.1|
  }

  /** `totalActiveFilters`: the options chosen over all categories. */
  function TotalActiveFilters(active: Object<seq<string>>): (r: int)
    ensures r >= 0
  {
    SumNonNegative(active, EntrySize);
    Sum(active, EntrySize)
  }

  /** Replacing or adding one entry changes the total by the difference of the list lengths. */
  lemma {:induction false} TotalAfterPut(active: Object<seq<string>>, categoryId: string, values: seq<string>)
    ensures TotalActiveFilters(Put(active, categoryId, values)) ==
      TotalActiveFilters(active) - |Current(active, categoryId)| + |values|
  {
    if active == [] {
      assert Put(active, categoryId, values) == [] + [(categoryId, values)];
      SumAppend([], (categoryId, values), EntrySize);
    } else if active[0].0 == categoryId {
      assert Put(active, categoryId, values) == active[0 := (categoryId, values)];
      SumUpdate(active, 0, (categoryId, values), EntrySize);
    } else {
      TotalAfterPut(active[1..], categoryId, values);
      SumFront(active, EntrySize);
      SumFront(Put(active, categoryId, values), EntrySize);
      assert Put(active, categoryId, values)[1..] == Put(active[1..], categoryId, values);
    }
  }

  /** The total splits into the first element's weight and the rest's. */
  lemma {:induction false} SumFront<T>(s: seq<T>, w: T -> int)
    requires s != []
    ensures Sum(s, w) == w(s[0]) + Sum(s[1..], w)
  {
    if |s| > 1 {
      SumFront(s[..|s| - 1], w);
      assert s[..|s| - 1][1..] == s[1..][..|s[1..]| - 1];
    }
  }

  /**
   * A click, once the page has stored the reported list, raises the total by
   * one when it chose the option and lowers it by the option's occurrences
   * when it dropped it.
   */
  lemma TotalAfterToggle(active: Object<seq<string>>, categoryId: string, option: string)
    ensures var r := ToggleOption(active, categoryId, option);
      var total := TotalActiveFilters(Put(active, r.0, r.1));
      && (option !in Current(active, categoryId) ==> total == TotalActiveFilters(active) + 1)
      && (option in Current(active, categoryId) ==> total < TotalActiveFilters(active))
  {
    var r := ToggleOption(active, categoryId, option);
    TotalAfterPut(active, categoryId, r.1);
    var current := Current(active, categoryId);
    if option in current {
      RemoveAllShorter(current, option);
    }
  }

  /** Removing an option that is present shortens the list. */
  lemma {:induction false} RemoveAllShorter(current: seq<string>, option: string)
    requires option in current
    ensures |RemoveAll(current, option)| < |current|
  {
    if current[0] != option {
      RemoveAllShorter(current[1..], option);
    }
  }
}
