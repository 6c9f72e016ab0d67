/**
 * The client-side string helpers of `lib/utils.ts`: the Google Drive link
 * builders and the slug generator with its inverse for display.
 */
module Utils {
  import opened Wrappers
  import opened Text

  /** The fixed Drive templates: inline viewing and forced download. */
  const DriveHost := "https://drive.google.com"
  const ViewPrefix := DriveHost + "/file/d/"
  const ViewSuffix := "/view?usp=sharing"
  const DownloadPath := "/uc?export=download"
  const DownloadPrefix := DriveHost + DownloadPath + "&id="

  /** `getDriveViewUrl`: no link for a missing, empty or blank id; otherwise the view template around the id as given. */
  function DriveViewUrl(fileId: Option<string>): (r: Option<string>)
    ensures r.None? <==> fileId.None? || IsBlank(fileId.value)
    ensures r.Some? ==> r.value == ViewPrefix + fileId.value + ViewSuffix
  {
    if fileId.None? || Trim(fileId.value) == [] then None
    else Some(ViewPrefix + fileId.value + ViewSuffix)
  }

  /** `getDriveDownloadUrl`: the same absence rule; otherwise the download template ending in the id as given. */
  function DriveDownloadUrl(fileId: Option<string>): (r: Option<string>)
    ensures r.None? <==> fileId.None? || IsBlank(fileId.value)
    ensures r.Some? ==> r.value == DownloadPrefix + fileId.value
  {
    if fileId.None? || Trim(fileId.value) == [] then None
    else Some(DownloadPrefix + fileId.value)
  }

  // ---------------------------------------------------------------------------
  // Slugs
  // ---------------------------------------------------------------------------

  /** Only `[a-z0-9]` and `-`. */
  predicate SlugAlphabet(s: string) {
    forall i | 0 <= i < |s| :: IsSlugChar(s[i]) || s[i] == '-'
  }

  /** No `--` anywhere. */
  predicate NoDoubleHyphen(s: string) {
    forall i, j | 0 <= i && j == i + 1 < |s| :: !(s[i] == '-' && s[j] == '-')
  }

  /** A well-formed slug: empty, or `[a-z0-9]+(-[a-z0-9]+)*`. */
  predicate IsSlug(s: string) {
    && SlugAlphabet(s)
    && NoDoubleHyphen(s)
    && (s != [] ==> s[0] != '-' && s[|s| - 1] != '-')
  }

  /** The `[a-z0-9]` characters of `s`, in order. */
  function SlugChars(s: string): string {
    if s == [] then []
    else (if IsSlugChar(s[0]) then [s[0]] else []) + SlugChars(s[1..])
  }

  lemma {:induction false} SlugCharsAppend(a: string, b: string)
    ensures SlugChars(a + b) == SlugChars(a) + SlugChars(b)
  {
    if a == [] {
      assert a + b == b;
    } else {
      var head := if IsSlugChar(a[0]) then [a[0]] else [];
      assert (a + b)[0] == a[0] && (a + b)[1..] == a[1..] + b;
      calc {
        SlugChars(a + b);
        head + SlugChars(a[1..] + b);
        { SlugCharsAppend(a[1..], b); }
        head + (SlugChars(a[1..]) + SlugChars(b));
        (head + SlugChars(a[1..])) + SlugChars(b);
      }
    }
  }

  /** Drops the run of non-`[a-z0-9]` characters at the front of `s`. */
  function DropRun(s: string): (r: string)
    ensures |r| <= |s| && r == s[|s| - |r|..]
    ensures r == [] || IsSlugChar(r[0])
    ensures SlugChars(r) == SlugChars(s)
  {
    if s != [] && !IsSlugChar(s[0]) then
      var r := DropRun(s[1..]);
      SuffixOfTail(s, r);
      assert SlugChars(s) == [] + SlugChars(s[1..]);
      r
    else
      assert s[|s| - |s|..] == s;
      s
  }

  /** `.replace(/[^a-z0-9]+/g, '-')`: each maximal run of other characters becomes one hyphen. */
  function Hyphenate(s: string): (r: string)
    decreases |s|
    ensures SlugAlphabet(r) && NoDoubleHyphen(r)
    ensures r == [] <==> s == []
    ensures s != [] ==> (r[0] == '-' <==> !IsSlugChar(s[0]))
    ensures SlugChars(r) == SlugChars(s)
  {
    if s == [] then []
    else if IsSlugChar(s[0]) then [s[0]] + Hyphenate(s[1..])
    else "-" + Hyphenate(DropRun(s[1..]))
  }

  /** `.replace(/(^-|-$)/g, '')`: one leading and one trailing hyphen removed. */
  function StripHyphens(s: string): (r: string)
    requires NoDoubleHyphen(s)
    ensures SlugAlphabet(s) ==> IsSlug(r)
    ensures SlugChars(r) == SlugChars(s)
  {
    var a := if s != [] && s[0] == '-' then s[1..] else s;
    var r := if a != [] && a[|a| - 1] == '-' then a[..|a| - 1] else a;
    StripKeepsSlugChars(s, a, r);
    StripGivesSlug(s, a, r);
    r
  }

  /** Removing an end hyphen loses no `[a-z0-9]` character. */
  lemma StripKeepsSlugChars(s: string, a: string, r: string)
    requires a == if s != [] && s[0] == '-' then s[1..] else s
    requires r == if a != [] && a[|a| - 1] == '-' then a[..|a| - 1] else a
    ensures SlugChars(r) == SlugChars(s)
  {
    if a != s {
      assert s == "-" + a;
      SlugCharsAppend("-", a);
    }
    if r != a {
      assert a == r + "-";
      SlugCharsAppend(r, "-");
    }
  }

  /** Over the slug alphabet, without double hyphens, removing the end hyphens leaves a slug. */
  lemma StripGivesSlug(s: string, a: string, r: string)
    requires NoDoubleHyphen(s)
    requires a == if s != [] && s[0] == '-' then s[1..] else s
    requires r == if a != [] && a[|a| - 1] == '-' then a[..|a| - 1] else a
    ensures SlugAlphabet(s) ==> IsSlug(r)
  {
    if SlugAlphabet(s) {
      var d := |s| - |a|;
      StripSlice(s, a, r);
      SliceKeepsAlphabet(s, r, d);
      if r != [] {
        assert r[0] == s[d];
        assert d == 1 ==> s[0] == '-';
        StripLast(s, a, r);
      }
    }
  }

  /** What is left after stripping the end hyphens is the slice of `s` after the leading one. */
  lemma StripSlice(s: string, a: string, r: string)
    requires a == if s != [] && s[0] == '-' then s[1..] else s
    requires r == if a != [] && a[|a| - 1] == '-' then a[..|a| - 1] else a
    ensures var d := |s| - |a|; d + |r| <= |s| && forall k | 0 <= k < |r| :: r[k] == s[d + k]
  {
  }

  /** A slice of a text over the slug alphabet without double hyphens is one too. */
  lemma SliceKeepsAlphabet(s: string, r: string, d: nat)
    requires d + |r| <= |s| && forall k | 0 <= k < |r| :: r[k] == s[d + k]
    requires SlugAlphabet(s) && NoDoubleHyphen(s)
    ensures SlugAlphabet(r) && NoDoubleHyphen(r)
  {
    forall i | 0 <= i < |r| - 1 ensures !(r[i] == '-' && r[i + 1] == '-') {
      assert r[i] == s[d + i] && r[i + 1] == s[d + i + 1];
    }
  }

  /** Without double hyphens, stripping a trailing hyphen leaves a last character that is not one. */
  lemma StripLast(s: string, a: string, r: string)
    requires NoDoubleHyphen(s) && r != []
    requires a == if s != [] && s[0] == '-' then s[1..] else s
    requires r == if a != [] && a[|a| - 1] == '-' then a[..|a| - 1] else a
    ensures r[|r| - 1] != '-'
  {
    var d := |s| - |a|;
    if r != a {
      assert a[|a| - 1] == s[d + |r|] && r[|r| - 1] == s[d + |r| - 1];
    }
  }

  /**
   * `slugify` of `lib/utils.ts`: lower-case, strip diacritics, turn every run of
   * other characters into one hyphen, trim hyphens. There is no fallback: the
   * result is empty exactly when the folded text has no `[a-z0-9]` character.
   */
  function Slugify(text: string): (r: string)
    ensures IsSlug(r)
    ensures SlugChars(r) == SlugChars(Fold(text))
    ensures r == [] <==> SlugChars(Fold(text)) == []
    ensures r == Join(Runs(Fold(text)), '-')
  {
    var r := StripHyphens(Hyphenate(Fold(text)));
    assert r != [] ==> SlugChars(r) == [r[0]] + SlugChars(r[1..]);
    StripHyphenateRuns(Fold(text));
    r
  }

  /** A non-empty word of `[a-z0-9]` characters only. */
  predicate SlugWord(w: string) {
    w != [] && forall k | 0 <= k < |w| :: IsSlugChar(w[k])
  }

  /**
   * The maximal runs of `[a-z0-9]` characters of `s`, in order: the words a
   * slug is made of, whatever separated them.
   */
  function Runs(s: string): (r: seq<string>)
    ensures forall i | 0 <= i < |r| :: SlugWord(r[i])
    ensures s != [] && IsSlugChar(s[0]) ==> r != [] && |r[0]| > 0 && r[0][0] == s[0]
  {
    if s == [] then []
    else
      var rest := Runs(s[1..]);
      if !IsSlugChar(s[0]) then rest
      else if |s| > 1 && IsSlugChar(s[1]) then [[s[0]] + rest[0]] + rest[1..]
      else [[s[0]]] + rest
  }

  /** Characters outside `[a-z0-9]` at the front start no run. */
  lemma {:induction false} RunsDropRun(s: string)
    ensures Runs(DropRun(s)) == Runs(s)
  {
    if s != [] && !IsSlugChar(s[0]) {
      RunsDropRun(s[1..]);
    }
  }

  /** `s` ends with a character outside `[a-z0-9]`. */
  predicate EndsWithGap(s: string) {
    s != [] && !IsSlugChar(s[|s| - 1])
  }

  /** The hyphen a trailing gap leaves after the last run. */
  function TrailingHyphen(s: string): string {
    if EndsWithGap(s) then "-" else []
  }

  /** From a run's start, hyphenating gives the runs joined by hyphens, and one more hyphen for a gap at the end. */
  lemma {:induction false} HyphenateFromRun(s: string)
    requires s == [] || IsSlugChar(s[0])
    ensures Hyphenate(s) == Join(Runs(s), '-') + TrailingHyphen(s)
    decreases |s|
  {
    if s == [] {
    } else if |s| == 1 {
      assert Runs(s) == [[s[0]]];
    } else if IsSlugChar(s[1]) {
      HyphenateFromRun(s[1..]);
      RunContinues(s);
    } else {
      var u := DropRun(s[2..]);
      HyphenateFromRun(u);
      RunEnds(s);
    }
  }

  /** A run character followed by another: the first run grows by one character. */
  lemma RunContinues(s: string)
    requires |s| > 1 && IsSlugChar(s[0]) && IsSlugChar(s[1])
    requires Hyphenate(s[1..]) == Join(Runs(s[1..]), '-') + TrailingHyphen(s[1..])
    ensures Hyphenate(s) == Join(Runs(s), '-') + TrailingHyphen(s)
  {
    var c := s[0];
    var t := s[1..];
    var rt := Runs(t);
    calc {
      Hyphenate(s);
    == { HyphenateKeeps(s); }
      [c] + Hyphenate(t);
    ==
      [c] + (Join(rt, '-') + TrailingHyphen(t));
    == { ConcatAssoc([c], Join(rt, '-'), TrailingHyphen(t)); }
      ([c] + Join(rt, '-')) + TrailingHyphen(t);
    == { RunsGrow(s); assert rt == [rt[0]] + rt[1..]; JoinConsPrefix([c], rt[0], rt[1..], '-'); }
      Join(Runs(s), '-') + TrailingHyphen(t);
    == { assert s[|s| - 1] == t[|t| - 1]; }
      Join(Runs(s), '-') + TrailingHyphen(s);
    }
  }

  /** A run character is copied. */
  lemma HyphenateKeeps(s: string)
    requires s != [] && IsSlugChar(s[0])
    ensures Hyphenate(s) == [s[0]] + Hyphenate(s[1..])
  {
  }

  /** A gap becomes one hyphen, and hyphenation resumes at the next run. */
  lemma HyphenateGap(s: string)
    requires s != [] && !IsSlugChar(s[0])
    ensures Hyphenate(s) == "-" + Hyphenate(DropRun(s[1..]))
  {
  }

  /** The first run of `s` extends into the next character. */
  lemma RunsGrow(s: string)
    requires |s| > 1 && IsSlugChar(s[0]) && IsSlugChar(s[1])
    ensures var rt := Runs(s[1..]); rt != [] && Runs(s) == [[s[0]] + rt[0]] + rt[1..]
  {
  }

  /** The first run of `s` is its first character alone, and the rest starts after the gap. */
  lemma RunsSplit(s: string)
    requires |s| > 1 && IsSlugChar(s[0]) && !IsSlugChar(s[1])
    ensures Runs(s) == [[s[0]]] + Runs(DropRun(s[2..]))
  {
    RunsDropRun(s[2..]);
    assert s[1..][1..] == s[2..];
  }

  /** A run character followed by a gap: the run ends, and hyphenation resumes after the gap. */
  lemma RunEnds(s: string)
    requires |s| > 1 && IsSlugChar(s[0]) && !IsSlugChar(s[1])
    requires var u := DropRun(s[2..]); Hyphenate(u) == Join(Runs(u), '-') + TrailingHyphen(u)
    ensures Hyphenate(s) == Join(Runs(s), '-') + TrailingHyphen(s)
  {
    assert Hyphenate(s) == [s[0]] + ("-" + Hyphenate(DropRun(s[2..]))) by {
      HyphenateKeeps(s);
      HyphenateGap(s[1..]);
      assert s[1..][1..] == s[2..];
    }
    RunsSplit(s);
    if DropRun(s[2..]) == [] {
      RunEndsLast(s);
    } else {
      RunEndsBeforeRun(s);
    }
  }

  /** The gap after the last run reaches the end of the text. */
  lemma RunEndsLast(s: string)
    requires |s| > 1 && IsSlugChar(s[0]) && !IsSlugChar(s[1]) && DropRun(s[2..]) == []
    requires Hyphenate(s) == [s[0]] + ("-" + Hyphenate(DropRun(s[2..])))
    requires Runs(s) == [[s[0]]] + Runs(DropRun(s[2..]))
    ensures Hyphenate(s) == Join(Runs(s), '-') + TrailingHyphen(s)
  {
    var c := s[0];
    assert Join(Runs(s), '-') == [c] by {
      assert Runs(s) == [[c]];
    }
    assert Hyphenate(s) == [c] + "-" by {
      assert Hyphenate([]) == [];
      assert "-" + [] == "-";
    }
    GapToEnd(s);
  }

  /** A gap at index 1 that `DropRun` consumes to the end makes the text end with a gap. */
  lemma GapToEnd(s: string)
    requires |s| > 1 && !IsSlugChar(s[1]) && DropRun(s[2..]) == []
    ensures EndsWithGap(s)
  {
    if |s| > 2 {
      DropRunToEnd(s[2..]);
      SuffixLast(s, 2);
    } else {
      assert s[|s| - 1] == s[1];
    }
  }

  /** The last character of a non-empty suffix is the text's last character. */
  lemma SuffixLast(s: string, i: nat)
    requires i < |s|
    ensures s[i..][|s| - i - 1] == s[|s| - 1]
  {
  }

  /** Another run follows the gap. */
  lemma RunEndsBeforeRun(s: string)
    requires |s| > 1 && IsSlugChar(s[0]) && !IsSlugChar(s[1]) && DropRun(s[2..]) != []
    requires var u := DropRun(s[2..]); Hyphenate(u) == Join(Runs(u), '-') + TrailingHyphen(u)
    requires Hyphenate(s) == [s[0]] + ("-" + Hyphenate(DropRun(s[2..])))
    requires Runs(s) == [[s[0]]] + Runs(DropRun(s[2..]))
    ensures Hyphenate(s) == Join(Runs(s), '-') + TrailingHyphen(s)
  {
    var c := s[0];
    var u := DropRun(s[2..]);
    var ru := Runs(u);
    JoinCons([c], ru, '-');
    ConcatRegroup([c], "-", Join(ru, '-'), TrailingHyphen(u));
    TrailingAfterDrop(s[2..]);
    assert s[2..][|s| - 3] == s[|s| - 1];
  }

  /** What `DropRun` leaves, if anything, ends where the text ends. */
  lemma TrailingAfterDrop(x: string)
    requires DropRun(x) != []
    ensures x != [] && DropRun(x)[|DropRun(x)| - 1] == x[|x| - 1]
    ensures TrailingHyphen(DropRun(x)) == TrailingHyphen(x)
  {
  }

  /** Joining a word in front of a non-empty list puts the separator between. */
  lemma JoinCons(w: string, ws: seq<string>, sep: char)
    requires ws != []
    ensures Join([w] + ws, sep) == w + [sep] + Join(ws, sep)
  {
    assert ([w] + ws)[1..] == ws;
  }

  lemma ConcatRegroup(a: string, b: string, c: string, d: string)
    ensures a + (b + (c + d)) == a + b + c + d
  {
  }

  lemma ConcatAssoc(a: string, b: string, c: string)
    ensures a + (b + c) == (a + b) + c
  {
  }

  /** When `DropRun` skips a whole non-empty text, its last character is outside `[a-z0-9]`. */
  lemma {:induction false} DropRunToEnd(s: string)
    requires s != [] && DropRun(s) == []
    ensures !IsSlugChar(s[|s| - 1])
  {
    assert !IsSlugChar(s[0]);
    if |s| > 1 {
      DropRunToEnd(s[1..]);
      assert s[1..][|s| - 2] == s[|s| - 1];
    }
  }

  /** Runs joined by hyphens neither start nor end with a hyphen. */
  lemma {:induction false} JoinRunsEnds(ws: seq<string>)
    requires ws != [] && forall i | 0 <= i < |ws| :: SlugWord(ws[i])
    ensures var j := Join(ws, '-'); j != [] && IsSlugChar(j[0]) && IsSlugChar(j[|j| - 1])
  {
    if |ws| > 1 {
      JoinRunsEnds(ws[1..]);
      var j := Join(ws[1..], '-');
      assert Join(ws, '-') == ws[0] + ("-" + j);
    }
  }

  /** Hyphenating and trimming the hyphens leaves exactly the runs joined by single hyphens. */
  lemma StripHyphenateRuns(s: string)
    ensures StripHyphens(Hyphenate(s)) == Join(Runs(s), '-')
  {
    HyphenateAroundRuns(s);
    if Runs(s) == [] {
      NoRunsAllGap(s);
    } else {
      JoinRunsEnds(Runs(s));
      StripAround(LeadingHyphen(s), Join(Runs(s), '-'), TrailingHyphen(DropRun(s)));
      StripHyphensEnds(Hyphenate(s));
    }
  }

  /** The hyphen a leading gap leaves before the first run. */
  function LeadingHyphen(s: string): string {
    if s != [] && !IsSlugChar(s[0]) then "-" else []
  }

  /** Hyphenating any text: a hyphen for a leading gap, then the runs joined, then a hyphen for a trailing gap. */
  lemma HyphenateAroundRuns(s: string)
    ensures Hyphenate(s) == LeadingHyphen(s) + (Join(Runs(s), '-') + TrailingHyphen(DropRun(s)))
  {
    var u := DropRun(s);
    RunsDropRun(s);
    HyphenateFromRun(u);
    if s != [] && !IsSlugChar(s[0]) {
      HyphenateGap(s);
      assert DropRun(s[1..]) == u;
    } else {
      assert u == s;
    }
  }

  /** Without runs, hyphenation leaves at most one hyphen, and trimming removes it. */
  lemma NoRunsAllGap(s: string)
    requires Runs(s) == []
    requires Hyphenate(s) == LeadingHyphen(s) + (Join(Runs(s), '-') + TrailingHyphen(DropRun(s)))
    ensures StripHyphens(Hyphenate(s)) == []
  {
    RunsDropRun(s);
    assert DropRun(s) == [];
    assert Hyphenate(s) == LeadingHyphen(s);
  }

  /** An optional leading hyphen before a text that does not start with one is what the first step drops. */
  lemma StripLead(lead: string, y: string)
    requires lead == [] || lead == "-"
    requires y != [] && y[0] != '-'
    ensures var x := lead + y; (if x != [] && x[0] == '-' then x[1..] else x) == y
  {
    if lead == [] {
      assert lead + y == y;
    } else {
      assert (lead + y)[0] == '-' && (lead + y)[1..] == y;
    }
  }

  /** An optional trailing hyphen after a text that does not end with one is what the second step drops. */
  lemma StripTrail(j: string, t: string)
    requires t == [] || t == "-"
    requires j != [] && j[|j| - 1] != '-'
    ensures var a := j + t; (if a != [] && a[|a| - 1] == '-' then a[..|a| - 1] else a) == j
  {
    if t == [] {
      assert j + t == j;
    } else {
      assert (j + t)[|j|] == '-' && (j + t)[..|j|] == j;
    }
  }

  /** The two steps of `StripHyphens`, without its precondition. */
  function StripEnds(s: string): string {
    var a := if s != [] && s[0] == '-' then s[1..] else s;
    if a != [] && a[|a| - 1] == '-' then a[..|a| - 1] else a
  }

  /** `StripHyphens` is its two steps. */
  lemma StripHyphensEnds(s: string)
    requires NoDoubleHyphen(s)
    ensures StripHyphens(s) == StripEnds(s)
  {
  }

  /** Trimming one hyphen at each end of a text whose middle starts and ends with run characters. */
  lemma StripAround(lead: string, j: string, t: string)
    requires lead == [] || lead == "-"
    requires t == [] || t == "-"
    requires j != [] && IsSlugChar(j[0]) && IsSlugChar(j[|j| - 1])
    ensures StripEnds(lead + (j + t)) == j
  {
    assert (j + t)[0] == j[0];
    StripLead(lead, j + t);
    StripTrail(j, t);
  }


  // ---------------------------------------------------------------------------
  // Unslugify
  // ---------------------------------------------------------------------------

  /** `String.prototype.split(sep)`: the pieces between separators, always at least one. */
  function Split(s: string, sep: char): (r: seq<string>)
    ensures |r| >= 1
  {
    if s == [] then [[]]
    else
      var rest := Split(s[1..], sep);
      if s[0] == sep then [[]] + rest else [[s[0]] + rest[0]] + rest[1..]
  }

  /** `Array.prototype.join(sep)`. */
  function Join(ws: seq<string>, sep: char): string {
    if ws == [] then []
    else if |ws| == 1 then ws[0]
    else ws[0] + [sep] + Join(ws[1..], sep)
  }

  /** `word.charAt(0).toUpperCase() + word.slice(1)`. */
  function Capitalize(w: string): string {
    if w == [] then [] else Upper(w[0]) + w[1..]
  }

  function CapitalizeAll(ws: seq<string>): (r: seq<string>)
    ensures |r| == |ws| && forall i | 0 <= i < |ws| :: r[i] == Capitalize(ws[i])
  {
    if ws == [] then [] else [Capitalize(ws[0])] + CapitalizeAll(ws[1..])
  }

  /** `unslugify`: split on `-`, capitalize each piece, join with spaces. */
  function Unslugify(slug: string): string {
    Join(CapitalizeAll(Split(slug, '-')), ' ')
  }

  /**
   * The same transformation read character by character: a hyphen becomes a
   * space, the first character of each piece is upper-cased, every other
   * character is kept. `atStart` says whether the next character begins a piece.
   */
  function Retitle(s: string, atStart: bool): string {
    if s == [] then []
    else if s[0] == '-' then " " + Retitle(s[1..], true)
    else (if atStart then Upper(s[0]) else [s[0]]) + Retitle(s[1..], false)
  }

  lemma {:induction false} JoinConsPrefix(x: string, w: string, rest: seq<string>, sep: char)
    ensures Join([x + w] + rest, sep) == x + Join([w] + rest, sep)
  {
    if rest != [] {
      assert ([x + w] + rest)[1..] == rest && ([w] + rest)[1..] == rest;
    }
  }

  /** Joining the pieces of `s`, the first capitalized iff `atStart` and the rest capitalized, is `Retitle`. */
  lemma {:induction false} JoinPiecesRetitle(s: string, atStart: bool)
    ensures var ws := Split(s, '-');
      Join([if atStart then Capitalize(ws[0]) else ws[0]] + CapitalizeAll(ws[1..]), ' ') == Retitle(s, atStart)
  {
    if s != [] {
      if s[0] == '-' {
        JoinPiecesRetitle(s[1..], true);
        JoinAfterHyphen(s, atStart);
      } else {
        JoinPiecesRetitle(s[1..], false);
        JoinAfterChar(s, atStart);
      }
    }
  }

  /** A leading hyphen opens an empty first piece: the join starts with the separator. */
  lemma JoinAfterHyphen(s: string, atStart: bool)
    requires s != [] && s[0] == '-'
    ensures var ws := Split(s, '-');
      var rest := Split(s[1..], '-');
      Join([if atStart then Capitalize(ws[0]) else ws[0]] + CapitalizeAll(ws[1..]), ' ') ==
        " " + Join([Capitalize(rest[0])] + CapitalizeAll(rest[1..]), ' ')
  {
    var ws := Split(s, '-');
    var rest := Split(s[1..], '-');
    assert ws == [[]] + rest;
    var tail := CapitalizeAll(rest);
    assert tail == [Capitalize(rest[0])] + CapitalizeAll(rest[1..]);
    assert ws[1..] == rest;
    assert ([[]] + tail)[1..] == tail;
  }

  /** Any other first character joins the first piece. */
  lemma JoinAfterChar(s: string, atStart: bool)
    requires s != [] && s[0] != '-'
    ensures var ws := Split(s, '-');
      var rest := Split(s[1..], '-');
      Join([if atStart then Capitalize(ws[0]) else ws[0]] + CapitalizeAll(ws[1..]), ' ') ==
        (if atStart then Upper(s[0]) else [s[0]]) + Join([rest[0]] + CapitalizeAll(rest[1..]), ' ')
  {
    var ws := Split(s, '-');
    var rest := Split(s[1..], '-');
    assert ws == [[s[0]] + rest[0]] + rest[1..];
    var head := if atStart then Upper(s[0]) else [s[0]];
    assert (if atStart then Capitalize(ws[0]) else ws[0]) == head + rest[0];
    JoinConsPrefix(head, rest[0], CapitalizeAll(rest[1..]), ' ');
  }

  /** `unslugify` splits on every hyphen, upper-cases the first character of each piece, keeps the rest and joins with single spaces. */
  lemma UnslugifyIsRetitle(slug: string)
    ensures Unslugify(slug) == Retitle(slug, true)
  {
    JoinPiecesRetitle(slug, true);
    var ws := Split(slug, '-');
    assert CapitalizeAll(ws) == [Capitalize(ws[0])] + CapitalizeAll(ws[1..]);
  }

  // ---------------------------------------------------------------------------
  // Slug laws
  // ---------------------------------------------------------------------------

  /** `t` is `s` with each hyphen replaced by some character outside `[a-z0-9]`. */
  predicate HyphensReplaced(t: string, s: string) {
    && |t| == |s|
    && forall i | 0 <= i < |s| :: if s[i] == '-' then !IsSlugChar(t[i]) else t[i] == s[i]
  }

  /** A hyphen-separated text without doubled separators hyphenates back to the slug. */
  lemma {:induction false} HyphenateReplaced(t: string, s: string)
    requires SlugAlphabet(s) && NoDoubleHyphen(s) && HyphensReplaced(t, s)
    ensures Hyphenate(t) == s
  {
    if s != [] {
      assert HyphensReplaced(t[1..], s[1..]);
      HyphenateReplaced(t[1..], s[1..]);
      if s[0] == '-' {
        assert DropRun(t[1..]) == t[1..] by {
          if t[1..] != [] { assert s[1] != '-'; }
        }
        assert s == "-" + s[1..];
      } else {
        assert s == [s[0]] + s[1..];
      }
    }
  }

  lemma {:induction false} FoldFixed(s: string)
    requires SlugAlphabet(s)
    ensures Fold(s) == s
  {
    if s != [] {
      FoldSlugChar(s[0]);
      FoldFixed(s[1..]);
      assert s == [s[0]] + s[1..];
    }
  }

  lemma {:induction false} FoldFixedAscii(s: string)
    requires forall i | 0 <= i < |s| :: IsSlugChar(s[i]) || s[i] == ' '
    ensures Fold(s) == s
  {
    if s != [] {
      FoldFixedAscii(s[1..]);
      assert s == [s[0]] + s[1..];
    }
  }

  /** A well-formed slug is its own slug. */
  lemma SlugifyFixed(s: string)
    requires IsSlug(s)
    ensures Slugify(s) == s
  {
    FoldFixed(s);
    HyphenateReplaced(s, s);
  }

  /** `slugify` is idempotent. */
  lemma SlugifyIdempotent(text: string)
    ensures Slugify(Slugify(text)) == Slugify(text)
  {
    SlugifyFixed(Slugify(text));
  }

  /** The fold of a retitled slug gives the slug back with spaces where its hyphens were. */
  lemma {:induction false} FoldRetitle(s: string, atStart: bool)
    requires SlugAlphabet(s)
    ensures HyphensReplaced(Fold(Retitle(s, atStart)), s)
  {
    if s != [] {
      FoldRetitle(s[1..], s[0] == '-');
      var head := if s[0] == '-' then " " else if atStart then Upper(s[0]) else [s[0]];
      assert Retitle(s, atStart) == head + Retitle(s[1..], s[0] == '-');
      FoldAppend(head, Retitle(s[1..], s[0] == '-'));
      assert Fold(head) == if s[0] == '-' then " " else [s[0]];
    }
  }

  /** For every well-formed slug `s`, `slugify(unslugify(s)) == s`. */
  lemma SlugifyUnslugify(s: string)
    requires IsSlug(s)
    ensures Slugify(Unslugify(s)) == s
  {
    UnslugifyIsRetitle(s);
    FoldRetitle(s, true);
    HyphenateReplaced(Fold(Retitle(s, true)), s);
  }

  lemma FoldPunctuation()
    ensures Fold("¿? -") == "¿? -"
  {
    assert Fold("¿? -") == FoldChar('¿') + Fold("? -");
    assert Fold("? -") == FoldChar('?') + Fold(" -");
    assert Fold(" -") == FoldChar(' ') + Fold("-");
  }

  /** Without a fallback, empty and punctuation-only labels give the empty slug. */
  lemma SlugifyNoFallback()
    ensures Slugify("") == ""
    ensures Slugify("¿? -") == ""
  {
    FoldPunctuation();
    assert SlugChars("¿? -") == [];
  }

  lemma FoldAccented()
    ensures Fold("Línea Auto") == "linea auto"
  {
    FoldLiteral("Línea Auto", "linea auto");
  }

  /** Compares character by character, with the two texts held as parameters. */
  lemma FoldLiteral(w: string, t: string)
    requires w == "Línea Auto" && t == "linea auto"
    ensures Fold(w) == t
  {
    assert forall i | 0 <= i < |w| :: !IsCombiningMark(Lower(w[i]));
    FoldNoMarks(w);
    assert forall i | 0 <= i < |w| :: BaseLetter(Lower(w[i])) == t[i];
  }

  /** Without combining marks, the fold maps each character to its lowered base letter. */
  lemma {:induction false} FoldNoMarks(s: string)
    requires forall i | 0 <= i < |s| :: !IsCombiningMark(Lower(s[i]))
    ensures |Fold(s)| == |s| && forall i | 0 <= i < |s| :: Fold(s)[i] == BaseLetter(Lower(s[i]))
  {
    if s != [] {
      FoldNoMarks(s[1..]);
    }
  }

  /** Accents are stripped, capitals lowered and the space becomes a hyphen. */
  lemma SlugifyAccented()
    ensures Slugify("Línea Auto") == "linea-auto"
  {
    FoldAccented();
    SpacedToSlug("linea auto", "linea-auto");
  }

  /** The folded label hyphenates to the slug, which has no end hyphen to strip. */
  lemma SpacedToSlug(t: string, s: string)
    requires t == "linea auto" && s == "linea-auto"
    ensures NoDoubleHyphen(Hyphenate(t)) && StripHyphens(Hyphenate(t)) == s
  {
    assert forall i | 0 <= i < |s| :: IsSlugChar(s[i]) || s[i] == '-';
    assert forall i | 0 <= i < |s| :: if s[i] == '-' then !IsSlugChar(t[i]) else t[i] == s[i];
    assert forall i | 0 <= i < |s| - 1 :: s[i] != '-' || s[i + 1] != '-';
    HyphenateReplaced(t, s);
    assert s[0] != '-' && s[|s| - 1] != '-';
    StripSlug(s);
  }

  /** A slug has no end hyphen to strip. */
  lemma StripSlug(s: string)
    requires IsSlug(s)
    ensures StripHyphens(s) == s
  {
  }
}
