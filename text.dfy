/**
 * The JavaScript string built-ins the catalog code relies on, on Dafny strings
 * (sequences of Unicode scalar values): `trim`, `toLowerCase`/`toUpperCase`,
 * `normalize('NFD')` followed by removal of combining marks, `includes`, the
 * UTF-16 `length`, and the code-unit order used by `Array.prototype.sort`.
 */
module Text {
  import opened Wrappers
  import opened Seqs

  /** A string value JavaScript treats as true: present and not empty. */
  predicate Truthy(v: Option<string>) {
    v.Some? && v.value != []
  }

  /** `a || b` on two possibly absent strings. */
  function Or(a: Option<string>, b: Option<string>): Option<string> {
    if Truthy(a) then a else b
  }

  /** `a || d` with a string default `d`. */
  function OrText(a: Option<string>, d: string): string {
    if Truthy(a) then a.value else d
  }

  /** ECMAScript WhiteSpace and LineTerminator code points: what `String.prototype.trim` removes. */
  predicate IsSpace(c: char) {
    || c == ' ' || c == '\t' || c == '\n' || c == '\r'
    || c == '\U{000B}' || c == '\U{000C}' || c == '\U{00A0}' || c == '\U{1680}'
    || ('\U{2000}' <= c <= '\U{200A}')
    || c == '\U{2028}' || c == '\U{2029}' || c == '\U{202F}' || c == '\U{205F}'
    || c == '\U{3000}' || c == '\U{FEFF}'
  }

  /** Every character of `s` is white space (this includes the empty string). */
  predicate IsBlank(s: string) {
    forall i | 0 <= i < |s| :: IsSpace(s[i])
  }

  /** `s` with its leading white space removed. */
  function TrimStart(s: string): (r: string)
    ensures |r| <= |s| && r == s[|s| - |r|..]
    ensures forall i | 0 <= i < |s| - |r| :: IsSpace(s[i])
    ensures r != [] ==> !IsSpace(r[0])
  {
    if s != [] && IsSpace(s[0]) then
      var r := TrimStart(s[1..]);
      SuffixOfTail(s, r);
      SpacesOfTail(s, |s| - |r|);
      r
    else
      assert s[|s| - |s|..] == s;
      s
  }

  /** White space at the front of `s` followed by white space up to `n` in its tail is white space up to `n`. */
  lemma SpacesOfTail(s: string, n: int)
    requires s != [] && IsSpace(s[0]) && 1 <= n <= |s|
    requires forall i | 0 <= i < n - 1 :: IsSpace(s[1..][i])
    ensures forall i | 0 <= i < n :: IsSpace(s[i])
  {
    forall i | 1 <= i < n ensures IsSpace(s[i]) {
      assert s[i] == s[1..][i - 1];
    }
  }

  /** A suffix of the tail of `s` is a suffix of `s`. */
  lemma SuffixOfTail(s: string, r: string)
    requires s != [] && |r| < |s| && r == s[1..][|s| - 1 - |r|..]
    ensures r == s[|s| - |r|..]
  {
    forall i | 0 <= i < |r| ensures r[i] == s[|s| - |r| + i] {
      assert r[i] == s[1..][|s| - 1 - |r| + i];
    }
  }

  /** `s` with its trailing white space removed. */
  function TrimEnd(s: string): (r: string)
    ensures |r| <= |s| && r == s[..|r|]
    ensures forall i | |r| <= i < |s| :: IsSpace(s[i])
    ensures r != [] ==> !IsSpace(r[|r| - 1])
  {
    if s != [] && IsSpace(s[|s| - 1]) then TrimEnd(s[..|s| - 1]) else s
  }

  /** `String.prototype.trim`. */
  function Trim(s: string): (r: string)
    ensures r == [] <==> IsBlank(s)
    ensures r != [] ==> !IsSpace(r[0]) && !IsSpace(r[|r| - 1])
    ensures IsFactor(r, s)
  {
    var t := TrimStart(s);
    var r := TrimEnd(t);
    TrimFactor(s, t, r);
    TrimBlank(s);
    TrimEdges(t, r);
    r
  }

  /** Trimming the end of a text that starts with no white space leaves none at either edge. */
  lemma TrimEdges(t: string, r: string)
    requires r == TrimEnd(t) && (t != [] ==> !IsSpace(t[0]))
    ensures r != [] ==> !IsSpace(r[0]) && !IsSpace(r[|r| - 1])
  {
    if r != [] {
      assert r[0] == t[0];
    }
  }

  /** `x` occurs as a contiguous piece of `s`. */
  predicate IsFactor(x: string, s: string) {
    exists i, j :: 0 <= i <= j <= |s| && x == s[i..j]
  }

  /** A piece of a piece of `s` is a piece of `s`. */
  lemma FactorOfFactor(x: string, y: string, s: string)
    requires IsFactor(x, y) && IsFactor(y, s)
    ensures IsFactor(x, s)
  {
    var i, j :| 0 <= i <= j <= |y| && x == y[i..j];
    var k, l :| 0 <= k <= l <= |s| && y == s[k..l];
    SliceOfSlice(s, k, l, i, j);
    assert x == s[k + i..k + j];
  }

  /** Trimming keeps a slice of `s`. */
  lemma TrimFactor(s: string, t: string, r: string)
    requires t == TrimStart(s) && r == TrimEnd(t)
    ensures IsFactor(r, s)
  {
    FactorOfSlices(s, |s| - |t|, t, r);
  }

  /** A prefix of a suffix of `s` is a piece of `s`. */
  lemma FactorOfSlices(s: string, a: nat, t: string, r: string)
    requires a <= |s| && t == s[a..] && |r| <= |t| && r == t[..|r|]
    ensures IsFactor(r, s)
  {
    SliceOfSuffix(s, a, |r|);
    assert r == s[a..a + |r|];
  }

  /** The first `n` characters after index `a`. */
  lemma SliceOfSuffix(s: string, a: nat, n: nat)
    requires a + n <= |s|
    ensures s[a..][..n] == s[a..a + n]
  {
  }

  /** Trimming drops only white space: nothing is left exactly when all of `s` is white space. */
  lemma TrimBlank(s: string)
    ensures TrimEnd(TrimStart(s)) == [] <==> IsBlank(s)
  {
    var t := TrimStart(s);
    if TrimEnd(t) == [] {
      assert t == [];
    } else {
      assert s[|s| - |t|] == t[0];
    }
  }

  /** A trimmed string has no white space at either end, so trimming it again changes nothing. */
  lemma {:induction false} TrimIdempotent(s: string)
    requires s == [] || (!IsSpace(s[0]) && !IsSpace(s[|s| - 1]))
    ensures Trim(s) == s
  {
  }

  /** `toLowerCase` on one character: exact for ASCII and Latin-1; other characters are left as they are. */
  function Lower(c: char): char {
    if 'A' <= c <= 'Z' || ('\U{00C0}' <= c <= '\U{00DE}' && c != '\U{00D7}') then (c as int + 32) as char else c
  }

  /**
   * `toUpperCase` on one character: exact for ASCII and Latin-1 (where 'ß' becomes "SS"
   * and 'ÿ', 'µ' leave Latin-1); other characters are left as they are.
   */
  function Upper(c: char): string {
    if 'a' <= c <= 'z' || ('\U{00E0}' <= c <= '\U{00FE}' && c != '\U{00F7}') then [(c as int - 32) as char]
    else if c == '\U{00FF}' then ['\U{0178}']
    else if c == '\U{00B5}' then ['\U{039C}']
    else if c == '\U{00DF}' then "SS"
    else [c]
  }

  /** Base letter of a precomposed lower-case Latin-1 letter: NFD decomposition with the mark dropped. */
  function BaseLetter(c: char): char {
    if '\U{00E0}' <= c <= '\U{00E5}' then 'a'
    else if c == '\U{00E7}' then 'c'
    else if '\U{00E8}' <= c <= '\U{00EB}' then 'e'
    else if '\U{00EC}' <= c <= '\U{00EF}' then 'i'
    else if c == '\U{00F1}' then 'n'
    else if '\U{00F2}' <= c <= '\U{00F6}' then 'o'
    else if '\U{00F9}' <= c <= '\U{00FC}' then 'u'
    else if c == '\U{00FD}' || c == '\U{00FF}' then 'y'
    else c
  }

  /** A combining diacritical mark, the class `[̀-ͯ]`. */
  predicate IsCombiningMark(c: char) {
    '\U{0300}' <= c <= '\U{036F}'
  }

  /** One character through `toLowerCase().normalize('NFD').replace(/[̀-ͯ]/g, '')`. */
  function FoldChar(c: char): string {
    var l := Lower(c);
    if IsCombiningMark(l) then [] else [BaseLetter(l)]
  }

  /** A whole string through the same chain, character by character. */
  function Fold(s: string): string {
    if s == [] then [] else FoldChar(s[0]) + Fold(s[1..])
  }

  /** The class `[a-z0-9]` that survives slug generation. */
  predicate IsSlugChar(c: char) {
    'a' <= c <= 'z' || '0' <= c <= '9'
  }

  /** The class `[a-zA-Z0-9_-]` of characters in a Drive file id. */
  predicate IsIdChar(c: char) {
    'a' <= c <= 'z' || 'A' <= c <= 'Z' || '0' <= c <= '9' || c == '_' || c == '-'
  }

  /** Characters of `[a-z0-9]` and `-` pass through the fold unchanged. */
  lemma FoldSlugChar(c: char)
    requires IsSlugChar(c) || c == '-'
    ensures FoldChar(c) == [c]
  {
  }

  /** The fold distributes over concatenation. */
  lemma {:induction false} FoldAppend(a: string, b: string)
    ensures Fold(a + b) == Fold(a) + Fold(b)
  {
    if a == [] {
      assert a + b == b;
    } else {
      assert (a + b)[0] == a[0];
      assert (a + b)[1..] == a[1..] + b;
      FoldAppend(a[1..], b);
      calc {
        Fold(a + b);
        FoldChar(a[0]) + Fold(a[1..] + b);
        FoldChar(a[0]) + (Fold(a[1..]) + Fold(b));
        (FoldChar(a[0]) + Fold(a[1..])) + Fold(b);
      }
    }
  }

  /** JavaScript's `length`: the number of UTF-16 code units. */
  function Utf16Length(s: string): (n: nat)
    ensures n >= |s|
  {
    if s == [] then 0 else (if s[0] as int >= 0x1_0000 then 2 else 1) + Utf16Length(s[1..])
  }

  /** `p` is a prefix of `s`. */
  predicate StartsWith(s: string, p: string) {
    |p| <= |s| && s[..|p|] == p
  }

  /** `String.prototype.includes`: `p` occurs somewhere in `s`. */
  predicate Contains(s: string, p: string)
    decreases |s|
  {
    StartsWith(s, p) || (s != [] && Contains(s[1..], p))
  }

  /** `p` occurs in `s` starting at index `i`. */
  predicate OccursAt(s: string, p: string, i: nat) {
    i + |p| <= |s| && s[i..i + |p|] == p
  }

  /** `Contains` means an occurrence at some index. */
  lemma {:induction false} ContainsAt(s: string, p: string)
    ensures Contains(s, p) <==> exists i :: OccursAt(s, p, i)
  {
    if StartsWith(s, p) {
      assert OccursAt(s, p, 0);
    } else if s == [] {
    } else {
      ContainsAt(s[1..], p);
      if Contains(s, p) {
        var i: nat :| OccursAt(s[1..], p, i);
        assert s[i + 1..i + 1 + |p|] == s[1..][i..i + |p|];
        assert OccursAt(s, p, i + 1);
      }
      if exists i :: OccursAt(s, p, i) {
        var i: nat :| OccursAt(s, p, i);
        assert i > 0;
        assert s[1..][i - 1..i - 1 + |p|] == s[i..i + |p|];
        assert OccursAt(s[1..], p, i - 1);
      }
    }
  }

  /** `toLowerCase` on a whole string. */
  function LowerAll(s: string): (r: string)
    ensures |r| == |s| && forall i | 0 <= i < |s| :: r[i] == Lower(s[i])
  {
    if s == [] then [] else [Lower(s[0])] + LowerAll(s[1..])
  }

  /** Strict lexicographic order on code points, the order `Array.prototype.sort` gives Basic Multilingual Plane strings. */
  predicate Below(a: string, b: string)
    decreases |a|
  {
    if a == [] then b != []
    else if b == [] then false
    else if a[0] != b[0] then a[0] < b[0]
    else Below(a[1..], b[1..])
  }

  lemma {:induction false} BelowIrreflexive(a: string)
    ensures !Below(a, a)
  {
    if a != [] { BelowIrreflexive(a[1..]); }
  }

  lemma {:induction false} BelowTransitive(a: string, b: string, c: string)
    requires Below(a, b) && Below(b, c)
    ensures Below(a, c)
  {
    if a != [] && b != [] && c != [] && a[0] == b[0] && b[0] == c[0] {
      BelowTransitive(a[1..], b[1..], c[1..]);
    }
  }

  lemma {:induction false} BelowTotal(a: string, b: string)
    requires a != b
    ensures Below(a, b) || Below(b, a)
  {
    if a != [] && b != [] && a[0] == b[0] {
      assert a == [a[0]] + a[1..] && b == [b[0]] + b[1..];
      BelowTotal(a[1..], b[1..]);
    }
  }

  lemma {:induction false} BelowAsymmetric(a: string, b: string)
    requires Below(a, b)
    ensures !Below(b, a)
  {
    if a != [] && b != [] && a[0] == b[0] {
      BelowAsymmetric(a[1..], b[1..]);
    }
  }
}
