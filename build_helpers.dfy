/**
 * The pure helpers of `scripts/build-data.mjs`: the slug generator with its
 * `general` fallback, the Drive id recognizer, the two link templates and the
 * `updated_at` check.
 */
module BuildHelpers {
  import opened Wrappers
  import opened Text
  import Utils

  /** The slug every blank or unusable label falls back to. */
  const Fallback := "general"

  /**
   * `slugify` of the build script: trims its input first and falls back to
   * `general` for a missing or blank label and for one with no `[a-z0-9]`
   * character left after folding; otherwise it agrees with the client-side
   * `slugify` on the trimmed label. The result is never empty.
   */
  function Slugify(text: Option<string>): (r: string)
    ensures r != [] && Utils.IsSlug(r)
    ensures text.None? || Utils.SlugChars(Fold(Trim(text.value))) == [] ==> r == Fallback
    ensures text.Some? && Utils.SlugChars(Fold(Trim(text.value))) != [] ==> r == Utils.Slugify(Trim(text.value))
  {
    assert Utils.IsSlug(Fallback);
    if text.None? then Fallback
    else
      var str := Trim(text.value);
      if str == [] then Fallback
      else
        var s := Utils.Slugify(str);
        if s == [] then Fallback else s
  }

  /** A non-empty slug has no white space at its ends. */
  lemma SlugEndsNotSpace(s: string)
    requires s != [] && Utils.IsSlug(s)
    ensures !IsSpace(s[0]) && !IsSpace(s[|s| - 1])
  {
  }

  /** The build script's `slugify` is idempotent. */
  lemma SlugifyIdempotent(text: Option<string>)
    ensures Slugify(Some(Slugify(text))) == Slugify(text)
  {
    var r := Slugify(text);
    SlugEndsNotSpace(r);
    TrimIdempotent(r);
    Utils.SlugifyFixed(r);
  }

  /** A missing or blank label falls back to `general`. */
  lemma SlugifyBlankFallback()
    ensures Slugify(None) == Fallback
    ensures Slugify(Some(" \t")) == Fallback
  {
    assert IsBlank(" \t");
  }

  /** So does a label with nothing usable after folding. */
  lemma SlugifyPunctuationFallback()
    ensures Slugify(Some("¿? -")) == Fallback
  {
    var t := "¿? -";
    assert !IsSpace(t[0]) && !IsSpace(t[|t| - 1]);
    TrimIdempotent(t);
    Utils.SlugifyNoFallback();
  }

  // ---------------------------------------------------------------------------
  // Drive ids
  // ---------------------------------------------------------------------------

  /** Every character is in `[a-zA-Z0-9_-]`. */
  predicate AllIdChars(s: string) {
    forall i | 0 <= i < |s| :: IsIdChar(s[i])
  }

  /** The two regular expressions that locate an id inside a longer reference. */
  datatype Recognizer =
    | FilePath  // `/\/file\/d\/([a-zA-Z0-9_-]+)/`
    | IdParam   // `/[?&]id=([a-zA-Z0-9_-]+)/`

  /** Length of the literal part before the captured id. */
  function MarkerLength(rule: Recognizer): nat {
    match rule
    case FilePath => 8
    case IdParam => 4
  }

  /** The recognizer's regular expression matches at index `i` (its literal part, then at least one id character). */
  predicate MarkerAt(rule: Recognizer, s: string, i: nat) {
    && i + MarkerLength(rule) < |s|
    && IsIdChar(s[i + MarkerLength(rule)])
    && match rule
       case FilePath => s[i..i + 8] == "/file/d/"
       case IdParam => (s[i] == '?' || s[i] == '&') && s[i + 1..i + 4] == "id="
  }

  /** The leftmost index at or after `from` where the recognizer matches. */
  function FirstMarker(rule: Recognizer, s: string, from: nat): (r: Option<nat>)
    decreases |s| - from
    ensures r.Some? ==> from <= r.value && MarkerAt(rule, s, r.value)
    ensures r.Some? ==> forall j | from <= j < r.value :: !MarkerAt(rule, s, j)
    ensures r.None? ==> forall j | from <= j :: !MarkerAt(rule, s, j)
  {
    if from >= |s| then None
    else if MarkerAt(rule, s, from) then Some(from)
    else FirstMarker(rule, s, from + 1)
  }

  /** The greedy `[a-zA-Z0-9_-]+` capture: the longest prefix of id characters. */
  function IdRun(s: string): (r: string)
    ensures |r| <= |s| && r == s[..|r|] && AllIdChars(r)
    ensures |r| < |s| ==> !IsIdChar(s[|r|])
  {
    if s != [] && IsIdChar(s[0]) then [s[0]] + IdRun(s[1..]) else []
  }

  /** An id followed by a non-id character (or nothing) is captured whole. */
  lemma {:induction false} IdRunStops(id: string, rest: string)
    requires AllIdChars(id)
    requires rest == [] || !IsIdChar(rest[0])
    ensures IdRun(id + rest) == id
  {
    if id != [] {
      assert (id + rest)[1..] == id[1..] + rest;
      IdRunStops(id[1..], rest);
    } else {
      assert id + rest == rest;
    }
  }

  /** The id captured by the recognizer's leftmost match, if it matches at all. */
  function Recognize(rule: Recognizer, s: string): (r: Option<string>)
    ensures r.Some? ==> r.value != [] && AllIdChars(r.value)
    ensures r.Some? ==> IsFactor(r.value, s)
  {
    match FirstMarker(rule, s, 0)
    case None => None
    case Some(i) =>
      var rest := s[i + MarkerLength(rule)..];
      var id := IdRun(rest);
      assert id == s[i + MarkerLength(rule)..i + MarkerLength(rule) + |id|];
      Some(id)
  }

  /** A non-empty run of id characters is not blank. */
  lemma IdNotBlank(id: string)
    requires id != [] && AllIdChars(id)
    ensures !IsBlank(id)
  {
    assert IsIdChar(id[0]);
  }

  /** The value of `extractDriveId` on a reference already trimmed to `t`. */
  function ExtractFromTrimmed(t: string): (r: string)
    requires t != [] && !IsSpace(t[0])
    ensures r != [] && !IsBlank(r) && IsFactor(r, t)
  {
    match Recognize(FilePath, t)
    case Some(id) => IdNotBlank(id); id
    case None =>
      if '/' !in t && Utf16Length(t) > 20 then assert t == t[0..|t|]; t
      else match Recognize(IdParam, t)
        case Some(id) => IdNotBlank(id); id
        case None => assert t == t[0..|t|]; t
  }

  /**
   * `extractDriveId`: null exactly for a missing, empty or blank reference;
   * otherwise a non-empty piece of the trimmed reference, chosen by the first
   * rule that applies: the id after `/file/d/`, the whole token when it has no
   * `/` and more than 20 UTF-16 units, the `?id=`/`&id=` value, and finally the
   * trimmed reference itself.
   */
  function ExtractDriveId(input: Option<string>): (r: Option<string>)
    ensures r.None? <==> input.None? || IsBlank(input.value)
    ensures r.Some? ==> r.value != [] && !IsBlank(r.value) && IsFactor(r.value, input.value)
    ensures r.Some? ==> var t := Trim(input.value);
      if Recognize(FilePath, t).Some? then r == Recognize(FilePath, t)
      else if '/' !in t && Utf16Length(t) > 20 then r.value == t
      else if Recognize(IdParam, t).Some? then r == Recognize(IdParam, t)
      else r.value == t
  {
    if input.None? || input.value == [] then None
    else
      var t := Trim(input.value);
      if t == [] then None
      else
        var id := ExtractFromTrimmed(t);
        FactorOfFactor(id, t, input.value);
        Some(id)
  }

  /** `getDriveViewUrl` of the build script: the client-side view link of the extracted id. */
  function DriveViewUrl(input: Option<string>): (r: Option<string>)
    ensures r.None? <==> ExtractDriveId(input).None?
    ensures r == Utils.DriveViewUrl(ExtractDriveId(input))
  {
    match ExtractDriveId(input)
    case None => None
    case Some(id) => Some(Utils.ViewPrefix + id + Utils.ViewSuffix)
  }

  /** `getDriveDownloadUrl` of the build script: the client-side download link of the extracted id. */
  function DriveDownloadUrl(input: Option<string>): (r: Option<string>)
    ensures r.None? <==> ExtractDriveId(input).None?
    ensures r == Utils.DriveDownloadUrl(ExtractDriveId(input))
  {
    match ExtractDriveId(input)
    case None => None
    case Some(id) => Some(Utils.DownloadPrefix + id)
  }

  // ---------------------------------------------------------------------------
  // Drive id laws
  // ---------------------------------------------------------------------------

  /** A match needs its first two literal characters at `i` and `i + 1`. */
  lemma MarkerStart(rule: Recognizer, s: string, i: nat)
    ensures MarkerAt(rule, s, i) ==> i + 1 < |s|
    ensures MarkerAt(rule, s, i) && rule == FilePath ==> s[i] == '/' && s[i + 1] == 'f'
    ensures MarkerAt(rule, s, i) && rule == IdParam ==> (s[i] == '?' || s[i] == '&') && s[i + 1] == 'i'
  {
    if MarkerAt(rule, s, i) {
      match rule
      case FilePath => assert s[i..i + 8][0] == s[i] && s[i..i + 8][1] == s[i + 1];
      case IdParam => assert s[i + 1..i + 4][0] == s[i + 1];
    }
  }

  /** No recognizer matches inside a run of id characters. */
  lemma NoMarkerInId(s: string)
    requires AllIdChars(s)
    ensures Recognize(FilePath, s).None? && Recognize(IdParam, s).None?
  {
    forall j: nat ensures !MarkerAt(FilePath, s, j) && !MarkerAt(IdParam, s, j) {
      MarkerStart(FilePath, s, j);
      MarkerStart(IdParam, s, j);
      if j < |s| { assert IsIdChar(s[j]); }
    }
  }

  /** A canonical id (id characters only) is its own id. */
  lemma CanonicalIdKept(id: string)
    requires id != [] && AllIdChars(id)
    ensures ExtractDriveId(Some(id)) == Some(id)
  {
    assert IsIdChar(id[0]) && IsIdChar(id[|id| - 1]);
    TrimIdempotent(id);
    NoMarkerInId(id);
  }

  /** A bare token without `/` and longer than 20 UTF-16 units is taken whole, whatever it contains. */
  lemma BareTokenKept(token: string)
    requires token != [] && !IsSpace(token[0]) && !IsSpace(token[|token| - 1])
    requires '/' !in token && Utf16Length(token) > 20
    ensures ExtractDriveId(Some(token)) == Some(token)
  {
    TrimIdempotent(token);
    forall j: nat ensures !MarkerAt(FilePath, token, j) {
      MarkerStart(FilePath, token, j);
    }
  }

  /** Nowhere in `s` is an `a` directly followed by a `b`. */
  predicate NoPair(s: string, a: char, b: char) {
    forall k | 0 <= k < |s| - 1 :: !(s[k] == a && s[k + 1] == b)
  }

  /** A string lacking either character has no such pair. */
  lemma NoPairMissing(s: string, a: char, b: char)
    requires a !in s || b !in s
    ensures NoPair(s, a, b)
  {
    forall k | 0 <= k < |s| - 1 ensures !(s[k] == a && s[k + 1] == b) {
      assert s[k] in s && s[k + 1] in s;
    }
  }

  /** Pairs in a concatenation lie in one part or straddle the junction. */
  lemma NoPairConcat(x: string, y: string, a: char, b: char)
    requires NoPair(x, a, b) && NoPair(y, a, b)
    requires x == [] || y == [] || !(x[|x| - 1] == a && y[0] == b)
    ensures NoPair(x + y, a, b)
  {
    var s := x + y;
    forall k | 0 <= k < |s| - 1 ensures !(s[k] == a && s[k + 1] == b) {
      if k + 1 < |x| {
        assert s[k] == x[k] && s[k + 1] == x[k + 1];
      } else if k + 1 == |x| {
        assert s[k] == x[k] && s[k + 1] == y[0];
      } else {
        assert s[k] == y[k - |x|] && s[k + 1] == y[k + 1 - |x|];
      }
    }
  }

  /** No recognizer matches where its first two characters never meet in the first `m` characters of `s`. */
  lemma NoMarkerBefore(rule: Recognizer, s: string, m: nat, a: char, a2: char, b: char)
    requires m <= |s|
    requires NoPair(s[..m], a, b) && NoPair(s[..m], a2, b)
    requires rule == FilePath ==> a == '/' && a2 == '/' && b == 'f'
    requires rule == IdParam ==> a == '?' && a2 == '&' && b == 'i'
    ensures forall j | 0 <= j < m - 1 :: !MarkerAt(rule, s, j)
  {
    forall j | 0 <= j < m - 1 ensures !MarkerAt(rule, s, j) {
      MarkerStart(rule, s, j);
      assert s[..m][j] == s[j] && s[..m][j + 1] == s[j + 1];
    }
  }

  /** A view link has no white space at its ends. */
  lemma ViewLinkTrimmed(id: string)
    ensures var s := Utils.ViewPrefix + id + Utils.ViewSuffix; Trim(s) == s
  {
    var s := Utils.ViewPrefix + id + Utils.ViewSuffix;
    assert s[0] == Utils.ViewPrefix[0];
    assert s[|s| - 1] == Utils.ViewSuffix[|Utils.ViewSuffix| - 1];
    TrimIdempotent(s);
  }

  /** In a view link, the leftmost `/file/d/` match is the one the template puts at index 24. */
  lemma ViewLinkFirstMarker(id: string)
    requires id != [] && AllIdChars(id)
    ensures FirstMarker(FilePath, Utils.ViewPrefix + id + Utils.ViewSuffix, 0) == Some(24)
  {
    var h := Utils.DriveHost;
    var s := Utils.ViewPrefix + id + Utils.ViewSuffix;
    ViewLinkLayout(id);
    NoPairMissing(h + "/", '/', 'f');
    NoMarkerBefore(FilePath, s, 25, '/', '/', 'f');
    assert MarkerAt(FilePath, s, 24);
    FirstMarkerSkips(FilePath, s, 0, 24);
  }

  /** Where the host, the `/file/d/` marker and the id sit in a view link. */
  lemma ViewLinkLayout(id: string)
    requires id != []
    ensures var s := Utils.ViewPrefix + id + Utils.ViewSuffix;
      && |s| > 32 && s[..25] == Utils.DriveHost + "/" && s[24..32] == "/file/d/" && s[32] == id[0]
  {
    var s := Utils.ViewPrefix + id + Utils.ViewSuffix;
    assert |Utils.DriveHost| == 24 && |Utils.ViewPrefix| == 32;
    assert s[..32] == Utils.ViewPrefix;
    assert s[..25] == Utils.ViewPrefix[..25];
    assert s[24..32] == Utils.ViewPrefix[24..32];
  }

  /** The view link of a canonical id gives the id back. */
  lemma ViewUrlRoundTrip(id: string)
    requires id != [] && AllIdChars(id)
    ensures ExtractDriveId(Some(Utils.ViewPrefix + id + Utils.ViewSuffix)) == Some(id)
  {
    var h := Utils.DriveHost;
    var s := Utils.ViewPrefix + id + Utils.ViewSuffix;
    ViewLinkTrimmed(id);
    ViewLinkFirstMarker(id);
    assert |Utils.ViewPrefix| == 32;
    DropPrefix(Utils.ViewPrefix, id, Utils.ViewSuffix);
    IdRunStops(id, Utils.ViewSuffix);
  }

  /** What follows a prefix is the rest of the text. */
  lemma DropPrefix(p: string, x: string, y: string)
    ensures (p + x + y)[|p|..] == x + y
  {
  }

  /** A download link has no white space at its ends. */
  lemma DownloadLinkTrimmed(id: string)
    requires id != [] && AllIdChars(id)
    ensures var s := Utils.DownloadPrefix + id; Trim(s) == s
  {
    var s := Utils.DownloadPrefix + id;
    assert s[0] == Utils.DownloadPrefix[0];
    assert s[|s| - 1] == id[|id| - 1] && IsIdChar(id[|id| - 1]);
    TrimIdempotent(s);
  }

  /** A download link never matches `/file/d/`: the prefix has no `f` and the id no `/`. */
  lemma DownloadLinkNoFilePath(id: string)
    requires AllIdChars(id)
    ensures Recognize(FilePath, Utils.DownloadPrefix + id).None?
  {
    var p := Utils.DownloadPrefix;
    var s := p + id;
    NoPairMissing(p, '/', 'f');
    IdNoSlash(id);
    assert p[|p| - 1] == '=';
    NoPairConcat(p, id, '/', 'f');
    assert s[..|s|] == s;
    NoMarkerBefore(FilePath, s, |s|, '/', '/', 'f');
    forall j: nat ensures !MarkerAt(FilePath, s, j) {
      MarkerStart(FilePath, s, j);
    }
  }

  /** An id has no `/`, so no `/f` pair. */
  lemma IdNoSlash(id: string)
    requires AllIdChars(id)
    ensures NoPair(id, '/', 'f')
  {
    forall k | 0 <= k < |id| ensures id[k] != '/' {
      assert IsIdChar(id[k]);
    }
    NoPairMissing(id, '/', 'f');
  }

  /** In a download link, the leftmost `?id=`/`&id=` match is the template's `&id=` at index 43. */
  lemma DownloadLinkFirstParam(id: string)
    requires id != [] && AllIdChars(id)
    ensures FirstMarker(IdParam, Utils.DownloadPrefix + id, 0) == Some(43)
  {
    var s := Utils.DownloadPrefix + id;
    DownloadHeadNoParam();
    assert s[..44] == Utils.DriveHost + Utils.DownloadPath + "&";
    NoMarkerBefore(IdParam, s, 44, '?', '&', 'i');
    DownloadMarker(id);
    FirstMarkerSkips(IdParam, s, 0, 43);
  }

  /** The download template up to its `&` holds no `?i` and no `&i` pair. */
  lemma DownloadHeadNoParam()
    ensures var q := Utils.DriveHost + Utils.DownloadPath + "&";
      |q| == 44 && NoPair(q, '?', 'i') && NoPair(q, '&', 'i')
  {
    DownloadHeadNoPair('?');
    DownloadHeadNoPair('&');
  }

  /** The same for one of the two marker starts. */
  lemma DownloadHeadNoPair(a: char)
    requires a == '?' || a == '&'
    ensures NoPair(Utils.DriveHost + Utils.DownloadPath + "&", a, 'i')
  {
    var h := Utils.DriveHost;
    var q := h + Utils.DownloadPath;
    NoPairMissing(h, a, 'i');
    NoPairMissing(Utils.DownloadPath, a, 'i');
    NoPairConcat(h, Utils.DownloadPath, a, 'i');
    NoPairMissing("&", a, 'i');
    NoPairConcat(q, "&", a, 'i');
  }

  /** The template's `&id=` at index 43 is followed by the id. */
  lemma DownloadMarker(id: string)
    requires id != [] && AllIdChars(id)
    ensures MarkerAt(IdParam, Utils.DownloadPrefix + id, 43)
  {
    var s := Utils.DownloadPrefix + id;
    assert s[43..47] == "&id=";
    assert s[47] == id[0];
  }

  /** The `id=` parameter of a download link is the id; the link has a `/`. */
  lemma DownloadLinkIdParam(id: string)
    requires id != [] && AllIdChars(id)
    ensures Recognize(IdParam, Utils.DownloadPrefix + id) == Some(id)
    ensures '/' in Utils.DownloadPrefix + id
  {
    var s := Utils.DownloadPrefix + id;
    DownloadLinkFirstParam(id);
    assert s[47..] == id + [];
    IdRunStops(id, []);
    assert s[6] == '/';
  }

  /** The download link of a canonical id gives the id back. */
  lemma DownloadUrlRoundTrip(id: string)
    requires id != [] && AllIdChars(id)
    ensures ExtractDriveId(Some(Utils.DownloadPrefix + id)) == Some(id)
  {
    DownloadLinkTrimmed(id);
    DownloadLinkNoFilePath(id);
    DownloadLinkIdParam(id);
    ExtractByIdParam(Utils.DownloadPrefix + id);
  }

  /** A trimmed reference with a `/`, no `/file/d/` match and an `id=` match gives the parameter's value. */
  lemma ExtractByIdParam(t: string)
    requires Trim(t) == t && '/' in t
    requires Recognize(FilePath, t).None? && Recognize(IdParam, t).Some?
    ensures ExtractDriveId(Some(t)) == Recognize(IdParam, t)
  {
    assert !IsBlank(t);
  }

  /** The leftmost search from `from` passes over a stretch without matches. */
  lemma {:induction false} FirstMarkerSkips(rule: Recognizer, s: string, from: nat, to: nat)
    requires from <= to
    requires forall j | from <= j < to :: !MarkerAt(rule, s, j)
    ensures FirstMarker(rule, s, from) == FirstMarker(rule, s, to)
  {
    if from < to {
      FirstMarkerSkips(rule, s, from, to - 1);
      assert !MarkerAt(rule, s, to - 1);
    }
  }

  /** Building either link from an extracted canonical id and extracting again is stable. */
  lemma ExtractedIdStable(input: Option<string>)
    requires ExtractDriveId(input).Some? && AllIdChars(ExtractDriveId(input).value)
    ensures ExtractDriveId(DriveViewUrl(input)) == ExtractDriveId(input)
    ensures ExtractDriveId(DriveDownloadUrl(input)) == ExtractDriveId(input)
  {
    var id := ExtractDriveId(input).value;
    ViewUrlRoundTrip(id);
    DownloadUrlRoundTrip(id);
  }

  // ---------------------------------------------------------------------------
  // Dates
  // ---------------------------------------------------------------------------

  predicate IsDigit(c: char) {
    '0' <= c <= '9'
  }

  /** `\d{4}-\d{2}-\d{2}` at index `i`. */
  predicate FullDateAt(s: string, i: nat) {
    && i + 10 <= |s|
    && IsDigit(s[i]) && IsDigit(s[i + 1]) && IsDigit(s[i + 2]) && IsDigit(s[i + 3])
    && s[i + 4] == '-' && IsDigit(s[i + 5]) && IsDigit(s[i + 6])
    && s[i + 7] == '-' && IsDigit(s[i + 8]) && IsDigit(s[i + 9])
  }

  /** `\d{4}` at index `i`. */
  predicate YearAt(s: string, i: nat) {
    i + 4 <= |s| && IsDigit(s[i]) && IsDigit(s[i + 1]) && IsDigit(s[i + 2]) && IsDigit(s[i + 3])
  }

  /**
   * `/^(\d{4}-\d{2}-\d{2})|(\d{4})$/` as written: the start anchor binds only the
   * first alternative and the end anchor only the second, so the test passes
   * when the text STARTS with a full date or ENDS with four digits.
   */
  predicate DateRegex(s: string) {
    FullDateAt(s, 0) || (|s| >= 4 && YearAt(s, |s| - 4))
  }

  /** The formats the comment documents: exactly `YYYY-MM-DD` or exactly `YYYY`. */
  predicate DocumentedDate(s: string) {
    (|s| == 10 && FullDateAt(s, 0)) || (|s| == 4 && YearAt(s, 0))
  }

  /**
   * `isValidDate`: false for a missing or empty value; otherwise the regular
   * expression must match and the text must parse as a JavaScript `Date`
   * (`dateParses`, which stands for the `Date` constructor).
   */
  function IsValidDate(dateString: Option<string>, dateParses: string -> bool): (b: bool)
    ensures b ==> Truthy(dateString) && DateRegex(dateString.value)
    ensures Truthy(dateString) && DateRegex(dateString.value) ==> (b <==> dateParses(dateString.value))
  {
    if !Truthy(dateString) then false
    else if !DateRegex(dateString.value) then false
    else dateParses(dateString.value)
  }

  /** Every documented format passes the regular expression. */
  lemma DocumentedDatesMatch(s: string)
    requires DocumentedDate(s)
    ensures DateRegex(s)
  {
  }

  /** The half-anchored expression also lets through texts that only begin with a date or only end in a year. */
  lemma DateRegexHalfAnchored()
    ensures DateRegex("2024-01-15T10:00:00Z") && !DocumentedDate("2024-01-15T10:00:00Z")
    ensures DateRegex("15/01/2024") && !DocumentedDate("15/01/2024")
    ensures !DateRegex("2024/01/15")
  {
    var a := "2024-01-15T10:00:00Z";
    assert FullDateAt(a, 0);
    var b := "15/01/2024";
    assert YearAt(b, 6);
    var c := "2024/01/15";
    assert c[4] == '/' && c[7] == '/';
  }
}
