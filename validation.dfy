/**
 * Athlete-name validation: input sanitisation, name normalisation, the
 * similarity shortcut, the choice among search candidates and the mapping of
 * everything the entity resolver learnt onto its eight-field result.
 *
 * The network calls (entity search, SPARQL verification, label lookup) are not
 * modelled: what they returned, or the fact that they raised, is a parameter.
 * So are the two foreign functions, `unidecode` (`translit`) and rapidfuzz's
 * `partial_ratio` (`ratio`).
 */
module Validation {
  import opened Common
  import opened Text

  const MinNameLength := 2
  const MaxNameLength := 100
  /** Minimum partial_ratio, out of 100, for a submitted name to match the canonical one. */
  const NameSimilarityThreshold := 45

  // ---------------------------------------------------------------------------
  // sanitize_athlete_name

  /** The letters the sanitiser keeps: ASCII, U+00C0-U+024F and U+1E00-U+1EFF. */
  predicate IsNameLetter(c: char) {
    ('a' <= c <= 'z') || ('A' <= c <= 'Z') || ('\U{C0}' <= c <= '\U{24F}') || ('\U{1E00}' <= c <= '\U{1EFF}')
  }

  /** The character class the sanitiser keeps: name letters, whitespace, `-`, `'`, `.` and `,`. */
  predicate KeepChar(c: char) {
    IsNameLetter(c) || IsSpace(c) || c == '-' || c == '\'' || c == '.' || c == ','
  }

  /** Characters that mark code rather than a name. */
  predicate IsCodeChar(c: char) {
    c == '{' || c == '}' || c == '[' || c == ']' || c == '<' || c == '>'
    || c == '|' || c == '\\' || c == ';' || c == '`'
  }

  /**
   * Python's `\w` on the characters this model knows: ASCII letters, digits and `_`,
   * the Latin-1 letters and digits, Latin Extended-A and -B, Latin Extended Additional
   * and the Kelvin sign.
   */
  predicate IsWordChar(c: char) {
    ('a' <= c <= 'z') || ('A' <= c <= 'Z') || ('0' <= c <= '9') || c == '_'
    || c == '\U{AA}' || c == '\U{B2}' || c == '\U{B3}' || c == '\U{B5}' || c == '\U{B9}' || c == '\U{BA}'
    || ('\U{BC}' <= c <= '\U{BE}')
    || ('\U{C0}' <= c <= '\U{24F}' && c != '\U{D7}' && c != '\U{F7}')
    || ('\U{1E00}' <= c <= '\U{1EFF}') || c == '\U{212A}'
  }

  /**
   * `c` matches the lower-case ASCII pattern character `p` under `re.IGNORECASE`,
   * including Python's extra equivalences for `i`, `s` and `k`.
   */
  predicate MatchesIgnoringCase(c: char, p: char) {
    c == p
    || ('a' <= p <= 'z' && c == (p as int - 32) as char)
    || (p == 'i' && (c == '\U{130}' || c == '\U{131}'))
    || (p == 's' && c == '\U{17F}')
    || (p == 'k' && c == '\U{212A}')
  }

  /** The lower-case pattern `pat` matches `s` at position `i`, ignoring case. */
  predicate MatchesAt(s: string, i: nat, pat: string) {
    i + |pat| <= |s| && forall j :: 0 <= j < |pat| ==> MatchesIgnoringCase(s[i + j], pat[j])
  }

  /** `re.search(pat, s, re.IGNORECASE)` for a literal lower-case pattern. */
  predicate ContainsIgnoringCase(s: string, pat: string) {
    exists i: nat :: i <= |s| && MatchesAt(s, i, pat)
  }

  /** `https?://|www\.` occurs, ignoring case. */
  predicate HasUrl(s: string) {
    ContainsIgnoringCase(s, "http://") || ContainsIgnoringCase(s, "https://") || ContainsIgnoringCase(s, "www.")
  }

  const QueryKeywords: seq<string> := ["select", "insert", "update", "delete", "drop", "where", "filter", "union"]

  /** `kw` occurs at `i` as a whole word (`\b` on both sides), ignoring case. */
  predicate WholeWordAt(s: string, i: nat, kw: string) {
    MatchesAt(s, i, kw)
    && (i == 0 || !IsWordChar(s[i - 1]))
    && (i + |kw| == |s| || !IsWordChar(s[i + |kw|]))
  }

  /** `\b(SELECT|INSERT|UPDATE|DELETE|DROP|WHERE|FILTER|UNION)\b` occurs, ignoring case. */
  predicate HasQueryKeyword(s: string) {
    exists i: nat, k :: i <= |s| && 0 <= k < |QueryKeywords| && WholeWordAt(s, i, QueryKeywords[k])
  }

  /** Underscores without any space: the shape of a wiki page title. */
  predicate LooksLikeTitle(s: string) {
    '_' in s && ' ' !in s
  }

  /** Every format check the sanitiser makes on the stripped input passes. */
  predicate FormatOk(s: string) {
    !LooksLikeTitle(s) && !HasUrl(s) && (forall i :: 0 <= i < |s| ==> !IsCodeChar(s[i])) && !HasQueryKeyword(s)
  }

  /** `re.sub(r"[^a-zA-ZÀ-ɏḀ-ỿ\s\-'.,]+", "", s)`. */
  function FilterChars(s: string): (r: string)
    ensures AllChars(r, KeepChar)
  {
    if s == [] then []
    else (if KeepChar(s[0]) then [s[0]] else []) + FilterChars(s[1..])
  }

  lemma {:induction false} FilterCharsIdentity(s: string)
    requires AllChars(s, KeepChar)
    ensures FilterChars(s) == s
  {
    if s != [] {
      assert AllChars(s[1..], KeepChar);
      FilterCharsIdentity(s[1..]);
      assert s == [s[0]] + s[1..];
    }
  }

  predicate HasNameLetter(s: string) {
    exists i :: 0 <= i < |s| && IsNameLetter(s[i])
  }

  /**
   * What a successful sanitisation returns: at least two characters, only name
   * letters, single inner spaces, `-`, `'`, `.` and `,`, and at least one letter.
   */
  predicate CleanName(s: string) {
    |s| >= MinNameLength && SingleSpaced(s) && AllChars(s, KeepChar) && HasNameLetter(s)
  }

  /** The triple `(is_valid, sanitized_name, error_message)` of sanitize_athlete_name. */
  datatype SanitizeResult = SanitizeResult(isValid: bool, sanitized: string, error: Option<string>)

  function SanitizeAthleteName(name: string): (r: SanitizeResult)
    ensures r.isValid <==> r.error.None?
    ensures name == "" ==> r == SanitizeResult(false, "", Some("Invalid input"))
    ensures r.isValid ==> CleanName(r.sanitized)
    ensures r.isValid ==> MinNameLength <= |Strip(name)| <= MaxNameLength && FormatOk(Strip(name))
  {
    if name == "" then SanitizeResult(false, "", Some("Invalid input"))
    else
      var n := Strip(name);
      if |n| < MinNameLength then SanitizeResult(false, n, Some("Name too short"))
      else if |n| > MaxNameLength then SanitizeResult(false, n, Some("Name too long"))
      else if LooksLikeTitle(n) then SanitizeResult(false, n, Some("Invalid name format"))
      else if HasUrl(n) then SanitizeResult(false, n, Some("URLs not allowed"))
      else if exists i :: 0 <= i < |n| && IsCodeChar(n[i]) then SanitizeResult(false, n, Some("Invalid characters in name"))
      else if HasQueryKeyword(n) then SanitizeResult(false, n, Some("Invalid input"))
      else
        var f := FilterChars(n);
        var c := Collapse(f);
        CollapseShape(f);
        CollapseKeepChars(f, KeepChar);
        if |c| < MinNameLength then SanitizeResult(false, c, Some("Name contains too many invalid characters"))
        else if !HasNameLetter(c) then SanitizeResult(false, c, Some("Name must contain letters"))
        else SanitizeResult(true, c, None)
  }

  /** The length checks run on the stripped input, before any format check. */
  lemma SanitizeLengthChecks(name: string)
    requires name != ""
    ensures |Strip(name)| < MinNameLength ==>
      SanitizeAthleteName(name) == SanitizeResult(false, Strip(name), Some("Name too short"))
    ensures MinNameLength <= |Strip(name)| && |Strip(name)| > MaxNameLength ==>
      SanitizeAthleteName(name) == SanitizeResult(false, Strip(name), Some("Name too long"))
  {
  }

  /** A name that already has the clean shape and passes every format check comes back unchanged. */
  lemma SanitizeKeepsCleanName(name: string)
    requires name != "" && CleanName(Strip(name)) && |Strip(name)| <= MaxNameLength && FormatOk(Strip(name))
    ensures SanitizeAthleteName(name) == SanitizeResult(true, Strip(name), None)
  {
    var n := Strip(name);
    FilterCharsIdentity(n);
    CollapseFixpoint(n);
  }

  // ---------------------------------------------------------------------------
  // normalize_name and check_name_similarity

  /**
   * `unidecode(" ".join(name.lower().strip().split()))`; the transliteration
   * `translit` is a parameter.
   */
  function NormalizeName(name: string, translit: string -> string): string {
    translit(Collapse(Strip(Lower(name))))
  }

  function Identity(s: string): string { s }

  predicate IsLowerFixed(c: char) {
    LowerChar(c) == c
  }

  /**
   * Before transliteration the normalised name is lower case and single-spaced,
   * so normalising it again changes nothing.
   */
  /** Every character left after lower-casing and stripping is a fixed point of lower-casing. */
  lemma StripLowerFixed(name: string)
    ensures AllChars(Strip(Lower(name)), IsLowerFixed)
  {
    var l := Strip(Lower(name));
    forall i | 0 <= i < |l| ensures IsLowerFixed(l[i]) {
      var d := DropSpaces(Lower(name));
      assert l == d[..|l|];
      var start := |Lower(name)| - |d|;
      assert d == Lower(name)[start..];
      assert l[i] == Lower(name)[start + i];
      LowerCharIdempotent(name[start + i]);
    }
  }

  lemma NormalizeIdempotent(name: string)
    ensures SingleSpaced(NormalizeName(name, Identity))
    ensures Lower(NormalizeName(name, Identity)) == NormalizeName(name, Identity)
    ensures NormalizeName(NormalizeName(name, Identity), Identity) == NormalizeName(name, Identity)
  {
    var l := Strip(Lower(name));
    var c := Collapse(l);
    assert NormalizeName(name, Identity) == c;
    StripLowerFixed(name);
    CollapseShape(l);
    CollapseKeepsLowerFixed(l);
    LowerOfFixed(c);
    StripSingleSpaced(c);
    CollapseFixpoint(c);
    assert NormalizeName(c, Identity) == Collapse(Strip(Lower(c)));
  }

  lemma CollapseKeepsLowerFixed(s: string)
    requires AllChars(s, IsLowerFixed)
    ensures AllChars(Collapse(s), IsLowerFixed)
  {
    assert IsLowerFixed(' ');
    CollapseKeepChars(s, IsLowerFixed);
  }

  /** Lower-casing a string of fixed points changes nothing. */
  lemma LowerOfFixed(s: string)
    requires AllChars(s, IsLowerFixed)
    ensures Lower(s) == s
  {
  }

  /**
   * check_name_similarity: exact match or containment of the normalised forms,
   * otherwise `ratio` (rapidfuzz's partial_ratio) at least the threshold.
   */
  function CheckNameSimilarity(submitted: string, canonical: string,
                               translit: string -> string, ratio: (string, string) -> int): (r: bool)
    ensures var a, b := NormalizeName(submitted, translit), NormalizeName(canonical, translit);
      (IsSubstring(a, b) || IsSubstring(b, a)) ==> r
  {
    var a := NormalizeName(submitted, translit);
    var b := NormalizeName(canonical, translit);
    if a == b then true
    else if IsSubstring(a, b) || IsSubstring(b, a) then true
    else ratio(a, b) >= NameSimilarityThreshold
  }

  /** On the exact and containment branches the check is symmetric. */
  lemma SimilaritySymmetricOnContainment(x: string, y: string,
                                         translit: string -> string, ratio: (string, string) -> int)
    requires var a, b := NormalizeName(x, translit), NormalizeName(y, translit);
      a == b || IsSubstring(a, b) || IsSubstring(b, a)
    ensures CheckNameSimilarity(x, y, translit, ratio) && CheckNameSimilarity(y, x, translit, ratio)
  {
  }

  // ---------------------------------------------------------------------------
  // search_wikidata_person: choosing among the search candidates

  /** One entry of the entity search reply: its `id` (maybe absent) and its `description` ("" if absent). */
  datatype SearchHit = SearchHit(id: Option<string>, description: string)

  /** `(entity_id, multiple_matches_found, all_matching_entity_ids)`. */
  datatype SearchResult = SearchResult(personId: Option<string>, multipleMatches: bool, allMatches: seq<string>)

  /** Single-word names are searched with 10 results, longer names with 5. */
  function SearchLimit(name: string): nat {
    if |Words(Strip(name))| == 1 then 10 else 5
  }

  /** `[r.get("id") for r in results if r.get("id")]`. */
  function CandidateIds(results: seq<SearchHit>): (ids: seq<string>)
    ensures forall x :: x in ids <==> exists i :: 0 <= i < |results| && Truthy(results[i].id) && results[i].id.value == x
  {
    if results == [] then []
    else (if Truthy(results[0].id) then [results[0].id.value] else []) + CandidateIds(results[1..])
  }

  /** The candidates keep search order: those of a concatenation are those of each part, in turn. */
  lemma {:induction false} CandidateIdsAppend(a: seq<SearchHit>, b: seq<SearchHit>)
    ensures CandidateIds(a + b) == CandidateIds(a) + CandidateIds(b)
    decreases |a|
  {
    if a == [] {
      assert a + b == b;
    } else {
      assert (a + b)[0] == a[0] && (a + b)[1..] == a[1..] + b;
      CandidateIdsAppend(a[1..], b);
    }
  }

  /** `candidate_ids[0]` is the id of the first search hit, in search order, that has one. */
  lemma {:induction false} CandidateIdsFirst(results: seq<SearchHit>, i: nat)
    requires i < |results| && Truthy(results[i].id)
    requires forall j :: 0 <= j < i ==> !Truthy(results[j].id)
    ensures CandidateIds(results) != [] && CandidateIds(results)[0] == results[i].id.value
  {
    if i > 0 {
      CandidateIdsFirst(results[1..], i - 1);
    }
  }

  /**
   * The SPARQL verification as the search sees it: no query (and so an empty,
   * successful answer) unless some candidate looks like a Q-ID.
   */
  function VerifyCandidates(candidates: seq<string>, reply: Fallible<seq<string>>): Fallible<seq<string>> {
    if exists i :: 0 <= i < |candidates| && |candidates[i]| > 0 && candidates[i][0] == 'Q' then reply
    else Returned([])
  }

  /** A search hit is kept by the hint when it is verified and its description contains the hint. */
  predicate HintKeeps(hit: SearchHit, verified: seq<string>, hint: string) {
    hit.id.Some? && hit.id.value in verified && IsSubstring(Lower(hint), Lower(hit.description))
  }

  /** The hint-narrowing loop of search_wikidata_person, as the list it accumulates. */
  function HintMatches(results: seq<SearchHit>, verified: seq<string>, hint: string): (matches: seq<string>)
    ensures forall x :: x in matches ==> x in verified
    ensures forall x :: x in matches <==>
      exists i :: 0 <= i < |results| && HintKeeps(results[i], verified, hint) && results[i].id.value == x
    ensures |matches| <= |results|
  {
    if results == [] then []
    else
      (if HintKeeps(results[0], verified, hint) then [results[0].id.value] else [])
      + HintMatches(results[1..], verified, hint)
  }

  /** The first hint match is the first search hit, in search order, that the hint keeps. */
  lemma {:induction false} HintMatchesFirst(results: seq<SearchHit>, verified: seq<string>, hint: string, i: nat)
    requires i < |results| && HintKeeps(results[i], verified, hint)
    requires forall j :: 0 <= j < i ==> !HintKeeps(results[j], verified, hint)
    ensures HintMatches(results, verified, hint) != []
    ensures HintMatches(results, verified, hint)[0] == results[i].id.value
  {
    if i > 0 {
      HintMatchesFirst(results[1..], verified, hint, i - 1);
    }
  }

  /**
   * What every answer of search_wikidata_person satisfies: several matches are
   * reported with the first of them as the person, and a person reported with
   * matches is one of them.
   */
  predicate ConsistentSearch(r: SearchResult) {
    (r.multipleMatches ==> |r.allMatches| > 1 && r.personId == Some(r.allMatches[0]))
    && (r.allMatches != [] ==> r.personId.Some? && r.personId.value in r.allMatches)
  }

  /** The choice made once the verified candidates are known. */
  function ChooseCandidate(results: seq<SearchHit>, candidates: seq<string>, verified: seq<string>,
                           hint: Option<string>): (r: SearchResult)
    ensures ConsistentSearch(r)
    ensures r.allMatches == [] <==> verified == []
    ensures verified != [] ==> r.personId.Some? && r.personId.value in verified
    ensures |verified| == 1 ==> r == SearchResult(Some(verified[0]), false, verified)
    ensures verified == [] ==> r == SearchResult(if candidates != [] then Some(candidates[0]) else None, false, [])
    ensures |verified| > 1 && !Truthy(hint) ==> r == SearchResult(Some(verified[0]), true, verified)
  {
    if verified == [] then
      SearchResult(if candidates != [] then Some(candidates[0]) else None, false, [])
    else if |verified| > 1 then
      var hm := if Truthy(hint) then HintMatches(results, verified, hint.value) else [];
      if |hm| == 1 then SearchResult(Some(hm[0]), false, verified)
      else if |hm| > 1 then SearchResult(Some(hm[0]), true, hm)
      else SearchResult(Some(verified[0]), true, verified)
    else SearchResult(Some(verified[0]), false, verified)
  }

  /**
   * search_wikidata_person over what the services returned: `first` is the
   * reply to the search with SearchLimit(name) results and `firstVerified` the
   * SPARQL verification of its candidates; `expanded` and `expandedVerified`
   * are the same for the wider search with 10 results, consulted only when
   * nothing was verified and the first search asked for fewer than 10.
   */
  function SearchWikidataPerson(name: string, hint: Option<string>,
                                first: Fallible<seq<SearchHit>>, firstVerified: Fallible<seq<string>>,
                                expanded: Fallible<seq<SearchHit>>, expandedVerified: Fallible<seq<string>>)
    : (r: Fallible<SearchResult>)
    ensures r.Returned? ==> ConsistentSearch(r.value)
    ensures first.Raised? ==> r.Raised?
    ensures first == Returned([]) ==> r == Returned(SearchResult(None, false, []))
    ensures first.Returned? && CandidateIds(first.value) == [] ==> r == Returned(SearchResult(None, false, []))
    ensures first.Returned? && CandidateIds(first.value) != [] ==>
      var c := CandidateIds(first.value);
      match VerifyCandidates(c, firstVerified)
      case Raised => r.Raised?
      case Returned(v) =>
        if v != [] || SearchLimit(name) == 10 then r == Returned(ChooseCandidate(first.value, c, v, hint))
        else if expanded.Raised? then r.Raised?
        else
          var c2 := CandidateIds(expanded.value);
          match VerifyCandidates(c2, expandedVerified)
          case Raised => r.Raised?
          case Returned(v2) => r == Returned(ChooseCandidate(expanded.value, c2, v2, hint))
  {
    match first
    case Raised => Raised
    case Returned(results) =>
      var candidates := CandidateIds(results);
      if results == [] || candidates == [] then Returned(SearchResult(None, false, []))
      else
        match VerifyCandidates(candidates, firstVerified)
        case Raised => Raised
        case Returned(verified) =>
          if verified != [] || SearchLimit(name) >= 10 then
            Returned(ChooseCandidate(results, candidates, verified, hint))
          else
            match expanded
            case Raised => Raised
            case Returned(results2) =>
              var candidates2 := CandidateIds(results2);
              match VerifyCandidates(candidates2, expandedVerified)
              case Raised => Raised
              case Returned(verified2) => Returned(ChooseCandidate(results2, candidates2, verified2, hint))
  }

  /** How a hint narrows several verified candidates. */
  lemma HintNarrowing(results: seq<SearchHit>, candidates: seq<string>, verified: seq<string>, hint: string)
    requires |verified| > 1 && hint != ""
    ensures var hm := HintMatches(results, verified, hint);
      var r := ChooseCandidate(results, candidates, verified, Some(hint));
      (|hm| == 1 ==> r == SearchResult(Some(hm[0]), false, verified))
      && (|hm| > 1 ==> r == SearchResult(Some(hm[0]), true, hm))
      && (hm == [] ==> r == SearchResult(Some(verified[0]), true, verified))
  {
  }

  // ---------------------------------------------------------------------------
  // validate_athlete_full

  /**
   * The eight-field result of validate_athlete_full: `(is_valid, error,
   * validated_sports, api_succeeded, entity_id, multiple_matches,
   * canonical_name, all_matching_ids)`.
   */
  datatype ValidationResult = ValidationResult(
    isValid: bool, error: Option<string>, validatedSports: Option<seq<string>>, apiSucceeded: bool,
    entityId: Option<string>, multipleMatches: bool, canonicalName: Option<string>, allMatchingIds: seq<string>)

  function Rejection(error: string): ValidationResult {
    ValidationResult(false, Some(error), None, true, None, false, None, [])
  }

  const ServiceFailure := ValidationResult(false, Some("validation_failed"), None, false, None, false, None, [])

  /** The invariant every result of validate_athlete_full satisfies. */
  predicate WellFormedResult(r: ValidationResult) {
    (r.isValid ==> r.error.None? && Truthy(r.entityId) && !r.multipleMatches)
    && (!r.isValid ==> r.error.Some?)
    && (r.apiSucceeded <==> r.error != Some("validation_failed"))
    && (r.multipleMatches <==> r.error == Some("disambiguation_required"))
    && (r.multipleMatches ==> Truthy(r.entityId) && |r.allMatchingIds| > 1)
  }

  /**
   * validate_athlete_full over the services' replies: `search` is what
   * search_wikidata_person returned, `athleteCheck` the answer of
   * verify_is_athlete for the found person, `canonical` the label lookup
   * (which never raises) and `sportLabels` the sport cache's Q-ID index.
   */
  function ValidateAthleteFull(name: string, sportQid: string, hint: Option<string>,
                               search: Fallible<SearchResult>, athleteCheck: Fallible<(bool, seq<string>)>,
                               canonical: Option<string>, sportLabels: map<string, string>,
                               translit: string -> string, ratio: (string, string) -> int)
    : (r: ValidationResult)
    requires search.Returned? ==> ConsistentSearch(search.value)
    ensures WellFormedResult(r)
    ensures search.Raised? ==> r == ServiceFailure
    ensures r.isValid ==> search.Returned? && r.entityId == search.value.personId
    ensures r.error == Some("wrong_sport") || r.error == Some("invalid_athlete") ==> r.entityId.None?
    ensures search.Returned? && !Truthy(search.value.personId) ==> r == Rejection("invalid_athlete")
    ensures search.Returned? && Truthy(search.value.personId) && search.value.allMatches == [] ==>
      match athleteCheck
      case Raised => r == ServiceFailure
      case Returned(check) =>
        (!check.0 ==> r == Rejection("invalid_athlete"))
        && (check.0 ==> !r.isValid && r.error == Some("wrong_sport") && r.validatedSports == Some(check.1))
    ensures search.Returned? && Truthy(search.value.personId) && search.value.allMatches != []
            && search.value.multipleMatches && !Truthy(hint) ==>
      r.error == Some("disambiguation_required") && r.entityId == search.value.personId
      && r.allMatchingIds == search.value.allMatches
    ensures search.Returned? && Truthy(search.value.personId) && search.value.allMatches != []
            && !(search.value.multipleMatches && !Truthy(hint)) ==>
      (r.isValid <==> !Truthy(canonical) || CheckNameSimilarity(name, canonical.value, translit, ratio))
      && (!r.isValid ==> r == Rejection("invalid_athlete"))
      && (r.isValid ==> r.canonicalName == canonical && r.entityId == search.value.personId
                        && r.validatedSports == Some([if sportQid in sportLabels then OrElse(Some(sportLabels[sportQid]), sportQid) else sportQid]))
  {
    match search
    case Raised => ServiceFailure
    case Returned(sr) =>
      if !Truthy(sr.personId) then Rejection("invalid_athlete")
      else if sr.allMatches == [] then
        match athleteCheck
        case Raised => ServiceFailure
        case Returned(check) =>
          if !check.0 then Rejection("invalid_athlete")
          else ValidationResult(false, Some("wrong_sport"), Some(check.1), true, None, false, None, [])
      else if sr.multipleMatches && !Truthy(hint) then
        ValidationResult(false, Some("disambiguation_required"), None, true, sr.personId, true, None, sr.allMatches)
      else if Truthy(canonical) && !CheckNameSimilarity(name, canonical.value, translit, ratio) then
        Rejection("invalid_athlete")
      else
        var sportLabel := if sportQid in sportLabels then Some(sportLabels[sportQid]) else None;
        ValidationResult(true, None, Some([OrElse(sportLabel, sportQid)]), true, sr.personId, false, canonical, [])
  }

  /** Several verified candidates with a hint that does not narrow them still validate, as the first one. */
  lemma HintBypassesDisambiguation(name: string, sportQid: string, hint: string, ids: seq<string>,
                                   sportLabels: map<string, string>,
                                   translit: string -> string, ratio: (string, string) -> int)
    requires hint != "" && |ids| > 1 && ids[0] != ""
    ensures ValidateAthleteFull(name, sportQid, Some(hint), Returned(SearchResult(Some(ids[0]), true, ids)),
                                Raised, None, sportLabels, translit, ratio).isValid
  {
  }
}
