/**
 * Python string primitives the core relies on: `str.isspace`, `str.lower`,
 * `str.strip`, `str.split()` with `" ".join(...)`, the `in` substring test
 * and the code-point order used by `sorted` on strings.
 */
module Text {

  /** Python's `str.isspace` for one character (the characters `\s` matches in `re`). */
  predicate IsSpace(c: char) {
    ('\t' <= c <= '\r') || ('\U{1C}' <= c <= ' ') || c == '\U{85}' || c == '\U{A0}'
    || c == '\U{1680}' || ('\U{2000}' <= c <= '\U{200A}') || c == '\U{2028}' || c == '\U{2029}'
    || c == '\U{202F}' || c == '\U{205F}' || c == '\U{3000}'
  }

  /**
   * Python's `str.isdigit` for one character: the characters whose Unicode
   * numeric type is Decimal or Digit (Unicode 15.0), superscripts and
   * non-Latin decimal digits included.
   */
  predicate IsDigit(c: char) {
    ('0' <= c <= '9') || ('\U{B2}' <= c <= '\U{B3}') || c == '\U{B9}' || ('\U{660}' <= c <= '\U{669}') ||
    ('\U{6F0}' <= c <= '\U{6F9}') || ('\U{7C0}' <= c <= '\U{7C9}') || ('\U{966}' <= c <= '\U{96F}') ||
    ('\U{9E6}' <= c <= '\U{9EF}') || ('\U{A66}' <= c <= '\U{A6F}') || ('\U{AE6}' <= c <= '\U{AEF}') ||
    ('\U{B66}' <= c <= '\U{B6F}') || ('\U{BE6}' <= c <= '\U{BEF}') || ('\U{C66}' <= c <= '\U{C6F}') ||
    ('\U{CE6}' <= c <= '\U{CEF}') || ('\U{D66}' <= c <= '\U{D6F}') || ('\U{DE6}' <= c <= '\U{DEF}') ||
    ('\U{E50}' <= c <= '\U{E59}') || ('\U{ED0}' <= c <= '\U{ED9}') || ('\U{F20}' <= c <= '\U{F29}') ||
    ('\U{1040}' <= c <= '\U{1049}') || ('\U{1090}' <= c <= '\U{1099}') || ('\U{1369}' <= c <= '\U{1371}') ||
    ('\U{17E0}' <= c <= '\U{17E9}') || ('\U{1810}' <= c <= '\U{1819}') || ('\U{1946}' <= c <= '\U{194F}') ||
    ('\U{19D0}' <= c <= '\U{19DA}') || ('\U{1A80}' <= c <= '\U{1A89}') || ('\U{1A90}' <= c <= '\U{1A99}') ||
    ('\U{1B50}' <= c <= '\U{1B59}') || ('\U{1BB0}' <= c <= '\U{1BB9}') || ('\U{1C40}' <= c <= '\U{1C49}') ||
    ('\U{1C50}' <= c <= '\U{1C59}') || c == '\U{2070}' || ('\U{2074}' <= c <= '\U{2079}') ||
    ('\U{2080}' <= c <= '\U{2089}') || ('\U{2460}' <= c <= '\U{2468}') || ('\U{2474}' <= c <= '\U{247C}') ||
    ('\U{2488}' <= c <= '\U{2490}') || c == '\U{24EA}' || ('\U{24F5}' <= c <= '\U{24FD}') ||
    c == '\U{24FF}' || ('\U{2776}' <= c <= '\U{277E}') || ('\U{2780}' <= c <= '\U{2788}') ||
    ('\U{278A}' <= c <= '\U{2792}') || ('\U{A620}' <= c <= '\U{A629}') || ('\U{A8D0}' <= c <= '\U{A8D9}') ||
    ('\U{A900}' <= c <= '\U{A909}') || ('\U{A9D0}' <= c <= '\U{A9D9}') || ('\U{A9F0}' <= c <= '\U{A9F9}') ||
    ('\U{AA50}' <= c <= '\U{AA59}') || ('\U{ABF0}' <= c <= '\U{ABF9}') || ('\U{FF10}' <= c <= '\U{FF19}') ||
    ('\U{104A0}' <= c <= '\U{104A9}') || ('\U{10A40}' <= c <= '\U{10A43}') ||
    ('\U{10D30}' <= c <= '\U{10D39}') || ('\U{10E60}' <= c <= '\U{10E68}') ||
    ('\U{11052}' <= c <= '\U{1105A}') || ('\U{11066}' <= c <= '\U{1106F}') ||
    ('\U{110F0}' <= c <= '\U{110F9}') || ('\U{11136}' <= c <= '\U{1113F}') ||
    ('\U{111D0}' <= c <= '\U{111D9}') || ('\U{112F0}' <= c <= '\U{112F9}') ||
    ('\U{11450}' <= c <= '\U{11459}') || ('\U{114D0}' <= c <= '\U{114D9}') ||
    ('\U{11650}' <= c <= '\U{11659}') || ('\U{116C0}' <= c <= '\U{116C9}') ||
    ('\U{11730}' <= c <= '\U{11739}') || ('\U{118E0}' <= c <= '\U{118E9}') ||
    ('\U{11950}' <= c <= '\U{11959}') || ('\U{11C50}' <= c <= '\U{11C59}') ||
    ('\U{11D50}' <= c <= '\U{11D59}') || ('\U{11DA0}' <= c <= '\U{11DA9}') ||
    ('\U{11F50}' <= c <= '\U{11F59}') || ('\U{16A60}' <= c <= '\U{16A69}') ||
    ('\U{16AC0}' <= c <= '\U{16AC9}') || ('\U{16B50}' <= c <= '\U{16B59}') ||
    ('\U{1D7CE}' <= c <= '\U{1D7FF}') || ('\U{1E140}' <= c <= '\U{1E149}') ||
    ('\U{1E2F0}' <= c <= '\U{1E2F9}') || ('\U{1E4F0}' <= c <= '\U{1E4F9}') ||
    ('\U{1E950}' <= c <= '\U{1E959}') || ('\U{1F100}' <= c <= '\U{1F10A}') ||
    ('\U{1FBF0}' <= c <= '\U{1FBF9}')
  }

  /** `str.lower` on the ASCII and Latin-1 upper-case letters; every other character is kept. */
  function LowerChar(c: char): char {
    if 'A' <= c <= 'Z' || ('\U{C0}' <= c <= '\U{DE}' && c != '\U{D7}') then
      (c as int + 32) as char
    else c
  }

  function Lower(s: string): (r: string)
    ensures |r| == |s|
    ensures forall i :: 0 <= i < |s| ==> r[i] == LowerChar(s[i])
  {
    seq(|s|, i requires 0 <= i < |s| => LowerChar(s[i]))
  }

  lemma LowerCharIdempotent(c: char)
    ensures LowerChar(LowerChar(c)) == LowerChar(c)
    ensures IsSpace(LowerChar(c)) <==> IsSpace(c)
  {
  }

  /** `a in b` for strings: `a` occurs as a contiguous block of `b`. */
  predicate IsSubstring(a: string, b: string) {
    exists i :: 0 <= i <= |b| && a <= b[i..]
  }

  lemma SubstringOfSelf(a: string)
    ensures IsSubstring(a, a)
  {
    assert a <= a[0..];
  }

  // ---------------------------------------------------------------------------
  // strip, split and join

  /** `s` with its leading whitespace removed (`str.lstrip`). */
  function DropSpaces(s: string): (r: string)
    ensures |r| <= |s|
    ensures r == s[|s| - |r|..]
    ensures r == [] || !IsSpace(r[0])
  {
    if s == [] || !IsSpace(s[0]) then s else DropSpaces(s[1..])
  }

  /** `s` with its trailing whitespace removed (`str.rstrip`). */
  function DropTrailingSpaces(s: string): (r: string)
    ensures |r| <= |s|
    ensures r == s[..|r|]
    ensures r == [] || !IsSpace(r[|r| - 1])
  {
    if s == [] || !IsSpace(s[|s| - 1]) then s else DropTrailingSpaces(s[..|s| - 1])
  }

  /** `str.strip()`. */
  function Strip(s: string): string {
    DropTrailingSpaces(DropSpaces(s))
  }

  /** Length of the leading run of non-whitespace characters. */
  function WordLength(s: string): (n: nat)
    ensures n <= |s|
    ensures forall i :: 0 <= i < n ==> !IsSpace(s[i])
    ensures n < |s| ==> IsSpace(s[n])
  {
    if s == [] || IsSpace(s[0]) then 0 else 1 + WordLength(s[1..])
  }

  /** A word as `str.split()` yields it: non-empty, without whitespace. */
  predicate IsWord(w: string) {
    |w| > 0 && forall i :: 0 <= i < |w| ==> !IsSpace(w[i])
  }

  /** `str.split()` with no separator: the maximal runs of non-whitespace characters. */
  function Words(s: string): seq<string>
    decreases |s|
  {
    var t := DropSpaces(s);
    if t == [] then []
    else
      var n := WordLength(t);
      [t[..n]] + Words(t[n..])
  }

  /** `" ".join(ws)`. */
  function Join(ws: seq<string>): string {
    if |ws| == 0 then ""
    else if |ws| == 1 then ws[0]
    else ws[0] + " " + Join(ws[1..])
  }

  /** `" ".join(s.split())`: whitespace runs become one space, the ends are trimmed. */
  function Collapse(s: string): string {
    Join(Words(s))
  }

  /**
   * The shape of a collapsed string: the only whitespace is the plain space,
   * never at either end and never two in a row.
   */
  predicate SingleSpaced(s: string) {
    (forall i :: 0 <= i < |s| && IsSpace(s[i]) ==> s[i] == ' ' && 0 < i < |s| - 1)
    && (forall i, j :: 0 <= i && j == i + 1 < |s| && IsSpace(s[i]) ==> !IsSpace(s[j]))
  }

  lemma {:induction false} JoinShape(ws: seq<string>)
    requires forall k :: 0 <= k < |ws| ==> IsWord(ws[k])
    ensures SingleSpaced(Join(ws))
    ensures |ws| > 0 ==> |ws[0]| > 0 && |Join(ws)| > 0 && Join(ws)[0] == ws[0][0]
    ensures |ws| > 0 ==> !IsSpace(Join(ws)[|Join(ws)| - 1])
  {
    if |ws| > 1 {
      JoinShape(ws[1..]);
      var w, rest := ws[0], Join(ws[1..]);
      var j := w + " " + rest;
      assert Join(ws) == j;
      forall i | 0 <= i < |j| && IsSpace(j[i])
        ensures j[i] == ' ' && 0 < i < |j| - 1 && !IsSpace(j[i + 1])
      {
        if i == |w| {
          assert j[i + 1] == rest[0];
        } else {
          assert j[i] == rest[i - |w| - 1];
          assert i + 1 < |j| ==> j[i + 1] == rest[i - |w|];
        }
      }
    }
  }

  /** `str.split()` unfolded once on a string that starts with a word. */
  lemma WordsUnfold(s: string)
    requires s != [] && !IsSpace(s[0])
    ensures WordLength(s) > 0
    ensures Words(s) == [s[..WordLength(s)]] + Words(s[WordLength(s)..])
  {
    assert DropSpaces(s) == s;
  }

  lemma {:induction false} WordsAreWords(s: string)
    ensures forall k :: 0 <= k < |Words(s)| ==> IsWord(Words(s)[k])
    decreases |s|
  {
    var t := DropSpaces(s);
    if t != [] {
      var n := WordLength(t);
      WordsAreWords(t[n..]);
      var ws := Words(t[n..]);
      assert Words(s) == [t[..n]] + ws;
      assert IsWord(t[..n]);
    }
  }

  /** Every character of `s` satisfies `p`. */
  predicate AllChars(s: string, p: char -> bool) {
    forall i :: 0 <= i < |s| ==> p(s[i])
  }

  lemma {:induction false} WordsKeepChars(s: string, p: char -> bool)
    requires AllChars(s, p)
    ensures forall k :: 0 <= k < |Words(s)| ==> AllChars(Words(s)[k], p)
    decreases |s|
  {
    var t := DropSpaces(s);
    if t != [] {
      var n := WordLength(t);
      assert AllChars(t, p);
      assert AllChars(t[n..], p);
      WordsKeepChars(t[n..], p);
      var ws := Words(t[n..]);
      assert Words(s) == [t[..n]] + ws;
      assert AllChars(t[..n], p);
      forall k | 0 <= k < |Words(s)|
        ensures AllChars(Words(s)[k], p)
      {
        if k > 0 {
          assert Words(s)[k] == ws[k - 1];
        }
      }
    }
  }

  lemma {:induction false} JoinKeepChars(ws: seq<string>, p: char -> bool)
    requires forall k :: 0 <= k < |ws| ==> AllChars(ws[k], p)
    requires p(' ')
    ensures AllChars(Join(ws), p)
  {
    if |ws| > 1 {
      JoinKeepChars(ws[1..], p);
      var j := ws[0] + " " + Join(ws[1..]);
      assert Join(ws) == j;
      assert AllChars(ws[0], p);
      forall i | 0 <= i < |j|
        ensures p(j[i])
      {
        if i > |ws[0]| {
          assert j[i] == Join(ws[1..])[i - |ws[0]| - 1];
        }
      }
    }
  }

  /** `" ".join(s.split())` is single-spaced. */
  lemma CollapseShape(s: string)
    ensures SingleSpaced(Collapse(s))
  {
    WordsAreWords(s);
    JoinShape(Words(s));
  }

  /** `" ".join(s.split())` adds no character but the space: a property of every character is kept. */
  lemma CollapseKeepChars(s: string, p: char -> bool)
    requires AllChars(s, p) && p(' ')
    ensures AllChars(Collapse(s), p)
  {
    WordsKeepChars(s, p);
    JoinKeepChars(Words(s), p);
  }

  lemma TailSingleSpaced(s: string, n: nat)
    requires SingleSpaced(s) && n < |s| && IsSpace(s[n])
    ensures n + 1 < |s| && !IsSpace(s[n + 1]) && SingleSpaced(s[n + 1..])
  {
    var rest := s[n + 1..];
    forall i | 0 <= i < |rest| && IsSpace(rest[i])
      ensures rest[i] == ' ' && 0 < i < |rest| - 1 && !IsSpace(rest[i + 1])
    {
      assert s[n + 1 + i] == rest[i];
      assert i + 1 < |rest| ==> s[n + 2 + i] == rest[i + 1];
    }
  }

  lemma WordsDropLeadingSpace(x: string)
    requires x != [] && IsSpace(x[0])
    ensures Words(x) == Words(x[1..])
  {
    assert DropSpaces(x) == DropSpaces(x[1..]);
  }

  lemma JoinCons(w: string, ws: seq<string>)
    requires ws != []
    ensures Join([w] + ws) == w + " " + Join(ws)
  {
    assert ([w] + ws)[1..] == ws;
  }

  /** A string with a space at `n`: what comes before, the space, what comes after. */
  lemma SplitAtSpace(s: string, n: nat)
    requires n < |s| && s[n] == ' '
    ensures s == s[..n] + " " + s[n + 1..]
  {
    assert s == s[..n] + [s[n]] + s[n + 1..];
  }

  /** Collapsing a single-spaced string with more than one word: the first word, a space, the rest collapsed. */
  lemma CollapseFirstWord(s: string)
    requires SingleSpaced(s) && s != [] && WordLength(s) < |s|
    ensures var n := WordLength(s);
      n + 1 < |s| && SingleSpaced(s[n + 1..]) && s == s[..n] + " " + s[n + 1..]
      && Collapse(s) == s[..n] + " " + Collapse(s[n + 1..])
  {
    var n := WordLength(s);
    TailSingleSpaced(s, n);
    SplitAtSpace(s, n);
    var rest := s[n + 1..];
    WordsUnfold(s);
    WordsDropLeadingSpace(s[n..]);
    assert s[n..][1..] == rest;
    WordsUnfold(rest);
    JoinCons(s[..n], Words(rest));
  }

  /** A string that is already single-spaced comes back from `" ".join(s.split())` unchanged. */
  lemma {:induction false} CollapseFixpoint(s: string)
    requires SingleSpaced(s)
    ensures Collapse(s) == s
    decreases |s|
  {
    if s != [] {
      assert !IsSpace(s[0]);
      var n := WordLength(s);
      if n == |s| {
        WordsUnfold(s);
        assert s[n..] == [];
        assert s[..n] == s;
      } else {
        CollapseFirstWord(s);
        CollapseFixpoint(s[n + 1..]);
      }
    }
  }

  lemma StripSingleSpaced(s: string)
    requires SingleSpaced(s)
    ensures Strip(s) == s
  {
    if s != [] {
      assert !IsSpace(s[0]) && !IsSpace(s[|s| - 1]);
    }
  }

  // ---------------------------------------------------------------------------
  // code-point order of Python strings

  /** Python's `a < b` on strings: lexicographic by code point, a proper prefix first. */
  predicate StrLt(a: string, b: string)
    decreases |a|
  {
    if |a| == 0 then |b| > 0
    else if |b| == 0 then false
    else if a[0] != b[0] then a[0] < b[0]
    else StrLt(a[1..], b[1..])
  }

  lemma {:induction false} StrLtIrreflexive(a: string)
    ensures !StrLt(a, a)
    decreases |a|
  {
    if |a| > 0 { StrLtIrreflexive(a[1..]); }
  }

  lemma {:induction false} StrLtTransitive(a: string, b: string, c: string)
    requires StrLt(a, b) && StrLt(b, c)
    ensures StrLt(a, c)
    decreases |a|
  {
    if |a| > 0 && a[0] == b[0] && b[0] == c[0] {
      StrLtTransitive(a[1..], b[1..], c[1..]);
    }
  }

  lemma {:induction false} StrLtTotal(a: string, b: string)
    requires a != b
    ensures StrLt(a, b) || StrLt(b, a)
    decreases |a|
  {
    if |a| > 0 && |b| > 0 && a[0] == b[0] {
      StrLtTotal(a[1..], b[1..]);
    }
  }

  /** `a <= b` on strings. */
  predicate StrLe(a: string, b: string) {
    a == b || StrLt(a, b)
  }
}
