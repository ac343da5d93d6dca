/**
 * The sport catalogue: parsing the SPARQL bindings of "type of sport" items,
 * merging them with a curated supplement (first occurrence of a Q-ID wins,
 * then sorted by lower-case label), the display-name overrides and the two
 * lookup indices built from the cache.
 *
 * The HTTP query itself is not modelled: its bindings, or the fact that it
 * failed, are a parameter.
 */
module SportsConfig {
  import opened Common
  import opened Text

  /** One catalogue entry `{"value": ..., "label": ..., "wikidata_id": ...}`. */
  datatype Sport = Sport(value: string, labelText: string, wikidataId: string)

  /** One SPARQL binding: the `sport` URI and the `sportLabel` value, "" when absent. */
  datatype Binding = Binding(uri: string, sportLabel: string)

  function Entry(qid: string, labelText: string): Sport {
    Sport(qid, labelText, qid)
  }

  predicate StartsWithQ(s: string) {
    |s| > 0 && s[0] == 'Q'
  }

  /** `uri.split("/")[-1]`: the text after the last `/`. */
  function LastSegment(uri: string): string
    decreases |uri|
  {
    if uri == [] || uri[|uri| - 1] == '/' then []
    else LastSegment(uri[..|uri| - 1]) + [uri[|uri| - 1]]
  }

  /** The last segment is a suffix without `/`, preceded by a `/` unless it is the whole URI. */
  lemma {:induction false} LastSegmentIsSuffix(uri: string)
    ensures var r := LastSegment(uri);
      |r| <= |uri| && r == uri[|uri| - |r|..] && '/' !in r
      && (|r| < |uri| ==> uri[|uri| - |r| - 1] == '/')
    decreases |uri|
  {
    if uri != [] && uri[|uri| - 1] != '/' {
      var p := uri[..|uri| - 1];
      LastSegmentIsSuffix(p);
      var r := LastSegment(p);
      assert uri[|uri| - |r| - 1..] == p[|p| - |r|..] + [uri[|uri| - 1]];
    }
  }

  /** A label that is just a Q-ID: `label.startswith("Q") and label[1:].isdigit()`. */
  predicate IsUnresolvedLabel(labelText: string) {
    StartsWithQ(labelText) && |labelText| > 1 && forall i :: 1 <= i < |labelText| ==> IsDigit(labelText[i])
  }

  /** Labels made of `Q` and non-ASCII digits count as unresolved too, as with `str.isdigit`. */
  lemma UnicodeDigitLabels()
    ensures IsUnresolvedLabel("Q\U{B2}") && IsUnresolvedLabel("Q\U{661}\U{662}")
    ensures !IsUnresolvedLabel("Q") && !IsUnresolvedLabel("Q1a")
  {
    assert "Q1a"[2] == 'a';
  }

  // ---------------------------------------------------------------------------
  // _parse_sparql_bindings

  function QidOf(b: Binding): string {
    LastSegment(b.uri)
  }

  /** A binding that reaches the duplicate check: URI and label present, Q-ID starting with `Q`. */
  predicate Eligible(b: Binding) {
    b.uri != "" && b.sportLabel != "" && StartsWithQ(QidOf(b))
  }

  /** One iteration of the parse loop, on the set of seen Q-IDs and the entries so far. */
  function ParseStep(seen: set<string>, sports: seq<Sport>, b: Binding): (set<string>, seq<Sport>) {
    if !Eligible(b) then (seen, sports)
    else if QidOf(b) in seen then (seen, sports)
    else if IsUnresolvedLabel(b.sportLabel) then (seen + {QidOf(b)}, sports)
    else (seen + {QidOf(b)}, sports + [Entry(QidOf(b), b.sportLabel)])
  }

  /** The loop state after the bindings `bs`. */
  function ParseState(bs: seq<Binding>): (set<string>, seq<Sport>)
    decreases |bs|
  {
    if bs == [] then ({}, [])
    else
      var st := ParseState(bs[..|bs| - 1]);
      ParseStep(st.0, st.1, bs[|bs| - 1])
  }

  function ParseSparqlBindings(bs: seq<Binding>): seq<Sport> {
    ParseState(bs).1
  }

  /** Binding `i` is the first eligible one carrying Q-ID `q`. */
  predicate FirstFor(bs: seq<Binding>, i: int, q: string) {
    0 <= i < |bs| && Eligible(bs[i]) && QidOf(bs[i]) == q
    && forall j :: 0 <= j < i ==> !(Eligible(bs[j]) && QidOf(bs[j]) == q)
  }

  predicate UniqueQids(s: seq<Sport>) {
    forall i, j :: 0 <= i < j < |s| ==> s[i].wikidataId != s[j].wikidataId
  }

  predicate HasQid(s: seq<Sport>, q: string) {
    exists k :: 0 <= k < |s| && s[k].wikidataId == q
  }

  /** Some eligible binding of `bs` carries Q-ID `q`. */
  predicate Mentions(bs: seq<Binding>, q: string) {
    exists i :: 0 <= i < |bs| && Eligible(bs[i]) && QidOf(bs[i]) == q
  }

  lemma ParseSnoc(p: seq<Binding>, b: Binding)
    ensures ParseState(p + [b]) == ParseStep(ParseState(p).0, ParseState(p).1, b)
  {
    assert (p + [b])[..|p|] == p;
  }

  lemma FirstForSnoc(p: seq<Binding>, b: Binding, i: int, q: string)
    requires 0 <= i < |p|
    ensures FirstFor(p + [b], i, q) <==> FirstFor(p, i, q)
  {
    forall j | 0 <= j <= i ensures (p + [b])[j] == p[j] {
    }
  }

  /** The seen set holds exactly the Q-IDs of the eligible bindings. */
  lemma {:induction false} ParseSeen(bs: seq<Binding>)
    ensures forall q :: q in ParseState(bs).0 <==> Mentions(bs, q)
    decreases |bs|
  {
    if bs != [] {
      var p, b := bs[..|bs| - 1], bs[|bs| - 1];
      assert bs == p + [b];
      ParseSeen(p);
      ParseSnoc(p, b);
      forall q ensures Mentions(bs, q) <==> Mentions(p, q) || (Eligible(b) && QidOf(b) == q) {
        MentionsSnoc(p, b, q);
      }
    }
  }

  lemma MentionsSnoc(p: seq<Binding>, b: Binding, q: string)
    ensures Mentions(p + [b], q) <==> Mentions(p, q) || (Eligible(b) && QidOf(b) == q)
  {
    var bs := p + [b];
    if Mentions(p, q) {
      var i :| 0 <= i < |p| && Eligible(p[i]) && QidOf(p[i]) == q;
      assert bs[i] == p[i];
    }
    if Eligible(b) && QidOf(b) == q {
      assert bs[|p|] == b;
    }
    if Mentions(bs, q) {
      var i :| 0 <= i < |bs| && Eligible(bs[i]) && QidOf(bs[i]) == q;
      if i < |p| {
        assert bs[i] == p[i];
      }
    }
  }

  /** Parsed entries have distinct Q-IDs, `value == wikidata_id`, a Q-ID starting with `Q` and a resolved label. */
  lemma {:induction false} ParseEntriesWellFormed(bs: seq<Binding>)
    ensures var st := ParseState(bs);
      UniqueQids(st.1)
      && forall k :: 0 <= k < |st.1| ==>
           st.1[k].wikidataId in st.0 && st.1[k].value == st.1[k].wikidataId
           && StartsWithQ(st.1[k].value) && !IsUnresolvedLabel(st.1[k].labelText)
    decreases |bs|
  {
    if bs != [] {
      var p, b := bs[..|bs| - 1], bs[|bs| - 1];
      assert bs == p + [b];
      ParseEntriesWellFormed(p);
      ParseSnoc(p, b);
    }
  }

  /** Every parsed entry comes from the first eligible binding of its Q-ID, with that binding's label. */
  lemma {:induction false} ParseEntriesFirst(bs: seq<Binding>)
    ensures var out := ParseState(bs).1;
      forall k :: 0 <= k < |out| ==>
        exists i :: FirstFor(bs, i, out[k].wikidataId) && out[k].labelText == bs[i].sportLabel
    decreases |bs|
  {
    if bs != [] {
      var p, b := bs[..|bs| - 1], bs[|bs| - 1];
      assert bs == p + [b];
      ParseEntriesFirst(p);
      ParseSnoc(p, b);
      ParseSeen(p);
      var out, out' := ParseState(p).1, ParseState(bs).1;
      forall k | 0 <= k < |out'|
        ensures exists i :: FirstFor(bs, i, out'[k].wikidataId) && out'[k].labelText == bs[i].sportLabel
      {
        if k < |out| {
          assert out'[k] == out[k];
          var i :| FirstFor(p, i, out[k].wikidataId) && out[k].labelText == p[i].sportLabel;
          FirstForSnoc(p, b, i, out[k].wikidataId);
        } else {
          assert QidOf(b) !in ParseState(p).0;
          assert out'[k] == Entry(QidOf(b), b.sportLabel);
          assert FirstFor(bs, |p|, QidOf(b));
        }
      }
    }
  }

  /** Every Q-ID whose first eligible binding has a resolved label is parsed. */
  lemma {:induction false} ParseComplete(bs: seq<Binding>)
    ensures forall i :: 0 <= i < |bs| && FirstFor(bs, i, QidOf(bs[i])) && !IsUnresolvedLabel(bs[i].sportLabel) ==>
      HasQid(ParseState(bs).1, QidOf(bs[i]))
    decreases |bs|
  {
    if bs != [] {
      var p, b := bs[..|bs| - 1], bs[|bs| - 1];
      assert bs == p + [b];
      ParseComplete(p);
      ParseSnoc(p, b);
      ParseSeen(p);
      var out, out' := ParseState(p).1, ParseState(bs).1;
      forall i | 0 <= i < |bs| && FirstFor(bs, i, QidOf(bs[i])) && !IsUnresolvedLabel(bs[i].sportLabel)
        ensures HasQid(out', QidOf(bs[i]))
      {
        if i < |p| {
          FirstForSnoc(p, b, i, QidOf(bs[i]));
          var k :| 0 <= k < |out| && out[k].wikidataId == QidOf(bs[i]);
          assert out'[k] == out[k];
        } else {
          assert !Mentions(p, QidOf(b));
          assert out'[|out|].wikidataId == QidOf(b);
        }
      }
    }
  }

  /** A Q-ID whose first eligible binding has an unresolved label never appears, even if a later binding names it. */
  lemma ParseSkipsUnresolvedFirst(bs: seq<Binding>, i: int)
    requires 0 <= i < |bs| && FirstFor(bs, i, QidOf(bs[i])) && IsUnresolvedLabel(bs[i].sportLabel)
    ensures !HasQid(ParseSparqlBindings(bs), QidOf(bs[i]))
  {
    ParseEntriesFirst(bs);
    ParseEntriesWellFormed(bs);
    var out := ParseSparqlBindings(bs);
    forall k | 0 <= k < |out| ensures out[k].wikidataId != QidOf(bs[i]) {
      var i' :| FirstFor(bs, i', out[k].wikidataId) && out[k].labelText == bs[i'].sportLabel;
      if out[k].wikidataId == QidOf(bs[i]) {
        FirstForUnique(bs, i, i', QidOf(bs[i]));
        assert false;
      }
    }
  }

  lemma FirstForUnique(bs: seq<Binding>, i: int, i': int, q: string)
    requires FirstFor(bs, i, q) && FirstFor(bs, i', q)
    ensures i == i'
  {
  }

  /** `_parse_sparql_bindings`: the loop with its `seen_qids` set. */
  method ParseBindings(bindings: seq<Binding>) returns (sports: seq<Sport>)
    ensures sports == ParseSparqlBindings(bindings)
    ensures UniqueQids(sports)
    ensures forall k :: 0 <= k < |sports| ==> sports[k].value == sports[k].wikidataId && StartsWithQ(sports[k].value)
  {
    var seen: set<string> := {};
    sports := [];
    for i := 0 to |bindings|
      invariant (seen, sports) == ParseState(bindings[..i])
    {
      assert bindings[..i + 1][..i] == bindings[..i];
      var b := bindings[i];
      if b.uri == "" || b.sportLabel == "" {
        continue;
      }
      var qid := LastSegment(b.uri);
      if !StartsWithQ(qid) {
        continue;
      }
      if qid in seen {
        continue;
      }
      seen := seen + {qid};
      if IsUnresolvedLabel(b.sportLabel) {
        continue;
      }
      sports := sports + [Entry(qid, b.sportLabel)];
    }
    assert bindings[..|bindings|] == bindings;
    ParseEntriesWellFormed(bindings);
  }

  // ---------------------------------------------------------------------------
  // _merge_sport_lists

  /** The lists one after the other. */
  function Flatten(lists: seq<seq<Sport>>): seq<Sport>
    decreases |lists|
  {
    if lists == [] then [] else Flatten(lists[..|lists| - 1]) + lists[|lists| - 1]
  }

  /** The dedup loop's state after the entries `xs`: the first entry of every Q-ID is kept. */
  function DedupState(xs: seq<Sport>): (set<string>, seq<Sport>)
    decreases |xs|
  {
    if xs == [] then ({}, [])
    else
      var st := DedupState(xs[..|xs| - 1]);
      var x := xs[|xs| - 1];
      if x.wikidataId in st.0 then st else (st.0 + {x.wikidataId}, st.1 + [x])
  }

  /** Entry `i` is the first with its Q-ID. */
  predicate FirstOccurrence(xs: seq<Sport>, i: int) {
    0 <= i < |xs| && forall j :: 0 <= j < i ==> xs[j].wikidataId != xs[i].wikidataId
  }

  /** `y` is the entry of `xs` that first names its Q-ID. */
  predicate FirstOf(xs: seq<Sport>, y: Sport) {
    exists i :: 0 <= i < |xs| && FirstOccurrence(xs, i) && y == xs[i]
  }

  lemma DedupSnoc(p: seq<Sport>, x: Sport)
    ensures DedupState(p + [x]) ==
      (var st := DedupState(p); if x.wikidataId in st.0 then st else (st.0 + {x.wikidataId}, st.1 + [x]))
  {
    assert (p + [x])[..|p|] == p;
  }

  /** The seen set holds exactly the Q-IDs met so far. */
  lemma {:induction false} DedupSeen(xs: seq<Sport>)
    ensures forall q :: q in DedupState(xs).0 <==> HasQid(xs, q)
    decreases |xs|
  {
    if xs != [] {
      var p, x := xs[..|xs| - 1], xs[|xs| - 1];
      assert xs == p + [x];
      DedupSeen(p);
      DedupSnoc(p, x);
      forall q ensures q in DedupState(xs).0 <==> HasQid(xs, q) {
        if HasQid(p, q) {
          var i :| 0 <= i < |p| && p[i].wikidataId == q;
          assert xs[i] == p[i];
        }
        if HasQid(xs, q) && x.wikidataId != q {
          var i :| 0 <= i < |xs| && xs[i].wikidataId == q;
          assert p[i] == xs[i];
        }
      }
    }
  }

  /** The kept entries have distinct Q-IDs, all of them seen. */
  lemma {:induction false} DedupUnique(xs: seq<Sport>)
    ensures var st := DedupState(xs);
      UniqueQids(st.1) && forall k :: 0 <= k < |st.1| ==> st.1[k].wikidataId in st.0
    decreases |xs|
  {
    if xs != [] {
      var p, x := xs[..|xs| - 1], xs[|xs| - 1];
      assert xs == p + [x];
      DedupUnique(p);
      DedupSnoc(p, x);
      var st := DedupState(p);
      if x.wikidataId !in st.0 {
        var out := st.1 + [x];
        forall k | 0 <= k < |st.1| ensures out[k].wikidataId != x.wikidataId {
          assert out[k] == st.1[k];
        }
      }
    }
  }

  /** Every kept entry is the first occurrence of its Q-ID. */
  lemma {:induction false} DedupKeepsFirst(xs: seq<Sport>)
    ensures forall k :: 0 <= k < |DedupState(xs).1| ==>
      FirstOf(xs, DedupState(xs).1[k])
    decreases |xs|
  {
    if xs == [] {
      assert DedupState(xs).1 == [];
    } else {
      var p, x := xs[..|xs| - 1], xs[|xs| - 1];
      assert xs == p + [x];
      DedupKeepsFirst(p);
      DedupSnoc(p, x);
      DedupSeen(p);
      var out, out' := DedupState(p).1, DedupState(xs).1;
      forall k | 0 <= k < |out'| ensures FirstOf(xs, out'[k]) {
        if k < |out| {
          assert out'[k] == out[k];
          var i :| 0 <= i < |p| && FirstOccurrence(p, i) && out[k] == p[i];
          assert xs[i] == p[i];
          forall j | 0 <= j < i ensures xs[j].wikidataId != xs[i].wikidataId {
            assert xs[j] == p[j];
          }
          assert FirstOccurrence(xs, i);
        } else {
          assert x.wikidataId !in DedupState(p).0 && out' == out + [x];
          assert !HasQid(p, x.wikidataId);
          forall j | 0 <= j < |p| ensures xs[j].wikidataId != x.wikidataId {
            assert xs[j] == p[j];
          }
          assert FirstOccurrence(xs, |p|) && out'[k] == xs[|p|];
        }
      }
      assert out' == DedupState(xs).1;
    }
  }

  /** Every Q-ID met is kept. */
  lemma {:induction false} DedupComplete(xs: seq<Sport>)
    ensures forall q :: HasQid(xs, q) ==> HasQid(DedupState(xs).1, q)
    decreases |xs|
  {
    if xs != [] {
      var p, x := xs[..|xs| - 1], xs[|xs| - 1];
      assert xs == p + [x];
      DedupComplete(p);
      DedupSnoc(p, x);
      DedupSeen(p);
      var out, out' := DedupState(p).1, DedupState(xs).1;
      forall q | HasQid(xs, q) ensures HasQid(out', q) {
        var i :| 0 <= i < |xs| && xs[i].wikidataId == q;
        if i < |p| {
          assert p[i] == xs[i];
          assert HasQid(p, q);
        }
        if HasQid(p, q) {
          assert HasQid(out, q);
          var k :| 0 <= k < |out| && out[k].wikidataId == q;
          assert out'[k] == out[k];
        } else {
          assert x.wikidataId == q;
          assert out'[|out|] == x;
        }
      }
    }
  }

  /** The sort key `s["label"].lower()`. */
  function LabelKey(s: Sport): string {
    Lower(s.labelText)
  }

  predicate SortedByLabel(s: seq<Sport>) {
    forall i :: 0 <= i < |s| - 1 ==> StrLe(LabelKey(s[i]), LabelKey(s[i + 1]))
  }

  /** Insert `x` after every entry whose key is not greater: the step of a stable sort. */
  function InsertByLabel(x: Sport, s: seq<Sport>): (r: seq<Sport>)
    ensures multiset(r) == multiset(s) + multiset{x}
    ensures r[0] == x || (s != [] && r[0] == s[0])
  {
    if s == [] || StrLt(LabelKey(x), LabelKey(s[0])) then [x] + s
    else
      assert s == [s[0]] + s[1..];
      [s[0]] + InsertByLabel(x, s[1..])
  }

  lemma {:induction false} InsertKeepsSorted(x: Sport, s: seq<Sport>)
    requires SortedByLabel(s)
    ensures SortedByLabel(InsertByLabel(x, s))
  {
    if s != [] && !StrLt(LabelKey(x), LabelKey(s[0])) {
      InsertKeepsSorted(x, s[1..]);
      var r := InsertByLabel(x, s[1..]);
      if LabelKey(x) != LabelKey(s[0]) {
        StrLtTotal(LabelKey(x), LabelKey(s[0]));
      }
      assert StrLe(LabelKey(s[0]), LabelKey(r[0]));
    }
  }

  /** `list.sort(key=...)` on the lower-case labels: a stable insertion sort. */
  function SortByLabel(s: seq<Sport>): (r: seq<Sport>)
    ensures multiset(r) == multiset(s)
    decreases |s|
  {
    if s == [] then []
    else
      assert s == s[..|s| - 1] + [s[|s| - 1]];
      InsertByLabel(s[|s| - 1], SortByLabel(s[..|s| - 1]))
  }

  lemma {:induction false} SortByLabelSorted(s: seq<Sport>)
    ensures SortedByLabel(SortByLabel(s))
    decreases |s|
  {
    if s != [] {
      SortByLabelSorted(s[..|s| - 1]);
      InsertKeepsSorted(s[|s| - 1], SortByLabel(s[..|s| - 1]));
    }
  }

  /** The entries whose lower-case label is `key`, in list order. */
  function WithKey(s: seq<Sport>, key: string): seq<Sport>
    decreases |s|
  {
    if s == [] then []
    else (if LabelKey(s[0]) == key then [s[0]] else []) + WithKey(s[1..], key)
  }

  lemma {:induction false} WithKeyAppend(a: seq<Sport>, b: seq<Sport>, key: string)
    ensures WithKey(a + b, key) == WithKey(a, key) + WithKey(b, key)
    decreases |a|
  {
    if a == [] {
      assert a + b == b;
    } else {
      var h := if LabelKey(a[0]) == key then [a[0]] else [];
      calc {
        WithKey(a + b, key);
        { assert a + b == [a[0]] + (a[1..] + b); WithKeyCons(a[0], a[1..] + b, key); }
        h + WithKey(a[1..] + b, key);
        { WithKeyAppend(a[1..], b, key); }
        h + (WithKey(a[1..], key) + WithKey(b, key));
        (h + WithKey(a[1..], key)) + WithKey(b, key);
        { assert a == [a[0]] + a[1..]; WithKeyCons(a[0], a[1..], key); }
        WithKey(a, key) + WithKey(b, key);
      }
    }
  }

  /** A sorted list whose first key is above `key` has no entry with that key. */
  lemma {:induction false} NoKeyBelow(s: seq<Sport>, key: string)
    requires SortedByLabel(s) && s != [] && StrLt(key, LabelKey(s[0]))
    ensures WithKey(s, key) == []
    decreases |s|
  {
    StrLtIrreflexive(key);
    if |s| > 1 {
      if LabelKey(s[0]) != LabelKey(s[1]) {
        StrLtTransitive(key, LabelKey(s[0]), LabelKey(s[1]));
      }
      NoKeyBelow(s[1..], key);
    }
  }

  lemma WithKeyCons(y: Sport, s: seq<Sport>, key: string)
    ensures WithKey([y] + s, key) == (if LabelKey(y) == key then [y] else []) + WithKey(s, key)
  {
    assert ([y] + s)[0] == y && ([y] + s)[1..] == s;
  }

  lemma SortedTail(s: seq<Sport>)
    requires SortedByLabel(s) && s != []
    ensures SortedByLabel(s[1..])
  {
    forall i | 0 <= i < |s| - 2 ensures StrLe(LabelKey(s[1..][i]), LabelKey(s[1..][i + 1])) {
      assert s[1..][i] == s[i + 1] && s[1..][i + 1] == s[i + 2];
    }
  }

  /** Inserting in front of larger keys appends the new entry to its key's entries. */
  lemma InsertStableFront(x: Sport, s: seq<Sport>, key: string)
    requires SortedByLabel(s) && (s == [] || StrLt(LabelKey(x), LabelKey(s[0])))
    ensures WithKey(InsertByLabel(x, s), key) == WithKey(s, key) + (if LabelKey(x) == key then [x] else [])
  {
    assert InsertByLabel(x, s) == [x] + s;
    WithKeyCons(x, s, key);
    if s != [] && LabelKey(x) == key {
      NoKeyBelow(s, key);
    }
  }

  /** Insertion puts the new entry after every entry with the same key. */
  lemma {:induction false} InsertStable(x: Sport, s: seq<Sport>, key: string)
    requires SortedByLabel(s)
    ensures WithKey(InsertByLabel(x, s), key) == WithKey(s, key) + (if LabelKey(x) == key then [x] else [])
    decreases |s|
  {
    if s == [] || StrLt(LabelKey(x), LabelKey(s[0])) {
      InsertStableFront(x, s, key);
    } else {
      var t := s[1..];
      var h := if LabelKey(s[0]) == key then [s[0]] else [];
      var xk := if LabelKey(x) == key then [x] else [];
      SortedTail(s);
      calc {
        WithKey(InsertByLabel(x, s), key);
        WithKey([s[0]] + InsertByLabel(x, t), key);
        { WithKeyCons(s[0], InsertByLabel(x, t), key); }
        h + WithKey(InsertByLabel(x, t), key);
        { InsertStable(x, t, key); }
        h + (WithKey(t, key) + xk);
        (h + WithKey(t, key)) + xk;
        { WithKeyCons(s[0], t, key); assert s == [s[0]] + t; }
        WithKey(s, key) + xk;
      }
    }
  }

  /** The sort is stable: entries with equal lower-case labels keep their input order. */
  lemma {:induction false} SortStable(s: seq<Sport>, key: string)
    ensures WithKey(SortByLabel(s), key) == WithKey(s, key)
    decreases |s|
  {
    if s != [] {
      var p, x := s[..|s| - 1], s[|s| - 1];
      assert s == p + [x];
      assert SortByLabel(s) == InsertByLabel(x, SortByLabel(p));
      SortStable(p, key);
      SortByLabelSorted(p);
      InsertStable(x, SortByLabel(p), key);
      WithKeyAppend(p, [x], key);
      WithKeyCons(x, [], key);
      assert [x] + [] == [x];
    }
  }

  lemma {:induction false} InsertKeepsUnique(x: Sport, s: seq<Sport>)
    requires UniqueQids(s) && forall y :: y in s ==> y.wikidataId != x.wikidataId
    ensures UniqueQids(InsertByLabel(x, s))
  {
    var r := InsertByLabel(x, s);
    if s != [] && !StrLt(LabelKey(x), LabelKey(s[0])) {
      var t := s[1..];
      InsertKeepsUnique(x, t);
      var r' := InsertByLabel(x, t);
      assert r == [s[0]] + r';
      forall j | 0 <= j < |r'| ensures r'[j].wikidataId != s[0].wikidataId {
        assert r'[j] in multiset(r');
        if r'[j] != x {
          assert r'[j] in t;
          var m :| 0 <= m < |t| && t[m] == r'[j];
          assert s[m + 1] == r'[j];
        }
      }
    }
  }

  lemma {:induction false} SortKeepsUnique(s: seq<Sport>)
    requires UniqueQids(s)
    ensures UniqueQids(SortByLabel(s))
    decreases |s|
  {
    if s != [] {
      var p, x := s[..|s| - 1], s[|s| - 1];
      SortKeepsUnique(p);
      forall y | y in SortByLabel(p) ensures y.wikidataId != x.wikidataId {
        assert y in multiset(SortByLabel(p));
        var m :| 0 <= m < |p| && p[m] == y;
        assert s[m] == y;
      }
      InsertKeepsUnique(x, SortByLabel(p));
    }
  }

  /** `_merge_sport_lists`: first occurrence of each Q-ID, then sorted by lower-case label. */
  function MergeSportLists(lists: seq<seq<Sport>>): seq<Sport> {
    SortByLabel(DedupState(Flatten(lists)).1)
  }

  /**
   * The merged list has one entry per Q-ID of the inputs, each the entry of
   * the earliest list that names it, in label order.
   */
  lemma MergeFacts(lists: seq<seq<Sport>>)
    ensures var m := MergeSportLists(lists);
      UniqueQids(m)
      && SortedByLabel(m)
      && (forall q :: HasQid(m, q) <==> HasQid(Flatten(lists), q))
      && (forall k :: 0 <= k < |m| ==> FirstOf(Flatten(lists), m[k]))
  {
    var xs := Flatten(lists);
    var d := DedupState(xs).1;
    var m := MergeSportLists(lists);
    DedupUnique(xs);
    DedupComplete(xs);
    SortByLabelSorted(d);
    SortKeepsUnique(d);
    forall k | 0 <= k < |m| ensures m[k] in d {
      assert m[k] in multiset(m);
    }
    MergeTakesFirst(lists);
    forall q ensures HasQid(m, q) <==> HasQid(xs, q) {
      if HasQid(xs, q) {
        var k :| 0 <= k < |d| && d[k].wikidataId == q;
        assert d[k] in multiset(m);
        var k' :| 0 <= k' < |m| && m[k'] == d[k];
      }
      if HasQid(m, q) {
        var k :| 0 <= k < |m| && m[k].wikidataId == q;
        var k' :| 0 <= k' < |d| && d[k'] == m[k];
      }
    }
  }

  /** Every entry of the merged list is the first occurrence of its Q-ID in the inputs. */
  lemma MergeTakesFirst(lists: seq<seq<Sport>>)
    ensures var m := MergeSportLists(lists);
      forall k :: 0 <= k < |m| ==> FirstOf(Flatten(lists), m[k])
  {
    var xs := Flatten(lists);
    var d := DedupState(xs).1;
    DedupKeepsFirst(xs);
    assert MergeSportLists(lists) == SortByLabel(d);
    ReorderKeepsFirst(xs, d, SortByLabel(d));
  }

  /** Reordering a list of first occurrences leaves a list of first occurrences. */
  lemma ReorderKeepsFirst(xs: seq<Sport>, d: seq<Sport>, m: seq<Sport>)
    requires multiset(m) == multiset(d)
    requires forall k :: 0 <= k < |d| ==> FirstOf(xs, d[k])
    ensures forall k :: 0 <= k < |m| ==> FirstOf(xs, m[k])
  {
    forall k | 0 <= k < |m| ensures FirstOf(xs, m[k]) {
      assert m[k] in multiset(d);
      var k' :| 0 <= k' < |d| && d[k'] == m[k];
      assert FirstOf(xs, d[k']);
    }
  }

  /** The merge loop: every entry of every list, in order, kept when its Q-ID is new. */
  method MergeLists(lists: seq<seq<Sport>>) returns (merged: seq<Sport>)
    ensures merged == MergeSportLists(lists)
  {
    var seen: set<string> := {};
    var acc: seq<Sport> := [];
    for i := 0 to |lists|
      invariant (seen, acc) == DedupState(Flatten(lists[..i]))
    {
      assert lists[..i + 1][..i] == lists[..i];
      assert Flatten(lists[..i]) + lists[i][..0] == Flatten(lists[..i]);
      for j := 0 to |lists[i]|
        invariant (seen, acc) == DedupState(Flatten(lists[..i]) + lists[i][..j])
      {
        var xs := Flatten(lists[..i]) + lists[i][..j + 1];
        assert xs[..|xs| - 1] == Flatten(lists[..i]) + lists[i][..j];
        var sport := lists[i][j];
        if sport.wikidataId !in seen {
          seen := seen + {sport.wikidataId};
          acc := acc + [sport];
        }
      }
      assert lists[i][..|lists[i]|] == lists[i];
    }
    assert lists[..|lists|] == lists;
    merged := SortByLabel(acc);
  }

  // ---------------------------------------------------------------------------
  // the curated lists

  /** The display-name overrides, by Q-ID. */
  const DisplayNameOverrides: map<string, string> := map[
    "Q2736" := "Football (Soccer)",
    "Q114466" := "MMA / Mixed Martial Arts",
    "Q542" := "Athletics (Track & Field)",
    "Q41323" := "American Football",
    "Q131359" := "Pro Wrestling",
    "Q5386" := "Auto Racing / Motorsport",
    "Q5378" := "Rugby"
  ]

  /** Sports Wikidata does not class as "type of sport", merged after the SPARQL ones. */
  const SupplementalSports: seq<Sport> := [
    Entry("Q41323", "American football"),
    Entry("Q5849", "rugby union"),
    Entry("Q10962", "rugby league"),
    Entry("Q131359", "professional wrestling"),
    Entry("Q5369", "baseball"),
    Entry("Q1455", "field hockey"),
    Entry("Q7707", "water polo"),
    Entry("Q38108", "curling"),
    Entry("Q7275", "lacrosse"),
    Entry("Q170746", "Australian rules football"),
    Entry("Q46952", "softball"),
    Entry("Q5378", "rugby")
  ]

  /** `_get_fallback_sports`: the list used when Wikidata cannot be reached. */
  function FallbackSports(): (r: seq<Sport>)
    ensures |r| == 27
    ensures forall k :: 0 <= k < |r| ==> r[k].value == r[k].wikidataId && StartsWithQ(r[k].value) && r[k].labelText != ""
  {
    [
      Entry("Q5372", "basketball"),
      Entry("Q2736", "association football"),
      Entry("Q41323", "American football"),
      Entry("Q5369", "baseball"),
      Entry("Q847", "tennis"),
      Entry("Q5377", "golf"),
      Entry("Q41466", "ice hockey"),
      Entry("Q31920", "swimming"),
      Entry("Q542", "athletics"),
      Entry("Q32112", "boxing"),
      Entry("Q114466", "mixed martial arts"),
      Entry("Q5375", "cricket"),
      Entry("Q5849", "rugby union"),
      Entry("Q10962", "rugby league"),
      Entry("Q53121", "cycling"),
      Entry("Q5765", "skiing"),
      Entry("Q61067", "gymnastics"),
      Entry("Q1734", "volleyball"),
      Entry("Q12117", "wrestling"),
      Entry("Q5386", "auto racing"),
      Entry("Q131359", "professional wrestling"),
      Entry("Q1455", "field hockey"),
      Entry("Q7707", "water polo"),
      Entry("Q38108", "curling"),
      Entry("Q7275", "lacrosse"),
      Entry("Q170746", "Australian rules football"),
      Entry("Q46952", "softball")
    ]
  }

  /**
   * What fetch_sports_from_wikidata returns: the SPARQL entries merged with the
   * supplement, or [] when the query failed (`None`).
   */
  function FetchedSports(reply: Option<seq<Binding>>): (r: seq<Sport>)
    ensures reply.Some? ==> r != []
    ensures reply.None? ==> r == []
  {
    match reply
    case None => []
    case Some(bs) =>
      var lists := [ParseSparqlBindings(bs), SupplementalSports];
      MergeFacts(lists);
      assert lists[..1] == [ParseSparqlBindings(bs)] && Flatten(lists[..1][..0]) == [];
      assert Flatten(lists) == ParseSparqlBindings(bs) + SupplementalSports;
      assert HasQid(Flatten(lists), SupplementalSports[0].wikidataId) by {
        assert Flatten(lists)[|ParseSparqlBindings(bs)|] == SupplementalSports[0];
      }
      MergeSportLists(lists)
  }

  // ---------------------------------------------------------------------------
  // initialize_sports_cache and the lookups

  function Overridden(s: Sport): Sport {
    if s.wikidataId in DisplayNameOverrides then s.(labelText := DisplayNameOverrides[s.wikidataId]) else s
  }

  /** Q-ID -> label, as the index loop builds it: a later entry overwrites an earlier one. */
  function QidIndex(s: seq<Sport>): map<string, string>
    decreases |s|
  {
    if s == [] then map[]
    else QidIndex(s[..|s| - 1])[s[|s| - 1].wikidataId := s[|s| - 1].labelText]
  }

  /** Lower-case label -> Q-ID, as the index loop builds it: a later entry overwrites an earlier one. */
  function LabelIndex(s: seq<Sport>): map<string, string>
    decreases |s|
  {
    if s == [] then map[]
    else LabelIndex(s[..|s| - 1])[LabelKey(s[|s| - 1]) := s[|s| - 1].wikidataId]
  }

  /** Entry `i` is the last one with Q-ID `q`. */
  predicate LastWithQid(s: seq<Sport>, i: int, q: string) {
    0 <= i < |s| && s[i].wikidataId == q && forall j :: i < j < |s| ==> s[j].wikidataId != q
  }

  /** Entry `i` is the last one whose lower-case label is `key`. */
  predicate LastWithKey(s: seq<Sport>, i: int, key: string) {
    0 <= i < |s| && LabelKey(s[i]) == key && forall j :: i < j < |s| ==> LabelKey(s[j]) != key
  }

  lemma {:induction false} QidIndexFacts(s: seq<Sport>)
    ensures forall q :: q in QidIndex(s) <==> HasQid(s, q)
    ensures forall q :: q in QidIndex(s) ==> exists i :: LastWithQid(s, i, q) && QidIndex(s)[q] == s[i].labelText
    decreases |s|
  {
    if s != [] {
      var p := s[..|s| - 1];
      QidIndexFacts(p);
      var last := |s| - 1;
      forall q ensures q in QidIndex(s) <==> HasQid(s, q) {
        if HasQid(p, q) {
          var i :| 0 <= i < |p| && p[i].wikidataId == q;
          assert s[i] == p[i];
        }
        if HasQid(s, q) && q != s[last].wikidataId {
          var i :| 0 <= i < |s| && s[i].wikidataId == q;
          assert p[i] == s[i];
        }
      }
      forall q | q in QidIndex(s) ensures exists i :: LastWithQid(s, i, q) && QidIndex(s)[q] == s[i].labelText {
        if q == s[last].wikidataId {
          assert LastWithQid(s, last, q);
        } else {
          var i :| LastWithQid(p, i, q) && QidIndex(p)[q] == p[i].labelText;
          assert s[i] == p[i];
          assert LastWithQid(s, i, q);
        }
      }
    }
  }

  lemma {:induction false} LabelIndexFacts(s: seq<Sport>)
    ensures forall key :: key in LabelIndex(s) <==> exists i :: 0 <= i < |s| && LabelKey(s[i]) == key
    ensures forall key :: key in LabelIndex(s) ==> exists i :: LastWithKey(s, i, key) && LabelIndex(s)[key] == s[i].wikidataId
    decreases |s|
  {
    if s != [] {
      var p := s[..|s| - 1];
      LabelIndexFacts(p);
      var last := |s| - 1;
      forall key ensures key in LabelIndex(s) <==> exists i :: 0 <= i < |s| && LabelKey(s[i]) == key {
        if exists i :: 0 <= i < |p| && LabelKey(p[i]) == key {
          var i :| 0 <= i < |p| && LabelKey(p[i]) == key;
          assert s[i] == p[i];
        }
        if key != LabelKey(s[last]) && exists i :: 0 <= i < |s| && LabelKey(s[i]) == key {
          var i :| 0 <= i < |s| && LabelKey(s[i]) == key;
          assert p[i] == s[i];
        }
      }
      forall key | key in LabelIndex(s)
        ensures exists i :: LastWithKey(s, i, key) && LabelIndex(s)[key] == s[i].wikidataId
      {
        if key == LabelKey(s[last]) {
          assert LastWithKey(s, last, key);
        } else {
          var i :| LastWithKey(p, i, key) && LabelIndex(p)[key] == p[i].wikidataId;
          assert s[i] == p[i];
          assert LastWithKey(s, i, key);
        }
      }
    }
  }

  /** The in-memory catalogue and its two lookup indices. */
  class SportsCache {
    var sports: seq<Sport>
    var labelToQid: map<string, string>
    var qidToLabel: map<string, string>

    /** The indices are those of the cached list. */
    ghost predicate Valid()
      reads this
    {
      qidToLabel == QidIndex(sports) && labelToQid == LabelIndex(sports)
    }

    constructor()
      ensures Valid() && sports == []
    {
      sports := [];
      labelToQid := map[];
      qidToLabel := map[];
    }

    /**
     * initialize_sports_cache over what the fetch returned: the fallback list
     * when it is empty, the display-name overrides applied, and both indices
     * rebuilt from scratch.
     */
    method Initialize(fetched: seq<Sport>)
      modifies this
      ensures Valid()
      ensures var source := if fetched == [] then FallbackSports() else fetched;
        |sports| == |source|
        && forall k :: 0 <= k < |sports| ==> sports[k] == Overridden(source[k])
    {
      var list := if fetched == [] then FallbackSports() else fetched;
      ghost var source := list;
      for k := 0 to |list|
        invariant |list| == |source|
        invariant forall m :: 0 <= m < k ==> list[m] == Overridden(source[m])
        invariant forall m :: k <= m < |list| ==> list[m] == source[m]
      {
        var qid := list[k].wikidataId;
        if qid in DisplayNameOverrides {
          list := list[k := list[k].(labelText := DisplayNameOverrides[qid])];
        }
      }
      sports := list;
      labelToQid := map[];
      qidToLabel := map[];
      for k := 0 to |list|
        invariant sports == list
        invariant labelToQid == LabelIndex(list[..k]) && qidToLabel == QidIndex(list[..k])
      {
        assert list[..k + 1][..k] == list[..k];
        labelToQid := labelToQid[LabelKey(list[k]) := list[k].wikidataId];
        qidToLabel := qidToLabel[list[k].wikidataId := list[k].labelText];
      }
      assert list[..|list|] == list;
    }

    /** `is_valid_sport_qid`: the Q-ID is in the catalogue. */
    function IsValidSportQid(qid: string): (r: bool)
      reads this
      requires Valid()
      ensures r <==> HasQid(sports, qid)
    {
      QidIndexFacts(sports);
      qid in qidToLabel
    }

    /** `get_sport_label`: the label of the last catalogue entry with that Q-ID. */
    function GetSportLabel(qid: string): (r: Option<string>)
      reads this
      requires Valid()
      ensures r.None? <==> !HasQid(sports, qid)
      ensures r.Some? ==> exists i :: LastWithQid(sports, i, qid) && r.value == sports[i].labelText
    {
      QidIndexFacts(sports);
      if qid in qidToLabel then Some(qidToLabel[qid]) else None
    }

    /** `get_sport_qid`: case-insensitive reverse lookup; of colliding labels the last wins. */
    function GetSportQid(labelText: string): (r: Option<string>)
      reads this
      requires Valid()
      ensures r.None? <==> forall i :: 0 <= i < |sports| ==> LabelKey(sports[i]) != Lower(labelText)
      ensures r.Some? ==> exists i :: LastWithKey(sports, i, Lower(labelText)) && r.value == sports[i].wikidataId
    {
      LabelIndexFacts(sports);
      if Lower(labelText) in labelToQid then Some(labelToQid[Lower(labelText)]) else None
    }
  }

  /** After initialisation, an overridden Q-ID in the catalogue is looked up under its display name. */
  lemma OverrideVisible(cache: SportsCache, fetched: seq<Sport>, qid: string)
    requires cache.Valid()
    requires var source := if fetched == [] then FallbackSports() else fetched;
      |cache.sports| == |source| && forall k :: 0 <= k < |cache.sports| ==> cache.sports[k] == Overridden(source[k])
    requires qid in DisplayNameOverrides && HasQid(cache.sports, qid)
    ensures cache.GetSportLabel(qid) == Some(DisplayNameOverrides[qid])
  {
    QidIndexFacts(cache.sports);
  }
}
