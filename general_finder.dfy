/**
 * GeneralFinder: an index from a key word to the phrases listed under it, built from the
 * lines of a phrase file, and three queries over it: whether a text is one of the phrases,
 * the spans of a text where phrases occur, and the text at those spans.
 *
 * The index (FinderIndex, a map from a word to a set of phrases) is a class whose map the
 * builder updates in place. Java's HashSet iteration order is an unknown permutation.
 */
module Finder {
  import opened Wrappers
  import opened JavaText
  import opened JavaCollections

  // ---------------------------------------------------------------- reading a phrase line

  /** The words that never serve as a key. */
  const StopWords: set<string> := {"a", "an", "the", "i", "of", "or", "at", "el", "&"}

  /** The characters the regular expression "." does not match. */
  predicate IsLineTerminator(c: char)
  {
    c == '\n' || c == '\r' || c as int == 0x85 || c as int == 0x2028 || c as int == 0x2029
  }

  /** The first line terminator at or after p, or the end of s. */
  function LineEnd(s: string, p: nat): (q: nat)
    requires p <= |s|
    ensures p <= q <= |s|
    ensures forall k :: p <= k < q ==> !IsLineTerminator(s[k])
    ensures q < |s| ==> IsLineTerminator(s[q])
    decreases |s| - p
  {
    if p == |s| || IsLineTerminator(s[p]) then p else LineEnd(s, p + 1)
  }

  /** The line with its first match of "#.*" removed: from the first '#' up to the next
    * line terminator. */
  function StripComment(s: string): (r: string)
    ensures '#' !in s ==> r == s
  {
    var p := IndexOfChar(s, '#', 0);
    if p == -1 then s else s[..p] + s[LineEnd(s, p)..]
  }

  /** The phrase a line contributes: the comment removed, then trimmed. */
  function Clean(line: string): string
  {
    Trim(StripComment(line))
  }

  /** A character the class [\d\W] does not match: an ASCII letter or '_'. */
  predicate IsKeyLetter(c: char)
  {
    ('a' <= c <= 'z') || ('A' <= c <= 'Z') || c == '_'
  }

  /** A token that may serve as a key: not empty, not a stop word, and not made only of
    * digits and non-word characters. */
  predicate IsKeyToken(t: string)
  {
    t != "" && t !in StopWords && exists i :: 0 <= i < |t| && IsKeyLetter(t[i])
  }

  /** The first token that may serve as a key. */
  function FirstKey(ts: seq<string>): (r: Option<string>)
    ensures r.Some? ==> r.value in ts && IsKeyToken(r.value)
    ensures r.None? <==> forall t :: t in ts ==> !IsKeyToken(t)
  {
    if ts == [] then None
    else if IsKeyToken(ts[0]) then Some(ts[0])
    else FirstKey(ts[1..])
  }

  /** The key of a cleaned line: its first key token. */
  function Key(phrase: string): Option<string>
  {
    FirstKey(SplitSpaces(phrase))
  }

  /** The index after one line: a line that is empty once cleaned, or that has no key
    * token, adds nothing; otherwise the cleaned line joins the phrases under its key. */
  function AddLine(m: map<string, set<string>>, line: string): map<string, set<string>>
  {
    var p := Clean(line);
    if p == "" then m
    else match Key(p)
      case None => m
      case Some(t) => m[t := (if t in m then m[t] else {}) + {p}]
  }

  /** The index after the lines, in order. */
  function IndexLines(m: map<string, set<string>>, lines: seq<string>): map<string, set<string>>
  {
    if lines == [] then m else AddLine(IndexLines(m, lines[..|lines| - 1]), lines[|lines| - 1])
  }

  /** One line files its cleaned text under its key and changes nothing else. */
  lemma AddLineHolds(m: map<string, set<string>>, line: string, t: string, p: string)
    ensures (t in AddLine(m, line) && p in AddLine(m, line)[t]) <==>
      ((t in m && p in m[t]) || (p != "" && Key(p) == Some(t) && Clean(line) == p))
  {
  }

  /** The cleaned forms of the lines. */
  function Cleaned(lines: seq<string>): set<string>
  {
    if lines == [] then {} else Cleaned(lines[..|lines| - 1]) + {Clean(lines[|lines| - 1])}
  }

  /** A phrase stands under a word of the built index exactly when it stood there before or
    * some line cleans to it and the word is that phrase's key. */
  lemma {:induction false} IndexLinesHolds(m: map<string, set<string>>, lines: seq<string>, t: string, p: string)
    ensures (t in IndexLines(m, lines) && p in IndexLines(m, lines)[t]) <==>
      ((t in m && p in m[t]) || (p != "" && Key(p) == Some(t) && p in Cleaned(lines)))
  {
    if lines != [] {
      var init := lines[..|lines| - 1];
      IndexLinesHolds(m, init, t, p);
      AddLineHolds(IndexLines(m, init), lines[|lines| - 1], t, p);
    }
  }

  /** No phrase of the index is empty: the condition under which scanning for its phrases
    * ends. */
  predicate NoEmptyPhrase(m: map<string, set<string>>)
  {
    forall t :: t in m ==> "" !in m[t]
  }

  /** Building keeps the index free of empty phrases. */
  lemma IndexLinesNoEmpty(m: map<string, set<string>>, lines: seq<string>)
    requires NoEmptyPhrase(m)
    ensures NoEmptyPhrase(IndexLines(m, lines))
  {
    forall t | t in IndexLines(m, lines)
      ensures "" !in IndexLines(m, lines)[t]
    {
      IndexLinesHolds(m, lines, t, "");
    }
  }

  /** `FinderIndex`: the word-to-phrases map. */
  class FinderIndex {
    var entries: map<string, set<string>>

    constructor()
      ensures entries == map[]
    {
      entries := map[];
    }

    predicate Valid()
      reads this
    {
      NoEmptyPhrase(entries)
    }
  }

  /** The key search from position i: the token there if it may serve, else the search
    * from the next one. */
  lemma FirstKeyFrom(ts: seq<string>, i: int)
    requires 0 <= i < |ts|
    ensures FirstKey(ts[i..]) == if IsKeyToken(ts[i]) then Some(ts[i]) else FirstKey(ts[i + 1..])
  {
    assert ts[i..][1..] == ts[i + 1..];
  }

  /** The token loop of `makeIndex`: the first token that may serve as a key. */
  method FirstKeyToken(ts: seq<string>) returns (r: Option<string>)
    ensures r == FirstKey(ts)
  {
    var i := 0;
    while i < |ts|
      invariant 0 <= i <= |ts|
      invariant FirstKey(ts) == FirstKey(ts[i..])
    {
      var t := ts[i];
      FirstKeyFrom(ts, i);
      if t == "" || t in StopWords {
        assert !IsKeyToken(t);
        i := i + 1;
        continue;
      }
      if forall k :: 0 <= k < |t| ==> !IsKeyLetter(t[k]) {
        assert !IsKeyToken(t);
        i := i + 1;
        continue;
      }
      assert IsKeyToken(t);
      return Some(t);
    }
    return None;
  }

  /** `makeIndex(reader, index)` over the reader's lines: each cleaned, non-empty line is
    * added under its key. */
  method MakeIndex(lines: seq<string>, index: FinderIndex)
    modifies index
    ensures index.entries == IndexLines(old(index.entries), lines)
  {
    ghost var m0 := index.entries;
    var n := 0;
    while n < |lines|
      invariant 0 <= n <= |lines|
      invariant index.entries == IndexLines(m0, lines[..n])
    {
      assert lines[..n + 1][..n] == lines[..n];
      AddPhraseLine(lines[n], index);
      n := n + 1;
    }
    assert lines[..n] == lines;
  }

  /** One turn of the line loop of `makeIndex`. */
  method AddPhraseLine(line: string, index: FinderIndex)
    modifies index
    ensures index.entries == AddLine(old(index.entries), line)
  {
    var s := Trim(StripComment(line));
    assert s == Clean(line);
    if s == "" {
      return;
    }
    var key := FirstKeyToken(SplitSpaces(s));
    assert key == Key(s);
    FileUnderKey(s, key, index);
  }

  /** The filing step of `makeIndex`: the phrase joins the set under its key, if it has one. */
  method FileUnderKey(s: string, key: Option<string>, index: FinderIndex)
    modifies index
    ensures key.None? ==> index.entries == old(index.entries)
    ensures key.Some? ==> index.entries == old(index.entries)[key.value :=
      (if key.value in old(index.entries) then old(index.entries)[key.value] else {}) + {s}]
  {
    if key.Some? {
      var t := key.value;
      if t in index.entries {
        index.entries := index.entries[t := index.entries[t] + {s}];
      } else {
        assert {} + {s} == {s};
        index.entries := index.entries[t := {s}];
      }
    }
  }

  // ---------------------------------------------------------------- isFound

  /** The query, once lower-cased and trimmed, is a phrase under one of its own tokens. */
  predicate Findable(q: string, m: map<string, set<string>>)
  {
    exists t :: t in SplitSpaces(q) && t in m && q in m[t]
  }

  /** `isFound(s, index)`: false for a null or empty text; otherwise whether the lower-cased,
    * trimmed text stands under one of its tokens. */
  method IsFound(s: Option<string>, index: FinderIndex) returns (found: bool)
    ensures found <==> s.Some? && s.value != "" && Findable(Trim(Lower(s.value)), index.entries)
  {
    if s.None? || s.value == "" {
      return false;
    }
    var q := Trim(Lower(s.value));
    found := FiledUnderToken(q, SplitSpaces(q), index);
  }

  /** The token loop of `isFound`: whether q is filed under one of the tokens, each
    * distinct token looked up once. */
  method FiledUnderToken(q: string, tokens: seq<string>, index: FinderIndex) returns (found: bool)
    ensures found <==> exists t :: t in tokens && t in index.entries && q in index.entries[t]
  {
    var seen: set<string> := {};
    var i := 0;
    while i < |tokens|
      invariant 0 <= i <= |tokens|
      invariant forall k :: 0 <= k < i ==> tokens[k] in seen
      invariant forall x :: x in seen ==> !(x in index.entries && q in index.entries[x])
    {
      var t := tokens[i];
      if t in seen {
        i := i + 1;
        continue;
      }
      seen := seen + {t};
      if t in index.entries && q in index.entries[t] {
        return true;
      }
      i := i + 1;
    }
    return false;
  }

  /** Over an index built from nothing but a phrase file, a lower-cased, trimmed query is
    * found exactly when some line of the file cleans to it and that line has a key. */
  lemma FindableIffLine(lines: seq<string>, q: string)
    ensures Findable(q, IndexLines(map[], lines)) <==> q != "" && Key(q).Some? && q in Cleaned(lines)
  {
    var m := IndexLines(map[], lines);
    if Findable(q, m) {
      var t :| t in SplitSpaces(q) && t in m && q in m[t];
      IndexLinesHolds(map[], lines, t, q);
    }
    if q != "" && Key(q).Some? && q in Cleaned(lines) {
      var t := Key(q).value;
      IndexLinesHolds(map[], lines, t, q);
      assert t in SplitSpaces(q);
    }
  }

  // ---------------------------------------------------------------- findSpans

  /** opennlp's `Span`: the characters from start up to end. */
  datatype Span = Span(start: int, end: int)

  predicate Covers(a: Span, b: Span)
  {
    a.start <= b.start && b.end <= a.end
  }

  predicate CoveredBy(spans: seq<Span>, b: Span)
  {
    exists a :: a in spans && Covers(a, b)
  }

  /** Every span of old lies inside some span of spans. */
  predicate Refines(spans: seq<Span>, old_: seq<Span>)
  {
    forall b :: b in old_ ==> CoveredBy(spans, b)
  }

  /** One occurrence offered to the span list: the first span that contains it or that it
    * contains decides; a containing span keeps the list, a contained one is replaced;
    * with neither, the new span is appended. */
  function Insert(spans: seq<Span>, sp: Span): seq<Span>
  {
    if spans == [] then [sp]
    else if Covers(spans[0], sp) then spans
    else if Covers(sp, spans[0]) then [sp] + spans[1..]
    else [spans[0]] + Insert(spans[1..], sp)
  }

  /** Offering a span keeps every old span covered, covers the new one, and brings in no
    * span but the new one. */
  lemma {:induction false} InsertCovers(spans: seq<Span>, sp: Span)
    ensures CoveredBy(Insert(spans, sp), sp)
    ensures Refines(Insert(spans, sp), spans)
    ensures forall b :: b in Insert(spans, sp) ==> b in spans || b == sp
  {
    var r := Insert(spans, sp);
    if spans == [] {
      assert r[0] == sp && r[0] in r && Covers(r[0], sp);
    } else if Covers(spans[0], sp) {
      assert spans[0] in r;
      forall b | b in spans
        ensures CoveredBy(r, b)
      {
        assert Covers(b, b);
      }
    } else if Covers(sp, spans[0]) {
      assert r[0] == sp && Covers(r[0], sp);
      forall b | b in spans
        ensures CoveredBy(r, b)
      {
        if b == spans[0] {
          assert Covers(r[0], b);
        } else {
          assert b in spans[1..];
          assert b in r && Covers(b, b);
        }
      }
    } else {
      InsertCovers(spans[1..], sp);
      var rest := Insert(spans[1..], sp);
      assert r == [spans[0]] + rest;
      var a :| a in rest && Covers(a, sp);
      assert a in r;
      forall b | b in spans
        ensures CoveredBy(r, b)
      {
        if b == spans[0] {
          assert b in r && Covers(b, b);
        } else {
          assert b in spans[1..];
          var c :| c in rest && Covers(c, b);
          assert c in r;
        }
      }
    }
  }

  /** The positions the `indexOf` loop visits: each occurrence of l from `from` on that
    * starts after the previous one ends. */
  function Scan(text: string, l: string, from: int): seq<int>
    requires l != "" && 0 <= from <= |text|
    decreases |text| - from
  {
    var i := IndexOf(text, l, from);
    if i == -1 then [] else [i] + Scan(text, l, i + |l|)
  }

  /** Every visited position is an occurrence. */
  lemma {:induction false} ScanOccurs(text: string, l: string, from: int)
    requires l != "" && 0 <= from <= |text|
    ensures forall p :: p in Scan(text, l, from) ==> OccursAt(text, l, p)
    decreases |text| - from
  {
    var i := IndexOf(text, l, from);
    if i != -1 {
      ScanOccurs(text, l, i + |l|);
    }
  }

  /** The span list after offering an occurrence of length n at each position in turn. */
  function InsertAt(spans: seq<Span>, ps: seq<int>, n: int): seq<Span>
    decreases |ps|
  {
    if ps == [] then spans else InsertAt(Insert(spans, Span(ps[0], ps[0] + n)), ps[1..], n)
  }

  lemma CoverTransitive(spans: seq<Span>, mid: seq<Span>, b: Span)
    requires CoveredBy(mid, b) && Refines(spans, mid)
    ensures CoveredBy(spans, b)
  {
    var a :| a in mid && Covers(a, b);
    var c :| c in spans && Covers(c, a);
  }

  /** Offering several occurrences keeps every old span covered. */
  lemma {:induction false} InsertAtRefines(spans: seq<Span>, ps: seq<int>, n: int)
    decreases |ps|
    ensures Refines(InsertAt(spans, ps, n), spans)
  {
    var r := InsertAt(spans, ps, n);
    if ps == [] {
      forall b | b in spans
        ensures CoveredBy(r, b)
      {
        assert Covers(b, b);
      }
    } else {
      var mid := Insert(spans, Span(ps[0], ps[0] + n));
      InsertCovers(spans, Span(ps[0], ps[0] + n));
      InsertAtRefines(mid, ps[1..], n);
      forall b | b in spans
        ensures CoveredBy(r, b)
      {
        CoverTransitive(r, mid, b);
      }
    }
  }

  /** Offering several occurrences covers each of them. */
  lemma {:induction false} InsertAtCovers(spans: seq<Span>, ps: seq<int>, n: int, p: int)
    requires p in ps
    decreases |ps|
    ensures CoveredBy(InsertAt(spans, ps, n), Span(p, p + n))
  {
    var mid := Insert(spans, Span(ps[0], ps[0] + n));
    if p == ps[0] {
      InsertCovers(spans, Span(p, p + n));
      InsertAtRefines(mid, ps[1..], n);
      CoverTransitive(InsertAt(mid, ps[1..], n), mid, Span(p, p + n));
    } else {
      assert p in ps[1..];
      InsertAtCovers(mid, ps[1..], n, p);
    }
  }

  /** Offering several occurrences brings in no span but the occurrences. */
  lemma {:induction false} InsertAtOnly(spans: seq<Span>, ps: seq<int>, n: int)
    decreases |ps|
    ensures forall b :: b in InsertAt(spans, ps, n) ==>
      b in spans || exists p :: p in ps && b == Span(p, p + n)
  {
    if ps != [] {
      var r := InsertAt(spans, ps, n);
      var mid := Insert(spans, Span(ps[0], ps[0] + n));
      InsertCovers(spans, Span(ps[0], ps[0] + n));
      InsertAtOnly(mid, ps[1..], n);
      forall b | b in r
        ensures b in spans || exists p :: p in ps && b == Span(p, p + n)
      {
        if b !in mid {
          var p :| p in ps[1..] && b == Span(p, p + n);
          assert p in ps;
        } else if b !in spans {
          assert b == Span(ps[0], ps[0] + n) && ps[0] in ps;
        }
      }
    }
  }

  /** A span that neither contains nor lies inside the new one is passed over. */
  lemma InsertSkip(spans: seq<Span>, k: int, sp: Span)
    requires 0 <= k < |spans| && !Covers(spans[k], sp) && !Covers(sp, spans[k])
    ensures spans[..k] + Insert(spans[k..], sp) == spans[..k + 1] + Insert(spans[k + 1..], sp)
  {
    assert spans[k..][1..] == spans[k + 1..];
    assert spans[..k + 1] == spans[..k] + [spans[k]];
  }

  /** A span containing the new one keeps the list as it is. */
  lemma InsertStop(spans: seq<Span>, k: int, sp: Span)
    requires 0 <= k < |spans| && Covers(spans[k], sp)
    ensures spans[..k] + Insert(spans[k..], sp) == spans
  {
    assert spans == spans[..k] + spans[k..];
  }

  /** A span inside the new one is replaced by it. */
  lemma InsertReplace(spans: seq<Span>, k: int, sp: Span)
    requires 0 <= k < |spans| && !Covers(spans[k], sp) && Covers(sp, spans[k])
    ensures spans[..k] + Insert(spans[k..], sp) == spans[k := sp]
  {
    assert spans[k..][1..] == spans[k + 1..];
    assert spans[k := sp] == spans[..k] + [sp] + spans[k + 1..];
  }

  /** The loop over the span list in `findSpans`: the first span containing [i, j) stops
    * it, the first span inside [i, j) is replaced, otherwise [i, j) is appended. */
  method AddSpan(spans: seq<Span>, i: int, j: int) returns (r: seq<Span>)
    ensures r == Insert(spans, Span(i, j))
  {
    var add := true;
    var k := -1;
    var replace := -1;
    while k + 1 < |spans|
      invariant -1 <= k < |spans| && add && replace == -1
      invariant Insert(spans, Span(i, j)) == spans[..k + 1] + Insert(spans[k + 1..], Span(i, j))
    {
      k := k + 1;
      var sp := spans[k];
      if sp.start <= i && sp.end >= j {
        InsertStop(spans, k, Span(i, j));
        add := false;
        break;
      } else if sp.start >= i && sp.end <= j {
        InsertReplace(spans, k, Span(i, j));
        replace := k;
        break;
      }
      InsertSkip(spans, k, Span(i, j));
    }
    r := spans;
    if add {
      var sp := Span(i, i + (j - i));
      if replace > -1 {
        r := spans[replace := sp];
      } else {
        assert spans[k + 1..] == [] && spans[..k + 1] == spans;
        r := spans + [sp];
      }
    }
  }

  /** The positions the `indexOf` loop still visits once it stands at i. */
  function Hits(text: string, l: string, i: int): seq<int>
    requires l != "" && (i == -1 || OccursAt(text, l, i))
  {
    if i == -1 then [] else [i] + Scan(text, l, i + |l|)
  }

  /** The visits from a position are those from the next occurrence on. */
  lemma ScanHits(text: string, l: string, from: int)
    requires l != "" && 0 <= from <= |text|
    ensures IndexOf(text, l, from) == -1 || OccursAt(text, l, IndexOf(text, l, from))
    ensures Scan(text, l, from) == Hits(text, l, IndexOf(text, l, from))
  {
  }

  /** Offering a first occurrence, then the rest. */
  lemma InsertAtCons(spans: seq<Span>, p: int, rest: seq<int>, n: int)
    ensures InsertAt(spans, [p] + rest, n) == InsertAt(Insert(spans, Span(p, p + n)), rest, n)
  {
    assert ([p] + rest)[0] == p && ([p] + rest)[1..] == rest;
  }

  /** The `indexOf` loop for one phrase: each visited occurrence offered in turn. */
  method ScanPhrase(text: string, l: string, spans: seq<Span>) returns (r: seq<Span>)
    requires l != ""
    ensures r == InsertAt(spans, Scan(text, l, 0), |l|)
  {
    r := spans;
    ScanHits(text, l, 0);
    var i := IndexOf(text, l, 0);
    while i > -1
      invariant i == -1 || OccursAt(text, l, i)
      invariant InsertAt(r, Hits(text, l, i), |l|) == InsertAt(spans, Scan(text, l, 0), |l|)
      decreases if i < 0 then 0 else |text| + 1 - i
    {
      var j := i + |l|;
      ghost var rest := Scan(text, l, j);
      InsertAtCons(r, i, rest, |l|);
      r := AddSpan(r, i, j);
      ScanHits(text, l, j);
      i := IndexOf(text, l, j);
    }
  }

  /** The distinct tokens of a text. */
  function TokenSet(text: string): set<string>
  {
    Distinct(SplitSpaces(text))
  }

  /** The distinct members of a sequence. */
  function Distinct(ts: seq<string>): set<string>
  {
    set t | t in ts
  }

  lemma DistinctSnoc(ts: seq<string>, i: int)
    requires 0 <= i < |ts|
    ensures Distinct(ts[..i + 1]) == Distinct(ts[..i]) + {ts[i]}
  {
    assert ts[..i + 1] == ts[..i] + [ts[i]];
  }

  /** Each span lies in the text and its text is a phrase filed under one of the words. */
  predicate SpanOf(text: string, m: map<string, set<string>>, ts: set<string>, sp: Span)
  {
    0 <= sp.start <= sp.end <= |text| &&
    exists t :: t in ts && t in m && text[sp.start..sp.end] in m[t]
  }

  /** Every occurrence the scan visits, of every phrase under every word, lies inside a
    * span. */
  predicate Complete(text: string, m: map<string, set<string>>, ts: set<string>, spans: seq<Span>)
  {
    forall t, l, p :: t in ts && t in m && l in m[t] && l != "" && p in Scan(text, l, 0) ==>
      CoveredBy(spans, Span(p, p + |l|))
  }

  /** Complete stays true when every span stays covered. */
  lemma CompleteRefined(text: string, m: map<string, set<string>>, ts: set<string>, spans: seq<Span>, old_: seq<Span>)
    requires Complete(text, m, ts, old_) && Refines(spans, old_)
    ensures Complete(text, m, ts, spans)
  {
    forall t, l, p | t in ts && t in m && l in m[t] && l != "" && p in Scan(text, l, 0)
      ensures CoveredBy(spans, Span(p, p + |l|))
    {
      CoverTransitive(spans, old_, Span(p, p + |l|));
    }
  }

  /** The loop over the phrases filed under one word. */
  method ScanPhrases(text: string, ghost m: map<string, set<string>>, ghost ts: set<string>, t: string,
                     order: seq<string>, spans: seq<Span>) returns (r: seq<Span>)
    requires t in ts && t in m && NoEmptyPhrase(m)
    requires forall l :: l in order ==> l in m[t]
    requires forall sp :: sp in spans ==> SpanOf(text, m, ts, sp)
    ensures forall sp :: sp in r ==> SpanOf(text, m, ts, sp)
    ensures Refines(r, spans)
    ensures forall l, p :: l in order && l != "" && p in Scan(text, l, 0) ==> CoveredBy(r, Span(p, p + |l|))
  {
    r := spans;
    var j := 0;
    forall b | b in spans
      ensures CoveredBy(r, b)
    {
      assert Covers(b, b);
    }
    while j < |order|
      invariant 0 <= j <= |order|
      invariant forall sp :: sp in r ==> SpanOf(text, m, ts, sp)
      invariant Refines(r, spans)
      invariant forall l, p :: l in order[..j] && l != "" && p in Scan(text, l, 0) ==> CoveredBy(r, Span(p, p + |l|))
    {
      var l := order[j];
      ghost var before := r;
      r := ScanPhrase(text, l, r);
      ScanPhraseSound(text, m, ts, t, l, before);
      ScanPhraseCovers(text, l, before, spans, order[..j]);
      assert order[..j + 1] == order[..j] + [l];
      j := j + 1;
    }
    assert order[..j] == order;
  }

  /** One phrase's scan keeps every span an occurrence of a phrase under one of the words. */
  lemma ScanPhraseSound(text: string, m: map<string, set<string>>, ts: set<string>, t: string, l: string,
                        before: seq<Span>)
    requires t in ts && t in m && l in m[t] && l != ""
    requires forall sp :: sp in before ==> SpanOf(text, m, ts, sp)
    ensures forall sp :: sp in InsertAt(before, Scan(text, l, 0), |l|) ==> SpanOf(text, m, ts, sp)
  {
    var ps := Scan(text, l, 0);
    InsertAtOnly(before, ps, |l|);
    ScanOccurs(text, l, 0);
    forall sp | sp in InsertAt(before, ps, |l|)
      ensures SpanOf(text, m, ts, sp)
    {
      if sp !in before {
        var p :| p in ps && sp == Span(p, p + |l|);
        assert OccursAt(text, l, p);
        assert text[sp.start..sp.end] == l;
      }
    }
  }

  /** One phrase's scan keeps the old spans covered and the occurrences of the phrases done
    * before, and now covers those of this phrase too. */
  lemma ScanPhraseCovers(text: string, l: string, before: seq<Span>, spans: seq<Span>, done: seq<string>)
    requires l != ""
    requires Refines(before, spans)
    requires forall l', p :: l' in done && l' != "" && p in Scan(text, l', 0) ==> CoveredBy(before, Span(p, p + |l'|))
    ensures var r := InsertAt(before, Scan(text, l, 0), |l|);
      Refines(r, spans) &&
      forall l', p :: l' in done + [l] && l' != "" && p in Scan(text, l', 0) ==> CoveredBy(r, Span(p, p + |l'|))
  {
    var ps := Scan(text, l, 0);
    var r := InsertAt(before, ps, |l|);
    InsertAtRefines(before, ps, |l|);
    forall b | b in spans
      ensures CoveredBy(r, b)
    {
      CoverTransitive(r, before, b);
    }
    forall l', p | l' in done + [l] && l' != "" && p in Scan(text, l', 0)
      ensures CoveredBy(r, Span(p, p + |l'|))
    {
      if l' != l {
        CoverTransitive(r, before, Span(p, p + |l'|));
      } else {
        InsertAtCovers(before, ps, |l|, p);
      }
    }
  }

  /** `findSpans(s, index)`: nothing for a null or empty text; otherwise, for each distinct
    * token of the lower-cased text filed in the index, every phrase under it is searched
    * for. Every span found is an occurrence of such a phrase, and every occurrence visited
    * lies inside a span. */
  method FindSpans(s: Option<string>, index: FinderIndex) returns (spans: seq<Span>)
    requires index.Valid()
    ensures s.None? || s.value == "" ==> spans == []
    ensures s.Some? ==> forall sp :: sp in spans ==>
      SpanOf(Lower(s.value), index.entries, TokenSet(Lower(s.value)), sp)
    ensures s.Some? ==>
      Complete(Lower(s.value), index.entries, TokenSet(Lower(s.value)), spans)
  {
    spans := [];
    if s.None? || s.value == "" {
      return;
    }
    var text := Lower(s.value);
    spans := SpansOverTokens(text, SplitSpaces(text), index);
  }

  /** The token loop of `findSpans`: each distinct token filed in the index has its
    * phrases searched for. */
  method SpansOverTokens(text: string, tokens: seq<string>, index: FinderIndex) returns (spans: seq<Span>)
    requires index.Valid()
    ensures forall sp :: sp in spans ==> SpanOf(text, index.entries, Distinct(tokens), sp)
    ensures Complete(text, index.entries, Distinct(tokens), spans)
  {
    spans := [];
    ghost var all := Distinct(tokens);
    var seen: set<string> := {};
    var i := 0;
    while i < |tokens|
      invariant 0 <= i <= |tokens|
      invariant seen == Distinct(tokens[..i])
      invariant forall sp :: sp in spans ==> SpanOf(text, index.entries, all, sp)
      invariant Complete(text, index.entries, seen, spans)
    {
      var t := tokens[i];
      assert t in all;
      DistinctSnoc(tokens, i);
      if t !in seen {
        spans := ScanToken(text, all, seen, t, index, spans);
        seen := seen + {t};
      }
      i := i + 1;
    }
    assert tokens[..i] == tokens;
  }

  /** One turn of the token loop of `findSpans`: the phrases under t, if any, searched for. */
  method ScanToken(text: string, ghost all: set<string>, ghost seen: set<string>, t: string,
                   index: FinderIndex, spans: seq<Span>) returns (r: seq<Span>)
    requires index.Valid() && t in all
    requires forall sp :: sp in spans ==> SpanOf(text, index.entries, all, sp)
    requires Complete(text, index.entries, seen, spans)
    ensures forall sp :: sp in r ==> SpanOf(text, index.entries, all, sp)
    ensures Complete(text, index.entries, seen + {t}, r)
  {
    r := spans;
    ghost var m := index.entries;
    if t in index.entries {
      var order := SomeOrder(index.entries[t]);
      r := ScanPhrases(text, m, all, t, order, spans);
      CompleteRefined(text, m, seen, r, spans);
    }
    forall t', l, p | t' in seen + {t} && t' in m && l in m[t'] && l != "" && p in Scan(text, l, 0)
      ensures CoveredBy(r, Span(p, p + |l|))
    {
    }
  }

  /** `getExtractions(s, index)`: the original-case text at each span found. */
  method GetExtractions(s: Option<string>, index: FinderIndex) returns (r: set<string>, ghost spans: seq<Span>)
    requires index.Valid()
    ensures s.None? || s.value == "" ==> r == {}
    ensures s.Some? ==> forall x :: x in r <==>
      exists sp :: sp in spans && 0 <= sp.start <= sp.end <= |s.value| && x == s.value[sp.start..sp.end]
    ensures s.Some? ==>
      Complete(Lower(s.value), index.entries, TokenSet(Lower(s.value)), spans)
    ensures s.Some? ==> forall x :: x in r ==>
      exists t :: t in SplitSpaces(Lower(s.value)) && t in index.entries && Lower(x) in index.entries[t]
  {
    var found := FindSpans(s, index);
    spans := found;
    r := {};
    if s.None? {
      return;
    }
    var text := s.value;
    forall k | 0 <= k < |found|
      ensures 0 <= found[k].start <= found[k].end <= |text|
    {
      assert found[k] in found;
    }
    var i := 0;
    while i < |found|
      invariant 0 <= i <= |found|
      invariant forall x :: x in r <==> exists k :: 0 <= k < i && x == text[found[k].start..found[k].end]
    {
      assert found[i] in found;
      r := r + {text[found[i].start..found[i].end]};
      i := i + 1;
    }
    forall x | x in r
      ensures exists t :: t in SplitSpaces(Lower(text)) && t in index.entries && Lower(x) in index.entries[t]
    {
      var k :| 0 <= k < |spans| && x == text[spans[k].start..spans[k].end];
      assert spans[k] in spans;
      LowerSlice(text, spans[k].start, spans[k].end);
    }
  }

  /** Lower-casing commutes with taking a slice. */
  lemma LowerSlice(s: string, a: int, b: int)
    requires 0 <= a <= b <= |s|
    ensures Lower(s[a..b]) == Lower(s)[a..b]
  {
  }
}
