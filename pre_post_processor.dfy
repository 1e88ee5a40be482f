/**
 * PrePostProcessor, the part that turns an annotated quote into a review record: the
 * highlight scan of `postprocessRow`, which reads the HIGHLIGHTSTART and HIGHLIGHTEND
 * marker characters out of the text and renders them as <B> and </B> tags while noting
 * where each highlight lies in the plain quote, and the helpers that shorten the texts to
 * the sizes of the database fields.
 *
 * The words and the title arrive already post-processed; `postProcessWords` and
 * `postProcessString` (regular expressions and HTML escaping) are not part of this model.
 * An exception a Java `substring` would throw is `Err`.
 */
module PostProcessing {
  import opened Wrappers
  import opened JavaText

  const HighlightStart: char := '\U{0}'
  const HighlightEnd: char := '\U{1}'

  predicate IsMarker(c: char)
  {
    c == HighlightStart || c == HighlightEnd
  }

  /** A highlight: the characters of the plain quote from start up to end. */
  datatype HitSpan = HitSpan(start: int, end: int)

  // ---------------------------------------------------------------- what the scan means

  /** The text without its markers. */
  function Plain(a: string): (r: string)
    ensures |r| <= |a|
  {
    if a == [] then [] else Plain(a[..|a| - 1]) + (if IsMarker(a[|a| - 1]) then [] else [a[|a| - 1]])
  }

  /** What a character becomes in the annotated quote. */
  function Tag(c: char): string
  {
    if c == HighlightStart then "<B>" else if c == HighlightEnd then "</B>" else [c]
  }

  /** The text with every character replaced by its tag. */
  function Tagged(a: string): string
  {
    if a == [] then [] else Tagged(a[..|a| - 1]) + Tag(a[|a| - 1])
  }

  /** The position of the last marker in the text, -1 without one. */
  function LastMarker(a: string): (r: int)
    ensures -1 <= r < |a|
    ensures r >= 0 ==> IsMarker(a[r])
    ensures forall j :: r < j < |a| ==> !IsMarker(a[j])
  {
    if a == [] then -1 else if IsMarker(a[|a| - 1]) then |a| - 1 else LastMarker(a[..|a| - 1])
  }

  /** The text ends inside a highlight: its last marker is a HIGHLIGHTSTART. */
  predicate OpenAtEnd(a: string)
  {
    LastMarker(a) >= 0 && a[LastMarker(a)] == HighlightStart
  }

  /** The marker at q is a HIGHLIGHTEND that closes a highlight: the last marker before it
    * is a HIGHLIGHTSTART. */
  predicate ClosesSpan(a: string, q: int)
  {
    0 <= q < |a| && a[q] == HighlightEnd && OpenAtEnd(a[..q])
  }

  /** The highlight from the last marker before q up to q, in positions of the plain quote. */
  function SpanBefore(a: string, q: int): HitSpan
    requires 0 <= q <= |a|
  {
    var p := LastMarker(a[..q]);
    HitSpan(if p >= 0 then |Plain(a[..p])| else 0, |Plain(a[..q])|)
  }

  // ---------------------------------------------------------------- the scan

  /** The scan's state: the plain quote and the annotated quote built so far, the
    * highlights found, and where the open highlight starts (-1 for none). */
  datatype ScanState = ScanState(quote: string, annotated: string, spans: seq<HitSpan>, start: int)

  /** One character of the loop of `postprocessRow`: a HIGHLIGHTSTART opens a highlight at
    * the current quote length; a HIGHLIGHTEND closes the open one, if any; any other
    * character goes to both texts. */
  function Step(st: ScanState, c: char): ScanState
  {
    if c == HighlightStart then ScanState(st.quote, st.annotated + "<B>", st.spans, |st.quote|)
    else if c == HighlightEnd then
      ScanState(st.quote, st.annotated + "</B>",
                if st.start > -1 then st.spans + [HitSpan(st.start, |st.quote|)] else st.spans, -1)
    else ScanState(st.quote + [c], st.annotated + [c], st.spans, st.start)
  }

  /** The state after the whole text, character by character. */
  function ScanText(a: string): ScanState
  {
    if a == [] then ScanState([], [], [], -1) else Step(ScanText(a[..|a| - 1]), a[|a| - 1])
  }

  /** The scan's result: a highlight still open at the end is closed there. */
  function Highlight(a: string): ScanState
  {
    var st := ScanText(a);
    if st.start > -1 then ScanState(st.quote, st.annotated + "</B>", st.spans + [HitSpan(st.start, |st.quote|)], st.start)
    else st
  }

  // ---------------------------------------------------------------- properties of the scan

  /** The quote is the text without markers, and the annotated quote has each marker
    * replaced by its tag. */
  lemma {:induction false} ScanTexts(a: string)
    ensures ScanText(a).quote == Plain(a)
    ensures ScanText(a).annotated == Tagged(a)
  {
    if a != [] {
      ScanTexts(a[..|a| - 1]);
    }
  }

  /** A highlight is open exactly when the last marker is a HIGHLIGHTSTART, and it starts
    * where that marker stands in the plain quote. */
  lemma {:induction false} ScanOpen(a: string)
    ensures ScanText(a).start > -1 <==> OpenAtEnd(a)
    ensures OpenAtEnd(a) ==> ScanText(a).start == |Plain(a[..LastMarker(a)])|
  {
    if a != [] {
      var init := a[..|a| - 1];
      ScanOpen(init);
      ScanTexts(init);
      if !IsMarker(a[|a| - 1]) && OpenAtEnd(a) {
        assert LastMarker(a) == LastMarker(init);
        assert a[..LastMarker(a)] == init[..LastMarker(init)];
      }
      if a[|a| - 1] == HighlightStart {
        assert a[..|a| - 1] == init;
      }
    }
  }

  /** Every highlight lies in the quote with its start before its end, the highlights come
    * in order without overlapping, and all of them end before an open one starts. */
  lemma {:induction false} ScanOrdered(a: string)
    ensures var st := ScanText(a);
      -1 <= st.start <= |st.quote| &&
      (forall k :: 0 <= k < |st.spans| ==> 0 <= st.spans[k].start <= st.spans[k].end <= |st.quote|) &&
      (forall k, j :: 0 <= k < j < |st.spans| ==> st.spans[k].end <= st.spans[j].start) &&
      (st.start > -1 ==> forall k :: 0 <= k < |st.spans| ==> st.spans[k].end <= st.start)
  {
    if a != [] {
      ScanOrdered(a[..|a| - 1]);
    }
  }

  /** A prefix of a text keeps the text's characters. */
  lemma PrefixOfSnoc(a: string, q: int)
    requires 0 <= q < |a|
    ensures a[..q] == a[..|a| - 1][..q]
  {
  }

  /** The closing markers of a longer text: those of its prefix, and the new last character
    * when it closes a highlight. */
  lemma ClosesSpanSnoc(a: string, q: int)
    requires a != [] && 0 <= q < |a| - 1
    ensures ClosesSpan(a, q) <==> ClosesSpan(a[..|a| - 1], q)
    ensures ClosesSpan(a, q) ==> SpanBefore(a, q) == SpanBefore(a[..|a| - 1], q)
  {
    var init := a[..|a| - 1];
    PrefixOfSnoc(a, q);
    var p := LastMarker(a[..q]);
    if p >= 0 {
      assert a[..p] == init[..p];
    }
  }

  /** Every highlight the scan has closed was closed by a HIGHLIGHTEND whose last marker
    * before it is a HIGHLIGHTSTART, and runs from that marker to the HIGHLIGHTEND. */
  lemma {:induction false} ScanSpansSound(a: string, sp: HitSpan)
    requires sp in ScanText(a).spans
    ensures exists q :: ClosesSpan(a, q) && sp == SpanBefore(a, q)
  {
    var init := a[..|a| - 1];
    var n := |a| - 1;
    if sp in ScanText(init).spans {
      ScanSpansSound(init, sp);
      var q :| ClosesSpan(init, q) && sp == SpanBefore(init, q);
      ClosesSpanSnoc(a, q);
    } else {
      ScanOpen(init);
      ScanTexts(init);
      assert a[n] == HighlightEnd && ScanText(init).start > -1;
      assert a[..n] == init;
      var p := LastMarker(init);
      assert a[..p] == init[..p];
      assert ClosesSpan(a, n) && sp == SpanBefore(a, n);
    }
  }

  /** Every HIGHLIGHTEND whose last marker before it is a HIGHLIGHTSTART closes a
    * highlight of the scan. */
  lemma {:induction false} ScanSpansComplete(a: string, q: int)
    requires ClosesSpan(a, q)
    ensures SpanBefore(a, q) in ScanText(a).spans
  {
    var init := a[..|a| - 1];
    var n := |a| - 1;
    if q < n {
      ClosesSpanSnoc(a, q);
      ScanSpansComplete(init, q);
    } else {
      ScanOpen(init);
      ScanTexts(init);
      assert a[..n] == init;
      var p := LastMarker(init);
      assert a[..p] == init[..p];
      assert SpanBefore(a, q) == HitSpan(ScanText(init).start, |ScanText(init).quote|);
    }
  }

  /** The plain text of a concatenation. */
  lemma {:induction false} PlainAppend(x: string, y: string)
    ensures Plain(x + y) == Plain(x) + Plain(y)
    decreases |y|
  {
    if y != [] {
      var yi := y[..|y| - 1];
      assert (x + y)[..|x + y| - 1] == x + yi && (x + y)[|x + y| - 1] == y[|y| - 1];
      PlainAppend(x, yi);
    } else {
      assert x + y == x;
    }
  }

  /** A text without markers is its own plain text. */
  lemma {:induction false} PlainUnmarked(s: string)
    requires forall j :: 0 <= j < |s| ==> !IsMarker(s[j])
    ensures Plain(s) == s
  {
    if s != [] {
      PlainUnmarked(s[..|s| - 1]);
    }
  }

  /** The text of a highlight in the quote is exactly the unmarked text between its
    * HIGHLIGHTSTART at p and the position q that ends it. */
  lemma HighlightText(a: string, q: int)
    requires 0 <= q <= |a| && OpenAtEnd(a[..q])
    ensures var p := LastMarker(a[..q]); var sp := SpanBefore(a, q);
      0 <= sp.start <= sp.end <= |Plain(a)| && Plain(a)[sp.start..sp.end] == a[p + 1..q]
  {
    var p := LastMarker(a[..q]);
    assert a[..q][..p] == a[..p];
    assert a[..q] == a[..p] + [a[p]] + a[p + 1..q];
    assert a == a[..q] + a[q..];
    PlainAppend(a[..q], a[q..]);
    PlainAppend(a[..p] + [a[p]], a[p + 1..q]);
    PlainAppend(a[..p], [a[p]]);
    assert Plain([a[p]]) == [] by {
      assert [a[p]][..0] == [];
    }
    PlainUnmarked(a[p + 1..q]);
  }

  /** The whole scan: the quote, the tags, the highlights closed by markers and, when the
    * text ends inside a highlight, one more up to the end of the quote with its closing
    * tag. */
  lemma HighlightMeaning(a: string)
    ensures var h := Highlight(a);
      h.quote == Plain(a) &&
      h.annotated == Tagged(a) + (if OpenAtEnd(a) then "</B>" else "") &&
      (forall sp :: sp in h.spans <==>
        (exists q :: ClosesSpan(a, q) && sp == SpanBefore(a, q)) || (OpenAtEnd(a) && sp == SpanBefore(a, |a|)))
  {
    ScanTexts(a);
    ScanOpen(a);
    forall sp
      ensures sp in Highlight(a).spans <==>
        (exists q :: ClosesSpan(a, q) && sp == SpanBefore(a, q)) || (OpenAtEnd(a) && sp == SpanBefore(a, |a|))
    {
      HighlightSpan(a, sp);
    }
  }

  /** One highlight of the result: closed by a marker, or the one left open at the end. */
  lemma HighlightSpan(a: string, sp: HitSpan)
    ensures sp in Highlight(a).spans <==>
      (exists q :: ClosesSpan(a, q) && sp == SpanBefore(a, q)) || (OpenAtEnd(a) && sp == SpanBefore(a, |a|))
  {
    ScanTexts(a);
    ScanOpen(a);
    assert a[..|a|] == a;
    if sp in ScanText(a).spans {
      ScanSpansSound(a, sp);
    }
    if exists q :: ClosesSpan(a, q) && sp == SpanBefore(a, q) {
      var q :| ClosesSpan(a, q) && sp == SpanBefore(a, q);
      ScanSpansComplete(a, q);
    }
  }

  /** Every highlight of the result lies in the quote, in order, without overlapping. */
  lemma HighlightOrdered(a: string)
    ensures var h := Highlight(a);
      (forall k :: 0 <= k < |h.spans| ==> 0 <= h.spans[k].start <= h.spans[k].end <= |h.quote|) &&
      (forall k, j :: 0 <= k < j < |h.spans| ==> h.spans[k].end <= h.spans[j].start)
  {
    ScanOrdered(a);
  }

  /** The annotated quote holds no marker: every marker became a tag. */
  lemma {:induction false} TaggedUnmarked(a: string)
    ensures forall j :: 0 <= j < |Tagged(a)| ==> !IsMarker(Tagged(a)[j])
  {
    if a != [] {
      TaggedUnmarked(a[..|a| - 1]);
    }
  }

  /** A HIGHLIGHTEND with no open highlight still writes "</B>" but adds no highlight, and
    * a highlight left open is closed at the end of the quote. */
  lemma StrayAndOpenExample(s: string, o: string)
    requires s == "\U{1}a" && o == "\U{0}a"
    ensures Highlight(s) == ScanState("a", "</B>a", [], -1)
    ensures Highlight(o) == ScanState("a", "<B>a</B>", [HitSpan(0, 1)], 0)
  {
    assert s[..1][..0] == [] && s[1] == 'a' && s[..1][0] == HighlightEnd;
    assert ScanText(s[..1]) == ScanState([], "</B>", [], -1);
    assert ScanText(s) == ScanState("a", "</B>a", [], -1);
    assert o[..1][..0] == [] && o[1] == 'a' && o[..1][0] == HighlightStart;
    assert ScanText(o[..1]) == ScanState([], "<B>", [], 0);
    assert ScanText(o) == ScanState("a", "<B>a", [], 0);
  }

  // ---------------------------------------------------------------- the record

  /** The fields of ExtractedReviewRecord that `postprocessRow` sets. */
  class ReviewRecord {
    var quote: string
    var annotatedQuote: string
    var title: string
    var highlightSpans: seq<HitSpan>

    constructor(title: string)
      ensures this.title == title && quote == [] && annotatedQuote == [] && highlightSpans == []
    {
      this.title := title;
      quote := [];
      annotatedQuote := [];
      highlightSpans := [];
    }
  }

  /** The character loop of `postprocessRow`, with the highlight left open closed after it. */
  method HighlightScan(a: string) returns (quote: string, annotated: string, spans: seq<HitSpan>)
    ensures quote == Plain(a)
    ensures annotated == Tagged(a) + (if OpenAtEnd(a) then "</B>" else "")
    ensures spans == Highlight(a).spans
  {
    var start := -1;
    quote, annotated, spans := [], [], [];
    var i := 0;
    while i < |a|
      invariant 0 <= i <= |a|
      invariant ScanState(quote, annotated, spans, start) == ScanText(a[..i])
    {
      assert a[..i + 1][..i] == a[..i];
      var c := a[i];
      if c == HighlightStart {
        start := |quote|;
        annotated := annotated + "<B>";
      } else if c == HighlightEnd {
        annotated := annotated + "</B>";
        if start > -1 {
          spans := spans + [HitSpan(start, |quote|)];
        }
        start := -1;
      } else {
        quote := quote + [c];
        annotated := annotated + [c];
      }
      i := i + 1;
    }
    if start > -1 {
      annotated := annotated + "</B>";
      spans := spans + [HitSpan(start, |quote|)];
    }
    assert a[..i] == a;
    HighlightMeaning(a);
  }

  /** `postprocessRow(row, maxQuoteLength, maxAnnotatedQuoteLength, maxTitleSize)`, given
    * the post-processed words and title: the highlight scan, then each text shortened to
    * its field and the record's fields set. A size too small to shorten to throws before
    * any field is set. */
  method PostprocessRow(row: ReviewRecord, annotatedQuote: string, title: string,
                        maxQuoteLength: int, maxAnnotatedQuoteLength: int, maxTitleSize: int)
    returns (r: Result<()>)
    modifies row
    ensures var h := Highlight(annotatedQuote);
      var aq := TrimAnnotatedQuote(h.annotated, maxAnnotatedQuoteLength);
      var q := TrimForDb(h.quote, maxQuoteLength);
      var t := TrimForDb(title, maxTitleSize);
      (r.Ok? <==> aq.Ok? && q.Ok? && t.Ok?) &&
      (r.Ok? ==> row.quote == q.value && row.annotatedQuote == aq.value && row.title == t.value &&
                 row.highlightSpans == h.spans)
    ensures r.Err? ==> unchanged(row)
  {
    var quote, annotated, spans := HighlightScan(annotatedQuote);
    HighlightMeaning(annotatedQuote);
    var aq := TrimAnnotatedQuote(annotated, maxAnnotatedQuoteLength);
    if aq.Err? {
      return Err(aq.error);
    }
    var q := TrimForDb(quote, maxQuoteLength);
    if q.Err? {
      return Err(q.error);
    }
    var t := TrimForDb(title, maxTitleSize);
    if t.Err? {
      return Err(t.error);
    }
    row.quote := q.value;
    row.annotatedQuote := aq.value;
    row.title := t.value;
    row.highlightSpans := spans;
    r := Ok(());
  }

  // ---------------------------------------------------------------- shortening

  /** `trimNewQuoteForDBRecord(quote, maxSize)`: a text longer than the field is cut to
    * maxSize - 5 characters and "..." is appended; `substring` throws when maxSize < 5. */
  function TrimForDb(quote: string, maxSize: int): (r: Result<string>)
    ensures |quote| <= maxSize ==> r == Ok(quote)
    ensures |quote| > maxSize ==> (r.Ok? <==> maxSize >= 5)
  {
    if |quote| > maxSize then
      if maxSize - 5 < 0 then Err("StringIndexOutOfBoundsException") else Ok(quote[..maxSize - 5] + "...")
    else Ok(quote)
  }

  /** A shortened text fits its field, keeps the start of the text, and is not shortened
    * again. */
  lemma TrimForDbFits(quote: string, maxSize: int)
    requires TrimForDb(quote, maxSize).Ok?
    ensures var r := TrimForDb(quote, maxSize).value;
      |r| <= maxSize || r == quote
    ensures var r := TrimForDb(quote, maxSize).value;
      r == quote || (|r| == maxSize - 2 && r[..|r| - 3] == quote[..|r| - 3] && r[|r| - 3..] == "...")
    ensures TrimForDb(TrimForDb(quote, maxSize).value, maxSize) == TrimForDb(quote, maxSize)
  {
  }

  /** The last position of c in s, -1 without one: `String.lastIndexOf(c)`. */
  function LastIndexOfChar(s: string, c: char): (r: int)
    ensures -1 <= r < |s|
    ensures r >= 0 ==> s[r] == c
    ensures forall j :: r < j < |s| ==> s[j] != c
  {
    if s == [] then -1 else if s[|s| - 1] == c then |s| - 1 else LastIndexOfChar(s[..|s| - 1], c)
  }

  /** `tidyAnnotations(quote)`: with s the last HIGHLIGHTSTART and e the last HIGHLIGHTEND,
    * the text is cut before s when no HIGHLIGHTEND follows s, or when one does but no '>'
    * stands at or after e; otherwise it is kept. */
  function TidyAnnotations(quote: string): (r: string)
    ensures r == quote ||
      (LastIndexOfChar(quote, HighlightStart) >= 0 && r == quote[..LastIndexOfChar(quote, HighlightStart)])
    ensures HighlightStart !in quote ==> r == quote
  {
    var e := LastIndexOfChar(quote, HighlightEnd);
    var s := LastIndexOfChar(quote, HighlightStart);
    if s > -1 then
      if e > s then
        if LastIndexOfChar(quote, '>') < e then quote[..s] else quote
      else quote[..s]
    else quote
  }

  /** The cut happens exactly when the last HIGHLIGHTSTART is left unclosed, or closed
    * only by a HIGHLIGHTEND with no '>' at or after it. */
  lemma TidyCuts(quote: string)
    ensures var s := LastIndexOfChar(quote, HighlightStart);
      var e := LastIndexOfChar(quote, HighlightEnd);
      TidyAnnotations(quote) != quote <==>
        s > -1 && (forall j :: s < j < |quote| ==> quote[j] != HighlightEnd || LastIndexOfChar(quote, '>') < e)
  {
    var s := LastIndexOfChar(quote, HighlightStart);
    var e := LastIndexOfChar(quote, HighlightEnd);
    if s > -1 {
      assert |quote[..s]| < |quote|;
      if e > s {
        assert quote[e] == HighlightEnd;
      }
    }
  }

  /** `trimAnnotatedQuote(quote, maxSize)` as written: a text longer than maxSize is cut
    * to maxSize - 5 characters, "..." is appended and the result tidied; `substring`
    * throws when maxSize < 5. */
  function TrimAnnotatedQuote(quote: string, maxSize: int): (r: Result<string>)
    ensures |quote| <= maxSize ==> r == Ok(quote)
    ensures r.Ok? <==> |quote| <= maxSize || maxSize >= 5
  {
    if |quote| > maxSize then
      if maxSize - 5 < 0 then Err("StringIndexOutOfBoundsException")
      else Ok(TidyAnnotations(quote[..maxSize - 5] + "..."))
    else Ok(quote)
  }

  predicate Unmarked(s: string)
  {
    forall j :: 0 <= j < |s| ==> !IsMarker(s[j])
  }

  lemma UnmarkedConcat(x: string, y: string)
    requires Unmarked(x) && Unmarked(y)
    ensures Unmarked(x + y)
  {
    forall j | 0 <= j < |x + y|
      ensures !IsMarker((x + y)[j])
    {
      if j < |x| {
        assert (x + y)[j] == x[j];
      } else {
        assert (x + y)[j] == y[j - |x|];
      }
    }
  }

  lemma UnmarkedPrefix(t: string, m: int)
    requires Unmarked(t) && 0 <= m <= |t|
    ensures Unmarked(t[..m])
  {
    var u := t[..m];
    forall j | 0 <= j < |u|
      ensures !IsMarker(u[j])
    {
      assert u[j] == t[j];
    }
  }

  /** As written, the tidying never applies to a scanned quote: the markers it looks for
    * were all turned into tags, so the annotated quote is cut like any other text. */
  lemma TrimAnnotatedNeverTidies(a: string, maxSize: int)
    requires |Highlight(a).annotated| > maxSize >= 5
    ensures var t := Highlight(a).annotated;
      TrimAnnotatedQuote(t, maxSize) == Ok(t[..maxSize - 5] + "...")
  {
    var t := Highlight(a).annotated;
    TaggedUnmarked(a);
    HighlightMeaning(a);
    UnmarkedConcat(Tagged(a), if OpenAtEnd(a) then "</B>" else "");
    var cut := t[..maxSize - 5] + "...";
    UnmarkedPrefix(t, maxSize - 5);
    UnmarkedConcat(t[..maxSize - 5], "...");
    assert HighlightStart !in cut;
  }

  /** The scan of a highlighted "ab": the quote "ab", the tags around it, one highlight. */
  lemma HighlightAbExample()
    ensures Highlight("\U{0}ab\U{1}") == ScanState("ab", "<B>ab</B>", [HitSpan(0, 2)], -1)
  {
    var a := "\U{0}ab\U{1}";
    assert a[..3] == "\U{0}ab" && a[..3][..2] == "\U{0}a" && a[..3][..2][..1] == "\U{0}" && "\U{0}"[..0] == [];
    assert ScanText("\U{0}") == ScanState([], "<B>", [], 0);
    assert ScanText("\U{0}a") == ScanState("a", "<B>a", [], 0);
    assert ScanText("\U{0}ab") == ScanState("ab", "<B>ab", [], 0);
  }

  /** As written, shortening a highlighted quote can leave its <B> tag unclosed: the
    * annotated quote of a highlighted "ab" shortened to 8 is "<B>...". */
  lemma UnclosedTagExample()
    ensures TrimAnnotatedQuote(Highlight("\U{0}ab\U{1}").annotated, 8) == Ok("<B>...")
  {
    HighlightAbExample();
    var t := "<B>ab</B>";
    assert t[..3] == "<B>";
    var s := t[..3] + "...";
    assert s == "<B>...";
    assert HighlightStart !in s;
  }

  // ---------------------------------------------------------------- the evident intent

  /** The last occurrence of t in s, -1 without one. */
  function LastIndexOf(s: string, t: string): (r: int)
    ensures -1 <= r && (r == -1 || r + |t| <= |s|)
    ensures r >= 0 ==> OccursAt(s, t, r)
    ensures forall j :: r < j && j + |t| <= |s| ==> !OccursAt(s, t, j)
  {
    LastIndexBelow(s, t, |s| - |t|)
  }

  /** The last occurrence of t in s starting at or before i. */
  function LastIndexBelow(s: string, t: string, i: int): (r: int)
    requires i + |t| <= |s|
    ensures -1 <= r && (r == -1 || r <= i)
    ensures r >= 0 ==> OccursAt(s, t, r)
    ensures forall j :: r < j <= i ==> !OccursAt(s, t, j)
    decreases i + 1
  {
    if i < 0 then -1 else if s[i..i + |t|] == t then i else LastIndexBelow(s, t, i - 1)
  }

  /** The last opening tag has a closing tag after it, or there is no opening tag. */
  predicate ClosedAfter(q: string, open: string, close: string)
  {
    LastIndexOf(q, open) == -1 || LastIndexOf(q, close) > LastIndexOf(q, open)
  }

  predicate LastTagClosed(q: string)
  {
    ClosedAfter(q, "<B>", "</B>")
  }

  /** While the last opening tag has no closing tag after it, the text is cut before it. */
  function CutUnclosed(q: string, open: string, close: string): string
    requires open != []
    decreases |q|
  {
    var s := LastIndexOf(q, open);
    if s > -1 && LastIndexOf(q, close) < s then CutUnclosed(q[..s], open, close) else q
  }

  /** `tidyAnnotations` as evidently intended for an annotated quote, whose highlights are
    * tags: while the last "<B>" has no "</B>" after it, the text is cut before it. */
  function TidyTags(q: string): string
  {
    CutUnclosed(q, "<B>", "</B>")
  }

  /** Cutting keeps a start of the text. */
  lemma {:induction false} CutUnclosedPrefix(q: string, open: string, close: string)
    requires open != []
    ensures var r := CutUnclosed(q, open, close); |r| <= |q| && r == q[..|r|]
    decreases |q|
  {
    var s := LastIndexOf(q, open);
    if s > -1 && LastIndexOf(q, close) < s {
      CutUnclosedPrefix(q[..s], open, close);
      var r := CutUnclosed(q[..s], open, close);
      assert q[..s][..|r|] == q[..|r|];
    }
  }

  /** After cutting, the last opening tag is closed; a text whose last opening tag is
    * closed already is kept whole. Two tags that differ in their second character never
    * start at the same position. */
  lemma {:induction false} CutUnclosedCloses(q: string, open: string, close: string)
    requires |open| >= 2 && |close| >= 2 && open[1] != close[1]
    ensures ClosedAfter(CutUnclosed(q, open, close), open, close)
    ensures ClosedAfter(q, open, close) ==> CutUnclosed(q, open, close) == q
    decreases |q|
  {
    var s := LastIndexOf(q, open);
    if s > -1 && LastIndexOf(q, close) < s {
      CutUnclosedCloses(q[..s], open, close);
    } else if s > -1 {
      var e := LastIndexOf(q, close);
      assert q[s..s + |open|][1] == q[s + 1];
      assert e >= 0 ==> q[e..e + |close|][1] == q[e + 1];
    }
  }

  /** Tidying keeps a start of the text whose last "<B>" is closed, and keeps a text whose
    * last "<B>" is closed already. */
  lemma TidyTagsCloses(q: string)
    ensures var r := TidyTags(q);
      |r| <= |q| && r == q[..|r|] && LastTagClosed(r) && (LastTagClosed(q) ==> r == q)
  {
    assert "<B>"[1] == 'B' && "</B>"[1] == '/';
    CutUnclosedPrefix(q, "<B>", "</B>");
    CutUnclosedCloses(q, "<B>", "</B>");
  }

  /** `trimAnnotatedQuote` as evidently intended: the shortened text tidied of an unclosed
    * opening tag. */
  function TrimAnnotatedCorrected(quote: string, maxSize: int): (r: Result<string>)
    ensures |quote| <= maxSize ==> r == Ok(quote)
    ensures r.Ok? <==> |quote| <= maxSize || maxSize >= 5
  {
    if |quote| > maxSize then
      if maxSize - 5 < 0 then Err("StringIndexOutOfBoundsException")
      else Ok(TidyTags(quote[..maxSize - 5] + "..."))
    else Ok(quote)
  }

  /** With the evident intent, the highlighted "ab" shortened to 8 drops the unclosed
    * tag and everything after it. */
  lemma ClosedTagExample()
    ensures TrimAnnotatedCorrected(Highlight("\U{0}ab\U{1}").annotated, 8) == Ok("")
  {
    HighlightAbExample();
    var t := "<B>ab</B>";
    assert t[..3] == "<B>";
    var s := t[..3] + "...";
    assert s == "<B>...";
    LastOpenAtStart(s);
    assert TidyTags(s[..0]) == "";
  }

  /** In "<B>..." the last "<B>" stands at 0 and there is no "</B>". */
  lemma LastOpenAtStart(s: string)
    requires s == "<B>..."
    ensures LastIndexOf(s, "<B>") == 0 && LastIndexOf(s, "</B>") == -1
  {
    assert forall j :: 1 <= j < |s| ==> s[j] != '<';
    assert forall j :: 0 <= j < |s| ==> s[j] != '/';
    assert OccursAt(s, "<B>", 0);
    var r := LastIndexOf(s, "<B>");
    assert r >= 0 ==> s[r..r + 3][0] == s[r];
    forall j | 0 <= j && j + 4 <= |s|
      ensures !OccursAt(s, "</B>", j)
    {
      assert s[j..j + 4][1] == s[j + 1];
    }
  }

  /** With the evident intent, a shortened quote never ends inside an unclosed tag pair,
    * fits its field, and is a start of the cut text. */
  lemma TrimAnnotatedCorrectedCloses(quote: string, maxSize: int)
    requires |quote| > maxSize >= 5
    ensures var r := TrimAnnotatedCorrected(quote, maxSize).value;
      LastTagClosed(r) && |r| <= maxSize - 2 && r == (quote[..maxSize - 5] + "...")[..|r|]
  {
    TidyTagsCloses(quote[..maxSize - 5] + "...");
  }
}
