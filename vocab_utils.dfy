/**
 * VocabUtils.tokenize: splits a vocabulary query at a delimiter character, except inside
 * double quotes, which stay part of their token.
 */
module VocabUtils {
  import opened Wrappers

  /** The scanner's state after some prefix of the query: inside quotes or not, where the
    * current token starts, whether the last character was the delimiter, and the tokens
    * emitted so far. */
  datatype ScanState = ScanState(inQuote: bool, start: nat, charDelim: bool, tokens: seq<string>)

  /** The state before any character: not in quotes, "after a delimiter". */
  const Initial := ScanState(false, 0, true, [])

  /** One character of the scan: an unquoted character after a delimiter starts a token; a
    * quote toggles quoting; an unquoted delimiter right after a token character emits the
    * token. */
  function Step(s: string, delim: char, i: nat, st: ScanState): (r: ScanState)
    requires i < |s| && st.start <= i
    ensures r.start <= i
  {
    var lastCharDelim := st.charDelim;
    var c := s[i];
    var charDelim := c == delim;
    var start := if !st.inQuote && lastCharDelim then i else st.start;
    if c == '"' then ScanState(!st.inQuote, start, charDelim, st.tokens)
    else if charDelim && !st.inQuote && !lastCharDelim then
      ScanState(st.inQuote, start, charDelim, st.tokens + [s[start..i]])
    else ScanState(st.inQuote, start, charDelim, st.tokens)
  }

  /** The state after the first n characters. */
  function ScanTo(s: string, delim: char, n: nat): (r: ScanState)
    requires n <= |s|
    ensures r.start <= n
  {
    if n == 0 then Initial else Step(s, delim, n - 1, ScanTo(s, delim, n - 1))
  }

  function UnevenQuotes(s: string): string
  {
    "Uneven quotes in query '" + s + "'"
  }

  /** `tokenize(s, delim)` as written: the rest of the query from the current token's
    * start is always added at the end; an unclosed quote is refused. */
  function Tokens(s: string, delim: char): Result<seq<string>>
  {
    var st := ScanTo(s, delim, |s|);
    if st.inQuote then Err(UnevenQuotes(s)) else Ok(st.tokens + [s[st.start..]])
  }

  /** `tokenize` as evidently intended: the rest is added only when the query does not
    * end with a delimiter, whose token was emitted already. */
  function TokensCorrected(s: string, delim: char): Result<seq<string>>
  {
    var st := ScanTo(s, delim, |s|);
    if st.inQuote then Err(UnevenQuotes(s))
    else if |s| == 0 || !st.charDelim then Ok(st.tokens + [s[st.start..]])
    else Ok(st.tokens)
  }

  /** `tokenize(s, delim)`. */
  method Tokenize(s: string, delim: char) returns (r: Result<seq<string>>)
    ensures r == Tokens(s, delim)
  {
    var tokens: seq<string> := [];
    var inQuote := false;
    var l := 0;
    var charDelim := true;
    var i := 0;
    while i < |s|
      invariant 0 <= i <= |s|
      invariant ScanState(inQuote, l, charDelim, tokens) == ScanTo(s, delim, i)
    {
      var lastCharDelim := charDelim;
      var c := s[i];
      charDelim := c == delim;
      if !inQuote && lastCharDelim {
        l := i;
      }
      if c == '"' {
        inQuote := !inQuote;
      } else if charDelim {
        if !inQuote && !lastCharDelim {
          tokens := tokens + [s[l..i]];
        }
      }
      i := i + 1;
    }
    if inQuote {
      return Err(UnevenQuotes(s));
    }
    r := Ok(tokens + [s[l..]]);
  }

  // ---------------------------------------------------------------- properties

  /** The number of double quotes in s. */
  function QuoteCount(s: string): nat
  {
    if s == [] then 0 else QuoteCount(s[..|s| - 1]) + (if s[|s| - 1] == '"' then 1 else 0)
  }

  /** The scan is inside quotes exactly when it has passed an odd number of them. */
  lemma {:induction false} InQuoteParity(s: string, delim: char, n: nat)
    requires n <= |s|
    ensures ScanTo(s, delim, n).inQuote <==> QuoteCount(s[..n]) % 2 == 1
  {
    if n > 0 {
      InQuoteParity(s, delim, n - 1);
      assert s[..n][..n - 1] == s[..n - 1];
    }
  }

  /** The query is refused exactly when its quotes are uneven. */
  lemma TokensFailIffUneven(s: string, delim: char)
    ensures Tokens(s, delim).Err? <==> QuoteCount(s) % 2 == 1
    ensures Tokens(s, delim).Err? ==> Tokens(s, delim).error == UnevenQuotes(s)
  {
    InQuoteParity(s, delim, |s|);
    assert s[..|s|] == s;
  }

  /** Every token emitted during the scan is non-empty and ends with a character other
    * than the delimiter; the current token has begun when the last character was not a
    * delimiter. */
  lemma {:induction false} EmittedTokens(s: string, delim: char, n: nat)
    requires n <= |s|
    ensures n == 0 ==> ScanTo(s, delim, n).charDelim
    ensures n > 0 ==> (ScanTo(s, delim, n).charDelim <==> s[n - 1] == delim)
    ensures !ScanTo(s, delim, n).charDelim ==> ScanTo(s, delim, n).start < n
    ensures forall t :: t in ScanTo(s, delim, n).tokens ==> t != [] && t[|t| - 1] != delim
  {
    if n > 0 {
      EmittedTokens(s, delim, n - 1);
    }
  }

  /** Leading or repeated delimiters give no empty token: every token but the last is
    * non-empty, and the last is the rest of the query from the last token's start. */
  lemma TokensNonEmpty(s: string, delim: char)
    requires Tokens(s, delim).Ok?
    ensures var ts := Tokens(s, delim).value;
      |ts| >= 1 && (forall i :: 0 <= i < |ts| - 1 ==> ts[i] != []) &&
      exists k :: 0 <= k <= |s| && ts[|ts| - 1] == s[k..]
  {
    EmittedTokens(s, delim, |s|);
    var st := ScanTo(s, delim, |s|);
    var ts := st.tokens + [s[st.start..]];
    forall i | 0 <= i < |ts| - 1
      ensures ts[i] != []
    {
      assert ts[i] in st.tokens;
    }
  }

  /** With the evident intent, every token is non-empty and none ends with the delimiter,
    * unless the query is empty. */
  lemma TokensCorrectedEndBeforeDelimiter(s: string, delim: char)
    requires s != [] && TokensCorrected(s, delim).Ok?
    ensures forall t :: t in TokensCorrected(s, delim).value ==> t != [] && t[|t| - 1] != delim
  {
    EmittedTokens(s, delim, |s|);
    var st := ScanTo(s, delim, |s|);
    if !st.charDelim {
      var last := s[st.start..];
      assert last[|last| - 1] == s[|s| - 1];
    }
  }

  /** The evident intent differs only when the query ends with an unquoted delimiter. */
  lemma TokensCorrectedAgrees(s: string, delim: char)
    requires s == [] || s[|s| - 1] != delim
    ensures TokensCorrected(s, delim) == Tokens(s, delim)
  {
    EmittedTokens(s, delim, |s|);
  }

  /** As written, a trailing delimiter repeats the last token with the delimiter attached:
    * "a " split at spaces gives "a" and "a ". */
  lemma TrailingDelimiterRepeats()
    ensures Tokens("a ", ' ') == Ok(["a", "a "])
    ensures TokensCorrected("a ", ' ') == Ok(["a"])
  {
    var s := "a ";
    assert s[0..1] == "a" && s[0..] == s;
    assert ScanTo(s, ' ', 1) == ScanState(false, 0, false, []);
    assert ScanTo(s, ' ', 2) == ScanState(false, 0, true, ["a"]);
    assert ScanTo(s, ' ', |s|) == ScanTo(s, ' ', 2);
    var st := ScanTo(s, ' ', |s|);
    assert !st.inQuote;
    assert st.tokens + [s[st.start..]] == ["a", "a "];
    assert Tokens(s, ' ') == Ok(["a", "a "]);
  }

  /** Quotes protect delimiters and stay in the token; an empty query is one empty token. */
  lemma QuotedExample()
    ensures Tokens("\"b c\"", ' ') == Ok(["\"b c\""])
    ensures Tokens("", ' ') == Ok([""])
  {
    var s := "\"b c\"";
    assert ScanTo(s, ' ', 1) == ScanState(true, 0, false, []);
    assert ScanTo(s, ' ', 2) == ScanState(true, 0, false, []);
    assert ScanTo(s, ' ', 3) == ScanState(true, 0, true, []);
    assert ScanTo(s, ' ', 4) == ScanState(true, 0, false, []);
    assert ScanTo(s, ' ', 5) == ScanState(false, 0, false, []);
    assert s[0..] == s;
    assert ScanTo(s, ' ', |s|) == ScanTo(s, ' ', 5);
    var st := ScanTo(s, ' ', |s|);
    assert st.tokens + [s[st.start..]] == [s];
    assert Tokens(s, ' ') == Ok([s]);
    var e := ScanTo("", ' ', 0);
    assert e == Initial;
    assert e.tokens + [""[e.start..]] == [""];
  }

  // ---------------------------------------------------------------- where the query is split

  /** Position p is outside quotes: an even number of quotes precede it. */
  predicate Unquoted(s: string, p: nat)
    requires p <= |s|
  {
    QuoteCount(s[..p]) % 2 == 0
  }

  /** The query may be split at p: an unquoted delimiter (a quote character never splits,
    * even when it is the delimiter). */
  predicate SplitsAt(s: string, delim: char, p: int)
  {
    0 <= p < |s| && s[p] == delim && s[p] != '"' && Unquoted(s, p)
  }

  /** t is a stretch of the query that ends right before a split and holds no split. */
  predicate IsPiece(s: string, delim: char, t: string)
  {
    exists a, b :: 0 <= a < b < |s| && t == s[a..b] && SplitsAt(s, delim, b) &&
      forall p :: a <= p < b ==> !SplitsAt(s, delim, p)
  }

  /** One more character adds its quote, if it is one, to the count. */
  lemma QuoteCountPrefix(s: string, i: nat)
    requires 0 < i <= |s|
    ensures QuoteCount(s[..i]) == QuoteCount(s[..i - 1]) + (if s[i - 1] == '"' then 1 else 0)
  {
    assert s[..i][..i - 1] == s[..i - 1];
  }

  /** The character before the current token's start is a split or the query's beginning,
    * and no split lies between the start and the last character read. */
  lemma {:induction false} NoSplitInToken(s: string, delim: char, n: nat)
    requires n <= |s|
    ensures forall p :: ScanTo(s, delim, n).start <= p < n - 1 ==> !SplitsAt(s, delim, p)
  {
    if n > 0 {
      var i := n - 1;
      NoSplitInToken(s, delim, i);
      var st := ScanTo(s, delim, i);
      if i > 0 && (st.inQuote || !st.charDelim) {
        EmittedTokens(s, delim, i);
        InQuoteParity(s, delim, i);
        QuoteCountPrefix(s, i);
        assert !SplitsAt(s, delim, i - 1);
      }
    }
  }

  /** Every token the scan emits is a piece. */
  lemma {:induction false} EmittedPieces(s: string, delim: char, n: nat)
    requires n <= |s|
    ensures forall t :: t in ScanTo(s, delim, n).tokens ==> IsPiece(s, delim, t)
  {
    if n > 0 {
      var i := n - 1;
      EmittedPieces(s, delim, i);
      var st := ScanTo(s, delim, i);
      if s[i] == delim && s[i] != '"' && !st.inQuote && !st.charDelim {
        EmittedTokens(s, delim, i);
        InQuoteParity(s, delim, i);
        NoSplitInToken(s, delim, i);
        assert SplitsAt(s, delim, i);
        assert forall p :: st.start <= p < i ==> !SplitsAt(s, delim, p);
        assert IsPiece(s, delim, s[st.start..i]);
      }
    }
  }

  /** Every split among the first n characters that follows a non-delimiter has emitted
    * the token ending there. */
  lemma {:induction false} SplitsEmit(s: string, delim: char, n: nat)
    requires n <= |s|
    ensures forall b :: 0 < b < n && SplitsAt(s, delim, b) && s[b - 1] != delim ==>
      exists a :: 0 <= a < b && s[a..b] in ScanTo(s, delim, n).tokens
  {
    if n > 0 {
      var i := n - 1;
      SplitsEmit(s, delim, i);
      var st := ScanTo(s, delim, i);
      var tokens' := ScanTo(s, delim, n).tokens;
      assert forall t :: t in st.tokens ==> t in tokens';
      if 0 < i && SplitsAt(s, delim, i) && s[i - 1] != delim {
        EmittedTokens(s, delim, i);
        InQuoteParity(s, delim, i);
        assert s[st.start..i] in tokens';
      }
    }
  }

  /** Quotes protect the delimiter: every token but the last is a stretch of the query
    * ending right before an unquoted delimiter and holding none; and every unquoted
    * delimiter that follows a non-delimiter ends one of those tokens. */
  lemma TokensSplitAtUnquoted(s: string, delim: char)
    requires Tokens(s, delim).Ok?
    ensures var ts := Tokens(s, delim).value;
      forall k :: 0 <= k < |ts| - 1 ==> IsPiece(s, delim, ts[k])
    ensures var ts := Tokens(s, delim).value;
      forall b :: 0 < b < |s| && SplitsAt(s, delim, b) && s[b - 1] != delim ==>
        exists a :: 0 <= a < b && s[a..b] in ts[..|ts| - 1]
  {
    EmittedPieces(s, delim, |s|);
    SplitsEmit(s, delim, |s|);
    var st := ScanTo(s, delim, |s|);
    var ts := Tokens(s, delim).value;
    assert ts[..|ts| - 1] == st.tokens;
    forall k | 0 <= k < |ts| - 1
      ensures IsPiece(s, delim, ts[k])
    {
      assert ts[k] in st.tokens;
    }
  }

  /** Without a split, the scan never starts a second token nor emits one. */
  lemma {:induction false} WholeScan(s: string, delim: char, n: nat)
    requires n <= |s| && delim != '"'
    requires forall p :: !SplitsAt(s, delim, p)
    ensures ScanTo(s, delim, n).start == 0 && ScanTo(s, delim, n).tokens == []
  {
    if n > 0 {
      var i := n - 1;
      WholeScan(s, delim, i);
      InQuoteParity(s, delim, i);
      assert !SplitsAt(s, delim, i);
      if i > 0 {
        EmittedTokens(s, delim, i);
        QuoteCountPrefix(s, i);
        assert !SplitsAt(s, delim, i - 1);
      }
    }
  }

  /** A query with even quotes and no unquoted delimiter (the delimiter not being the quote)
    * is one token, itself. */
  lemma TokensWhole(s: string, delim: char)
    requires delim != '"' && QuoteCount(s) % 2 == 0
    requires forall p :: !SplitsAt(s, delim, p)
    ensures Tokens(s, delim) == Ok([s])
  {
    WholeScan(s, delim, |s|);
    TokensFailIffUneven(s, delim);
    var st := ScanTo(s, delim, |s|);
    assert s[st.start..] == s;
    assert st.tokens + [s[st.start..]] == [s];
  }
}
