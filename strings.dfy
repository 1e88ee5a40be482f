/**
 * Strings: static string helpers - truncation, quote stripping, joining, whitespace
 * splitting, camel-case splitting, quote-aware search and repetition.
 *
 * A Java `null` string is `None`; an exception the helper would throw is `Err`.
 */
module Strings {
  import opened Wrappers
  import opened JavaText
  import opened JavaCollections

  /** `truncate(details, n)`: at most n characters, the cut marked by "..." when n > 3. */
  function Truncate(details: Option<string>, n: int): (r: Result<Option<string>>)
    ensures details.None? ==> r == Ok(None)
    ensures details.Some? && |details.value| <= n ==> r == Ok(details)
    ensures details.Some? && |details.value| > n && n < 0 ==> r.Err?
    ensures details.Some? && n >= 0 ==>
      r.Ok? && r.value.Some? && |r.value.value| == (if |details.value| <= n then |details.value| else n)
    ensures details.Some? && |details.value| > n > 3 ==>
      r.Ok? && r.value.Some? && r.value.value[n - 3..] == "..."
      && r.value.value[..n - 3] == details.value[..n - 3]
    ensures details.Some? && 0 <= n <= 3 && |details.value| > n ==>
      r.Ok? && r.value.Some? && r.value.value == details.value[..n]
  {
    match details
    case None => Ok(None)
    case Some(d) =>
      if |d| <= n then Ok(details)
      else if n > 3 then Ok(Some(d[..n - 3] + "..."))
      else if n < 0 then Err("StringIndexOutOfBoundsException")
      else Ok(Some(d[..n]))
  }

  /** The strings among the arguments, in order, skipping nulls. */
  function Present(objs: seq<Option<string>>): (r: seq<string>)
    ensures |r| <= |objs|
  {
    if objs == [] then []
    else
      var init := Present(objs[..|objs| - 1]);
      match objs[|objs| - 1]
      case None => init
      case Some(x) => init + [x]
  }

  /** `join(sep, objs...)`: the non-null arguments separated by sep; no arguments give null. */
  method JoinObjects(sep: string, objs: seq<Option<string>>) returns (r: Option<string>)
    ensures objs == [] ==> r == None
    ensures objs != [] ==> r == Some(Join(sep, Present(objs)))
    ensures |objs| == 1 ==> r == Some(if objs[0].None? then "" else objs[0].value)
  {
    if |objs| == 0 {
      return None;
    }
    if |objs| == 1 {
      assert objs[..0] == [];
      return Some(if objs[0].None? then "" else objs[0].value);
    }
    var cur := "";
    var sb := "";
    var k := 0;
    while k < |objs|
      invariant 0 <= k <= |objs|
      invariant sb == Join(sep, Present(objs[..k]))
      invariant cur == if Present(objs[..k]) == [] then "" else sep
    {
      assert objs[..k + 1][..k] == objs[..k];
      if objs[k].Some? {
        if Present(objs[..k]) != [] {
          JoinSnoc(sep, Present(objs[..k]), objs[k].value);
        }
        sb := sb + cur + objs[k].value;
        cur := sep;
      }
      k := k + 1;
    }
    assert objs[..k] == objs;
    r := Some(sb);
  }

  /** `repeat(n, sep, values...)`: n rounds of the values, every two consecutive ones
    * separated by sep. */
  method Repeat(n: int, sep: string, values: seq<string>) returns (r: string)
    ensures r == Join(sep, Repeated(values, n))
  {
    var sb := "";
    var c := "";
    var i := 0;
    while i < n
      invariant 0 <= i && (if n <= 0 then i == 0 else i <= n)
      invariant sb == Join(sep, Repeated(values, i))
      invariant c == if Repeated(values, i) == [] then "" else sep
    {
      sb, c := AppendRound(sb, c, sep, values, Repeated(values, i));
      i := i + 1;
    }
    r := sb;
  }

  /** One round of the inner loop of `repeat`: each value appended after the pending
    * separator. */
  method AppendRound(sb: string, c: string, sep: string, values: seq<string>, ghost before: seq<string>)
    returns (sb': string, c': string)
    requires sb == Join(sep, before) && c == if before == [] then "" else sep
    ensures sb' == Join(sep, before + values) && c' == if before + values == [] then "" else sep
  {
    sb', c' := sb, c;
    var j := 0;
    assert before + values[..0] == before;
    while j < |values|
      invariant 0 <= j <= |values|
      invariant sb' == Join(sep, before + values[..j])
      invariant c' == if before + values[..j] == [] then "" else sep
    {
      assert before + values[..j + 1] == (before + values[..j]) + [values[j]];
      if before + values[..j] != [] {
        JoinSnoc(sep, before + values[..j], values[j]);
      }
      sb' := sb' + c' + values[j];
      c' := sep;
      j := j + 1;
    }
    assert values[..j] == values;
  }

  /** `contains(str, oneOf...)` as written: it tests `str.indexOf(str)`, which always
    * succeeds, so it returns the first candidate whatever str holds. */
  function ContainsAsWritten(str: string, oneOf: seq<string>): (r: Option<string>)
    ensures oneOf == [] <==> r == None
    ensures r.Some? ==> r.value == oneOf[0]
  {
    if oneOf == [] then None
    else
      ContainsSelf(str);
      if Contains(str, str) then Some(oneOf[0]) else None
  }

  /** s has t as a substring. */
  predicate Contains(s: string, t: string)
  {
    exists i :: 0 <= i <= |s| && OccursAt(s, t, i)
  }

  lemma ContainsSelf(s: string)
    ensures Contains(s, s)
  {
    assert OccursAt(s, s, 0);
  }

  /** The first candidate that occurs in str, the evident intent of `contains`. */
  function ContainsOneOf(str: string, oneOf: seq<string>): (r: Option<string>)
    ensures r.Some? ==> r.value in oneOf && Contains(str, r.value)
    ensures r.None? ==> forall one :: one in oneOf ==> !Contains(str, one)
    ensures r.Some? ==> exists k :: (0 <= k < |oneOf| && oneOf[k] == r.value
      && forall k' :: 0 <= k' < k ==> !Contains(str, oneOf[k']))
  {
    if oneOf == [] then None
    else if Contains(str, oneOf[0]) then Some(oneOf[0])
    else
      var r := ContainsOneOf(str, oneOf[1..]);
      assert r.Some? ==> exists k :: (0 <= k < |oneOf| && oneOf[k] == r.value
        && forall k' :: 0 <= k' < k ==> !Contains(str, oneOf[k'])) by {
        if r.Some? {
          var k :| 0 <= k < |oneOf| - 1 && oneOf[1..][k] == r.value
            && forall k' :: 0 <= k' < k ==> !Contains(str, oneOf[1..][k']);
          assert forall k' :: 0 <= k' < k + 1 ==> !Contains(str, oneOf[k']) by {
            forall k' | 0 <= k' < k + 1
              ensures !Contains(str, oneOf[k'])
            {
              if k' > 0 {
                assert oneOf[k'] == oneOf[1..][k' - 1];
              }
            }
          }
        }
      }
      r
  }

  /** The as-written `contains` answers "abc" for the candidates ["xyz"], which "abc" does
    * not contain; the corrected search answers null. */
  lemma ContainsCounterexample()
    ensures ContainsAsWritten("abc", ["xyz"]) == Some("xyz")
    ensures !Contains("abc", "xyz")
    ensures ContainsOneOf("abc", ["xyz"]) == None
  {
    ContainsSelf("abc");
    assert !Contains("abc", "xyz") by {
      assert !OccursAt("abc", "xyz", 0);
    }
  }

  /** Where `decamel` cuts: before an upper-case letter that does not follow one, and after
    * a run of two or more upper-case letters. */
  predicate Cut(str: string, p: int)
    requires 0 < p < |str|
  {
    (IsUpper(str[p]) && !IsUpper(str[p - 1])) ||
    (!IsUpper(str[p]) && p >= 2 && IsUpper(str[p - 1]) && IsUpper(str[p - 2]))
  }

  /** The pieces of str from s on, given that no cut lies strictly between s and p. */
  function PiecesFrom(str: string, s: int, p: int): seq<string>
    requires 0 <= s < p <= |str|
    decreases |str| - p
  {
    if p == |str| then [str[s..]]
    else if Cut(str, p) then [str[s..p]] + PiecesFrom(str, p, p + 1)
    else PiecesFrom(str, s, p + 1)
  }

  /** str cut at exactly its cut positions; the empty string is one empty word. */
  function Decameled(str: string): seq<string>
  {
    if str == [] then [""] else PiecesFrom(str, 0, 1)
  }

  /** What is left to produce once the words so far spell str[..s] and the positions up to i
    * hold no further cut. */
  function PiecesLeft(str: string, s: int, i: int): seq<string>
    requires 0 <= s <= i <= |str|
  {
    if s == |str| then [] else PiecesFrom(str, s, if i == s then s + 1 else i)
  }

  /** What the scan of `decamel` keeps: the words spell str[..s], none is empty, there is
    * a word exactly when a cut was made, the position i is never inside a run of two
    * upper-case letters, and the words followed by what is left are the reference pieces. */
  predicate DecamelState(str: string, words: seq<string>, s: int, i: int)
  {
    0 <= s <= i <= |str| &&
    Concat(words) == str[..s] &&
    (s == 0 <==> words == []) &&
    (forall k :: 0 <= k < |words| ==> words[k] != []) &&
    (s == i ==> i == 0 || i == |str| || !IsUpper(str[i])) &&
    (0 < i < |str| ==> !IsUpper(str[i - 1]) || !IsUpper(str[i])) &&
    (s < i && i >= 2 ==> !(IsUpper(str[i - 2]) && IsUpper(str[i - 1]))) &&
    (|str| > 0 ==> words + PiecesLeft(str, s, i) == Decameled(str))
  }

  lemma CutUnfold(str: string, s: int, p: int)
    requires 0 <= s < p < |str| && Cut(str, p)
    ensures PiecesFrom(str, s, p) == [str[s..p]] + PiecesFrom(str, p, p + 1)
  {
  }

  lemma SkipUnfold(str: string, s: int, p: int)
    requires 0 <= s < p < |str| && !Cut(str, p)
    ensures PiecesFrom(str, s, p) == PiecesFrom(str, s, p + 1)
  {
  }

  lemma AppendOne(words: seq<string>, x: string, rest: seq<string>)
    ensures (words + [x]) + rest == words + ([x] + rest)
  {
  }

  /** The words ws, laid out from position s of str, start at cuts and hold none: every
    * word after the first begins at a cut, and no cut falls strictly inside a word. */
  predicate WordsAtCuts(str: string, s: nat, ws: seq<string>)
  {
    forall k :: 0 <= k < |ws| ==> WordAt(str, s + |Concat(ws[..k])|, ws[k], k == 0)
  }

  /** A word laid out at position o holds no cut, and begins at one unless it is the first. */
  predicate WordAt(str: string, o: nat, w: string, first: bool)
  {
    (!first ==> 0 < o < |str| && Cut(str, o)) && NoCut(str, o, o + |w|)
  }

  /** No cut lies strictly between a and b. */
  predicate NoCut(str: string, a: int, b: int)
  {
    forall q :: a < q < b && 0 < q < |str| ==> !Cut(str, q)
  }

  lemma {:induction false} ConcatCons(x: string, rest: seq<string>)
    ensures Concat([x] + rest) == x + Concat(rest)
    decreases |rest|
  {
    if rest == [] {
      assert [x] + rest == [x] && [x][..0] == [];
    } else {
      var init := rest[..|rest| - 1];
      assert ([x] + rest)[..|rest|] == [x] + init;
      ConcatCons(x, init);
    }
  }

  /** The reference pieces start at cuts and hold none. */
  lemma {:induction false} PiecesAtCuts(str: string, s: nat, p: int)
    requires s < p <= |str|
    requires forall q :: s < q < p ==> !Cut(str, q)
    ensures WordsAtCuts(str, s, PiecesFrom(str, s, p))
    decreases |str| - p
  {
    if p == |str| {
      assert PiecesFrom(str, s, p) == [str[s..]];
      assert [str[s..]][..0] == [];
      assert WordAt(str, s, str[s..], true);
    } else if Cut(str, p) {
      PiecesAtCuts(str, p, p + 1);
      CutThenWords(str, s, p, PiecesFrom(str, p, p + 1));
    } else {
      PiecesAtCuts(str, s, p + 1);
    }
  }

  /** A word str[s..p] ending at a cut, followed by words laid out from the cut. */
  lemma CutThenWords(str: string, s: nat, p: int, rest: seq<string>)
    requires s < p < |str| && Cut(str, p) && NoCut(str, s, p)
    requires WordsAtCuts(str, p, rest)
    ensures WordsAtCuts(str, s, [str[s..p]] + rest)
  {
    forall k | 0 <= k < 1 + |rest|
      ensures WordAt(str, s + |Concat(([str[s..p]] + rest)[..k])|, ([str[s..p]] + rest)[k], k == 0)
    {
      WordAfterCut(str, s, p, rest, k);
    }
  }

  /** The k-th of those words: the first lies at s and holds no cut; a later one is the
    * (k-1)-th word laid out from the cut. */
  lemma WordAfterCut(str: string, s: nat, p: int, rest: seq<string>, k: int)
    requires s < p < |str| && Cut(str, p) && NoCut(str, s, p)
    requires WordsAtCuts(str, p, rest) && 0 <= k <= |rest|
    ensures var ws := [str[s..p]] + rest; WordAt(str, s + |Concat(ws[..k])|, ws[k], k == 0)
  {
    var ws := [str[s..p]] + rest;
    if k == 0 {
      assert ws[..0] == [] && ws[0] == str[s..p];
    } else {
      var o := p + |Concat(rest[..k - 1])|;
      assert ws[..k] == [str[s..p]] + rest[..k - 1];
      ConcatCons(str[s..p], rest[..k - 1]);
      assert s + |Concat(ws[..k])| == o && ws[k] == rest[k - 1];
      assert WordAt(str, o, rest[k - 1], k - 1 == 0);
      if k == 1 {
        assert rest[..0] == [];
        assert o == p;
      }
      assert WordAt(str, o, rest[k - 1], false);
    }
  }

  /** `decamel(str)`: str cut before each upper-case letter that ends a lower-case stretch,
    * a run of upper-case letters kept as one word. */
  method Decamel(str: string) returns (words: seq<string>)
    ensures words == Decameled(str)
    ensures Concat(words) == str
    ensures |words| >= 1
    ensures str != [] ==> forall k :: 0 <= k < |words| ==> words[k] != []
    ensures str != [] ==> WordsAtCuts(str, 0, words)
  {
    if str != [] {
      PiecesAtCuts(str, 0, 1);
    }
    var n := |str|;
    var i := 0;
    var s := 0;
    words := [];
    while i < n
      invariant DecamelState(str, words, s, i)
      decreases n - i
    {
      words, s, i := DecamelStep(str, words, s, i);
    }
    if s == 0 {
      words := [str];
      assert [str][..0] == [];
    } else if i - s > 0 {
      assert PiecesLeft(str, s, i) == [str[s..]];
      AppendOne(words, str[s..i], []);
      words := AddPiece(words, str, s, i);
    }
    assert str[..i] == str;
  }

  /** One turn of the outer loop of `decamel`. */
  method DecamelStep(str: string, words: seq<string>, s: int, i: int)
    returns (words': seq<string>, s': int, i': int)
    requires DecamelState(str, words, s, i) && i < |str|
    ensures DecamelState(str, words', s', i') && i' > i
  {
    var n := |str|;
    words', s', i' := words, s, i;
    if IsUpper(str[i]) {
      if i > 0 {
        assert Cut(str, i);
        CutUnfold(str, s, i);
        AppendOne(words, str[s..i], PiecesFrom(str, i, i + 1));
        words' := AddPiece(words, str, s, i);
      }
      s' := i;
      if i < n - 1 {
        if IsUpper(str[i + 1]) {
          words', s', i' := UpperRun(str, words', i);
        } else {
          i' := i + 1;
        }
      } else {
        i' := i + 1;
      }
    } else {
      if s < i {
        SkipUnfold(str, s, i);
      }
      i' := i + 1;
    }
  }

  /** The inner loop of `decamel`: a run of two or more upper-case letters starting at s
    * becomes one word. */
  method UpperRun(str: string, words: seq<string>, s: int)
    returns (words': seq<string>, s': int, i': int)
    requires 0 <= s < |str| - 1 && IsUpper(str[s]) && IsUpper(str[s + 1])
    requires s == 0 || !IsUpper(str[s - 1])
    requires Concat(words) == str[..s] && (s == 0 <==> words == [])
    requires forall k :: 0 <= k < |words| ==> words[k] != []
    requires words + PiecesFrom(str, s, s + 1) == Decameled(str)
    ensures DecamelState(str, words', s', i') && i' > s
  {
    var n := |str|;
    var i := s + 1;
    if !Cut(str, i) {
      SkipUnfold(str, s, i);
    }
    i := i + 1;
    while i < n && IsUpper(str[i])
      invariant s + 2 <= i <= n
      invariant IsUpper(str[i - 1]) && IsUpper(str[i - 2])
      invariant words + PiecesFrom(str, s, i) == Decameled(str)
    {
      SkipUnfold(str, s, i);
      i := i + 1;
    }
    if i < n {
      assert Cut(str, i);
      CutUnfold(str, s, i);
      AppendOne(words, str[s..i], PiecesFrom(str, i, i + 1));
    } else {
      assert str[s..] == str[s..i];
      assert PiecesFrom(str, s, i) == [str[s..i]];
      assert words + [str[s..i]] + [] == words + [str[s..i]];
    }
    words' := AddPiece(words, str, s, i);
    s', i' := i, i;
    assert PiecesLeft(str, s', i') == if i == n then [] else PiecesFrom(str, i, i + 1);
  }

  /** "aBCd" becomes "a", "BC", "d"; "ABc" becomes "AB", "c"; "AbC" becomes "Ab", "C". */
  lemma DecamelExamples()
    ensures Decameled("aBCd") == ["a", "BC", "d"]
    ensures Decameled("ABc") == ["AB", "c"]
    ensures Decameled("AbC") == ["Ab", "C"]
    ensures Decameled("") == [""]
  {
    var a := "aBCd";
    assert Cut(a, 1) && !Cut(a, 2) && Cut(a, 3);
    assert a[0..1] == "a" && a[1..3] == "BC" && a[3..] == "d";
    assert PiecesFrom(a, 3, 4) == ["d"];
    assert PiecesFrom(a, 1, 2) == ["BC", "d"];
    var b := "ABc";
    assert !Cut(b, 1) && Cut(b, 2);
    assert b[0..2] == "AB" && b[2..] == "c";
    assert PiecesFrom(b, 2, 3) == ["c"];
    assert PiecesFrom(b, 0, 2) == ["AB", "c"];
    var c := "AbC";
    assert !Cut(c, 1) && Cut(c, 2);
    assert c[0..2] == "Ab" && c[2..] == "C";
    assert PiecesFrom(c, 2, 3) == ["C"];
    assert PiecesFrom(c, 0, 2) == ["Ab", "C"];
  }

  /** `words.add(str.substring(s, i))` where the words so far spell str[..s]. */
  method AddPiece(words: seq<string>, str: string, s: int, i: int) returns (words': seq<string>)
    requires 0 <= s < i <= |str| && Concat(words) == str[..s]
    ensures words' == words + [str[s..i]] && Concat(words') == str[..i]
  {
    words' := words + [str[s..i]];
    assert words'[..|words'| - 1] == words;
    assert str[..i] == str[..s] + str[s..i];
  }

  predicate IsQuote(c: char) { c == '\'' || c == '"' }

  /** The first loop of `stripQuotes`: leading whitespace of s[i..j], keeping one character. */
  function LeadSkip(s: string, i: int, j: int): (k: int)
    requires 0 <= i < j <= |s|
    ensures i <= k <= j - 1
    ensures k < j - 1 ==> !IsWhitespace(s[k])
    decreases j - i
  {
    if i < j - 1 && IsWhitespace(s[i]) then LeadSkip(s, i + 1, j) else i
  }

  /** The second loop of `stripQuotes`: trailing whitespace of s[i..j]. */
  function TrailSkip(s: string, i: int, j: int): (k: int)
    requires 0 <= i <= j <= |s|
    ensures i <= k <= j
    ensures i < k ==> !IsWhitespace(s[k - 1])
    ensures k < j ==> IsWhitespace(s[k])
    decreases j - i
  {
    if i < j && IsWhitespace(s[j - 1]) then TrailSkip(s, i, j - 1) else j
  }

  /** The bounds the outer loop of `stripQuotes` ends with, starting from [i, j): whitespace
    * is trimmed, then one matching pair of outer quotes removed, until neither applies. A
    * non-empty result starts and ends with non-whitespace and is not enclosed in quotes. */
  function StripBounds(s: string, i: int, j: int): (b: (int, int))
    requires 0 <= i <= j + 1 && 0 <= j <= |s|
    ensures i <= b.0 && b.1 <= j && 0 <= b.1
    decreases j - i + 1
  {
    if i >= j then (i, j)
    else
      var i1 := LeadSkip(s, i, j);
      var j1 := TrailSkip(s, i1, j);
      if j1 > 0 && s[i1] == s[j1 - 1] && IsQuote(s[i1]) then StripBounds(s, i1 + 1, j1 - 1)
      else (i1, j1)
  }

  /** The bounds b delimit a range that is empty, or starts and ends with non-whitespace
    * and is not enclosed in a pair of quotes. */
  predicate Stripped(s: string, b: (int, int))
  {
    0 <= b.0 < b.1 <= |s| ==>
      !IsWhitespace(s[b.0]) && !IsWhitespace(s[b.1 - 1]) && !(s[b.0] == s[b.1 - 1] && IsQuote(s[b.0]))
  }

  /** A non-empty result of the loop starts and ends with non-whitespace and is not
    * enclosed in a pair of quotes. */
  lemma {:induction false} StripBoundsShape(s: string, i: int, j: int)
    requires 0 <= i <= j + 1 && 0 <= j <= |s|
    ensures Stripped(s, StripBounds(s, i, j))
    decreases j - i + 1
  {
    if i < j {
      var i1 := LeadSkip(s, i, j);
      var j1 := TrailSkip(s, i1, j);
      if j1 > 0 && s[i1] == s[j1 - 1] && IsQuote(s[i1]) {
        StripBoundsStep(s, i, j);
        StripBoundsShape(s, i1 + 1, j1 - 1);
      } else {
        StripBoundsStops(s, i, j);
      }
    }
  }

  /** When a pair of quotes encloses the trimmed range, the loop goes on inside it. */
  lemma StripBoundsStep(s: string, i: int, j: int)
    requires 0 <= i < j <= |s|
    requires var i1 := LeadSkip(s, i, j); var j1 := TrailSkip(s, i1, j);
      j1 > 0 && s[i1] == s[j1 - 1] && IsQuote(s[i1])
    ensures var i1 := LeadSkip(s, i, j); var j1 := TrailSkip(s, i1, j);
      i1 + 1 <= j1 && StripBounds(s, i, j) == StripBounds(s, i1 + 1, j1 - 1)
  {
  }

  /** When no pair of quotes encloses the trimmed range, the loop stops there. */
  lemma StripBoundsStops(s: string, i: int, j: int)
    requires 0 <= i < j <= |s|
    requires var i1 := LeadSkip(s, i, j); var j1 := TrailSkip(s, i1, j);
      !(j1 > 0 && s[i1] == s[j1 - 1] && IsQuote(s[i1]))
    ensures Stripped(s, StripBounds(s, i, j))
  {
    var i1 := LeadSkip(s, i, j);
    var j1 := TrailSkip(s, i1, j);
    assert StripBounds(s, i, j) == (i1, j1);
    SkipEnds(s, i, j);
  }

  /** After both whitespace loops, a non-empty range starts and ends with non-whitespace. */
  lemma SkipEnds(s: string, i: int, j: int)
    requires 0 <= i < j <= |s|
    ensures var i1 := LeadSkip(s, i, j); var j1 := TrailSkip(s, i1, j);
      i1 < j1 ==> !IsWhitespace(s[i1]) && !IsWhitespace(s[j1 - 1])
  {
    var i1 := LeadSkip(s, i, j);
    var j1 := TrailSkip(s, i1, j);
    if i1 < j1 && i1 == j - 1 {
      assert j1 - 1 == i1;
    }
  }

  /** `stripQuotes` on a non-null string. */
  function StripQuotesOf(s: string): (r: string)
    ensures r == [] || (!IsWhitespace(r[0]) && !IsWhitespace(r[|r| - 1]) && !(r[0] == r[|r| - 1] && IsQuote(r[0])))
    ensures exists a, b :: 0 <= a <= b <= |s| && r == s[a..b]
  {
    var b := StripBounds(s, 0, |s|);
    StripBoundsShape(s, 0, |s|);
    if b.0 >= b.1 then (assert [] == s[0..0]; []) else s[b.0..b.1]
  }

  /** Stripping twice strips nothing more. */
  lemma StripQuotesIdempotent(s: string)
    ensures StripQuotesOf(StripQuotesOf(s)) == StripQuotesOf(s)
  {
    var r := StripQuotesOf(s);
    if r != [] {
      assert LeadSkip(r, 0, |r|) == 0;
      assert TrailSkip(r, 0, |r|) == |r|;
      assert r[0..|r|] == r;
    }
  }

  /** A string without surrounding whitespace or enclosing quotes is returned as it is. */
  lemma StripQuotesKeeps(s: string)
    requires s != [] && !IsWhitespace(s[0]) && !IsWhitespace(s[|s| - 1]) && !(s[0] == s[|s| - 1] && IsQuote(s[0]))
    ensures StripQuotesOf(s) == s
  {
    assert LeadSkip(s, 0, |s|) == 0;
    assert TrailSkip(s, 0, |s|) == |s|;
    assert s[0..|s|] == s;
  }

  /** `stripQuotes(in)`. */
  method StripQuotes(input: Option<string>) returns (r: Option<string>)
    ensures input.None? ==> r.None?
    ensures input.Some? ==> r == Some(StripQuotesOf(input.value))
  {
    if input.None? {
      return None;
    }
    var s := input.value;
    var i := 0;
    var j := |s|;
    ghost var target := StripBounds(s, 0, |s|);
    while i < j
      invariant 0 <= i <= j + 1 && 0 <= j <= |s|
      invariant StripBounds(s, i, j) == target
      decreases j - i + 1
    {
      var stop;
      i, j, stop := StripRound(s, i, j);
      if stop {
        break;
      }
    }
    if i >= j {
      return Some("");
    }
    if i == 0 && j == |s| {
      assert s[0..|s|] == s;
      return input;
    }
    r := Some(s[i..j]);
  }

  /** One round of the outer loop of `stripQuotes` on [i0, j0): either it stops with the
    * final bounds or it removes a pair of quotes. */
  method StripRound(s: string, i0: int, j0: int) returns (i: int, j: int, stop: bool)
    requires 0 <= i0 < j0 <= |s|
    ensures 0 <= i <= j + 1 && 0 <= j <= |s| && (!stop ==> j - i < j0 - i0)
    ensures stop ==> (i, j) == StripBounds(s, i0, j0)
    ensures !stop ==> StripBounds(s, i, j) == StripBounds(s, i0, j0)
  {
    i := SkipLeading(s, i0, j0);
    j := SkipTrailing(s, i, j0);
    stop := false;
    StripStep(s, i0, j0);
    var ci := s[i];
    if j > 0 {
      var cj := s[j - 1];
      if ci != cj || (ci != '\'' && ci != '"') {
        stop := true;
        return;
      }
      i := i + 1;
      j := j - 1;
    }
  }

  method SkipLeading(s: string, i0: int, j: int) returns (i: int)
    requires 0 <= i0 < j <= |s|
    ensures i == LeadSkip(s, i0, j)
  {
    i := i0;
    while i < j - 1 && IsWhitespace(s[i])
      invariant i0 <= i <= j - 1 && LeadSkip(s, i, j) == LeadSkip(s, i0, j)
    {
      i := i + 1;
    }
  }

  method SkipTrailing(s: string, i: int, j0: int) returns (j: int)
    requires 0 <= i <= j0 <= |s|
    ensures j == TrailSkip(s, i, j0)
  {
    j := j0;
    while i < j && IsWhitespace(s[j - 1])
      invariant i <= j <= j0 && TrailSkip(s, i, j) == TrailSkip(s, i, j0)
    {
      j := j - 1;
    }
  }

  /** One round of the outer loop of `stripQuotes`. */
  lemma StripStep(s: string, i: int, j: int)
    requires 0 <= i < j <= |s|
    ensures var i1 := LeadSkip(s, i, j);
      var j1 := TrailSkip(s, i1, j);
      if j1 > 0 && s[i1] == s[j1 - 1] && IsQuote(s[i1])
      then i1 < j1 && StripBounds(s, i, j) == StripBounds(s, i1 + 1, j1 - 1)
      else StripBounds(s, i, j) == (i1, j1)
  {
  }

  /** The end of the run of non-whitespace characters of s[i..j] that starts at i. */
  function RunEnd(s: string, i: int, j: int): (k: int)
    requires 0 <= i <= j <= |s|
    ensures i <= k <= j
    ensures k < j ==> IsWhitespace(s[k])
    ensures i < j && !IsWhitespace(s[i]) ==> i < k
    decreases j - i
  {
    if i < j && !IsWhitespace(s[i]) then RunEnd(s, i + 1, j) else i
  }

  lemma {:induction false} RunEndNoSpace(s: string, i: int, j: int)
    requires 0 <= i <= j <= |s|
    ensures forall x :: i <= x < RunEnd(s, i, j) ==> !IsWhitespace(s[x])
    decreases j - i
  {
    if i < j && !IsWhitespace(s[i]) {
      RunEndNoSpace(s, i + 1, j);
    }
  }

  /** The words of s[i..j]: its maximal runs of non-whitespace characters, in order. */
  function WordsIn(s: string, i: int, j: int): seq<string>
    requires 0 <= i <= j <= |s|
    decreases j - i
  {
    if i >= j then []
    else if IsWhitespace(s[i]) then WordsIn(s, i + 1, j)
    else
      var k := RunEnd(s, i, j);
      [s[i..k]] + WordsIn(s, k, j)
  }

  predicate NoSpace(w: string)
  {
    forall x :: 0 <= x < |w| ==> !IsWhitespace(w[x])
  }

  /** Every word is non-empty and holds no whitespace. */
  lemma {:induction false} WordsShape(s: string, i: int, j: int)
    requires 0 <= i <= j <= |s|
    ensures forall w :: w in WordsIn(s, i, j) ==> w != [] && NoSpace(w)
    decreases j - i
  {
    if i < j {
      if IsWhitespace(s[i]) {
        WordsShape(s, i + 1, j);
      } else {
        var k := RunEnd(s, i, j);
        RunEndNoSpace(s, i, j);
        WordsShape(s, k, j);
        assert NoSpace(s[i..k]) by {
          forall x | 0 <= x < k - i
            ensures !IsWhitespace(s[i..k][x])
          {
            assert s[i..k][x] == s[i + x];
          }
        }
      }
    }
  }

  /** A stretch of whitespace has no words. */
  lemma {:induction false} SpaceHasNoWords(s: string, i: int, j: int)
    requires 0 <= i <= j <= |s|
    requires forall x :: i <= x < j ==> IsWhitespace(s[x])
    ensures WordsIn(s, i, j) == []
    decreases j - i
  {
    if i < j {
      SpaceHasNoWords(s, i + 1, j);
    }
  }

  /** Trailing whitespace adds no word. */
  lemma {:induction false} TrailingSpace(s: string, i: int, j: int)
    requires 0 <= i < j <= |s| && IsWhitespace(s[j - 1])
    ensures WordsIn(s, i, j) == WordsIn(s, i, j - 1)
    decreases j - i
  {
    if i < j - 1 {
      if IsWhitespace(s[i]) {
        TrailingSpace(s, i + 1, j);
      } else {
        var k := RunEnd(s, i, j);
        RunEndShrinks(s, i, j);
        if k < j {
          TrailingSpace(s, k, j);
        }
      }
    }
  }

  lemma {:induction false} RunEndShrinks(s: string, i: int, j: int)
    requires 0 <= i < j <= |s| && IsWhitespace(s[j - 1])
    ensures RunEnd(s, i, j) < j && RunEnd(s, i, j - 1) == RunEnd(s, i, j)
    decreases j - i
  {
    if !IsWhitespace(s[i]) && i < j - 1 {
      RunEndShrinks(s, i + 1, j);
    }
  }

  /** `splitWS(in)`: the words of in; null for null. */
  method SplitWS(input: Option<string>) returns (r: Option<seq<string>>)
    ensures input.None? ==> r.None?
    ensures input.Some? ==> r == Some(WordsIn(input.value, 0, |input.value|))
  {
    if input.None? {
      return None;
    }
    var s := input.value;
    var n := |s|;
    ghost var target := WordsIn(s, 0, n);
    var off := SkipSpace(s, 0, n);
    if off >= n {
      return Some([]);
    }
    var prv := off;
    var eos := TrimTrailing(s, off, n);
    off := SkipWord(s, off, eos);
    if off >= eos {
      assert WordsIn(s, prv, eos) == target;
      assert WordsIn(s, eos, eos) == [];
      assert WordsIn(s, prv, eos) == [s[prv..eos]] + [];
      assert [s[prv..eos]] + [] == [s[prv..eos]];
      return Some([s[prv..eos]]);
    }
    var words: seq<string> := [];
    while off > 0 && off <= eos
      invariant 0 <= prv <= eos <= n && 0 < eos && !IsWhitespace(s[eos - 1])
      invariant prv < eos ==> !IsWhitespace(s[prv]) && off == RunEnd(s, prv, eos)
      invariant prv == eos ==> off == eos + 1
      invariant words + WordsIn(s, prv, eos) == target
      decreases eos + 1 - off
    {
      assert words + WordsIn(s, prv, eos) == (words + [s[prv..off]]) + WordsIn(s, off, eos);
      words := words + [s[prv..off]];
      off := SkipSpace(s, off, eos);
      prv := off;
      if off < eos {
        off := SkipWord(s, off, eos);
      } else {
        off := off + 1;
      }
    }
    assert words + WordsIn(s, prv, eos) == words;
    r := Some(words);
  }

  /** The whitespace-skipping loops of `splitWS`: the next word start, or j. */
  method SkipSpace(s: string, i: int, j: int) returns (k: int)
    requires 0 <= i <= j <= |s|
    ensures i <= k <= j && (k < j ==> !IsWhitespace(s[k])) && WordsIn(s, k, j) == WordsIn(s, i, j)
  {
    k := i;
    while k < j && IsWhitespace(s[k])
      invariant i <= k <= j && WordsIn(s, k, j) == WordsIn(s, i, j)
    {
      k := k + 1;
    }
  }

  /** The word-skipping loops of `splitWS`: the end of the word starting at i. */
  method SkipWord(s: string, i: int, j: int) returns (k: int)
    requires 0 <= i < j <= |s| && !IsWhitespace(s[i])
    ensures k == RunEnd(s, i, j)
  {
    k := i + 1;
    while k < j && !IsWhitespace(s[k])
      invariant i < k <= j && RunEnd(s, k, j) == RunEnd(s, i, j)
    {
      k := k + 1;
    }
  }

  /** The trailing-whitespace loop of `splitWS`, which keeps the first character. */
  method TrimTrailing(s: string, i: int, j: int) returns (eos: int)
    requires 0 <= i < j <= |s| && !IsWhitespace(s[i])
    ensures i < eos <= j && !IsWhitespace(s[eos - 1]) && WordsIn(s, i, eos) == WordsIn(s, i, j)
  {
    eos := j;
    while eos > i + 1 && IsWhitespace(s[eos - 1])
      invariant i < eos <= j
      invariant forall x :: eos <= x < j ==> IsWhitespace(s[x])
    {
      eos := eos - 1;
    }
    TrailingSpaces(s, i, eos, j);
  }

  /** A whitespace tail adds no word. */
  lemma {:induction false} TrailingSpaces(s: string, i: int, e: int, j: int)
    requires 0 <= i <= e <= j <= |s|
    requires forall x :: e <= x < j ==> IsWhitespace(s[x])
    ensures WordsIn(s, i, e) == WordsIn(s, i, j)
    decreases j - e
  {
    if e < j {
      TrailingSpaces(s, i, e, j - 1);
      if i < j {
        TrailingSpace(s, i, j);
      }
    }
  }

  /** The scan of `indexOfQuoted` from position i, with the stack of open quotes (innermost
    * first; a stack not yet created behaves as an empty one). A backslash inside quotes
    * skips the next character; a quote closes the innermost open quote when it matches
    * it and opens a new one otherwise; outside quotes, an occurrence of m at i is the
    * answer. Only starting positions up to |s| - |m| are scanned. */
  function QuotedScan(s: string, m: string, i: int, stack: seq<char>): int
    requires |m| > 0 && 0 <= i
    decreases |s| - i
  {
    if i > |s| - |m| then -1
    else if s[i] == '\\' && stack != [] then QuotedScan(s, m, i + 2, stack)
    else if IsQuote(s[i]) then
      QuotedScan(s, m, i + 1, if stack != [] && stack[0] == s[i] then stack[1..] else [s[i]] + stack)
    else if s[i] == m[0] && stack == [] && OccursAt(s, m, i) then i
    else QuotedScan(s, m, i + 1, stack)
  }

  /** A found position is an occurrence of m at or after the start. */
  lemma {:induction false} QuotedScanFinds(s: string, m: string, i: int, stack: seq<char>)
    requires |m| > 0 && 0 <= i
    ensures var r := QuotedScan(s, m, i, stack); r == -1 || (i <= r && OccursAt(s, m, r))
    decreases |s| - i
  {
    if i <= |s| - |m| {
      if s[i] == '\\' && stack != [] {
        QuotedScanFinds(s, m, i + 2, stack);
      } else if IsQuote(s[i]) {
        QuotedScanFinds(s, m, i + 1, if stack != [] && stack[0] == s[i] then stack[1..] else [s[i]] + stack);
      } else if !(s[i] == m[0] && stack == [] && OccursAt(s, m, i)) {
        QuotedScanFinds(s, m, i + 1, stack);
      }
    }
  }

  /** On text without quotes the scan is plain `indexOf`. */
  lemma {:induction false} QuotedScanUnquoted(s: string, m: string, i: int)
    requires |m| > 0 && 0 <= i
    requires forall k :: i <= k < |s| ==> !IsQuote(s[k])
    ensures QuotedScan(s, m, i, []) == IndexOf(s, m, i)
    decreases |s| - i
  {
    if i <= |s| - |m| {
      if !OccursAt(s, m, i) {
        QuotedScanUnquoted(s, m, i + 1);
      }
    }
  }

  /** An occurrence inside quotes is passed over: in "'a' a" the first unquoted "a" is at 4. */
  lemma QuotedScanExample()
    ensures QuotedScan("'a' a", "a", 0, []) == 4
    ensures IndexOf("'a' a", "a", 0) == 1
  {
    var s := "'a' a";
    assert OccursAt(s, "a", 4);
    assert QuotedScan(s, "a", 3, []) == 4;
    assert QuotedScan(s, "a", 2, ['\'']) == 4;
    assert QuotedScan(s, "a", 1, ['\'']) == 4;
    assert OccursAt(s, "a", 1);
  }

  /** `indexOfQuoted(s, m, from)`: the first occurrence of m at or after from that lies
    * outside quotes, or -1; m must be non-empty and from non-negative (the source reads
    * m's first character and, when the scan starts, s's character at from). */
  method IndexOfQuoted(s: string, m: string, from: int) returns (r: int)
    requires |m| > 0 && 0 <= from
    ensures r == QuotedScan(s, m, from, [])
  {
    var n := |s|;
    var l := |m|;
    var f := m[0];
    var stack: seq<char> := [];
    var i := from;
    ghost var target := QuotedScan(s, m, from, []);
    while i <= n - l
      invariant 0 <= i && QuotedScan(s, m, i, stack) == target
      decreases n - i
    {
      var cur := s[i];
      if cur == '\\' && |stack| > 0 {
        i := i + 1;
      } else if cur == '"' || cur == '\'' {
        if |stack| > 0 && stack[0] == cur {
          stack := stack[1..];
        } else {
          stack := [cur] + stack;
        }
      } else if cur == f && |stack| == 0 {
        var found := MatchesAt(s, m, i);
        if found {
          return i;
        }
      }
      i := i + 1;
    }
    return -1;
  }

  /** The inner comparison loop of `indexOfQuoted`, for a first character already matched. */
  method MatchesAt(s: string, m: string, i: int) returns (found: bool)
    requires 0 <= i && i + |m| <= |s| && |m| > 0 && s[i] == m[0]
    ensures found <==> OccursAt(s, m, i)
  {
    var j := 1;
    while j < |m|
      invariant 1 <= j <= |m| && s[i..i + j] == m[..j]
    {
      if m[j] != s[i + j] {
        assert s[i..i + |m|][j] != m[j];
        return false;
      }
      assert s[i..i + j + 1] == s[i..i + j] + [s[i + j]];
      assert m[..j + 1] == m[..j] + [m[j]];
      j := j + 1;
    }
    assert m[..j] == m;
    return true;
  }
}
