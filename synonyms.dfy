/**
 * Synonyms: rewrites a text so that every known synonym becomes its canonical form. The
 * text is split at runs of whitespace; each token is replaced by its synonym if it has one,
 * else (when number expansion is on) a run of number words becomes digits, else it is kept.
 * The tokens are glued back with single spaces, and the multi-word rules are applied to
 * the result.
 *
 * The ordinal table spells "eleventh" as "evelenth", so "eleventh" is not a number word.
 */
module SynonymRewriting {
  import opened Wrappers
  import opened JavaText
  import opened JavaCollections

  // ---------------------------------------------------------------- the number tables

  const Ordinals: map<string, string> := map[
    "first" := "1st", "second" := "2nd", "third" := "3rd", "fourth" := "4th",
    "fifth" := "5th", "sixth" := "6th", "seventh" := "7th", "eighth" := "8th",
    "ninth" := "9th", "tenth" := "10th", "evelenth" := "11th", "twelfth" := "12th",
    "thirteenth" := "13th", "fourteenth" := "14th", "fifteenth" := "15th",
    "sixteenth" := "16th", "seventeenth" := "17th", "eighteenth" := "18th",
    "nineteenth" := "19th", "twentieth" := "20th", "thirtieth" := "30th",
    "fortieth" := "40th", "fiftieth" := "50th", "sixtieth" := "60th",
    "seventieth" := "70th", "eightieth" := "80th", "ninetieth" := "90th",
    "hundredth" := "100th", "thousandth" := "1000th"]

  const Cardinals: map<string, int> := map[
    "one" := 1, "two" := 2, "three" := 3, "four" := 4, "five" := 5, "six" := 6,
    "seven" := 7, "eight" := 8, "nine" := 9, "ten" := 10, "eleven" := 11,
    "twelve" := 12, "thirteen" := 13, "fourteen" := 14, "fifteen" := 15,
    "sixteen" := 16, "seventeen" := 17, "eighteen" := 18, "nineteen" := 19,
    "twenty" := 20, "thirty" := 30, "forty" := 40, "fifty" := 50, "sixty" := 60,
    "seventy" := 70, "eighty" := 80, "ninety" := 90, "hundred" := 100,
    "thousand" := 1000]

/** The two number-word tables, as `getNumber` consults them. */
  datatype NumberWords = NumberWords(ordinals: map<string, string>, cardinals: map<string, int>)

  const Words := NumberWords(Ordinals, Cardinals)

    /** Integer.parseInt on a string of decimal digits. */
  function DigitsValue(s: string): int
  {
    if s == [] then 0 else DigitsValue(s[..|s| - 1]) * 10 + (s[|s| - 1] as int - '0' as int)
  }

  /** The number an ordinal stands for: its digits without the two-letter suffix. */
  function OrdinalNumber(nw: NumberWords, w: string): int
    requires w in nw.ordinals
  {
    var o := nw.ordinals[w];
    if |o| >= 2 then DigitsValue(o[..|o| - 2]) else 0
  }

  // ---------------------------------------------------------------- ordinal suffixes

  /** `suffix(n)` as written: "th" for 11 to 13, otherwise by the last digit (Java's `%`,
    * which keeps the sign). 111, 112 and 113 get "st", "nd" and "rd". */
  function Suffix(n: int): (r: string)
    ensures r in {"st", "nd", "rd", "th"}
  {
    var last := if n >= 0 then n % 10 else -((-n) % 10);
    if 11 <= n <= 13 then "th"
    else if last == 1 then "st"
    else if last == 2 then "nd"
    else if last == 3 then "rd"
    else "th"
  }

  /** `suffix` as evidently intended: the teens of every hundred take "th". */
  function SuffixCorrected(n: nat): (r: string)
    ensures r in {"st", "nd", "rd", "th"}
  {
    if 11 <= n % 100 <= 13 then "th"
    else if n % 10 == 1 then "st"
    else if n % 10 == 2 then "nd"
    else if n % 10 == 3 then "rd"
    else "th"
  }

  /** The corrected suffix depends only on the last two digits, and below one hundred it is
    * the suffix as written. */
  lemma SuffixCorrectedByHundreds(n: nat)
    ensures SuffixCorrected(n + 100) == SuffixCorrected(n)
    ensures n < 100 ==> SuffixCorrected(n) == Suffix(n)
  {
    assert (n + 100) % 100 == n % 100;
    assert (n + 100) % 10 == n % 10;
    if n < 100 {
      assert n % 100 == n;
    }
  }

  /** As written, 112 gets "nd" where 12 gets "th": the suffix is not periodic in the
    * hundreds. */
  lemma SuffixHundredTwelve()
    ensures Suffix(112) == "nd" && Suffix(12) == "th"
    ensures SuffixCorrected(112) == "th"
  {
  }

  // ---------------------------------------------------------------- synonym lookup

  /** `getSynonym(in)` on a non-null word: its synonym, or, when it has none and ends with
    * a dot after at least one other character, the synonym of the word without the dot. */
  function Lookup(syns: map<string, string>, w: string): (r: Option<string>)
    decreases |w|
  {
    if w in syns then Some(syns[w])
    else if |w| > 1 && w[|w| - 1] == '.' then Lookup(syns, w[..|w| - 1])
    else None
  }

  /** `getSynonym(in)`: null for null. */
  function GetSynonym(syns: map<string, string>, input: Option<string>): (r: Option<string>)
    ensures input.None? ==> r.None?
    ensures input.Some? ==> r == Lookup(syns, input.value)
  {
    if input.None? then None else Lookup(syns, input.value)
  }

  /** w[..j] is the word w less some trailing dots, the whole word or a non-empty prefix. */
  predicate DotStripped(w: string, j: int)
  {
    0 <= j <= |w| && (j == |w| || j >= 1) && forall k :: j <= k < |w| ==> w[k] == '.'
  }

  /** A synonym is found exactly when w less some of its trailing dots has one, and then it
    * is the synonym of the longest such prefix. */
  lemma {:induction false} LookupFindsLongest(syns: map<string, string>, w: string)
    ensures Lookup(syns, w).Some? <==> exists j :: DotStripped(w, j) && w[..j] in syns
    ensures Lookup(syns, w).Some? ==>
      exists j :: DotStripped(w, j) && w[..j] in syns && Lookup(syns, w).value == syns[w[..j]] &&
        forall j' :: j < j' <= |w| ==> w[..j'] !in syns
    decreases |w|
  {
    assert w[..|w|] == w;
    if w in syns {
      assert DotStripped(w, |w|);
    } else if |w| > 1 && w[|w| - 1] == '.' {
      var v := w[..|w| - 1];
      LookupFindsLongest(syns, v);
      forall j | DotStripped(w, j) && w[..j] in syns
        ensures DotStripped(v, j) && v[..j] == w[..j]
      {
      }
      if Lookup(syns, v).Some? {
        var j :| DotStripped(v, j) && v[..j] in syns &&
          Lookup(syns, v).value == syns[v[..j]] && forall j' :: j < j' <= |v| ==> v[..j'] !in syns;
        assert v[..j] == w[..j];
        assert DotStripped(w, j);
        forall j' | j < j' <= |w|
          ensures w[..j'] !in syns
        {
          if j' < |w| {
            assert v[..j'] == w[..j'];
          }
        }
      }
    } else {
      forall j | DotStripped(w, j)
        ensures w[..j] !in syns
      {
        assert j == |w|;
      }
    }
  }

  // ---------------------------------------------------------------- number words

  /** An "and" that the scan accepts: followed by a number word. */
  predicate AcceptAnd(nw: NumberWords, rest: seq<string>, k: int)
    requires 0 <= k < |rest|
  {
    rest[k] == "and" && k + 1 < |rest| && (rest[k + 1] in nw.ordinals || rest[k + 1] in nw.cardinals)
  }

  /** The scan of `getNumber` goes past token k: a cardinal or an accepted "and". */
  predicate RunContinues(nw: NumberWords, rest: seq<string>, k: int)
    requires 0 <= k < |rest|
  {
    rest[k] !in nw.ordinals && (rest[k] in nw.cardinals || AcceptAnd(nw, rest, k))
  }

  /** Where the scan from k stops: the first token that is an ordinal or that it does not
    * know. */
  function NumberRun(nw: NumberWords, rest: seq<string>, k: nat): (e: nat)
    requires k <= |rest|
    ensures k <= e <= |rest|
    ensures forall j :: k <= j < e ==> RunContinues(nw, rest, j)
    ensures e < |rest| ==> !RunContinues(nw, rest, e)
    decreases |rest| - k
  {
    if k < |rest| && RunContinues(nw, rest, k) then NumberRun(nw, rest, k + 1) else k
  }

  /** One cardinal added to the running number: a smaller one is added, a larger one
    * multiplies; a thousand or more closes a group into the total. */
  function Combine(prior: int, n: int, cur: int): (int, int)
  {
    var p := if prior == 0 then cur else if prior > cur then prior + cur else prior * cur;
    if cur >= 1000 then (0, n + p) else (p, n)
  }

  /** The running (group, total) after the tokens, starting from (0, n0); words that are
    * not cardinals are passed over. */
  function Accumulated(nw: NumberWords, tokens: seq<string>, n0: int): (int, int)
  {
    if tokens == [] then (0, n0)
    else
      var acc := Accumulated(nw, tokens[..|tokens| - 1], n0);
      var t := tokens[|tokens| - 1];
      if t in nw.cardinals then Combine(acc.0, acc.1, nw.cardinals[t]) else acc
  }

  /** The number the tokens spell, on top of n0. */
  function Total(nw: NumberWords, tokens: seq<string>, n0: int): int
  {
    var acc := Accumulated(nw, tokens, n0);
    acc.1 + acc.0
  }

  /** What `getNumber` makes of the tokens from the cursor on, with expansion on: how many
    * tokens it consumes and the text it writes, or nothing when the first token is not a
    * number word. A run of cardinals ending in an ordinal becomes digits and a suffix; a
    * lone ordinal becomes its table entry; a run of cardinals becomes digits. */
  function Number(nw: NumberWords, rest: seq<string>): (r: Option<(nat, string)>)
    ensures r.Some? ==> 1 <= r.value.0 <= |rest|
  {
    var e := NumberRun(nw, rest, 0);
    if e < |rest| && rest[e] in nw.ordinals then
      if e > 0 then
        var n := Total(nw, rest[..e], OrdinalNumber(nw, rest[e]));
        Some((e + 1, IntToString(n) + Suffix(n)))
      else Some((1, nw.ordinals[rest[0]]))
    else if e == 0 then None
    else Some((e, IntToString(Total(nw, rest[..e], 0))))
  }

  /** A token that starts a number: an ordinal, a cardinal, or an "and" before one. */
  lemma NumberStarts(nw: NumberWords, rest: seq<string>)
    requires rest != []
    ensures Number(nw, rest).Some? <==>
      rest[0] in nw.ordinals || rest[0] in nw.cardinals || AcceptAnd(nw, rest, 0)
  {
  }

  // ---------------------------------------------------------------- the token loop

  /** The tokens `replaceSynonyms` writes for the tokens from the cursor on: a synonym
    * first, then (with expansion on) a number, else the token itself. Every step consumes
    * at least one token and writes one. */
  function Rewrite(nw: NumberWords, syns: map<string, string>, expand: bool, rest: seq<string>): (out: seq<string>)
    ensures |out| <= |rest|
    decreases |rest|
  {
    if rest == [] then []
    else if Lookup(syns, rest[0]).Some? then [Lookup(syns, rest[0]).value] + Rewrite(nw, syns, expand, rest[1..])
    else if expand && Number(nw, rest).Some? then
      [Number(nw, rest).value.1] + Rewrite(nw, syns, expand, rest[Number(nw, rest).value.0..])
    else [rest[0]] + Rewrite(nw, syns, expand, rest[1..])
  }

  /** Without number expansion, every token is rewritten on its own: one out per in. */
  lemma {:induction false} RewriteWithoutNumbers(nw: NumberWords, syns: map<string, string>, rest: seq<string>)
    ensures |Rewrite(nw, syns, false, rest)| == |rest|
    ensures forall i :: 0 <= i < |rest| ==>
      Rewrite(nw, syns, false, rest)[i] == (if Lookup(syns, rest[i]).Some? then Lookup(syns, rest[i]).value else rest[i])
    decreases |rest|
  {
    if rest != [] {
      RewriteWithoutNumbers(nw, syns, rest[1..]);
      var out := Rewrite(nw, syns, false, rest);
      forall i | 0 < i < |rest|
        ensures out[i] == Rewrite(nw, syns, false, rest[1..])[i - 1] && rest[i] == rest[1..][i - 1]
      {
      }
    }
  }

  /** StringBuilder gluing of `parsed()`: a space before a part only when something is
    * already there. */
  function Glue(parts: seq<string>): string
  {
    if parts == [] then ""
    else
      var g := Glue(parts[..|parts| - 1]);
      if g == "" then parts[|parts| - 1] else g + " " + parts[|parts| - 1]
  }

  /** With no empty part, the glue is the parts joined with single spaces. */
  lemma {:induction false} GlueJoins(parts: seq<string>)
    requires forall i :: 0 <= i < |parts| ==> parts[i] != ""
    ensures Glue(parts) == Join(" ", parts)
  {
    if parts != [] {
      var init := parts[..|parts| - 1];
      GlueJoins(init);
      assert parts == init + [parts[|parts| - 1]];
      if init != [] {
        JoinSnoc(" ", init, parts[|parts| - 1]);
        assert Glue(init) != "" by {
          GlueNonEmpty(init);
        }
      }
    }
  }

  lemma {:induction false} GlueNonEmpty(parts: seq<string>)
    requires parts != [] && parts[|parts| - 1] != ""
    ensures Glue(parts) != ""
  {
  }

  // ---------------------------------------------------------------- the multi-word rules

  /** The multi-word rules as written: for each phrase, in map order, every occurrence of
    * its canonical word is replaced by the phrase. */
  function ApplyReplaces(parsed: string, phrases: map<string, string>, order: seq<string>): string
    requires forall k :: k in order ==> k in phrases
    decreases |order|
  {
    if order == [] then parsed
    else ApplyReplaces(ReplaceLiteral(parsed, phrases[order[0]], order[0]), phrases, order[1..])
  }

  /** The multi-word rules as evidently intended: each phrase replaced by its canonical
    * word, as single-word synonyms are. */
  function ApplyReplacesCorrected(parsed: string, phrases: map<string, string>, order: seq<string>): string
    requires forall k :: k in order ==> k in phrases
    decreases |order|
  {
    if order == [] then parsed
    else ApplyReplacesCorrected(ReplaceLiteral(parsed, order[0], phrases[order[0]]), phrases, order[1..])
  }

  /** A text with no occurrence of the target is left alone by `replace`. */
  lemma {:induction false} ReplaceAbsent(s: string, target: string, repl: string)
    requires |target| > 0 && forall i :: !OccursAt(s, target, i)
    ensures Replace(s, target, repl) == s
    decreases |s|
  {
    if |s| >= |target| {
      assert !OccursAt(s, target, 0);
      forall i
        ensures !OccursAt(s[1..], target, i)
      {
        if 0 <= i && i + |target| <= |s| - 1 {
          assert s[1..][i..i + |target|] == s[i + 1..i + 1 + |target|];
          assert !OccursAt(s, target, i + 1);
        }
      }
      ReplaceAbsent(s[1..], target, repl);
    }
  }

  /** With the evident intent, a text that is exactly a phrase becomes its canonical word. */
  lemma PhraseBecomesCanonical(phrase: string, canonical: string)
    requires phrase != []
    ensures ApplyReplacesCorrected(phrase, map[phrase := canonical], [phrase]) == canonical
  {
    assert phrase[..|phrase|] == phrase;
    assert phrase[|phrase|..] == [];
    assert Replace(phrase, phrase, canonical) == canonical + Replace([], phrase, canonical);
    assert [phrase][1..] == [];
  }

  /** As written, the phrase rule "c = a b" leaves "a b" alone, and turns "c" into "a b". */
  lemma PhraseRuleReversed()
    ensures ApplyReplaces("a b", map["a b" := "c"], ["a b"]) == "a b"
    ensures ApplyReplacesCorrected("a b", map["a b" := "c"], ["a b"]) == "c"
    ensures ApplyReplaces("c", map["a b" := "c"], ["a b"]) == "a b"
  {
    forall i
      ensures !OccursAt("a b", "c", i)
    {
      if 0 <= i < 3 {
        assert "a b"[i..i + 1] == ["a b"[i]];
      }
    }
    ReplaceAbsent("a b", "c", "a b");
    PhraseBecomesCanonical("a b", "c");
    assert "c"[..1] == "c" && "c"[1..] == [];
  }

  // ---------------------------------------------------------------- the parse state

  /** `ParsedStr`: the input tokens, a read cursor and a write cursor over the same array;
    * rewritten tokens are written back in place behind the read cursor. The separate output
    * list is only started when the write cursor catches up with the read cursor. */
  class ParsedStr {
    var bits: array<string>
    var out: Option<seq<string>>
    var iBit: int
    var oBit: int

    predicate Valid()
      reads this
    {
      0 <= oBit <= iBit <= bits.Length
    }

    /** `new ParsedStr(input)`: the whitespace-split tokens, both cursors at the start. */
    constructor(input: string)
      ensures fresh(bits) && bits[..] == SplitSpaces(input)
      ensures out.None? && iBit == 0 && oBit == 0 && Valid()
    {
      var pieces := SplitSpaces(input);
      bits := new string[|pieces|](i requires 0 <= i < |pieces| => pieces[i]);
      out := None;
      iBit := 0;
      oBit := 0;
    }

    function Current(): (r: string)
      reads this, bits
      requires 0 <= iBit < bits.Length
      ensures r == bits[..][iBit]
    {
      bits[iBit]
    }

    function HasMore(): (r: bool)
      reads this
      ensures r <==> iBit < bits.Length
    {
      iBit < bits.Length
    }

    method Advance()
      modifies this
      ensures iBit == old(iBit) + 1
      ensures bits == old(bits) && out == old(out) && oBit == old(oBit)
    {
      iBit := iBit + 1;
    }

    /** `set(out)`: appended to the output list if there is one; when the write cursor has
      * caught up, the list is started with the tokens read so far; otherwise written in
      * place. */
    method Set(s: string)
      requires 0 <= oBit && 0 <= iBit <= bits.Length
      modifies this, bits
      ensures bits == old(bits) && iBit == old(iBit)
      ensures old(out).Some? ==> out == Some(old(out).value + [s]) && oBit == old(oBit) && bits[..] == old(bits[..])
      ensures old(out).None? && old(oBit) >= old(iBit) ==>
        out == Some(old(bits[..iBit]) + [s]) && oBit == old(oBit) && bits[..] == old(bits[..])
      ensures old(out).None? && old(oBit) < old(iBit) ==>
        out.None? && oBit == old(oBit) + 1 && bits[..] == old(bits[..])[old(oBit) := s]
    {
      if out.Some? {
        out := Some(out.value + [s]);
      } else if oBit >= iBit {
        out := Some(bits[..iBit] + [s]);
      } else {
        bits[oBit] := s;
        oBit := oBit + 1;
      }
    }

    /** `skip()`: the current token written out unchanged. */
    method Skip()
      requires Valid() && out.None? && iBit < bits.Length
      modifies this, bits
      ensures Valid() && out.None? && bits == old(bits) && iBit == old(iBit) + 1
      ensures bits[..oBit] == old(bits[..oBit]) + [old(bits[iBit])]
      ensures bits[iBit..] == old(bits[..])[iBit..]
    {
      var s := bits[iBit];
      iBit := iBit + 1;
      WriteBack(s);
    }

    /** `set` when the read cursor is ahead: the token is written at the write cursor, and
      * nothing from the read cursor on changes. */
    method WriteBack(s: string)
      requires Valid() && out.None? && oBit < iBit
      modifies this, bits
      ensures Valid() && out.None? && bits == old(bits) && iBit == old(iBit)
      ensures bits[..oBit] == old(bits[..oBit]) + [s]
      ensures bits[iBit..] == old(bits[iBit..])
    {
      Set(s);
    }

    /** `parsed()`: the output tokens glued with single spaces; once an output list exists,
      * the whole token array joined instead. */
    method Parsed() returns (r: string)
      requires Valid()
      ensures out.None? ==> r == Glue(bits[..oBit])
      ensures out.Some? ==> r == Join(" ", bits[..])
    {
      if out.Some? {
        return Join(" ", bits[..]);
      }
      r := "";
      var i := 0;
      while i < oBit
        invariant 0 <= i <= oBit
        invariant r == Glue(bits[..i])
      {
        assert bits[..i + 1][..i] == bits[..i];
        if |r| > 0 {
          r := r + " ";
        }
        r := r + bits[i];
        i := i + 1;
      }
    }
  }

  // ---------------------------------------------------------------- the rewriter

  class Synonyms {
    var synonyms: map<string, string>
    /** The multi-word rules: phrase to canonical word. */
    var phrases: map<string, string>
    var expandNumbers: bool
    /** The static ordinal and cardinal tables. */
    const words: NumberWords

    constructor()
      ensures synonyms == map[] && phrases == map[] && !expandNumbers && words == Words
    {
      words := Words;
      synonyms := map[];
      phrases := map[];
      expandNumbers := false;
    }

    /** `Synonyms(syns)`. */
    constructor FromMap(syns: map<string, string>)
      ensures synonyms == syns && phrases == map[] && !expandNumbers && words == Words
    {
      words := Words;
      synonyms := syns;
      phrases := map[];
      expandNumbers := false;
    }

    method SetExpandNumbers(b: bool)
      modifies this
      ensures expandNumbers == b && synonyms == old(synonyms) && phrases == old(phrases)
    {
      expandNumbers := b;
    }

    /** `getSynonym(ps)`: the current token's synonym, if any, written out in its place. */
    method SynonymStep(ps: ParsedStr) returns (found: bool)
      requires ps.Valid() && ps.out.None? && ps.iBit < ps.bits.Length
      modifies ps, ps.bits
      ensures ps.Valid() && ps.out.None? && ps.bits == old(ps.bits)
      ensures found <==> Lookup(synonyms, old(ps.bits[ps.iBit])).Some?
      ensures !found ==> ps.iBit == old(ps.iBit) && ps.oBit == old(ps.oBit) && ps.bits[..] == old(ps.bits[..])
      ensures found ==> (ps.iBit == old(ps.iBit) + 1 &&
        ps.bits[..ps.oBit] == old(ps.bits[..ps.oBit]) + [Lookup(synonyms, old(ps.bits[ps.iBit])).value] &&
        ps.bits[ps.iBit..] == old(ps.bits[..])[ps.iBit..])
    {
      var syn := GetSynonym(synonyms, Some(ps.Current()));
      if syn.None? {
        return false;
      }
      ps.Advance();
      ps.WriteBack(syn.value);
      found := true;
    }

    /** `getNumber(ps)`: with expansion on, a run of number words from the cursor is
      * consumed and written out as digits; with expansion off, nothing happens. */
    method NumberStep(ps: ParsedStr) returns (found: bool)
      requires ps.Valid() && ps.out.None? && ps.iBit < ps.bits.Length
      modifies ps, ps.bits
      ensures ps.Valid() && ps.out.None? && ps.bits == old(ps.bits)
      ensures found <==> expandNumbers && Number(words, old(ps.bits[ps.iBit..])).Some?
      ensures !found ==> ps.iBit == old(ps.iBit) && ps.oBit == old(ps.oBit) && ps.bits[..] == old(ps.bits[..])
      ensures found ==> (ps.iBit == old(ps.iBit) + Number(words, old(ps.bits[ps.iBit..])).value.0 &&
        ps.bits[..ps.oBit] == old(ps.bits[..ps.oBit]) + [Number(words, old(ps.bits[ps.iBit..])).value.1] &&
        ps.bits[ps.iBit..] == old(ps.bits[ps.iBit..])[Number(words, old(ps.bits[ps.iBit..])).value.0..])
    {
      if !expandNumbers {
        return false;
      }
      var s := ps.iBit;
      var i := ScanNumberWords(words, ps.bits, s);
      if i < ps.bits.Length && ps.bits[i] in words.ordinals {
        WriteOrdinal(ps, i);
        return true;
      }
      if i == s {
        ghost var rest := ps.bits[ps.iBit..];
        if i < ps.bits.Length {
          assert ps.bits[i] == rest[0];
        }
        assert Number(words, rest).None?;
        return false;
      }
      WriteCardinals(ps, i);
      found := true;
    }

    /** The scan stopped at an ordinal: the run before it and the ordinal become digits
      * and a suffix, or a lone ordinal becomes its table entry. */
    method WriteOrdinal(ps: ParsedStr, i: int)
      requires ps.Valid() && ps.out.None? && ps.iBit < ps.bits.Length
      requires i == ps.iBit + NumberRun(words, ps.bits[ps.iBit..], 0) && i < ps.bits.Length
      requires ps.bits[i] in words.ordinals
      modifies ps, ps.bits
      ensures ps.Valid() && ps.out.None? && ps.bits == old(ps.bits)
      ensures Number(words, old(ps.bits[ps.iBit..])).Some?
      ensures ps.iBit == old(ps.iBit) + Number(words, old(ps.bits[ps.iBit..])).value.0 &&
        ps.bits[..ps.oBit] == old(ps.bits[..ps.oBit]) + [Number(words, old(ps.bits[ps.iBit..])).value.1] &&
        ps.bits[ps.iBit..] == old(ps.bits[ps.iBit..])[Number(words, old(ps.bits[ps.iBit..])).value.0..]
    {
      ghost var rest := ps.bits[ps.iBit..];
      var s := ps.iBit;
      ghost var e := i - s;
      assert ps.bits[s..i] == rest[..e];
      var tok := ps.bits[i];
      assert tok == rest[e];
      ghost var tail := ps.bits[i + 1..];
      assert tail == rest[e + 1..];
      if i > s {
        var n := Sum(words, ps.bits, s, i, OrdinalNumber(words, tok));
        assert Number(words, rest) == Some((e + 1, IntToString(n) + Suffix(n)));
        ps.iBit := i + 1;
        ps.WriteBack(IntToString(n) + Suffix(n));
      } else {
        assert Number(words, rest) == Some((1, words.ordinals[tok]));
        ps.Advance();
        ps.WriteBack(words.ordinals[tok]);
      }
      assert ps.bits[ps.iBit..] == tail;
    }

    /** The scan stopped after a run of cardinals, not at an ordinal: the run becomes
      * digits. */
    method WriteCardinals(ps: ParsedStr, i: int)
      requires ps.Valid() && ps.out.None? && ps.iBit < i
      requires i == ps.iBit + NumberRun(words, ps.bits[ps.iBit..], 0)
      requires i == ps.bits.Length || ps.bits[i] !in words.ordinals
      modifies ps, ps.bits
      ensures ps.Valid() && ps.out.None? && ps.bits == old(ps.bits)
      ensures Number(words, old(ps.bits[ps.iBit..])).Some?
      ensures ps.iBit == old(ps.iBit) + Number(words, old(ps.bits[ps.iBit..])).value.0 &&
        ps.bits[..ps.oBit] == old(ps.bits[..ps.oBit]) + [Number(words, old(ps.bits[ps.iBit..])).value.1] &&
        ps.bits[ps.iBit..] == old(ps.bits[ps.iBit..])[Number(words, old(ps.bits[ps.iBit..])).value.0..]
    {
      ghost var rest := ps.bits[ps.iBit..];
      var s := ps.iBit;
      ghost var e := i - s;
      assert ps.bits[s..i] == rest[..e];
      if i < ps.bits.Length {
        assert ps.bits[i] == rest[e];
      }
      var n := Sum(words, ps.bits, s, i, 0);
      assert Number(words, rest) == Some((e, IntToString(n)));
      ps.iBit := i;
      ps.WriteBack(IntToString(n));
    }

    /** `replaceSynonyms(input)`: null for null; otherwise the rewritten tokens glued with
      * spaces, then the multi-word rules in map order. (Regular-expression rules exist only
      * once a synonym file has been read.) */
    method ReplaceSynonyms(input: Option<string>) returns (r: Option<string>, ghost order: seq<string>)
      ensures input.None? ==> r.None?
      ensures input.Some? ==> forall k :: k in order <==> k in phrases
      ensures input.Some? ==>
        r == Some(ApplyReplaces(Glue(Rewrite(words, synonyms, expandNumbers, SplitSpaces(input.value))), phrases, order))
    {
      order := [];
      if input.None? {
        return None, order;
      }
      var ps := new ParsedStr(input.value);
      ghost var all := ps.bits[..];
      RewriteTokens(ps);
      var parsed := ps.Parsed();
      var keys := SomeOrder(phrases.Keys);
      parsed := ApplyAll(parsed, phrases, keys);
      order := keys;
      r := Some(parsed);
    }

    /** The token loop of `replaceSynonyms`: at each position a synonym, else a number
      * run, else the token itself is written out. */
    method RewriteTokens(ps: ParsedStr)
      requires ps.Valid() && ps.out.None? && ps.iBit == 0 && ps.oBit == 0
      modifies ps, ps.bits
      ensures ps.Valid() && ps.out.None? && ps.bits == old(ps.bits)
      ensures ps.bits[..ps.oBit] == Rewrite(words, synonyms, expandNumbers, old(ps.bits[..]))
    {
      ghost var all := ps.bits[..];
      assert ps.bits[ps.iBit..] == all && ps.bits[..ps.oBit] == [];
      while ps.HasMore()
        invariant ps.Valid() && ps.out.None? && ps.bits == old(ps.bits)
        invariant ps.bits[..ps.oBit] + Rewrite(words, synonyms, expandNumbers, ps.bits[ps.iBit..]) ==
          Rewrite(words, synonyms, expandNumbers, all)
        decreases ps.bits.Length - ps.iBit
      {
        RewriteStep(ps);
      }
      assert ps.bits[ps.iBit..] == [];
    }

    /** One turn of the token loop: the tokens written so far followed by what the rest
      * rewrites to stay the same. */
    method RewriteStep(ps: ParsedStr)
      requires ps.Valid() && ps.out.None? && ps.iBit < ps.bits.Length
      modifies ps, ps.bits
      ensures ps.Valid() && ps.out.None? && ps.bits == old(ps.bits) && ps.iBit > old(ps.iBit)
      ensures ps.bits[..ps.oBit] + Rewrite(words, synonyms, expandNumbers, ps.bits[ps.iBit..]) ==
        old(ps.bits[..ps.oBit]) + Rewrite(words, synonyms, expandNumbers, old(ps.bits[ps.iBit..]))
    {
      ghost var rest := ps.bits[ps.iBit..];
      ghost var done := ps.bits[..ps.oBit];
      var found := SynonymStep(ps);
      if found {
        RewriteUnfold(words, synonyms, expandNumbers, rest);
        ghost var x := Lookup(synonyms, rest[0]).value;
        assert ps.bits[..ps.oBit] == done + [x];
        assert ps.bits[ps.iBit..] == rest[1..];
        AppendShift(done, x, Rewrite(words, synonyms, expandNumbers, rest[1..]));
      } else {
        NumberOrKeep(ps);
      }
    }

    /** The rest of a turn when the token has no synonym: a number run, else the token. */
    method NumberOrKeep(ps: ParsedStr)
      requires ps.Valid() && ps.out.None? && ps.iBit < ps.bits.Length
      requires Lookup(synonyms, ps.bits[ps.iBit]).None?
      modifies ps, ps.bits
      ensures ps.Valid() && ps.out.None? && ps.bits == old(ps.bits) && ps.iBit > old(ps.iBit)
      ensures ps.bits[..ps.oBit] + Rewrite(words, synonyms, expandNumbers, ps.bits[ps.iBit..]) ==
        old(ps.bits[..ps.oBit]) + Rewrite(words, synonyms, expandNumbers, old(ps.bits[ps.iBit..]))
    {
      ghost var rest := ps.bits[ps.iBit..];
      ghost var done := ps.bits[..ps.oBit];
      RewriteUnfold(words, synonyms, expandNumbers, rest);
      var found := NumberStep(ps);
      ghost var x, k;
      if found {
        x, k := Number(words, rest).value.1, Number(words, rest).value.0;
      } else {
        x, k := rest[0], 1;
        ps.Skip();
      }
      assert ps.bits[..ps.oBit] == done + [x];
      assert ps.bits[ps.iBit..] == rest[k..];
      assert Rewrite(words, synonyms, expandNumbers, rest) == [x] + Rewrite(words, synonyms, expandNumbers, rest[k..]);
      AppendShift(done, x, Rewrite(words, synonyms, expandNumbers, rest[k..]));
    }
  }

  lemma AppendShift<T>(a: seq<T>, x: T, b: seq<T>)
    ensures (a + [x]) + b == a + ([x] + b)
  {
  }

  /** The first step of `Rewrite`, by case. */
  lemma RewriteUnfold(nw: NumberWords, syns: map<string, string>, expand: bool, rest: seq<string>)
    requires rest != []
    ensures Lookup(syns, rest[0]).Some? ==>
      Rewrite(nw, syns, expand, rest) == [Lookup(syns, rest[0]).value] + Rewrite(nw, syns, expand, rest[1..])
    ensures Lookup(syns, rest[0]).None? && expand && Number(nw, rest).Some? ==>
      Rewrite(nw, syns, expand, rest) == [Number(nw, rest).value.1] + Rewrite(nw, syns, expand, rest[Number(nw, rest).value.0..])
    ensures Lookup(syns, rest[0]).None? && !(expand && Number(nw, rest).Some?) ==>
      Rewrite(nw, syns, expand, rest) == [rest[0]] + Rewrite(nw, syns, expand, rest[1..])
  {
  }

  /** The multi-word rule loop of `replaceSynonyms`: each phrase's rule applied in turn. */
  method ApplyAll(text: string, phrases: map<string, string>, keys: seq<string>) returns (r: string)
    requires forall k :: k in keys ==> k in phrases
    ensures r == ApplyReplaces(text, phrases, keys)
  {
    r := text;
    var i := 0;
    assert keys[0..] == keys;
    while i < |keys|
      invariant 0 <= i <= |keys|
      invariant ApplyReplaces(r, phrases, keys[i..]) == ApplyReplaces(text, phrases, keys)
    {
      assert keys[i..][1..] == keys[i + 1..];
      r := ReplaceLiteral(r, phrases[keys[i]], keys[i]);
      i := i + 1;
    }
  }

  /** The scan of `getNumber`: past cardinals, and past an "and" that a number word
    * follows, up to the first ordinal or unknown word. */
  method ScanNumberWords(nw: NumberWords, bits: array<string>, s: int) returns (i: int)
    requires 0 <= s <= bits.Length
    ensures i == s + NumberRun(nw, bits[s..], 0)
  {
    ghost var rest := bits[s..];
    i := s;
    while i < bits.Length
      invariant s <= i <= bits.Length
      invariant NumberRun(nw, rest, i - s) == NumberRun(nw, rest, 0)
    {
      var tok := bits[i];
      assert tok == rest[i - s];
      if tok in nw.ordinals {
        break;
      } else if tok !in nw.cardinals {
        var accept := false;
        if tok == "and" {
          if i + 1 < bits.Length {
            var nxt := bits[i + 1];
            assert nxt == rest[i - s + 1];
            if nxt in nw.ordinals || nxt in nw.cardinals {
              accept := true;
            }
          }
        }
        if !accept {
          break;
        }
      }
      i := i + 1;
    }
  }

  /** The accumulation loops of `getNumber`: the cardinals among bits[from..to] added and
    * multiplied on top of n0. */
  method Sum(nw: NumberWords, bits: array<string>, from: int, to: int, n0: int) returns (n: int)
    requires 0 <= from <= to <= bits.Length
    ensures n == Total(nw, bits[from..to], n0)
  {
    var prior := 0;
    n := n0;
    var s := from;
    while s < to
      invariant from <= s <= to
      invariant (prior, n) == Accumulated(nw, bits[from..s], n0)
    {
      assert bits[from..s + 1][..s - from] == bits[from..s];
      var tok := bits[s];
      if tok in nw.cardinals {
        var cur := nw.cardinals[tok];
        if prior == 0 {
          prior := cur;
        } else if prior > cur {
          prior := prior + cur;
        } else {
          prior := prior * cur;
        }
        if cur >= 1000 {
          n := n + prior;
          prior := 0;
        }
      }
      s := s + 1;
    }
    n := n + prior;
  }

  // ---------------------------------------------------------------- examples

  /** The table entries the examples below rely on. */
  predicate KnowsExampleWords(nw: NumberWords)
  {
    "one" in nw.cardinals && nw.cardinals["one"] == 1 &&
    "two" in nw.cardinals && nw.cardinals["two"] == 2 &&
    "three" in nw.cardinals && nw.cardinals["three"] == 3 &&
    "twenty" in nw.cardinals && nw.cardinals["twenty"] == 20 &&
    "eighty" in nw.cardinals && nw.cardinals["eighty"] == 80 &&
    "hundred" in nw.cardinals && nw.cardinals["hundred"] == 100 &&
    "one" !in nw.ordinals && "two" !in nw.ordinals && "three" !in nw.ordinals &&
    "twenty" !in nw.ordinals && "eighty" !in nw.ordinals && "hundred" !in nw.ordinals &&
    "and" !in nw.ordinals && "and" !in nw.cardinals &&
    "fifth" in nw.ordinals && nw.ordinals["fifth"] == "5th" &&
    "twelfth" in nw.ordinals && nw.ordinals["twelfth"] == "12th"
  }

  lemma WordsKnowExampleWords()
    ensures KnowsExampleWords(Words)
  {
    ExampleCardinals();
    ExampleNotOrdinals();
    ExampleOrdinals();
  }

  lemma ExampleCardinals()
    ensures "one" in Cardinals && Cardinals["one"] == 1 && "two" in Cardinals && Cardinals["two"] == 2
    ensures "three" in Cardinals && Cardinals["three"] == 3 && "twenty" in Cardinals && Cardinals["twenty"] == 20
    ensures "eighty" in Cardinals && Cardinals["eighty"] == 80 && "hundred" in Cardinals && Cardinals["hundred"] == 100
    ensures "and" !in Cardinals
  {
  }

  lemma ExampleNotOrdinals()
    ensures "one" !in Ordinals && "two" !in Ordinals && "three" !in Ordinals
    ensures "twenty" !in Ordinals && "eighty" !in Ordinals && "hundred" !in Ordinals && "and" !in Ordinals
  {
    ShortWordsNotOrdinals();
    LongWordsNotOrdinals();
  }

  lemma ShortWordsNotOrdinals()
    ensures "one" !in Ordinals && "two" !in Ordinals && "and" !in Ordinals
  {
  }

  lemma LongWordsNotOrdinals()
    ensures "three" !in Ordinals && "twenty" !in Ordinals && "eighty" !in Ordinals && "hundred" !in Ordinals
  {
  }

  lemma ExampleOrdinals()
    ensures "fifth" in Ordinals && Ordinals["fifth"] == "5th"
    ensures "twelfth" in Ordinals && Ordinals["twelfth"] == "12th"
  {
  }

  /** "one hundred twenty fifth" becomes "125th". */
  lemma OrdinalRunExample()
    ensures Number(Words, ["one", "hundred", "twenty", "fifth"]) == Some((4, "125th"))
  {
    WordsKnowExampleWords();
    OrdinalRunWith(Words);
  }

  lemma OrdinalRunWith(nw: NumberWords)
    requires KnowsExampleWords(nw)
    ensures Number(nw, ["one", "hundred", "twenty", "fifth"]) == Some((4, "125th"))
  {
    var rest := ["one", "hundred", "twenty", "fifth"];
    assert NumberRun(nw, rest, 3) == 3;
    assert NumberRun(nw, rest, 0) == 3;
    assert "5th"[..1] == "5" && "5"[..0] == [];
    assert OrdinalNumber(nw, "fifth") == 5;
    var t := rest[..3];
    assert t[..2] == ["one", "hundred"] && t[..2][..1] == ["one"] && t[..2][..1][..0] == [];
    assert Accumulated(nw, ["one"], 5) == (1, 5);
    assert Accumulated(nw, ["one", "hundred"], 5) == (100, 5);
    assert Accumulated(nw, t, 5) == (120, 5);
    assert Total(nw, rest[..3], OrdinalNumber(nw, rest[3])) == 125;
    assert NatToString(1) == "1" && NatToString(12) == "12" && NatToString(125) == "125";
    assert IntToString(125) + Suffix(125) == "125th";
  }

  /** As written, "one hundred twelfth" becomes "112nd". */
  lemma OrdinalSuffixExample()
    ensures Number(Words, ["one", "hundred", "twelfth"]) == Some((3, "112nd"))
  {
    WordsKnowExampleWords();
    OrdinalSuffixWith(Words);
  }

  lemma OrdinalSuffixWith(nw: NumberWords)
    requires KnowsExampleWords(nw)
    ensures Number(nw, ["one", "hundred", "twelfth"]) == Some((3, "112nd"))
  {
    var rest := ["one", "hundred", "twelfth"];
    assert NumberRun(nw, rest, 2) == 2;
    assert NumberRun(nw, rest, 0) == 2;
    assert "12th"[..2] == "12" && "12"[..1] == "1" && "1"[..0] == [];
    assert OrdinalNumber(nw, "twelfth") == 12;
    var t := rest[..2];
    assert t[..1] == ["one"] && t[..1][..0] == [];
    assert Accumulated(nw, ["one"], 12) == (1, 12);
    assert Accumulated(nw, t, 12) == (100, 12);
    assert Total(nw, rest[..2], OrdinalNumber(nw, rest[2])) == 112;
    assert NatToString(1) == "1" && NatToString(11) == "11" && NatToString(112) == "112";
    assert IntToString(112) + Suffix(112) == "112nd";
  }

  /** "two hundred and eighty three" becomes "283", consuming all five tokens. */
  lemma CardinalRunExample()
    ensures Number(Words, ["two", "hundred", "and", "eighty", "three"]) == Some((5, "283"))
  {
    WordsKnowExampleWords();
    CardinalRunWith(Words);
  }

  lemma CardinalRunWith(nw: NumberWords)
    requires KnowsExampleWords(nw)
    ensures Number(nw, ["two", "hundred", "and", "eighty", "three"]) == Some((5, "283"))
  {
    var rest := ["two", "hundred", "and", "eighty", "three"];
    assert AcceptAnd(nw, rest, 2);
    assert NumberRun(nw, rest, 5) == 5;
    assert NumberRun(nw, rest, 4) == 5;
    assert NumberRun(nw, rest, 3) == 5;
    assert NumberRun(nw, rest, 2) == 5;
    assert NumberRun(nw, rest, 1) == 5;
    assert NumberRun(nw, rest, 0) == 5;
    assert rest[..5] == rest;
    assert rest[..4] == ["two", "hundred", "and", "eighty"];
    assert rest[..4][..3] == ["two", "hundred", "and"];
    assert rest[..4][..3][..2] == ["two", "hundred"];
    assert rest[..4][..3][..2][..1] == ["two"] && rest[..4][..3][..2][..1][..0] == [];
    assert Accumulated(nw, ["two"], 0) == (2, 0);
    assert Accumulated(nw, ["two", "hundred"], 0) == (200, 0);
    assert Accumulated(nw, ["two", "hundred", "and"], 0) == (200, 0);
    assert Accumulated(nw, ["two", "hundred", "and", "eighty"], 0) == (280, 0);
    assert Accumulated(nw, rest, 0) == (283, 0);
    assert NatToString(2) == "2" && NatToString(28) == "28" && NatToString(283) == "283";
  }
}
