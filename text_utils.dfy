/**
 * TextUtils: the word just before or just after a position of a text, and the set of words
 * a tokenizer produces.
 *
 * A word is a maximal run of letters and digits. An exception the helper would throw is
 * `Err`.
 */
module TextUtils {
  import opened Wrappers
  import opened JavaText
  import Shingles

  /** text[l..e] is a whole word: letters and digits, not preceded by one. */
  predicate IsWord(text: string, l: int, e: int)
  {
    0 <= l < e <= |text| &&
    (forall j :: l <= j < e ==> IsLetterOrDigit(text[j])) &&
    (l == 0 || !IsLetterOrDigit(text[l - 1]))
  }

  /** text[l..e] is the last word ending at or before idx: only non-word characters lie
    * between its end and idx. */
  predicate IsWordBefore(text: string, idx: int, l: int, e: int)
  {
    IsWord(text, l, e) && e <= idx <= |text| &&
    forall j :: e <= j < idx ==> !IsLetterOrDigit(text[j])
  }

  /** text[l..e] is the first word starting at or after idx: only non-word characters lie
    * between idx and it, and it runs to the end of its letters. */
  predicate IsWordAfter(text: string, idx: int, l: int, e: int)
  {
    0 <= idx <= l < e <= |text| &&
    (forall j :: l <= j < e ==> IsLetterOrDigit(text[j])) &&
    (e == |text| || !IsLetterOrDigit(text[e])) &&
    forall j :: idx <= j < l ==> !IsLetterOrDigit(text[j])
  }

  /** `wordBefore(text, idx)`: the word that ends last at or before idx; "" at position
    * 0. With no letter or digit before idx, or idx outside the text, Java throws. */
  method WordBefore(text: string, idx: int) returns (res: Result<string>)
    ensures idx == 0 ==> res == Ok("")
    ensures res.Ok? <==>
      idx == 0 || (0 < idx <= |text| && exists j :: 0 <= j < idx && IsLetterOrDigit(text[j]))
    ensures res.Ok? && idx != 0 ==>
      exists l, e :: IsWordBefore(text, idx, l, e) && res.value == text[l..e]
  {
    if idx == 0 {
      return Ok("");
    }
    if idx < 0 || idx > |text| {
      return Err("StringIndexOutOfBoundsException");
    }
    var r := idx - 1;
    while r >= 0 && !IsLetterOrDigit(text[r])
      invariant -1 <= r < idx
      invariant forall j :: r < j < idx ==> !IsLetterOrDigit(text[j])
    {
      r := r - 1;
    }
    if r < 0 {
      // the substring bounds are negative
      return Err("StringIndexOutOfBoundsException");
    }
    var e := r + 1;
    var l := r;
    while l >= 0 && IsLetterOrDigit(text[l])
      invariant -1 <= l <= r
      invariant forall j :: l < j < e ==> IsLetterOrDigit(text[j])
    {
      l := l - 1;
    }
    l := l + 1;
    assert IsWordBefore(text, idx, l, e);
    res := Ok(text[l..e]);
  }

  /** The word before a position is determined by the position. */
  lemma WordBeforeUnique(text: string, idx: int, l1: int, e1: int, l2: int, e2: int)
    requires IsWordBefore(text, idx, l1, e1) && IsWordBefore(text, idx, l2, e2)
    ensures l1 == l2 && e1 == e2
  {
    assert IsLetterOrDigit(text[e1 - 1]) && IsLetterOrDigit(text[e2 - 1]);
    assert e1 == e2;
    assert l1 > 0 ==> !IsLetterOrDigit(text[l1 - 1]);
    assert l2 > 0 ==> !IsLetterOrDigit(text[l2 - 1]);
  }

  /** When `wordAfter` answers "" as written: nothing but non-word characters from idx up
    * to the last character, which is not examined. */
  predicate NoWordBeforeLast(text: string, idx: int)
  {
    forall j :: 0 <= idx <= j < |text| - 1 ==> !IsLetterOrDigit(text[j])
  }

  /** `wordAfter(text, idx)` as written: the word starting first at or after idx; "" at
    * the end of the text, when no letter or digit follows, and also when the first one
    * is the text's last character. idx outside the text throws. */
  method WordAfter(text: string, idx: int) returns (res: Result<string>)
    ensures res.Err? <==> idx < 0 || idx > |text|
    ensures res.Ok? ==> (res.value == "" <==> NoWordBeforeLast(text, idx))
    ensures res.Ok? && res.value != "" ==>
      exists l, e :: IsWordAfter(text, idx, l, e) && res.value == text[l..e]
  {
    if idx == |text| {
      return Ok("");
    }
    if idx < 0 || idx > |text| {
      return Err("StringIndexOutOfBoundsException");
    }
    var l := idx;
    while l < |text| && !IsLetterOrDigit(text[l])
      invariant idx <= l <= |text|
      invariant forall j :: idx <= j < l ==> !IsLetterOrDigit(text[j])
    {
      l := l + 1;
    }
    if l == |text| - 1 {
      return Ok("");
    }
    if l == |text| {
      return Ok("");
    }
    var r := l + 1;
    while r < |text| && IsLetterOrDigit(text[r])
      invariant l < r <= |text|
      invariant forall j :: l <= j < r ==> IsLetterOrDigit(text[j])
    {
      r := r + 1;
    }
    assert IsWordAfter(text, idx, l, r);
    assert IsLetterOrDigit(text[l]) && l < |text| - 1;
    res := Ok(text[l..r]);
  }

  /** `wordAfter` as evidently intended: the first word at or after idx, "" only when no
    * letter or digit follows idx. */
  method WordAfterCorrected(text: string, idx: int) returns (res: Result<string>)
    ensures res.Err? <==> idx < 0 || idx > |text|
    ensures res.Ok? ==> (res.value == "" <==> forall j :: idx <= j < |text| ==> !IsLetterOrDigit(text[j]))
    ensures res.Ok? && res.value != "" ==>
      exists l, e :: IsWordAfter(text, idx, l, e) && res.value == text[l..e]
  {
    if idx < 0 || idx > |text| {
      return Err("StringIndexOutOfBoundsException");
    }
    var l := idx;
    while l < |text| && !IsLetterOrDigit(text[l])
      invariant idx <= l <= |text|
      invariant forall j :: idx <= j < l ==> !IsLetterOrDigit(text[j])
    {
      l := l + 1;
    }
    if l == |text| {
      return Ok("");
    }
    var r := l + 1;
    while r < |text| && IsLetterOrDigit(text[r])
      invariant l < r <= |text|
      invariant forall j :: l <= j < r ==> IsLetterOrDigit(text[j])
    {
      r := r + 1;
    }
    assert IsWordAfter(text, idx, l, r);
    res := Ok(text[l..r]);
  }

  /** The word after a position is determined by the position. */
  lemma WordAfterUnique(text: string, idx: int, l1: int, e1: int, l2: int, e2: int)
    requires IsWordAfter(text, idx, l1, e1) && IsWordAfter(text, idx, l2, e2)
    ensures l1 == l2 && e1 == e2
  {
    assert IsLetterOrDigit(text[l1]) && IsLetterOrDigit(text[l2]);
    assert l1 == l2;
    assert e1 < |text| ==> !IsLetterOrDigit(text[e1]);
    assert e2 < |text| ==> !IsLetterOrDigit(text[e2]);
  }

  /** As written, a one-letter word at the end of the text is not found: after position 1
    * of "a b" the word "b" follows, yet the as-written answer is "". */
  lemma WordAfterMissesLastLetter()
    ensures NoWordBeforeLast("a b", 1)
    ensures IsWordAfter("a b", 1, 2, 3) && "a b"[2..3] == "b"
  {
  }

  /** `getWordSet(s, tokenizer)`: every token the tokenizer yields for s, once. The
    * tokenizer is the shingle stream of this model. */
  method GetWordSet(s: string, tokenizer: Shingles.ShinglesTokenizerStream) returns (words: set<string>)
    modifies tokenizer
    ensures words == set t | t in Shingles.ShinglesOf(s, tokenizer.shingleSize)
  {
    words := {};
    tokenizer.SetText(s);
    ghost var k := tokenizer.shingleSize;
    ghost var all := Shingles.ShinglesOf(s, k);
    ghost var n := 0;
    var word := tokenizer.Next();
    while word.Some?
      invariant tokenizer.text == s && tokenizer.shingleSize == k
      invariant word.Some? ==> tokenizer.index == n + 1 && n < |all| && word.value == all[n]
      invariant word.None? ==> n == |all|
      invariant words == set t | t in all[..n]
      decreases |all| - n + (if word.Some? then 1 else 0)
    {
      assert all[..n + 1] == all[..n] + [all[n]];
      SetOfSnoc(all[..n], all[n]);
      words := words + {word.value};
      n := n + 1;
      word := tokenizer.Next();
    }
    assert all[..n] == all;
  }

  /** The tokens of one more position of the stream. */
  lemma SetOfSnoc(seen: seq<string>, x: string)
    ensures (set t | t in seen + [x]) == (set t | t in seen) + {x}
  {
  }
}
