/**
 * ShinglesTokenizerStream: the character k-grams ("shingles") of a text, read one at a
 * time through a cursor, or all at once as a list or a set, optionally passed through
 * a chain of string normalizers.
 */
module Shingles {
  import opened Wrappers

  /** The windows of k consecutive characters of s that start at i or later, left to right. */
  function ShinglesFrom(s: string, k: nat, i: nat): (r: seq<string>)
    ensures |r| == if |s| + 1 >= k + i then |s| + 1 - k - i else 0
    ensures forall j :: 0 <= j < |r| ==> |r[j]| == k && r[j] == s[i + j..i + j + k]
    decreases |s| + 1 - i
  {
    if i + k > |s| then [] else [s[i..i + k]] + ShinglesFrom(s, k, i + 1)
  }

  /** Every window of k consecutive characters of s, left to right. */
  function ShinglesOf(s: string, k: nat): (r: seq<string>)
    ensures |r| == if |s| + 1 >= k then |s| + 1 - k else 0
    ensures forall i :: 0 <= i < |r| ==> |r[i]| == k && r[i] == s[i..i + k]
  {
    ShinglesFrom(s, k, 0)
  }

  /** A chain of normalizers applied in list order. */
  function Normalize(normalizers: seq<string -> string>, tok: string): string
  {
    if normalizers == [] then tok
    else Normalize(normalizers[1..], normalizers[0](tok))
  }

  /** Normalizing with a chain is normalizing with its first part, then with the rest. */
  lemma {:induction false} NormalizeAppend(a: seq<string -> string>, b: seq<string -> string>, tok: string)
    ensures Normalize(a + b, tok) == Normalize(b, Normalize(a, tok))
  {
    if a == [] {
      assert a + b == b;
    } else {
      assert (a + b)[0] == a[0] && (a + b)[1..] == a[1..] + b;
      NormalizeAppend(a[1..], b, a[0](tok));
    }
  }

  /** The shingles of the unit test: "this is a test" in 4-grams. */
  lemma TestShingles(s: string)
    requires s == "this is a test"
    ensures ShinglesOf(s, 4)
      == ["this", "his ", "is i", "s is", " is ", "is a", "s a ", " a t", "a te", " tes", "test"]
  {
    var r := ShinglesOf(s, 4);
    assert |r| == 11;
    assert r[0] == s[0..4] == "this";
    assert r[1] == s[1..5] == "his ";
    assert r[2] == s[2..6] == "is i";
    assert r[3] == s[3..7] == "s is";
    assert r[4] == s[4..8] == " is ";
    assert r[5] == s[5..9] == "is a";
    assert r[6] == s[6..10] == "s a ";
    assert r[7] == s[7..11] == " a t";
    assert r[8] == s[8..12] == "a te";
    assert r[9] == s[9..13] == " tes";
    assert r[10] == s[10..14] == "test";
  }

  class ShinglesTokenizerStream {
    var shingleSize: nat
    var text: string
    var index: nat

    /** The shingles `next` has still to return. */
    ghost function Remaining(): seq<string>
      reads this
    {
      ShinglesFrom(text, shingleSize, index)
    }

    constructor()
      ensures shingleSize == 4 && text == [] && index == 0
    {
      shingleSize := 4;
      text := [];
      index := 0;
    }

    /** `setShingleSize`: only the size changes; the cursor stays where it was, so the
      * shingles still to come are the windows of the new size from the old position on.
      * A negative size is not modelled (next would throw). */
    method SetShingleSize(k: nat)
      modifies this
      ensures shingleSize == k && text == old(text) && index == old(index)
      ensures Remaining() == ShinglesFrom(old(text), k, old(index))
    {
      shingleSize := k;
    }

    /** `setText`: the cursor returns to the first shingle. */
    method SetText(s: string)
      modifies this
      ensures text == s && index == 0 && shingleSize == old(shingleSize)
      ensures Remaining() == ShinglesOf(s, shingleSize)
    {
      text := s;
      index := 0;
    }

    /** `next`: the window at the cursor, advancing by one, or null once the window would
      * run past the end. As Remaining() is ShinglesFrom(text, shingleSize, index), the
      * window returned is the head of what remained and the rest is what remains. */
    method Next() returns (token: Option<string>)
      modifies this
      ensures text == old(text) && shingleSize == old(shingleSize)
      ensures old(index) + shingleSize <= |text| ==>
        token == Some(text[old(index)..old(index) + shingleSize]) && index == old(index) + 1
      ensures old(index) + shingleSize > |text| ==> token == None && index == old(index)
    {
      if index + shingleSize <= |text| {
        token := Some(text[index..index + shingleSize]);
        index := index + 1;
      } else {
        token := None;
      }
    }

    /** `getTokens(s)`: every shingle of s, in order. */
    method GetTokens(s: string) returns (tokens: seq<string>)
      modifies this
      ensures tokens == ShinglesOf(s, shingleSize)
      ensures text == s && shingleSize == old(shingleSize)
    {
      tokens := GetTokensNormalized(s, []);
      forall i | 0 <= i < |tokens|
        ensures tokens[i] == ShinglesOf(s, shingleSize)[i]
      {
      }
    }

    /** `getUniqueTokens(s)`: the set of the shingles of s. */
    method GetUniqueTokens(s: string) returns (types: set<string>)
      modifies this
      ensures types == set t | t in ShinglesOf(s, shingleSize)
      ensures text == s && shingleSize == old(shingleSize)
    {
      types := GetUniqueTokensNormalized(s, []);
      forall t | t in ShinglesOf(s, shingleSize)
        ensures t in types
      {
        var i :| 0 <= i < |ShinglesOf(s, shingleSize)| && ShinglesOf(s, shingleSize)[i] == t;
        assert Normalize([], t) == t;
      }
    }

    /** `getTokens(s, normalizers)`: each shingle passed through the normalizers in order;
      * a null list is the empty chain. */
    method GetTokensNormalized(s: string, normalizers: seq<string -> string>) returns (tokens: seq<string>)
      modifies this
      ensures text == s && shingleSize == old(shingleSize)
      ensures |tokens| == |ShinglesOf(s, shingleSize)|
      ensures forall i :: 0 <= i < |tokens| ==> tokens[i] == Normalize(normalizers, ShinglesOf(s, shingleSize)[i])
    {
      SetText(s);
      tokens := [];
      var all := ShinglesOf(s, shingleSize);
      var tok := Next();
      while tok.Some?
        invariant text == s && shingleSize == old(shingleSize)
        invariant tok.Some? ==> index == |tokens| + 1 && |tokens| < |all| && tok.value == all[|tokens|]
        invariant tok.None? ==> |tokens| == |all|
        invariant forall i :: 0 <= i < |tokens| ==> tokens[i] == Normalize(normalizers, all[i])
        decreases |all| - |tokens| + (if tok.Some? then 1 else 0)
      {
        var t := ApplyNormalizers(normalizers, tok.value);
        tokens := tokens + [t];
        assert forall i :: 0 <= i < |tokens| ==> tokens[i] == Normalize(normalizers, all[i]);
        tok := Next();
      }
    }

    /** `getUniqueTokens(s, normalizers)`: the set of the normalized shingles. */
    method GetUniqueTokensNormalized(s: string, normalizers: seq<string -> string>) returns (uniques: set<string>)
      modifies this
      ensures text == s && shingleSize == old(shingleSize)
      ensures uniques == set t | t in ShinglesOf(s, shingleSize) :: Normalize(normalizers, t)
    {
      SetText(s);
      uniques := {};
      var all := ShinglesOf(s, shingleSize);
      ghost var n := 0;
      var tok := Next();
      while tok.Some?
        invariant text == s && shingleSize == old(shingleSize)
        invariant tok.Some? ==> index == n + 1 && n < |all| && tok.value == all[n]
        invariant tok.None? ==> n == |all|
        invariant uniques == NormalizedSet(normalizers, all[..n])
        decreases |all| - n + (if tok.Some? then 1 else 0)
      {
        var t := ApplyNormalizers(normalizers, tok.value);
        NormalizedSetSnoc(normalizers, all, n);
        uniques := uniques + {t};
        n := n + 1;
        tok := Next();
      }
      assert all[..n] == all;
      NormalizedSetIs(normalizers, all);
    }
  }

  /** The normalized tokens of a list, as the set loop collects them. */
  function NormalizedSet(normalizers: seq<string -> string>, tokens: seq<string>): set<string>
  {
    if tokens == [] then {}
    else NormalizedSet(normalizers, tokens[..|tokens| - 1]) + {Normalize(normalizers, tokens[|tokens| - 1])}
  }

  /** One more token adds its normalized form. */
  lemma NormalizedSetSnoc(normalizers: seq<string -> string>, tokens: seq<string>, n: nat)
    requires n < |tokens|
    ensures NormalizedSet(normalizers, tokens[..n + 1]) ==
      NormalizedSet(normalizers, tokens[..n]) + {Normalize(normalizers, tokens[n])}
  {
    assert tokens[..n + 1][..n] == tokens[..n];
  }

  lemma {:induction false} NormalizedSetIs(normalizers: seq<string -> string>, tokens: seq<string>)
    ensures NormalizedSet(normalizers, tokens) == set t | t in tokens :: Normalize(normalizers, t)
  {
    var r := set t | t in tokens :: Normalize(normalizers, t);
    if tokens == [] {
      assert forall u :: u !in r;
    } else {
      var init := tokens[..|tokens| - 1];
      var last := tokens[|tokens| - 1];
      NormalizedSetIs(normalizers, init);
      assert tokens == init + [last];
      forall u | u in r
        ensures u in NormalizedSet(normalizers, tokens)
      {
        var t :| t in tokens && u == Normalize(normalizers, t);
        if t != last {
          assert t in init;
        }
      }
      forall u | u in NormalizedSet(normalizers, tokens)
        ensures u in r
      {
        if u != Normalize(normalizers, last) {
          var t :| t in init && u == Normalize(normalizers, t);
          assert t in tokens;
        }
      }
    }
  }

  /** The normalizer loop of the two normalizing getters. */
  method ApplyNormalizers(normalizers: seq<string -> string>, tok: string) returns (t: string)
    ensures t == Normalize(normalizers, tok)
  {
    t := tok;
    var j := 0;
    while j < |normalizers|
      invariant 0 <= j <= |normalizers|
      invariant Normalize(normalizers, tok) == Normalize(normalizers[j..], t)
    {
      assert normalizers[j..][1..] == normalizers[j + 1..];
      t := normalizers[j](t);
      j := j + 1;
    }
  }
}
