/**
 * ArrayTokenizer: an iterator over the segments of a string cut at every occurrence of a
 * separator string (by default "#||#"), skipping the segments that are only whitespace
 * and optionally trimming the ones it returns.
 */
module ArrayTokenizers {
  import opened Wrappers
  import opened JavaText

  const DefaultSeparator: string := "#||#"

  /** Every character of w is whitespace (vacuously true of the empty segment). */
  predicate Blank(w: string)
  {
    forall k :: 0 <= k < |w| ==> IsWhitespace(w[k])
  }

  /** sep occurs nowhere in t. */
  predicate NoSeparator(t: string, sep: string)
  {
    forall p :: 0 <= p <= |t| ==> !OccursAt(t, sep, p)
  }

  /** The end of the segment starting at `start`: the next occurrence of sep at or after
    * `start`, or the end of s. */
  function SegmentEnd(s: string, sep: string, start: int): (e: int)
    requires |sep| > 0 && 0 <= start <= |s|
    ensures start <= e <= |s|
    decreases |s| - start
  {
    if start + |sep| > |s| then |s|
    else if s[start..start + |sep|] == sep then start
    else SegmentEnd(s, sep, start + 1)
  }

  /** A segment ends at a separator (or the end of s) and holds no separator start. */
  lemma {:induction false} SegmentEndIsNextSeparator(s: string, sep: string, start: int)
    requires |sep| > 0 && 0 <= start <= |s|
    ensures var e := SegmentEnd(s, sep, start);
      (e < |s| ==> OccursAt(s, sep, e)) && forall p :: start <= p < e ==> !OccursAt(s, sep, p)
    decreases |s| - start
  {
    if start + |sep| <= |s| && s[start..start + |sep|] != sep {
      SegmentEndIsNextSeparator(s, sep, start + 1);
    }
  }

  /** `advance` finds the segment end with String.indexOf. */
  lemma SegmentEndByIndexOf(s: string, sep: string, start: int)
    requires |sep| > 0 && 0 <= start <= |s|
    ensures var k := IndexOf(s, sep, start); SegmentEnd(s, sep, start) == if k < 0 then |s| else k
  {
    var k := IndexOf(s, sep, start);
    var e := SegmentEnd(s, sep, start);
    SegmentEndIsNextSeparator(s, sep, start);
    if k < 0 {
      assert !OccursAt(s, sep, e);
    }
  }

  /** The tokens of s from position `start` on: the segments between separators that are
    * not blank, in order. A separator at the very end leaves no final segment. */
  function TokensFrom(s: string, sep: string, start: int): seq<string>
    requires |sep| > 0 && 0 <= start
    decreases |s| - start
  {
    if start >= |s| then []
    else
      var e := SegmentEnd(s, sep, start);
      var rest := TokensFrom(s, sep, e + |sep|);
      if Blank(s[start..e]) then rest else [s[start..e]] + rest
  }

  /** What `next` makes of raw tokens: each trimmed when trimming is on. */
  function TrimmedIf(trim: bool, ts: seq<string>): (r: seq<string>)
    ensures |r| == |ts|
    ensures forall k :: 0 <= k < |r| ==> r[k] == if trim then Trim(ts[k]) else ts[k]
  {
    if ts == [] then [] else [if trim then Trim(ts[0]) else ts[0]] + TrimmedIf(trim, ts[1..])
  }

  /** Taking one token off the front moves its trimmed form onto the output. */
  lemma TrimmedIfStep(trim: bool, out: seq<string>, ts: seq<string>, t: string)
    requires ts != [] && t == if trim then Trim(ts[0]) else ts[0]
    ensures out + TrimmedIf(trim, ts) == (out + [t]) + TrimmedIf(trim, ts[1..])
  {
  }

  /** The whitespace scan of `advance` over s[i..j]. */
  method IsBlankBetween(s: string, i: int, j: int) returns (b: bool)
    requires 0 <= i <= j <= |s|
    ensures b <==> Blank(s[i..j])
  {
    var k := i;
    while k < j && IsWhitespace(s[k])
      invariant i <= k <= j
      invariant forall x :: i <= x < k ==> IsWhitespace(s[x])
    {
      k := k + 1;
    }
    if k < j {
      assert s[i..j][k - i] == s[k];
    }
    b := k >= j;
  }

  /** A blank segment contributes nothing. */
  lemma BlankSegment(s: string, sep: string, start: int)
    requires |sep| > 0 && 0 <= start < |s|
    requires Blank(s[start..SegmentEnd(s, sep, start)])
    ensures TokensFrom(s, sep, start) == TokensFrom(s, sep, SegmentEnd(s, sep, start) + |sep|)
  {
  }

  /** Every token is non-blank (so non-empty) and holds no separator. */
  lemma {:induction false} TokensShape(s: string, sep: string, start: int)
    requires |sep| > 0 && 0 <= start
    ensures forall t :: t in TokensFrom(s, sep, start) ==> t != [] && !Blank(t) && NoSeparator(t, sep)
    decreases |s| - start
  {
    if start < |s| {
      var e := SegmentEnd(s, sep, start);
      SegmentEndIsNextSeparator(s, sep, start);
      TokensShape(s, sep, e + |sep|);
      SliceOccurrences(s, sep, start, e);
    }
  }

  /** An occurrence of sep inside s[a..b] is an occurrence in s. */
  lemma SliceOccurrences(s: string, sep: string, a: int, b: int)
    requires 0 <= a <= b <= |s|
    ensures forall p :: 0 <= p <= b - a && OccursAt(s[a..b], sep, p) ==> OccursAt(s, sep, a + p)
  {
    forall p | 0 <= p <= b - a && OccursAt(s[a..b], sep, p)
      ensures OccursAt(s, sep, a + p)
    {
      var u := s[a..b];
      forall i | p <= i < p + |sep|
        ensures u[i] == s[a + i]
      {
      }
      assert u[p..p + |sep|] == s[a + p..a + p + |sep|];
    }
  }

  /** A non-blank string without a separator is a single token. */
  lemma SingleToken(s: string, sep: string)
    requires |sep| > 0 && !Blank(s) && NoSeparator(s, sep)
    ensures TokensFrom(s, sep, 0) == [s]
  {
    var e := SegmentEnd(s, sep, 0);
    SegmentEndIsNextSeparator(s, sep, 0);
    assert !OccursAt(s, sep, e);
    assert s[0..e] == s;
  }

  /** Blank segments and a trailing separator produce no tokens. */
  lemma TokensExample(s: string, sep: string)
    requires s == "a| |b|" && sep == "|"
    ensures TokensFrom(s, sep, 0) == ["a", "b"]
  {
    assert s[5..6] == sep && s[4..5] == "b" && !IsWhitespace('b');
    assert SegmentEnd(s, sep, 4) == 5 && TokensFrom(s, sep, 6) == [];
    assert TokensFrom(s, sep, 4) == ["b"];
    assert s[3..4] == sep && s[2..3] == " " && IsWhitespace(' ');
    assert SegmentEnd(s, sep, 2) == 3 && TokensFrom(s, sep, 2) == ["b"];
    assert s[1..2] == sep && s[0..1] == "a" && !IsWhitespace('a');
    assert SegmentEnd(s, sep, 0) == 1;
  }

  /** A non-blank segment is the first token, and the tokens after it follow. */
  lemma NonBlankSegment(s: string, sep: string, start: int)
    requires |sep| > 0 && 0 <= start < |s|
    requires !Blank(s[start..SegmentEnd(s, sep, start)])
    ensures var ts := TokensFrom(s, sep, start); var e := SegmentEnd(s, sep, start);
      ts != [] && ts[0] == s[start..e] && ts[1..] == TokensFrom(s, sep, e + |sep|)
  {
    var e := SegmentEnd(s, sep, start);
    assert TokensFrom(s, sep, start) == [s[start..e]] + TokensFrom(s, sep, e + |sep|);
  }

  /** The loop of `advance` from position `from`: blank segments are skipped, and the
    * result is the start and end of the next non-blank one (start at or past the end of s
    * when none is left, with the end as the loop last set it). */
  method SkipBlank(s: string, sep: string, from: int, token0: int) returns (start: int, token: int)
    requires |sep| > 0 && 0 <= from
    ensures 0 <= start && (start < |s| ==> token == SegmentEnd(s, sep, start) && !Blank(s[start..token]))
    ensures TokensFrom(s, sep, start) == TokensFrom(s, sep, from)
  {
    start := from;
    token := token0;
    var blank := true;
    while blank && start < |s|
      invariant 0 <= start
      invariant TokensFrom(s, sep, start) == TokensFrom(s, sep, from)
      invariant !blank ==> start < |s| && token == SegmentEnd(s, sep, start) && !Blank(s[start..token])
      decreases |s| - start, blank
    {
      token, blank := ScanSegment(s, sep, start);
      if blank {
        start := token + |sep|;
      }
    }
  }

  /** One round of `advance`: the end of the segment at `start` and whether it is blank;
    * a blank one contributes no token. */
  method ScanSegment(s: string, sep: string, start: int) returns (token: int, blank: bool)
    requires |sep| > 0 && 0 <= start < |s|
    ensures token == SegmentEnd(s, sep, start)
    ensures blank <==> Blank(s[start..token])
    ensures blank ==> TokensFrom(s, sep, start) == TokensFrom(s, sep, token + |sep|)
  {
    token := IndexOf(s, sep, start);
    if token < 0 {
      token := |s|;
    }
    SegmentEndByIndexOf(s, sep, start);
    blank := IsBlankBetween(s, start, token);
    if blank {
      BlankSegment(s, sep, start);
    }
  }

  class ArrayTokenizer {
    var sep: string
    var str: Option<string>
    /** Start of the current token; at or past the end of the string when none is left. */
    var start: int
    /** End of the current token (where the separator after it starts). */
    var token: int
    var trim: bool

    ghost predicate Valid()
      reads this
    {
      |sep| > 0
      && (str.None? ==> start == 0)
      && (str.Some? ==>
            0 <= start
            && (start < |str.value| ==>
                  token == SegmentEnd(str.value, sep, start) && !Blank(str.value[start..token])))
    }

    /** The raw tokens `next` has still to return. */
    ghost function Remaining(): seq<string>
      reads this
      requires Valid()
    {
      if str.None? then [] else TokensFrom(str.value, sep, start)
    }

    /** `ArrayTokenizer(s)`: the default separator. */
    constructor WithDefaultSeparator(s: Option<string>)
      ensures Valid() && sep == DefaultSeparator && str == s && !trim
      ensures Remaining() == if s.Some? then TokensFrom(s.value, DefaultSeparator, 0) else []
    {
      sep := DefaultSeparator;
      str := s;
      token := -|DefaultSeparator|;
      start := 0;
      trim := false;
      new;
      if s.Some? {
        Advance();
      }
    }

    /** `ArrayTokenizer(s, sep)`; the separator must be non-empty (with an empty one the
      * source's scan never advances). */
    constructor (s: Option<string>, separator: string)
      requires |separator| > 0
      ensures Valid() && sep == separator && str == s && !trim
      ensures Remaining() == if s.Some? then TokensFrom(s.value, separator, 0) else []
    {
      sep := separator;
      str := s;
      token := -|separator|;
      start := 0;
      trim := false;
      new;
      if s.Some? {
        Advance();
      }
    }

    method SetTrim(b: bool)
      modifies this
      ensures trim == b && sep == old(sep) && str == old(str) && start == old(start) && token == old(token)
    {
      trim := b;
    }

    /** `advance`: move past the current token to the next non-blank segment. */
    method Advance()
      requires |sep| > 0 && str.Some? && token + |sep| >= 0
      modifies this
      ensures Valid() && sep == old(sep) && str == old(str) && trim == old(trim)
      ensures Remaining() == TokensFrom(str.value, sep, old(token) + |sep|)
    {
      start, token := SkipBlank(str.value, sep, token + |sep|, token);
    }

    /** `hasNext`. */
    function HasNext(): (b: bool)
      reads this
      requires Valid()
      ensures b <==> Remaining() != []
    {
      str.Some? && start < |str.value|
    }

    /** `next`: the current token, trimmed when trimming is on; the cursor moves on. */
    method Next() returns (r: string)
      requires Valid() && HasNext()
      modifies this
      ensures Valid() && sep == old(sep) && str == old(str) && trim == old(trim)
      ensures r == if trim then Trim(old(Remaining())[0]) else old(Remaining())[0]
      ensures Remaining() == old(Remaining())[1..]
    {
      ghost var rem := Remaining();
      assert rem == TokensFrom(str.value, sep, start);
      NonBlankSegment(str.value, sep, start);
      r := str.value[start..token];
      Advance();
      if trim {
        r := Trim(r);
      }
    }

    /** `toArray`: every token, trimmed when trimming is on; null for a null string. */
    method ToArray() returns (r: Option<seq<string>>)
      requires Valid()
      ensures str.None? ==> r.None?
      ensures str.Some? ==> r == Some(TrimmedIf(trim, TokensFrom(str.value, sep, 0)))
    {
      if str.None? {
        return None;
      }
      var at := new ArrayTokenizer(str, sep);
      at.SetTrim(trim);
      ghost var all := TrimmedIf(trim, TokensFrom(str.value, sep, 0));
      var out: seq<string> := [];
      while at.HasNext()
        invariant fresh(at) && at.Valid() && at.str == str && at.sep == sep && at.trim == trim
        invariant out + TrimmedIf(trim, at.Remaining()) == all
        decreases |at.Remaining()|
      {
        ghost var rem := at.Remaining();
        var t := at.Next();
        TrimmedIfStep(trim, out, rem, t);
        out := out + [t];
      }
      assert TrimmedIf(trim, at.Remaining()) == [];
      assert out + [] == out;
      r := Some(out);
    }

    /** `size`: the number of tokens `toArray` returns (0 for a null string). */
    method Size() returns (n: nat)
      requires Valid()
      ensures n == if str.None? then 0 else |TokensFrom(str.value, sep, 0)|
    {
      var at := new ArrayTokenizer(str, sep);
      n := 0;
      while at.HasNext()
        invariant fresh(at) && at.Valid() && at.str == str && at.sep == sep
        invariant n + |at.Remaining()| == if str.None? then 0 else |TokensFrom(str.value, sep, 0)|
        decreases |at.Remaining()|
      {
        var _ := at.Next();
        n := n + 1;
      }
    }
  }
}
