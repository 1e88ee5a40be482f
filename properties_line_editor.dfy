/**
 * PropertiesLineEditor: replaces every `@name@` in a line by the value of the property
 * `name`. A property present with a null value is replaced by nothing; an unknown name is
 * kept as written; a lone '@' is left in place.
 *
 * A property value is `Some(v)`, a key mapped to Java `null` is `None`.
 */
module PropertiesLineEditors {
  import opened Wrappers
  import opened JavaText

  /** The marker an unknown `@name@` is rewritten with while the line is scanned; every
    * marker is turned back into '@' at the end. */
  const Marker: string := "'`!"

  /** What replaces `@tok@`. */
  function Replacement(props: map<string, Option<string>>, tok: string): string
  {
    if tok in props then (if props[tok].Some? then props[tok].value else "")
    else Marker + tok + Marker
  }

  /** t holds no '@'. */
  predicate AtFree(t: string)
  {
    forall j :: 0 <= j < |t| ==> t[j] != '@'
  }

  /** No property value holds an '@' (otherwise a replacement could open a new `@name@`). */
  predicate AtFreeValues(props: map<string, Option<string>>)
  {
    forall k :: k in props && props[k].Some? ==> AtFree(props[k].value)
  }

  /** The number of '@' in t. */
  function AtCount(t: string): nat
  {
    if t == [] then 0 else (if t[0] == '@' then 1 else 0) + AtCount(t[1..])
  }

  /** The position of the first '@' in t. */
  function FirstAt(t: string): (r: nat)
    requires !AtFree(t)
    ensures r < |t| && t[r] == '@' && forall j :: 0 <= j < r ==> t[j] != '@'
  {
    if t[0] == '@' then 0 else 1 + FirstAt(t[1..])
  }

  /** The line with its `@name@` pairs replaced left to right, before the markers are
    * turned back into '@'; a last '@' without a partner stays. */
  function Expand(props: map<string, Option<string>>, s: string): string
    decreases |s|
  {
    if s == [] then []
    else if s[0] != '@' then [s[0]] + Expand(props, s[1..])
    else if AtFree(s[1..]) then s
    else
      var end := 1 + FirstAt(s[1..]);
      Replacement(props, s[1..end]) + Expand(props, s[end + 1..])
  }

  lemma {:induction false} AtCountAppend(a: string, b: string)
    ensures AtCount(a + b) == AtCount(a) + AtCount(b)
    decreases |a|
  {
    if a == [] {
      assert a + b == b;
    } else {
      assert (a + b)[1..] == a[1..] + b;
      AtCountAppend(a[1..], b);
    }
  }

  lemma {:induction false} AtFreeCount(t: string)
    ensures AtFree(t) <==> AtCount(t) == 0
    decreases |t|
  {
    if t != [] {
      AtFreeCount(t[1..]);
      if AtFree(t[1..]) && t[0] != '@' {
        forall j | 0 <= j < |t| ensures t[j] != '@' {
          if j > 0 { assert t[j] == t[1..][j - 1]; }
        }
      }
    }
  }

  /** Java's indexOf('@', from) is the first '@' of s[from..], or -1 when there is none. */
  lemma {:induction false} IndexOfCharIsFirstAt(s: string, from: nat)
    requires from <= |s|
    ensures AtFree(s[from..]) ==> IndexOfChar(s, '@', from) == -1
    ensures !AtFree(s[from..]) ==> IndexOfChar(s, '@', from) == from + FirstAt(s[from..])
  {
    var r := IndexOfChar(s, '@', from);
    var t := s[from..];
    if !AtFree(t) {
      var p := FirstAt(t);
      assert s[from + p] == t[p];
    }
  }

  /** An '@'-free prefix passes through the expansion untouched. */
  lemma {:induction false} ExpandAfterPrefix(props: map<string, Option<string>>, a: string, b: string)
    requires AtFree(a)
    ensures Expand(props, a + b) == a + Expand(props, b)
    decreases |a|
  {
    if a != [] {
      ExpandPlainHead(props, a, b);
      AtFreeTail(a);
      ExpandAfterPrefix(props, a[1..], b);
      ConsAssoc(a, Expand(props, b));
    } else {
      assert a + b == b;
    }
  }

  /** A first character other than '@' is copied. */
  lemma {:induction false} ExpandPlainHead(props: map<string, Option<string>>, a: string, b: string)
    requires a != [] && a[0] != '@'
    ensures Expand(props, a + b) == [a[0]] + Expand(props, a[1..] + b)
  {
    assert (a + b)[0] == a[0] && (a + b)[1..] == a[1..] + b;
  }

  lemma {:induction false} AtFreeTail(a: string)
    requires a != [] && AtFree(a)
    ensures AtFree(a[1..])
  {
    forall j | 0 <= j < |a| - 1 ensures a[1..][j] != '@' { assert a[1..][j] == a[j + 1]; }
  }

  lemma ConsAssoc(a: string, x: string)
    requires a != []
    ensures [a[0]] + (a[1..] + x) == a + x
  {
    assert a == [a[0]] + a[1..];
  }

  /** Expanding from an '@' that has a partner. */
  lemma {:induction false} ExpandAtPair(props: map<string, Option<string>>, t: string, e: nat)
    requires t != [] && t[0] == '@' && !AtFree(t[1..]) && e == 1 + FirstAt(t[1..])
    ensures Expand(props, t) == Replacement(props, t[1..e]) + Expand(props, t[e + 1..])
  {
  }

  lemma {:induction false} SliceFacts(s: string, off: nat, end: nat)
    requires off < end < |s|
    ensures s == s[..off] + s[off..]
    ensures s[off..][1..] == s[off + 1..]
    ensures s[off..][1..end - off] == s[off + 1..end]
    ensures s[off..][end - off + 1..] == s[end + 1..]
  {
  }

  /** Where the scan finds the first pair: the '@' at off, its partner at end. */
  lemma {:induction false} PairPositions(s: string, off: nat, end: nat)
    requires off == IndexOfChar(s, '@', 0) && off + 1 <= |s| && end == IndexOfChar(s, '@', off + 1)
    ensures off < end < |s| && s[off] == '@' && AtFree(s[..off]) && AtFree(s[off + 1..end])
    ensures !AtFree(s[off..][1..]) && end - off == 1 + FirstAt(s[off..][1..])
  {
    assert off < |s| && s[off] == '@' && AtFree(s[..off]) by {
      IndexOfCharIsFirstAt(s, 0);
      assert s[0..] == s;
    }
    var u := s[off + 1..];
    assert !AtFree(u) && end == off + 1 + FirstAt(u) by {
      IndexOfCharIsFirstAt(s, off + 1);
    }
    var v := s[off + 1..end];
    assert AtFree(v) by {
      forall j | 0 <= j < |v| ensures v[j] != '@' {
        assert v[j] == u[j];
      }
    }
    assert s[off..][1..] == u;
  }

  /** Expanding from the '@' at off, whose partner is at end. */
  lemma {:induction false} ExpandFromOff(props: map<string, Option<string>>, s: string, off: nat, end: nat)
    requires off < end < |s| && s[off] == '@'
    requires !AtFree(s[off..][1..]) && end - off == 1 + FirstAt(s[off..][1..])
    ensures Expand(props, s[off..]) == Replacement(props, s[off + 1..end]) + Expand(props, s[end + 1..])
  {
    var t := s[off..];
    var a := t[1..end - off];
    var b := t[end - off + 1..];
    ExpandAtPair(props, t, end - off);
    assert a == s[off + 1..end];
    assert b == s[end + 1..];
  }

  /** An '@'-free head of s passes through the expansion untouched. */
  lemma {:induction false} ExpandAfterSplit(props: map<string, Option<string>>, s: string, off: nat)
    requires off <= |s| && AtFree(s[..off])
    ensures Expand(props, s) == s[..off] + Expand(props, s[off..])
  {
    assert s == s[..off] + s[off..];
    ExpandAfterPrefix(props, s[..off], s[off..]);
  }

  /** The first pair of s is replaced and the rest expanded. */
  lemma {:induction false} ExpandFirstPair(props: map<string, Option<string>>, s: string, off: nat, end: nat)
    requires off < end < |s| && s[off] == '@' && AtFree(s[..off])
    requires !AtFree(s[off..][1..]) && end - off == 1 + FirstAt(s[off..][1..])
    ensures Expand(props, s) == s[..off] + Replacement(props, s[off + 1..end]) + Expand(props, s[end + 1..])
  {
    var t := s[off..];
    var R := Replacement(props, s[off + 1..end]);
    var X := Expand(props, s[end + 1..]);
    ExpandAfterSplit(props, s, off);
    ExpandFromOff(props, s, off, end);
    assert s[..off] + (R + X) == s[..off] + R + X;
  }

  /** One round of the scan: the first `@tok@` of s is replaced and the rest expanded. */
  lemma {:induction false} ExpandStep(props: map<string, Option<string>>, s: string, off: nat, end: nat)
    requires off == IndexOfChar(s, '@', 0) && off + 1 <= |s| && end == IndexOfChar(s, '@', off + 1)
    ensures off < end < |s| && s[off] == '@' && s[end] == '@'
    ensures AtFree(s[..off]) && AtFree(s[off + 1..end])
    ensures Expand(props, s) == s[..off] + Replacement(props, s[off + 1..end]) + Expand(props, s[end + 1..])
  {
    PairPositions(s, off, end);
    assert s[end] == s[off..][1..][end - off - 1];
    ExpandFirstPair(props, s, off, end);
  }

  /** When the scan finds no pair, the expansion leaves s alone. */
  lemma {:induction false} ExpandNoPair(props: map<string, Option<string>>, s: string, off: int)
    requires off == IndexOfChar(s, '@', 0)
    requires off < 0 || IndexOfChar(s, '@', off + 1) < 0
    ensures Expand(props, s) == s
  {
    IndexOfCharIsFirstAt(s, 0);
    assert s[0..] == s;
    if off < 0 {
      assert s == s + [];
      ExpandAfterPrefix(props, s, []);
    } else {
      IndexOfCharIsFirstAt(s, off + 1);
      assert s == s[..off] + s[off..];
      ExpandAfterPrefix(props, s[..off], s[off..]);
      assert s[off..][1..] == s[off + 1..];
    }
  }

  /** One round of `edit` keeps the expansion and removes two '@'. */
  lemma {:induction false} EditRound(props: map<string, Option<string>>, s: string, off: nat, end: nat)
    requires AtFreeValues(props)
    requires off == IndexOfChar(s, '@', 0) && off + 1 <= |s| && end == IndexOfChar(s, '@', off + 1)
    ensures var s' := s[..off] + Replacement(props, s[off + 1..end]) + s[end + 1..];
      Expand(props, s') == Expand(props, s) && AtCount(s') < AtCount(s)
  {
    var rep := Replacement(props, s[off + 1..end]);
    var head := s[..off] + rep;
    var rest := s[end + 1..];
    ExpandStep(props, s, off, end);
    ReplacementAtFree(props, s[off + 1..end]);
    AtFreeConcat(s[..off], rep);
    ExpandAfterPrefix(props, head, rest);
    AtCountPair(s, off, end);
    AtCountAppend(s[..off], rep);
    AtCountAppend(head, rest);
    AtFreeCount(head);
    AtFreeCount(s[..off]);
  }

  /** With '@'-free values, a replacement of an '@'-free name holds no '@'. */
  lemma {:induction false} ReplacementAtFree(props: map<string, Option<string>>, tok: string)
    requires AtFreeValues(props) && AtFree(tok)
    ensures AtFree(Replacement(props, tok))
  {
    if tok !in props {
      var rep := Replacement(props, tok);
      forall j | 0 <= j < |rep| ensures rep[j] != '@' {
        if j >= |Marker| && j < |Marker| + |tok| {
          assert rep[j] == tok[j - |Marker|];
        }
      }
    }
  }

  lemma {:induction false} AtFreeConcat(a: string, b: string)
    requires AtFree(a) && AtFree(b)
    ensures AtFree(a + b)
  {
    forall j | 0 <= j < |a + b| ensures (a + b)[j] != '@' {
      if j >= |a| { assert (a + b)[j] == b[j - |a|]; }
    }
  }

  /** The '@' count of s split around the pair at off and end. */
  lemma {:induction false} AtCountPair(s: string, off: nat, end: nat)
    requires off < end < |s| && s[off] == '@' && s[end] == '@'
    ensures AtCount(s) == AtCount(s[..off]) + 2 + AtCount(s[off + 1..end]) + AtCount(s[end + 1..])
  {
    var rest := s[end + 1..];
    assert s == s[..off] + ([s[off]] + (s[off + 1..end] + ([s[end]] + rest)));
    AtCountAppend(s[..off], [s[off]] + (s[off + 1..end] + ([s[end]] + rest)));
    AtCountAppend([s[off]], s[off + 1..end] + ([s[end]] + rest));
    AtCountAppend(s[off + 1..end], [s[end]] + rest);
    AtCountAppend([s[end]], rest);
  }

  /** With '@'-free values, at most one '@' (a lone one) is left after the expansion. */
  lemma {:induction false} ExpandLeavesAtMostOneAt(props: map<string, Option<string>>, s: string)
    requires AtFreeValues(props)
    ensures AtCount(Expand(props, s)) <= 1
    decreases |s|
  {
    if s == [] {
    } else if s[0] != '@' {
      ExpandLeavesAtMostOneAt(props, s[1..]);
      assert AtCount(Expand(props, s)) == AtCount(Expand(props, s[1..])) by {
        AtCountAppend([s[0]], Expand(props, s[1..]));
      }
    } else if AtFree(s[1..]) {
      AtFreeCount(s[1..]);
    } else {
      var end := 1 + FirstAt(s[1..]);
      var tok := s[1..end];
      var rep := Replacement(props, tok);
      ExpandLeavesAtMostOneAt(props, s[end + 1..]);
      assert AtFree(rep) by {
        if tok !in props {
          forall j | 0 <= j < |rep| ensures rep[j] != '@' {
            if j >= |Marker| && j < |Marker| + |tok| {
              assert rep[j] == tok[j - |Marker|] == s[1..][j - |Marker|];
            }
          }
        }
      }
      AtFreeCount(rep);
      AtCountAppend(rep, Expand(props, s[end + 1..]));
    }
  }

  /** A line with a single '@' is left as it is. */
  lemma {:induction false} LoneAtKept(props: map<string, Option<string>>, s: string)
    requires AtCount(s) == 1
    ensures Expand(props, s) == s
    decreases |s|
  {
    if s[0] != '@' {
      LoneAtKept(props, s[1..]);
      assert s == [s[0]] + s[1..];
    } else {
      AtFreeCount(s[1..]);
    }
  }

  /** `@k@` for a known key becomes its value, or nothing when the value is null. */
  lemma {:induction false} KnownTokenReplaced(props: map<string, Option<string>>, k: string)
    requires k in props && AtFree(k)
    ensures Expand(props, "@" + k + "@") == if props[k].Some? then props[k].value else ""
  {
    var s := "@" + k + "@";
    assert s[1..] == k + "@";
    assert (k + "@")[|k|] == '@';
    assert FirstAt(k + "@") == |k| by {
      var f := FirstAt(k + "@");
    }
    assert s[1..|k| + 1] == k;
    assert s[|k| + 2..] == [];
  }

  /** Turning markers back into '@' leaves a string free of the marker's first character alone. */
  lemma {:induction false} ReplaceWithoutQuote(s: string)
    requires '\'' !in s
    ensures Replace(s, Marker, "@") == s
    decreases |s|
  {
    if |s| >= |Marker| {
      assert s[0] != '\'';
      assert s[..|Marker|] != Marker;
      ReplaceWithoutQuote(s[1..]);
      assert s == [s[0]] + s[1..];
    }
  }

  /** A quote-free string followed by a marker: the marker becomes '@'. */
  lemma {:induction false} ReplaceTail(tok: string)
    requires '\'' !in tok
    ensures Replace(tok + Marker, Marker, "@") == tok + "@"
    decreases |tok|
  {
    var s := tok + Marker;
    if tok == [] {
      assert s[..|Marker|] == Marker;
      assert s[|Marker|..] == [];
    } else {
      assert s[0] == tok[0] != '\'';
      assert s[..|Marker|] != Marker;
      assert s[1..] == tok[1..] + Marker;
      ReplaceTail(tok[1..]);
      assert tok == [tok[0]] + tok[1..];
    }
  }

  /** An unknown `@tok@` survives the whole edit verbatim (when tok holds no quote). */
  lemma {:induction false} UnknownTokenKept(props: map<string, Option<string>>, tok: string)
    requires tok !in props && AtFree(tok) && '\'' !in tok
    ensures Replace(Expand(props, "@" + tok + "@"), Marker, "@") == "@" + tok + "@"
  {
    var s := "@" + tok + "@";
    assert s[1..] == tok + "@";
    assert (tok + "@")[|tok|] == '@';
    assert FirstAt(tok + "@") == |tok| by {
      var f := FirstAt(tok + "@");
    }
    assert s[1..|tok| + 1] == tok;
    assert s[|tok| + 2..] == [];
    var e := Marker + tok + Marker;
    assert Expand(props, s) == e;
    assert e[..|Marker|] == Marker && e[|Marker|..] == tok + Marker;
    ReplaceTail(tok);
  }

  class PropertiesLineEditor {
    var properties: map<string, Option<string>>

    constructor(props: map<string, Option<string>>)
      ensures properties == props
    {
      properties := props;
    }

    /** `edit`: null stays null; a line without '@' is returned as it is; otherwise every
      * `@name@` is replaced, rescanning from the start after each replacement. */
    method Edit(line: Option<string>) returns (r: Option<string>)
      requires AtFreeValues(properties)
      ensures line.None? <==> r.None?
      ensures line.Some? && AtFree(line.value) ==> r == line
      ensures line.Some? && !AtFree(line.value) ==>
        r == Some(Replace(Expand(properties, line.value), Marker, "@"))
    {
      if line.None? {
        return None;
      }
      var s := line.value;
      var off := IndexOfChar(s, '@', 0);
      if off < 0 {
        IndexOfCharIsFirstAt(s, 0);
        assert s[0..] == s;
        return line;
      }
      ghost var target := Expand(properties, s);
      while off >= 0
        invariant off == IndexOfChar(s, '@', 0)
        invariant Expand(properties, s) == target
        decreases AtCount(s)
      {
        var end := IndexOfChar(s, '@', off + 1);
        if end < 0 {
          ExpandNoPair(properties, s, off);
          break;
        }
        var rep := Replacement(properties, s[off + 1..end]);
        EditRound(properties, s, off, end);
        s := s[..off] + rep + s[end + 1..];
        off := IndexOfChar(s, '@', 0);
      }
      if off < 0 {
        ExpandNoPair(properties, s, off);
      }
      r := Some(Replace(s, Marker, "@"));
    }
  }
}
