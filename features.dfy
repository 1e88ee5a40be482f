/**
 * Features: a feature list read from lines of text. Line n holds a feature word, optionally
 * followed by a tab and its weight; the word gets index n, and the table answers index,
 * weight and, in reverse, the word at an index.
 *
 * Weights are kept as the text that `Double.parseDouble` is given; the parse itself is
 * not modelled. An exception `initialize` would throw is `Err`.
 */
module FeatureTables {
  import opened Wrappers
  import opened JavaText
  import opened JavaCollections

  /** A feature's weight: 0 for an unknown word, 1 when the line gives none, otherwise the
    * number written after the tab. */
  datatype Weight = Zero | One | Parsed(text: string)

  datatype Feature = Feature(index: int, weight: Weight)

  // ---------------------------------------------------------------- reading a line

  predicate IsLineEnd(c: char) { c == '\n' || c == '\r' }

  /** The line with its trailing carriage returns and line feeds removed (spaces stay:
    * they may belong to the feature). */
  function LineBody(line: string): string
  {
    if |line| > 0 && IsLineEnd(line[|line| - 1]) then LineBody(line[..|line| - 1]) else line
  }

  /** The body is a prefix of the line that does not end with a line end, and only line
    * ends were removed. */
  lemma {:induction false} LineBodyTrims(line: string)
    ensures var r := LineBody(line);
      |r| <= |line| && r == line[..|r|] && (r == [] || !IsLineEnd(r[|r| - 1])) &&
      forall j :: |r| <= j < |line| ==> IsLineEnd(line[j])
  {
    if |line| > 0 && IsLineEnd(line[|line| - 1]) {
      LineBodyTrims(line[..|line| - 1]);
    }
  }

  /** The text cut at every tab: one more field than there are tabs. */
  function Fields(s: string): (r: seq<string>)
    ensures |r| >= 1
  {
    if s == [] then [""]
    else
      var rest := Fields(s[1..]);
      if s[0] == '\t' then [""] + rest else [[s[0]] + rest[0]] + rest[1..]
  }

  /** Java's `s.split("\t")`: a text without a tab is its own single piece; otherwise the
    * fields, less the empty ones at the end. */
  function SplitTab(s: string): seq<string>
  {
    if '\t' !in s then [s] else DropTrailingEmpty(Fields(s))
  }

  /** The fields joined back with tabs give the text, and no field holds a tab. */
  lemma {:induction false} FieldsJoin(s: string)
    ensures Join("\t", Fields(s)) == s
    ensures forall f :: f in Fields(s) ==> '\t' !in f
  {
    if s != [] {
      FieldsJoin(s[1..]);
      var rest := Fields(s[1..]);
      if s[0] == '\t' {
        assert ([""] + rest)[1..] == rest;
      } else {
        var fs := [[s[0]] + rest[0]] + rest[1..];
        assert fs[1..] == rest[1..];
        if |rest| > 1 {
          assert Join("\t", rest) == rest[0] + "\t" + Join("\t", rest[1..]);
        }
        forall f | f in fs
          ensures '\t' !in f
        {
          if f != fs[0] {
            assert f in rest;
          }
        }
      }
    }
  }

  /** Every field is empty exactly when the text is nothing but tabs. */
  lemma {:induction false} FieldsAllEmpty(s: string)
    ensures (forall f :: f in Fields(s) ==> f == "") <==> (forall j :: 0 <= j < |s| ==> s[j] == '\t')
  {
    if s != [] {
      FieldsAllEmpty(s[1..]);
      var rest := Fields(s[1..]);
      if s[0] == '\t' {
        assert Fields(s) == [""] + rest;
        assert forall f :: f in Fields(s) <==> f == "" || f in rest;
        if forall j :: 0 <= j < |s[1..]| ==> s[1..][j] == '\t' {
          forall j | 0 <= j < |s|
            ensures s[j] == '\t'
          {
            if j > 0 {
              assert s[j] == s[1..][j - 1];
            }
          }
        } else {
          var j :| 0 <= j < |s[1..]| && s[1..][j] != '\t';
          assert s[j + 1] != '\t';
        }
      } else {
        assert Fields(s)[0] != "" && Fields(s)[0] in Fields(s);
      }
    }
  }

  /** The first field runs up to the first tab. */
  lemma {:induction false} FieldsFirst(s: string)
    ensures |Fields(s)[0]| <= |s|
    ensures Fields(s)[0] == s[..|Fields(s)[0]|]
    ensures |Fields(s)[0]| == |s| || s[|Fields(s)[0]|] == '\t'
  {
    if s != [] {
      FieldsFirst(s[1..]);
      var rest := Fields(s[1..]);
      if s[0] != '\t' {
        assert Fields(s)[0] == [s[0]] + rest[0];
        assert s[..|rest[0]| + 1] == [s[0]] + s[1..][..|rest[0]|];
      }
    }
  }

  /** A line splits into no piece at all exactly when it is one or more tabs only. */
  lemma SplitTabEmpty(s: string)
    ensures SplitTab(s) == [] <==> |s| > 0 && forall j :: 0 <= j < |s| ==> s[j] == '\t'
  {
    FieldsAllEmpty(s);
    if '\t' in s {
      var fs := Fields(s);
      var r := DropTrailingEmpty(fs);
      DropTrailingEmptyRest(fs);
      if r == [] {
        assert forall f :: f in fs ==> f == "" by {
          forall f | f in fs
            ensures f == ""
          {
            var j :| 0 <= j < |fs| && fs[j] == f;
          }
        }
      } else {
        assert r[|r| - 1] in fs && r[|r| - 1] != "";
      }
    }
  }

  /** The first piece of a split, when there is one, is the text before the first tab. */
  lemma SplitTabFirst(s: string)
    requires SplitTab(s) != []
    ensures |SplitTab(s)[0]| <= |s|
    ensures SplitTab(s)[0] == s[..|SplitTab(s)[0]|]
    ensures |SplitTab(s)[0]| == |s| || s[|SplitTab(s)[0]|] == '\t'
    ensures '\t' !in SplitTab(s)[0]
  {
    FieldsFirst(s);
    FieldsJoin(s);
    if '\t' in s {
      assert SplitTab(s)[0] == Fields(s)[0];
      assert Fields(s)[0] in Fields(s);
    }
  }

  // ---------------------------------------------------------------- the table a file gives

  /** The pieces `initialize` splits a line into. */
  function Pieces(line: string): seq<string>
  {
    SplitTab(LineBody(line))
  }

  /** `pieces[0]` exists: the line is not made of tabs only. */
  predicate Readable(line: string)
  {
    Pieces(line) != []
  }

  /** A readable line's word, `pieces[0]`, and its weight: `pieces[1]` if there is one,
    * else 1. */
  function Entry(line: string): (string, Weight)
    requires Readable(line)
  {
    var pieces := Pieces(line);
    (pieces[0], if |pieces| > 1 then Parsed(pieces[1]) else One)
  }

  predicate AllReadable(lines: seq<string>)
  {
    forall i :: 0 <= i < |lines| ==> Readable(lines[i])
  }

  /** The word and weight of each line. */
  function Entries(lines: seq<string>): (es: seq<(string, Weight)>)
    requires AllReadable(lines)
    ensures |es| == |lines|
  {
    seq(|lines|, i requires 0 <= i < |lines| && AllReadable(lines) => Entry(lines[i]))
  }

  predicate DistinctWords(es: seq<(string, Weight)>)
  {
    forall i, j :: 0 <= i < j < |es| ==> es[i].0 != es[j].0
  }

  /** The word map after the entries are put in order: a later entry with the same word
    * replaces the earlier one. */
  function FeatureMap(es: seq<(string, Weight)>): map<string, Feature>
  {
    if es == [] then map[]
    else
      var last := es[|es| - 1];
      FeatureMap(es[..|es| - 1])[last.0 := Feature(|es| - 1, last.1)]
  }

  /** Each entry of the word map is the line of its index. */
  lemma {:induction false} FeatureMapEntry(es: seq<(string, Weight)>, k: string)
    requires k in FeatureMap(es)
    ensures 0 <= FeatureMap(es)[k].index < |es|
    ensures es[FeatureMap(es)[k].index] == (k, FeatureMap(es)[k].weight)
  {
    var init := es[..|es| - 1];
    if k != es[|es| - 1].0 {
      FeatureMapEntry(init, k);
    }
  }

  /** Each line's word is in the map, with the index of its last occurrence. */
  lemma {:induction false} FeatureMapHas(es: seq<(string, Weight)>, i: int)
    requires 0 <= i < |es|
    ensures es[i].0 in FeatureMap(es) && FeatureMap(es)[es[i].0].index >= i
  {
    var init := es[..|es| - 1];
    if i < |es| - 1 && es[i].0 != es[|es| - 1].0 {
      FeatureMapHas(init, i);
    }
  }

  /** The map has one entry per line exactly when no word repeats; otherwise fewer. */
  lemma {:induction false} FeatureMapSize(es: seq<(string, Weight)>)
    ensures |FeatureMap(es)| <= |es|
    ensures |FeatureMap(es)| == |es| <==> DistinctWords(es)
  {
    if es != [] {
      var init := es[..|es| - 1];
      var w := es[|es| - 1].0;
      FeatureMapSize(init);
      if w in FeatureMap(init) {
        FeatureMapEntry(init, w);
        var i := FeatureMap(init)[w].index;
        assert es[i].0 == w;
      } else {
        forall i | 0 <= i < |init|
          ensures init[i].0 != w
        {
          FeatureMapHas(init, i);
        }
        assert DistinctWords(es) <==> DistinctWords(init);
      }
    }
  }

  /** Without repeated words, line i's word has index i and line i's weight. */
  lemma FeatureMapDistinct(es: seq<(string, Weight)>, i: int)
    requires DistinctWords(es) && 0 <= i < |es|
    ensures es[i].0 in FeatureMap(es)
    ensures FeatureMap(es)[es[i].0] == Feature(i, es[i].1)
  {
    FeatureMapHas(es, i);
    FeatureMapEntry(es, es[i].0);
  }

  /** The first i keys each sit at their index of the reverse lookup. */
  predicate Stored(m: map<string, Feature>, keys: seq<string>, i: int, a: seq<Option<string>>)
    requires 0 <= i <= |keys|
  {
    forall p :: 0 <= p < i ==>
      keys[p] in m && 0 <= m[keys[p]].index < |a| && a[m[keys[p]].index] == Some(keys[p])
  }

  /** Once every word is stored, no index overflowed, so the words are distinct and each
    * line's word sits at the line's index. */
  lemma StoredAll(es: seq<(string, Weight)>, m: map<string, Feature>, keys: seq<string>,
                  a: seq<Option<string>>)
    requires m == FeatureMap(es) && |a| == |m|
    requires forall k :: k in keys <==> k in m
    requires Stored(m, keys, |keys|, a)
    ensures DistinctWords(es) && |a| == |es|
    ensures forall j :: 0 <= j < |es| ==> es[j].0 in m && a[j] == Some(es[j].0) && m[es[j].0].index == j
  {
    FeatureMapSize(es);
    if |es| > 0 {
      // the last line's word holds index |es| - 1, so the map has |es| entries
      FeatureMapHas(es, |es| - 1);
      FeatureMapEntry(es, es[|es| - 1].0);
      assert es[|es| - 1].0 in keys;
    }
    forall j | 0 <= j < |es|
      ensures es[j].0 in m && a[j] == Some(es[j].0) && m[es[j].0].index == j
    {
      FeatureMapDistinct(es, j);
      assert es[j].0 in keys;
    }
  }

  // ---------------------------------------------------------------- the table

  class Features {
    var word2feature: map<string, Feature>
    /** The reverse lookup: the word at each index. */
    var strings: array<Option<string>>

    /** The index map and the reverse lookup agree, one slot per word. */
    predicate Valid()
      reads this, strings
    {
      strings.Length == |word2feature| &&
      (forall k :: k in word2feature ==>
        0 <= word2feature[k].index < strings.Length && strings[word2feature[k].index] == Some(k)) &&
      (forall i :: 0 <= i < strings.Length ==>
        strings[i].Some? && strings[i].value in word2feature && word2feature[strings[i].value].index == i)
    }

    /** A table with no feature. */
    constructor()
      ensures word2feature == map[] && strings.Length == 0
      ensures Valid()
    {
      word2feature := map[];
      strings := new Option<string>[0];
    }

    /** `initialize(reader)` over the reader's lines. Line n's word gets index n; a line of
      * tabs only has no `pieces[0]`, and a repeated word leaves an index beyond the reverse
      * lookup array: both throw `ArrayIndexOutOfBoundsException`. */
    method Initialize(lines: seq<string>) returns (r: Result<()>)
      modifies this
      ensures r.Ok? <==> AllReadable(lines) && DistinctWords(Entries(lines))
      ensures r.Err? ==> r.error == "ArrayIndexOutOfBoundsException"
      ensures r.Ok? ==> word2feature == FeatureMap(Entries(lines)) && strings.Length == |lines| && Valid()
      ensures r.Ok? ==> forall i :: 0 <= i < |lines| ==> strings[i] == Some(Entries(lines)[i].0)
    {
      word2feature := map[];
      var ok, es := PutLines(lines);
      if !ok {
        return Err("ArrayIndexOutOfBoundsException");
      }
      r := FillStrings(es);
    }

    /** `initialize`'s loop over the lines: each line's word put with the running index
      * and its weight; false at the first line of tabs only. */
    method PutLines(lines: seq<string>) returns (ok: bool, ghost es: seq<(string, Weight)>)
      requires word2feature == map[]
      modifies this
      ensures ok <==> AllReadable(lines)
      ensures ok ==> es == Entries(lines) && word2feature == FeatureMap(es)
    {
      es := [];
      var index := 0;
      while index < |lines|
        invariant 0 <= index <= |lines| && |es| == index
        invariant forall i :: 0 <= i < index ==> Readable(lines[i]) && es[i] == Entry(lines[i])
        invariant word2feature == FeatureMap(es)
      {
        var readable, word, weight := ReadLine(lines[index]);
        if !readable {
          return false, es;
        }
        ghost var next := es + [(word, weight)];
        assert next[..index] == es && next[index] == Entry(lines[index]);
        assert forall i :: 0 <= i < index ==> next[i] == es[i];
        es := next;
        word2feature := word2feature[word := Feature(index, weight)];
        index := index + 1;
      }
      ok := true;
    }

    /** `initialize`'s loop body up to the `put`: line ends trimmed, the line split at
      * tabs, the word and the weight taken from the pieces. */
    static method ReadLine(line: string) returns (readable: bool, word: string, weight: Weight)
      ensures readable <==> Readable(line)
      ensures readable ==> Entry(line) == (word, weight)
    {
      var body := line;
      while |body| > 0 && IsLineEnd(body[|body| - 1])
        invariant LineBody(body) == LineBody(line)
      {
        body := body[..|body| - 1];
      }
      var pieces := SplitTab(body);
      if |pieces| == 0 {
        return false, "", One;
      }
      readable := true;
      word := pieces[0];
      weight := One;
      if |pieces| > 1 {
        weight := Parsed(pieces[1]);
      }
    }

    /** The reverse lookup loop of `initialize`: each word stored at its index. */
    method FillStrings(ghost es: seq<(string, Weight)>) returns (r: Result<()>)
      requires word2feature == FeatureMap(es)
      modifies this
      ensures word2feature == old(word2feature)
      ensures r.Ok? <==> DistinctWords(es)
      ensures r.Err? ==> r.error == "ArrayIndexOutOfBoundsException"
      ensures r.Ok? ==> strings.Length == |es| && Valid()
      ensures r.Ok? ==> forall i :: 0 <= i < |es| ==> strings[i] == Some(es[i].0)
    {
      FeatureMapSize(es);
      var m := word2feature;
      var a := new Option<string>[|m|](_ => None);
      strings := a;
      var keys := SomeOrder(m.Keys);
      var filled := FillArray(es, m, keys, a);
      if !filled {
        return Err("ArrayIndexOutOfBoundsException");
      }
      r := Ok(());
    }

    /** The loop itself, over the words in the map's iteration order: false at the first
      * index past the end of the array. */
    static method FillArray(ghost es: seq<(string, Weight)>, m: map<string, Feature>, keys: seq<string>,
                            a: array<Option<string>>) returns (filled: bool)
      requires m == FeatureMap(es) && a.Length == |m|
      requires forall k :: k in keys <==> k in m
      requires forall p, q :: 0 <= p < q < |keys| ==> keys[p] != keys[q]
      modifies a
      ensures filled <==> DistinctWords(es)
      ensures filled ==> a.Length == |es|
      ensures filled ==> forall k :: k in m ==> 0 <= m[k].index < a.Length && a[m[k].index] == Some(k)
      ensures filled ==>
        forall j :: 0 <= j < a.Length ==> a[j] == Some(es[j].0) && es[j].0 in m && m[es[j].0].index == j
    {
      var i := 0;
      while i < |keys|
        invariant 0 <= i <= |keys|
        invariant Stored(m, keys, i, a[..])
      {
        var idx := m[keys[i]].index;
        if idx >= a.Length {
          FeatureMapEntry(es, keys[i]);
          FeatureMapSize(es);
          assert |m| < |es|;
          return false;
        }
        StoreAt(es, m, keys, i, a);
        i := i + 1;
      }
      StoredAll(es, m, keys, a[..]);
      forall k | k in m
        ensures 0 <= m[k].index < a.Length && a[m[k].index] == Some(k)
      {
        var p :| 0 <= p < |keys| && keys[p] == k;
      }
      forall j | 0 <= j < a.Length
        ensures a[j] == Some(es[j].0) && es[j].0 in m && m[es[j].0].index == j
      {
        assert a[j] == a[..][j];
      }
      filled := true;
    }

    /** One step of the reverse lookup loop: the i-th word stored at its index, which no
      * earlier word holds. */
    static method StoreAt(ghost es: seq<(string, Weight)>, m: map<string, Feature>, keys: seq<string>,
                          i: int, a: array<Option<string>>)
      requires m == FeatureMap(es) && 0 <= i < |keys| && keys[i] in m
      requires forall p, q :: 0 <= p < q < |keys| ==> keys[p] != keys[q]
      requires m[keys[i]].index < a.Length && Stored(m, keys, i, a[..])
      modifies a
      ensures Stored(m, keys, i + 1, a[..])
    {
      var idx := m[keys[i]].index;
      FeatureMapEntry(es, keys[i]);
      forall p | 0 <= p < i
        ensures m[keys[p]].index != idx
      {
        FeatureMapEntry(es, keys[p]);
      }
      a[idx] := Some(keys[i]);
    }

    /** `getIndex(s)`: the word's index, -1 for an unknown word. */
    function GetIndex(s: string): (r: int)
      reads this, strings
      ensures s !in word2feature ==> r == -1
      ensures Valid() && s in word2feature ==> 0 <= r < strings.Length && strings[r] == Some(s)
    {
      if s in word2feature then word2feature[s].index else -1
    }

    /** `getWeight(s)`: the word's weight, 0 for an unknown word. */
    function GetWeight(s: string): (r: Weight)
      reads this
      ensures s !in word2feature ==> r == Zero
      ensures s in word2feature ==> r == word2feature[s].weight
    {
      if s in word2feature then word2feature[s].weight else Zero
    }

    /** `getFeatureText(i)`: the word at index i, absent outside the table. */
    function GetFeatureText(i: int): (r: Option<string>)
      reads this, strings
      ensures (i < 0 || i >= strings.Length) ==> r == None
      ensures Valid() ==> (r.Some? <==> 0 <= i < strings.Length)
      ensures Valid() && r.Some? ==> r.value in word2feature
    {
      if i < 0 || i >= strings.Length then None else strings[i]
    }

    /** `getWeight(i)`: the weight of the word at index i, 0 outside the table. */
    function GetWeightAt(i: int): (r: Weight)
      reads this, strings
      ensures (i < 0 || i >= strings.Length) ==> r == Zero
      ensures Valid() && 0 <= i < strings.Length ==>
        strings[i].Some? && r == word2feature[strings[i].value].weight
    {
      var text := GetFeatureText(i);
      if text.None? then Zero else GetWeight(text.value)
    }

    /** `getFeature(s)`. */
    function GetFeature(s: string): (r: Option<Feature>)
      reads this
      ensures r.Some? <==> s in word2feature
      ensures r.Some? ==> r.value.weight == GetWeight(s)
    {
      if s in word2feature then Some(word2feature[s]) else None
    }

    /** `size()`: the length of the reverse lookup, which is the number of words. */
    function Size(): (r: int)
      reads this, strings
      ensures Valid() ==> r == |word2feature|
    {
      strings.Length
    }

    /** The word at a word's index is the word, and the word at an index has that index. */
    lemma RoundTrip(s: string, i: int)
      requires Valid()
      ensures s in word2feature ==> GetFeatureText(GetIndex(s)) == Some(s)
      ensures GetFeatureText(i).Some? ==> GetIndex(GetFeatureText(i).value) == i
    {
      if GetFeatureText(i).Some? {
        var w := GetFeatureText(i).value;
        var j := word2feature[w].index;
        assert strings[j] == Some(w);
      }
    }
  }

  /** Reading a weight by index agrees with reading it by word: an unknown word has index
    * -1, where there is no text and the weight is 0. */
  lemma WeightByIndex(t: Features, s: string)
    requires t.Valid()
    ensures t.GetWeightAt(t.GetIndex(s)) == t.GetWeight(s)
  {
    if s in t.word2feature {
      t.RoundTrip(s, 0);
    }
  }

  /** A line without a tab is its own word, with weight 1; line ends are dropped. */
  lemma ReadWordExample()
    ensures Pieces("a\n") == ["a"] && Entry("a\n") == ("a", One)
  {
    assert LineBody("a\n") == "a";
  }

  /** A weight after a tab is kept as written. */
  lemma ReadWeightExample()
    ensures Pieces("a\t1") == ["a", "1"] && Entry("a\t1") == ("a", Parsed("1"))
  {
    assert "1"[1..] == "" && "\t1"[1..] == "1" && "a\t1"[1..] == "\t1";
    assert Fields("") == [""];
    assert ['1'] + "" == "1";
    assert Fields("1") == ["1"];
    assert Fields("\t1") == ["", "1"];
    assert ['a'] + "" == "a" && ["", "1"][1..] == ["1"];
    assert Fields("a\t1") == ["a", "1"];
  }

  /** A line of tabs only has no word, and a repeated word makes the file unreadable. */
  lemma UnreadableExample()
    ensures !Readable("\t\t")
    ensures AllReadable(["a", "a"]) && !DistinctWords(Entries(["a", "a"]))
  {
    SplitTabEmpty("\t\t");
    assert LineBody("a") == "a" && Pieces("a") == ["a"];
    assert AllReadable(["a", "a"]);
    var es := Entries(["a", "a"]);
    assert es[0].0 == "a" && es[1].0 == "a";
  }
}
