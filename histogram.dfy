/**
 * Histogram: a counter from keys to occurrence counts. Keys are strings here so that `sort`
 * can break ties by the keys' natural (lexicographic) order. A missing key counts 0.
 */
module Histograms {
  import opened JavaText
  import opened JavaCollections

  /** The order `sort` puts keys in: higher count first, ties by key order. */
  predicate Before(c: map<string, int>, x: string, y: string)
  {
    CountOf(c, x) > CountOf(c, y) || (CountOf(c, x) == CountOf(c, y) && LexLe(x, y))
  }

  lemma BeforeTotal(c: map<string, int>, x: string, y: string)
    ensures Before(c, x, y) || Before(c, y, x)
  {
    LexLeTotal(x, y);
  }

  lemma BeforeTransitive(c: map<string, int>, x: string, y: string, z: string)
    requires Before(c, x, y) && Before(c, y, z)
    ensures Before(c, x, z)
  {
    if CountOf(c, x) == CountOf(c, y) == CountOf(c, z) {
      LexLeTransitive(x, y, z);
    }
  }

  /** Keys in `sort` order. */
  predicate SortedByCount(c: map<string, int>, r: seq<string>)
  {
    forall i, j :: 0 <= i < j < |r| ==> Before(c, r[i], r[j])
  }

  /** The keys whose count is the largest, provided it is not negative (the scan starts
    * with a maximum of 0). */
  predicate IsMaxKey(c: map<string, int>, k: string)
  {
    k in c && c[k] >= 0 && forall j :: j in c ==> c[j] <= c[k]
  }

  /** `getMaxValues` as written: scanning the entries in `order` with running maximum m,
    * every key whose count is at least m is appended and m is raised to it. The list is
    * never cleared, because the test for a strictly larger count comes after m was
    * already raised. */
  function MaxScanAsWritten(c: map<string, int>, order: seq<string>, m: int): (r: seq<string>)
    requires forall k :: k in order ==> k in c
  {
    if order == [] then []
    else if c[order[0]] >= m then [order[0]] + MaxScanAsWritten(c, order[1..], c[order[0]])
    else MaxScanAsWritten(c, order[1..], m)
  }

  /** The as-written scan can return a key whose count is not the maximum: with a=1, b=2
    * visited in that order, both are returned. */
  lemma MaxScanCounterexample()
    ensures var c := map["a" := 1, "b" := 2];
      MaxScanAsWritten(c, ["a", "b"], 0) == ["a", "b"] && !IsMaxKey(c, "a")
  {
    var c := map["a" := 1, "b" := 2];
    assert ["a", "b"][1..] == ["b"];
    assert "b" in c && c["b"] > c["a"];
  }

  class Histogram {
    var counts: map<string, int>

    constructor()
      ensures counts == map[]
    {
      counts := map[];
    }

    /** `Histogram(map)`: starts from the given counts. */
    constructor FromMap(m: map<string, int>)
      ensures counts == m
    {
      counts := m;
    }

    /** `add`: returns the previous count (0 when absent) and increments it. */
    method Add(it: string) returns (prv: int)
      modifies this
      ensures prv == CountOf(old(counts), it)
      ensures counts == old(counts)[it := prv + 1]
    {
      prv := CountOf(counts, it);
      counts := counts[it := prv + 1];
    }

    /** `addAll`: each key's count grows by its number of occurrences among the items. */
    method AddAll(items: seq<string>)
      modifies this
      ensures counts.Keys == old(counts).Keys + set x | x in items
      ensures forall k :: CountOf(counts, k) == CountOf(old(counts), k) + multiset(items)[k]
    {
      ghost var base := counts;
      var i := 0;
      while i < |items|
        invariant 0 <= i <= |items|
        invariant counts.Keys == base.Keys + set x | x in items[..i]
        invariant forall k :: CountOf(counts, k) == CountOf(base, k) + multiset(items[..i])[k]
      {
        assert items[..i + 1] == items[..i] + [items[i]];
        var _ := Add(items[i]);
        i := i + 1;
      }
      assert items[..i] == items;
    }

    /** `merge`: shared keys have their counts added, new keys are copied. The other
      * histogram's entries are read before they are added, so merging a histogram into
      * itself doubles every count. */
    method Merge(other: Histogram)
      modifies this
      ensures counts == MergeCounts(old(counts), old(other.counts))
    {
      ghost var base := counts;
      var theirs := other.counts;
      var keys := SomeOrder(theirs.Keys);
      var i := 0;
      while i < |keys|
        invariant 0 <= i <= |keys|
        invariant forall x :: x in counts <==> x in base || x in keys[..i]
        invariant forall x :: CountOf(counts, x) == CountOf(base, x) + Partial(theirs, keys[..i], x)
      {
        MergeAt(theirs, keys, i, base);
        i := i + 1;
      }
      assert keys[..i] == keys;
      MergeCountsUnique(base, theirs, counts);
    }

    /** The body of `merge`'s loop: the i-th key of the other histogram added in. */
    method MergeAt(theirs: map<string, int>, keys: seq<string>, i: int, ghost base: map<string, int>)
      requires 0 <= i < |keys| && keys[i] in theirs
      requires forall p, q :: 0 <= p < q < |keys| ==> keys[p] != keys[q]
      requires forall x :: x in counts <==> x in base || x in keys[..i]
      requires forall x :: CountOf(counts, x) == CountOf(base, x) + Partial(theirs, keys[..i], x)
      modifies this
      ensures forall x :: x in counts <==> x in base || x in keys[..i + 1]
      ensures forall x :: CountOf(counts, x) == CountOf(base, x) + Partial(theirs, keys[..i + 1], x)
    {
      var k := keys[i];
      PartialStep(theirs, keys, i);
      if k in counts {
        counts := counts[k := counts[k] + theirs[k]];
      } else {
        counts := counts[k := theirs[k]];
      }
    }

    /** `getMaxValues` as written: every key with the largest count is returned, together
      * with whichever keys happened to raise the running maximum before it. */
    method GetMaxValues() returns (values: seq<string>, ghost order: seq<string>)
      ensures forall k :: k in order <==> k in counts
      ensures values == MaxScanAsWritten(counts, order, 0)
      ensures forall k :: k in values ==> k in counts
      ensures forall k :: IsMaxKey(counts, k) ==> k in values
    {
      var ord := SomeOrder(counts.Keys);
      order := ord;
      values := [];
      var max := 0;
      var i := 0;
      while i < |ord|
        invariant 0 <= i <= |ord|
        invariant values + MaxScanAsWritten(counts, ord[i..], max) == MaxScanAsWritten(counts, ord, 0)
        invariant forall k :: k in values ==> k in counts
        invariant max == 0 || max in counts.Values
        invariant forall k :: k in ord[..i] && IsMaxKey(counts, k) ==> k in values
      {
        var k := ord[i];
        assert ord[i..][1..] == ord[i + 1..];
        assert ord[..i + 1] == ord[..i] + [k];
        if counts[k] >= max {
          max := counts[k];
          values := values + [k];
        }
        i := i + 1;
      }
      assert ord[..i] == ord;
    }

    /** `getMaxValues` as evidently intended: the list is cleared whenever a strictly larger
      * count appears, so exactly the keys with the largest (non-negative) count remain. */
    method MaxValues() returns (values: seq<string>)
      ensures forall k :: k in values <==> IsMaxKey(counts, k)
    {
      var order := SomeOrder(counts.Keys);
      values := [];
      var max := 0;
      var i := 0;
      while i < |order|
        invariant 0 <= i <= |order|
        invariant max >= 0
        invariant forall k :: k in order[..i] ==> counts[k] <= max
        invariant max == 0 || exists j :: j in order[..i] && counts[j] == max
        invariant forall k :: k in values <==> k in order[..i] && counts[k] == max
      {
        var k := order[i];
        assert order[..i + 1] == order[..i] + [k];
        if counts[k] > max {
          max := counts[k];
          values := [k];
        } else if counts[k] == max {
          values := values + [k];
        }
        i := i + 1;
      }
      assert order[..i] == order;
    }

    /** `sort()`: the keys by descending count, ties by key order; each key exactly once. */
    method Sort() returns (r: seq<string>)
      ensures |r| == |counts|
      ensures forall k :: k in r <==> k in counts
      ensures SortedByCount(counts, r)
    {
      var keys := SomeOrder(counts.Keys);
      var all := new string[|keys|](i requires 0 <= i < |keys| => keys[i]);
      assert all[..] == keys;
      SortInPlace(counts, all);
      r := all[..];
      forall k ensures k in r <==> k in counts {
        assert k in r <==> k in multiset(r);
        assert k in keys <==> k in multiset(keys);
      }
    }
  }

  /** The `Arrays.sort` call of `sort`: the keys rearranged into `Before` order. Keys are
    * distinct, so `Before` is a strict order on them. */
  method SortInPlace(c: map<string, int>, a: array<string>)
    modifies a
    ensures multiset(a[..]) == multiset(old(a[..]))
    ensures SortedByCount(c, a[..])
  {
    if a.Length == 0 {
      return;
    }
    ghost var orig := a[..];
    var i := 1;
    while i < a.Length
      invariant 1 <= i <= a.Length
      invariant multiset(a[..]) == multiset(orig)
      invariant forall p, q :: 0 <= p < q < i ==> Before(c, a[p], a[q])
    {
      InsertAt(c, a, i);
      i := i + 1;
    }
  }

  /** One insertion step: a[i] moves left past every key it comes before. */
  method InsertAt(c: map<string, int>, a: array<string>, i: int)
    requires 0 < i < a.Length
    requires forall p, q :: 0 <= p < q < i ==> Before(c, a[p], a[q])
    modifies a
    ensures multiset(a[..]) == multiset(old(a[..]))
    ensures forall p, q :: 0 <= p < q <= i ==> Before(c, a[p], a[q])
  {
    ghost var orig := a[..];
    var j := i;
    while j > 0 && !Before(c, a[j - 1], a[j])
      invariant 0 <= j <= i
      invariant multiset(a[..]) == multiset(orig)
      invariant forall p, q :: 0 <= p < q <= i && q != j ==> Before(c, a[p], a[q])
    {
      ghost var s := a[..];
      SwapStep(c, s, j, i);
      a[j - 1], a[j] := a[j], a[j - 1];
      assert a[..] == s[j - 1 := s[j]][j := s[j - 1]];
      j := j - 1;
    }
    forall p | 0 <= p < j
      ensures Before(c, a[p], a[j])
    {
      if p < j - 1 {
        BeforeTransitive(c, a[p], a[j - 1], a[j]);
      }
    }
  }

  /** Swapping a key past one it does not come after keeps every other pair in order and
    * the multiset of keys unchanged. */
  lemma SwapStep(c: map<string, int>, s: seq<string>, j: int, i: int)
    requires 0 < j <= i < |s|
    requires forall p, q :: 0 <= p < q <= i && q != j ==> Before(c, s[p], s[q])
    requires !Before(c, s[j - 1], s[j])
    ensures var t := s[j - 1 := s[j]][j := s[j - 1]];
      multiset(t) == multiset(s)
      && forall p, q :: 0 <= p < q <= i && q != j - 1 ==> Before(c, t[p], t[q])
  {
    BeforeTotal(c, s[j - 1], s[j]);
    var t := s[j - 1 := s[j]][j := s[j - 1]];
    assert t == s[..j - 1] + [s[j], s[j - 1]] + s[j + 1..];
    assert s == s[..j - 1] + [s[j - 1], s[j]] + s[j + 1..];
  }
}
