/**
 * StringCountsAnalysisCollector: gathers string counts from analyses and from other
 * collectors into one counter.
 */
module StringCountsCollectors {
  import opened Wrappers
  import opened JavaCollections

  /** The analyses a collector can be handed: only string counts are supported. */
  datatype Analysis =
    | StringCountAnalysis(entries: map<string, int>)
    | OtherAnalysis

  class StringCountsAnalysisCollector {
    var counts: map<string, int>

    constructor()
      ensures counts == map[]
    {
      counts := map[];
    }

    /** `add`: a new string counts 1, a known one is incremented. */
    method Add(s: string)
      modifies this
      ensures s !in old(counts) ==> counts == old(counts)[s := 1]
      ensures s in old(counts) ==> counts == old(counts)[s := old(counts)[s] + 1]
      ensures counts == Tally(old(counts), [s])
    {
      if s in counts {
        counts := counts[s := counts[s] + 1];
      } else {
        counts := counts[s := 1];
      }
    }

    /** `merge`: the other collector's counts are added key by key. Its entries are read
      * before they are added, so merging a collector into itself doubles every count. */
    method Merge(other: StringCountsAnalysisCollector)
      modifies this
      ensures counts == MergeCounts(old(counts), old(other.counts))
    {
      AddCounts(other.counts);
    }

    /** `addAnalysis`: a string-count analysis is added key by key; any other kind of
      * analysis is refused and the counts stay as they were. */
    method AddAnalysis(a: Analysis) returns (r: Result<()>)
      modifies this
      ensures r.IsOk() <==> a.StringCountAnalysis?
      ensures a.StringCountAnalysis? ==> counts == MergeCounts(old(counts), a.entries)
      ensures !a.StringCountAnalysis? ==> r == Err("Unsupported analysis type.") && counts == old(counts)
    {
      if a.StringCountAnalysis? {
        AddCounts(a.entries);
        r := Ok(());
      } else {
        r := Err("Unsupported analysis type.");
      }
    }

    /** The loop shared by `merge` and `addAnalysis`: every entry of m added to its key. */
    method AddCounts(m: map<string, int>)
      modifies this
      ensures counts == MergeCounts(old(counts), m)
    {
      ghost var base := counts;
      var keys := SomeOrder(m.Keys);
      var i := 0;
      while i < |keys|
        invariant 0 <= i <= |keys|
        invariant forall x :: x in counts <==> x in base || x in keys[..i]
        invariant forall x :: CountOf(counts, x) == CountOf(base, x) + Partial(m, keys[..i], x)
      {
        AddAt(m, keys, i, base);
        i := i + 1;
      }
      assert keys[..i] == keys;
      MergeCountsUnique(base, m, counts);
    }

    /** One step of `AddCounts`: the i-th key of m added in. */
    method AddAt(m: map<string, int>, keys: seq<string>, i: int, ghost base: map<string, int>)
      requires 0 <= i < |keys| && keys[i] in m
      requires forall p, q :: 0 <= p < q < |keys| ==> keys[p] != keys[q]
      requires forall x :: x in counts <==> x in base || x in keys[..i]
      requires forall x :: CountOf(counts, x) == CountOf(base, x) + Partial(m, keys[..i], x)
      modifies this
      ensures forall x :: x in counts <==> x in base || x in keys[..i + 1]
      ensures forall x :: CountOf(counts, x) == CountOf(base, x) + Partial(m, keys[..i + 1], x)
    {
      var k := keys[i];
      PartialStep(m, keys, i);
      if k !in counts {
        counts := counts[k := m[k]];
      } else {
        counts := counts[k := counts[k] + m[k]];
      }
    }
  }

  /** Adding strings one at a time counts their occurrences. */
  lemma {:induction false} AddCountsOccurrences(items: seq<string>, c: map<string, int>)
    ensures forall s :: CountOf(Tally(c, items), s) == CountOf(c, s) + multiset(items)[s]
    decreases |items|
  {
    if items != [] {
      AddCountsOccurrences(items[..|items| - 1], c);
      assert items == items[..|items| - 1] + [items[|items| - 1]];
    }
  }

  /** The counts after `add` is called on each item in turn, starting from c. */
  function Tally(c: map<string, int>, items: seq<string>): map<string, int>
    decreases |items|
  {
    if items == [] then c
    else
      var t := Tally(c, items[..|items| - 1]);
      var s := items[|items| - 1];
      if s in t then t[s := t[s] + 1] else t[s := 1]
  }
}
