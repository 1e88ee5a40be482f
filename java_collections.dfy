/**
 * The pieces of the Java collections library the modelled code relies on: the unspecified
 * iteration order of a HashMap or HashSet, and maps used as counters.
 */
module JavaCollections {

  /** The elements of a set, in the order a HashMap or HashSet iteration happens to
    * produce: any order, each element once. */
  method SomeOrder<T(==)>(s: set<T>) returns (r: seq<T>)
    ensures forall k :: k in r <==> k in s
    ensures |r| == |s|
    ensures forall i, j :: 0 <= i < j < |r| ==> r[i] != r[j]
  {
    r := [];
    var rest := s;
    while rest != {}
      invariant forall k :: k in r <==> k in s && k !in rest
      invariant rest <= s
      invariant |r| + |rest| == |s|
      invariant forall i, j :: 0 <= i < j < |r| ==> r[i] != r[j]
      decreases |rest|
    {
      var k :| k in rest;
      r := r + [k];
      rest := rest - {k};
    }
  }

  /** The count of k, 0 when k is absent. */
  function CountOf<K>(m: map<K, int>, k: K): int
  {
    if k in m then m[k] else 0
  }

  /** Two counters added key by key; a key of either one is a key of the sum. */
  function MergeCounts<K(!new)>(a: map<K, int>, b: map<K, int>): (r: map<K, int>)
    ensures r.Keys == a.Keys + b.Keys
    ensures forall k :: CountOf(r, k) == CountOf(a, k) + CountOf(b, k)
  {
    map k | k in a.Keys + b.Keys :: CountOf(a, k) + CountOf(b, k)
  }

  /** The count in m of x once the keys in `seen` have been merged. */
  function Partial<K>(m: map<K, int>, seen: seq<K>, x: K): int
  {
    if x in seen then CountOf(m, x) else 0
  }

  lemma {:induction false} PartialStep<K>(m: map<K, int>, keys: seq<K>, i: int)
    requires 0 <= i < |keys|
    requires forall p, q :: 0 <= p < q < |keys| ==> keys[p] != keys[q]
    ensures keys[..i + 1] == keys[..i] + [keys[i]]
    ensures Partial(m, keys[..i], keys[i]) == 0
    ensures forall x :: x != keys[i] ==> Partial(m, keys[..i + 1], x) == Partial(m, keys[..i], x)
    ensures Partial(m, keys[..i + 1], keys[i]) == CountOf(m, keys[i])
  {
    assert keys[..i + 1] == keys[..i] + [keys[i]];
  }

  /** A counter with the keys and counts of the sum is the sum. */
  lemma {:induction false} MergeCountsUnique<K(!new)>(a: map<K, int>, b: map<K, int>, r: map<K, int>)
    requires r.Keys == a.Keys + b.Keys
    requires forall k :: CountOf(r, k) == CountOf(a, k) + CountOf(b, k)
    ensures r == MergeCounts(a, b)
  {
    var m := MergeCounts(a, b);
    forall k | k in r
      ensures r[k] == m[k]
    {
      assert CountOf(r, k) == CountOf(m, k);
    }
  }

  /** values written n times over, in order. */
  function Repeated<T>(values: seq<T>, n: int): (r: seq<T>)
    decreases n
  {
    if n <= 0 then [] else Repeated(values, n - 1) + values
  }

  /** n rounds hold n times as many items. */
  lemma {:induction false} RepeatedLength<T>(values: seq<T>, n: int)
    ensures |Repeated(values, n)| == if n <= 0 then 0 else n * |values|
    decreases n
  {
    if n > 0 {
      RepeatedLength(values, n - 1);
      assert n * |values| == (n - 1) * |values| + |values|;
    }
  }

  /** a rounds followed by b rounds are a + b rounds. */
  lemma {:induction false} RepeatedSplit<T>(values: seq<T>, a: nat, b: nat)
    ensures Repeated(values, a + b) == Repeated(values, a) + Repeated(values, b)
    decreases b
  {
    if b > 0 {
      RepeatedSplit(values, a, b - 1);
      assert Repeated(values, a + b) == Repeated(values, a + b - 1) + values;
    }
  }

  /** Merging counters is commutative. */
  lemma MergeCommutes<K(!new)>(a: map<K, int>, b: map<K, int>)
    ensures MergeCounts(a, b) == MergeCounts(b, a)
  {
  }

  /** Merging with an empty counter changes nothing. */
  lemma MergeEmpty<K(!new)>(a: map<K, int>)
    ensures MergeCounts(a, map[]) == a
  {
  }
}
