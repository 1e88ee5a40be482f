/**
 * CollectionUtil: static helpers over collections - joining, building a map from
 * key/value pairs, slicing, counting and comparing contents, repetition, intersection and
 * filtering in place.
 *
 * A Java `null` collection is `None`; an exception is `Err`. A Java array is a sequence;
 * the collections a helper changes in place are the classes `JavaList` and `JavaSet`.
 */
module CollectionUtils {
  import opened Wrappers
  import opened JavaText
  import opened JavaCollections

  /** A List whose contents a helper changes in place. */
  class JavaList<T> {
    var elements: seq<T>

    constructor(xs: seq<T>)
      ensures elements == xs
    {
      elements := xs;
    }
  }

  /** A Set whose contents a helper changes in place. */
  class JavaSet<T(==)> {
    var elements: set<T>

    constructor(xs: set<T>)
      ensures elements == xs
    {
      elements := xs;
    }
  }

  // ---------------------------------------------------------------- join

  /** `join(sep, Collection)`: null gives null; otherwise the elements' texts with sep
    * between consecutive ones (none for one element, "" for none). */
  method JoinCollection(sep: string, c: Option<seq<string>>) returns (r: Option<string>)
    ensures c.None? <==> r.None?
    ensures c.Some? ==> r == Some(Join(sep, c.value))
  {
    if c.None? {
      return None;
    }
    var xs := c.value;
    if |xs| == 1 {
      return Some(xs[0]);
    }
    if |xs| == 0 {
      return Some("");
    }
    var sb := JoinLoop(sep, xs);
    r := Some(sb);
  }

  /** `join(sep, Object...)`: a null or empty array gives "", otherwise as above. */
  method JoinArray(sep: string, ol: Option<seq<string>>) returns (r: string)
    ensures ol.None? ==> r == ""
    ensures ol.Some? ==> r == Join(sep, ol.value)
  {
    if ol.None? || |ol.value| == 0 {
      return "";
    }
    if |ol.value| == 1 {
      return ol.value[0];
    }
    r := JoinLoop(sep, ol.value);
  }

  /** The StringBuilder loop both `join`s share: the separator is written before every
    * element but the first. */
  method JoinLoop(sep: string, xs: seq<string>) returns (sb: string)
    ensures sb == Join(sep, xs)
  {
    sb := "";
    var s := "";
    var k := 0;
    while k < |xs|
      invariant 0 <= k <= |xs|
      invariant sb == Join(sep, xs[..k])
      invariant s == if k == 0 then "" else sep
    {
      if k > 0 {
        JoinSnoc(sep, xs[..k], xs[k]);
      }
      assert xs[..k + 1] == xs[..k] + [xs[k]];
      sb := sb + s + xs[k];
      s := sep;
      k := k + 1;
    }
    assert xs[..k] == xs;
  }

  /** The total length of the parts. */
  function TotalLength(parts: seq<string>): nat
  {
    if parts == [] then 0 else TotalLength(parts[..|parts| - 1]) + |parts[|parts| - 1]|
  }

  /** A join is as long as its parts together plus one separator between each two. */
  lemma {:induction false} JoinLength(sep: string, parts: seq<string>)
    requires parts != []
    ensures |Join(sep, parts)| == TotalLength(parts) + (|parts| - 1) * |sep|
    decreases |parts|
  {
    if |parts| > 1 {
      var init := parts[..|parts| - 1];
      var last := parts[|parts| - 1];
      assert parts == init + [last];
      JoinSnoc(sep, init, last);
      JoinLength(sep, init);
      assert (|parts| - 1) * |sep| == (|init| - 1) * |sep| + |sep|;
    }
  }

  // ---------------------------------------------------------------- hashMap

  /** The map built by putting key/value pairs in order: a later pair for the same key
    * wins. */
  function PairsMap(kv: seq<string>): map<string, string>
    requires |kv| % 2 == 0
    decreases |kv|
  {
    if kv == [] then map[]
    else PairsMap(kv[..|kv| - 2])[kv[|kv| - 2] := kv[|kv| - 1]]
  }

  /** `hashMap(keyVals...)`: keys at even positions, each followed by its value; an odd
    * number of arguments is refused. */
  method HashMap(keyVals: seq<string>) returns (r: Result<map<string, string>>)
    ensures r.Err? <==> |keyVals| % 2 == 1
    ensures r.Err? ==> r.error == "Must supply even number of arguments: " + IntToString(|keyVals|)
    ensures r.Ok? ==> r.value == PairsMap(keyVals)
  {
    if |keyVals| % 2 == 1 {
      return Err("Must supply even number of arguments: " + IntToString(|keyVals|));
    }
    var m: map<string, string> := map[];
    var i := 0;
    while i < |keyVals|
      invariant 0 <= i <= |keyVals| && i % 2 == 0
      invariant m == PairsMap(keyVals[..i])
    {
      assert keyVals[..i + 2][..i] == keyVals[..i];
      m := m[keyVals[i] := keyVals[i + 1]];
      i := i + 2;
    }
    assert keyVals[..i] == keyVals;
    r := Ok(m);
  }

  /** The keys of the map are exactly the arguments at even positions. */
  lemma {:induction false} PairsMapKeys(kv: seq<string>, k: string)
    requires |kv| % 2 == 0
    ensures k in PairsMap(kv) <==> exists i :: 0 <= i < |kv| && i % 2 == 0 && kv[i] == k
    decreases |kv|
  {
    if kv != [] {
      var init := kv[..|kv| - 2];
      PairsMapKeys(init, k);
      if k in PairsMap(init) {
        var i :| 0 <= i < |init| && i % 2 == 0 && init[i] == k;
        assert kv[i] == k;
      }
      if exists i :: 0 <= i < |kv| && i % 2 == 0 && kv[i] == k {
        var i :| 0 <= i < |kv| && i % 2 == 0 && kv[i] == k;
        if i < |kv| - 2 {
          assert init[i] == k;
        }
      }
    }
  }

  /** A key maps to the value after its last occurrence as a key. */
  lemma {:induction false} PairsMapLast(kv: seq<string>, i: int)
    requires |kv| % 2 == 0 && 0 <= i < |kv| && i % 2 == 0
    requires forall j :: i < j < |kv| && j % 2 == 0 ==> kv[j] != kv[i]
    ensures kv[i] in PairsMap(kv) && PairsMap(kv)[kv[i]] == kv[i + 1]
    decreases |kv|
  {
    var init := kv[..|kv| - 2];
    if i < |kv| - 2 {
      assert forall j :: i < j < |init| && j % 2 == 0 ==> init[j] != init[i] by {
        forall j | i < j < |init| && j % 2 == 0
          ensures init[j] != init[i]
        {
          assert init[j] == kv[j];
        }
      }
      PairsMapLast(init, i);
      assert kv[|kv| - 2] != kv[i];
    }
  }

  // ---------------------------------------------------------------- slice

  /** `slice(array, off, len)`: a copy of at most len elements from off on. The length
    * min(len, length - off) must not be negative and off must be an index. */
  function Slice<T>(a: seq<T>, off: int, len: int): (r: Result<seq<T>>)
    ensures r.Ok? <==> 0 <= off <= |a| && 0 <= len
    ensures r.Ok? ==> |r.value| == (if len < |a| - off then len else |a| - off)
    ensures r.Ok? ==> forall i :: 0 <= i < |r.value| ==> r.value[i] == a[off + i]
  {
    var n := if len < |a| - off then len else |a| - off;
    if n < 0 then Err("NegativeArraySizeException")
    else if off < 0 then Err("ArrayIndexOutOfBoundsException")
    else Ok(a[off..off + n])
  }

  /** `slice(array, off)`: everything from off on. */
  function SliceFrom<T>(a: seq<T>, off: int): (r: Result<seq<T>>)
    ensures r.Ok? <==> 0 <= off <= |a|
    ensures r.Ok? ==> r.value == a[off..]
  {
    Slice(a, off, |a| - off)
  }

  // ---------------------------------------------------------------- countIntersection

  /** The number of positions of xs holding an element of ys. */
  function CountIn<T(==)>(xs: seq<T>, ys: seq<T>): nat
    decreases |xs|
  {
    if xs == [] then 0
    else CountIn(xs[..|xs| - 1], ys) + (if xs[|xs| - 1] in ys then 1 else 0)
  }

  /** What `countIntersection` counts: the elements of the smaller collection (the first
    * one on a tie) that the other contains; 0 when either is null. */
  function IntersectionCount<T(==)>(s1: Option<seq<T>>, s2: Option<seq<T>>): nat
  {
    if s1.None? || s2.None? then 0
    else if |s2.value| < |s1.value| then CountIn(s2.value, s1.value)
    else CountIn(s1.value, s2.value)
  }

  /** `countIntersection(s1, s2)`. */
  method CountIntersection<T(==)>(s1: Option<seq<T>>, s2: Option<seq<T>>) returns (n: int)
    ensures n == IntersectionCount(s1, s2)
  {
    if s1.None? || s2.None? {
      return 0;
    }
    var a, b := s1.value, s2.value;
    if |b| < |a| {
      a, b := b, a;
    }
    n := 0;
    var k := 0;
    while k < |a|
      invariant 0 <= k <= |a|
      invariant n == CountIn(a[..k], b)
    {
      assert a[..k + 1][..k] == a[..k];
      if a[k] in b {
        n := n + 1;
      }
      k := k + 1;
    }
    assert a[..k] == a;
  }

  predicate Distinct<T(==)>(xs: seq<T>)
  {
    forall i, j :: 0 <= i < j < |xs| ==> xs[i] != xs[j]
  }

  function Elems<T>(xs: seq<T>): set<T>
  {
    set x | x in xs
  }

  /** Over distinct elements the count is the size of the intersection. */
  lemma {:induction false} CountInDistinct<T>(xs: seq<T>, ys: seq<T>)
    requires Distinct(xs)
    ensures CountIn(xs, ys) == |Elems(xs) * Elems(ys)|
    decreases |xs|
  {
    if xs != [] {
      var init := xs[..|xs| - 1];
      var last := xs[|xs| - 1];
      DistinctSnoc(xs);
      CountInDistinct(init, ys);
      IntersectionSnoc(init, last, ys);
      assert init + [last] == xs;
    }
  }

  /** Dropping the last element keeps a sequence distinct, and that element is not among
    * the others. */
  lemma DistinctSnoc<T>(xs: seq<T>)
    requires Distinct(xs) && xs != []
    ensures Distinct(xs[..|xs| - 1]) && xs[|xs| - 1] !in Elems(xs[..|xs| - 1])
  {
  }

  /** Appending a new element grows the intersection by one exactly when the other side
    * holds it. */
  lemma IntersectionSnoc<T>(init: seq<T>, last: T, ys: seq<T>)
    requires last !in Elems(init)
    ensures |Elems(init + [last]) * Elems(ys)| ==
      |Elems(init) * Elems(ys)| + (if last in ys then 1 else 0)
  {
    var common := Elems(init) * Elems(ys);
    assert Elems(init + [last]) == Elems(init) + {last};
    if last in ys {
      assert Elems(init + [last]) * Elems(ys) == common + {last};
    } else {
      assert Elems(init + [last]) * Elems(ys) == common;
    }
  }

  /** For collections without repeated elements, such as sets, the count is symmetric
    * and is the size of the intersection. */
  lemma CountIntersectionSymmetric<T>(s1: seq<T>, s2: seq<T>)
    requires Distinct(s1) && Distinct(s2)
    ensures IntersectionCount(Some(s1), Some(s2)) == IntersectionCount(Some(s2), Some(s1))
    ensures IntersectionCount(Some(s1), Some(s2)) == |Elems(s1) * Elems(s2)|
  {
    CountInDistinct(s1, s2);
    CountInDistinct(s2, s1);
    assert Elems(s1) * Elems(s2) == Elems(s2) * Elems(s1);
  }

  /** With a repeated element the count depends on the argument order. */
  lemma CountIntersectionRepeats()
    ensures IntersectionCount(Some([1, 1]), Some([1, 2])) == 2
    ensures IntersectionCount(Some([1, 2]), Some([1, 1])) == 1
  {
    assert [1, 1][..1] == [1] && [1, 2][..1] == [1] && [1][..0] == [];
    assert CountIn([1], [1, 2]) == 1;
    assert CountIn([1], [1, 1]) == 1;
  }

  // ---------------------------------------------------------------- hasComplement

  /** `hasComplement(c1, c2)`: some element is in one collection but not the other;
    * false when either is null. */
  method HasComplement<T(==)>(c1: Option<seq<T>>, c2: Option<seq<T>>) returns (b: bool)
    ensures b <==> c1.Some? && c2.Some? && Elems(c1.value) != Elems(c2.value)
  {
    if c1.None? || c2.None? {
      return false;
    }
    var missing := FirstMissing(c1.value, c2.value);
    if missing {
      ghost var x :| x in c1.value && x !in c2.value;
      assert x in Elems(c1.value);
      return true;
    }
    missing := FirstMissing(c2.value, c1.value);
    b := missing;
    if b {
      ghost var x :| x in c2.value && x !in c1.value;
      assert x in Elems(c2.value);
    } else {
      assert Elems(c1.value) == Elems(c2.value);
    }
  }

  /** One loop of `hasComplement`: is some element of xs absent from ys? */
  method FirstMissing<T(==)>(xs: seq<T>, ys: seq<T>) returns (found: bool)
    ensures found <==> exists x :: x in xs && x !in ys
    ensures !found ==> Elems(xs) <= Elems(ys)
  {
    var k := 0;
    while k < |xs|
      invariant 0 <= k <= |xs|
      invariant forall i :: 0 <= i < k ==> xs[i] in ys
    {
      if xs[k] !in ys {
        return true;
      }
      k := k + 1;
    }
    found := false;
  }

  // ---------------------------------------------------------------- repeat

  /** `repeat(n, into, items...)`: n rounds of the items appended to the list. */
  method RepeatInto<T>(n: int, into: JavaList<T>, items: seq<T>)
    modifies into
    ensures into.elements == old(into.elements) + Repeated(items, n)
  {
    var i := 0;
    while i < n
      invariant 0 <= i <= if n < 0 then 0 else n
      invariant into.elements == old(into.elements) + Repeated(items, i)
    {
      AddAll(into, items);
      assert Repeated(items, i + 1) == Repeated(items, i) + items;
      i := i + 1;
    }
    if n < 0 {
      assert Repeated(items, n) == Repeated(items, i);
    }
  }

  /** One round of `repeat`: each item added at the end of the list, in order. */
  method AddAll<T>(into: JavaList<T>, items: seq<T>)
    modifies into
    ensures into.elements == old(into.elements) + items
  {
    var k := 0;
    while k < |items|
      invariant 0 <= k <= |items|
      invariant into.elements == old(into.elements) + items[..k]
    {
      assert items[..k + 1] == items[..k] + [items[k]];
      into.elements := into.elements + [items[k]];
      k := k + 1;
    }
    assert items[..k] == items;
  }

  /** `repeat(n, items...)`: a new list with room for n * |items| elements, which Java
    * refuses when negative, filled with n rounds of the items. */
  method Repeat<T>(n: int, items: seq<T>) returns (r: Result<seq<T>>)
    ensures r.Err? <==> n * |items| < 0
    ensures r.Ok? ==> r.value == Repeated(items, n)
  {
    if n * |items| < 0 {
      return Err("Illegal Capacity: " + IntToString(n * |items|));
    }
    var into := new JavaList([]);
    RepeatInto(n, into, items);
    r := Ok(into.elements);
  }

  // ---------------------------------------------------------------- intersectInto

  /** The elements kept by `intersectInto`: those of into or the first collection that
    * every later collection contains; into unchanged when there are none. */
  function Intersected<T(!new)>(into: set<T>, from: seq<set<T>>): (r: set<T>)
    ensures from == [] ==> r == into
    ensures forall x :: x in r <==>
      (from == [] && x in into) ||
      (from != [] && (x in into || x in from[0]) && forall i :: 1 <= i < |from| ==> x in from[i])
    decreases |from|
  {
    if from == [] then into
    else if |from| == 1 then into + from[0]
    else Intersected(into, from[..|from| - 1]) * from[|from| - 1]
  }

  /** `intersectInto(into, from...)`: into gains the first collection, then keeps only
    * what each later one contains. */
  method IntersectInto<T(!new)>(into: JavaSet<T>, from: seq<set<T>>)
    modifies into
    ensures into.elements == Intersected(old(into.elements), from)
  {
    if |from| > 0 {
      into.elements := into.elements + from[0];
      var i := 1;
      while i < |from|
        invariant 1 <= i <= |from|
        invariant into.elements == Intersected(old(into.elements), from[..i])
      {
        assert from[..i + 1][..i] == from[..i];
        into.elements := into.elements * from[i];
        i := i + 1;
      }
      assert from[..i] == from;
    }
  }

  /** Starting from an empty set gives the intersection of all the collections. */
  lemma IntersectAll<T(!new)>(from: seq<set<T>>, x: T)
    requires from != []
    ensures x in Intersected({}, from) <==> forall i :: 0 <= i < |from| ==> x in from[i]
  {
    if forall i :: 1 <= i < |from| ==> x in from[i] {
      if x in from[0] {
        assert forall i :: 0 <= i < |from| ==> x in from[i];
      }
    }
  }

  // ---------------------------------------------------------------- filter

  /** The elements that match, in their order. */
  function Filtered<T>(s: seq<T>, keep: T -> bool): (r: seq<T>)
    ensures |r| <= |s|
    decreases |s|
  {
    if s == [] then []
    else Filtered(s[..|s| - 1], keep) + (if keep(s[|s| - 1]) then [s[|s| - 1]] else [])
  }

  /** Each element keeps its number of occurrences if it matches and loses them all if
    * not. */
  lemma {:induction false} FilteredCounts<T>(s: seq<T>, keep: T -> bool, x: T)
    ensures multiset(Filtered(s, keep))[x] == if keep(x) then multiset(s)[x] else 0
    decreases |s|
  {
    if s != [] {
      FilteredCounts(s[..|s| - 1], keep, x);
      assert s == s[..|s| - 1] + [s[|s| - 1]];
    }
  }

  /** One step of the iterator loop: the element at the cursor is orig[k]; keeping it
    * moves the cursor, removing it leaves the cursor where it is. */
  lemma FilterLoopStep<T>(orig: seq<T>, k: int, keep: T -> bool, cur: seq<T>, i: int)
    requires 0 <= k < |orig| && cur == Filtered(orig[..k], keep) + orig[k..]
    requires i == |Filtered(orig[..k], keep)| && i < |cur|
    ensures cur[i] == orig[k]
    ensures keep(orig[k]) ==>
      cur == Filtered(orig[..k + 1], keep) + orig[k + 1..] && i + 1 == |Filtered(orig[..k + 1], keep)|
    ensures !keep(orig[k]) ==>
      cur[..i] + cur[i + 1..] == Filtered(orig[..k + 1], keep) + orig[k + 1..]
      && i == |Filtered(orig[..k + 1], keep)|
  {
    var done := Filtered(orig[..k], keep);
    FilteredStep(orig, k, keep);
    assert cur == done + ([orig[k]] + orig[k + 1..]);
    if !keep(orig[k]) {
      assert cur[..i] == done;
      assert cur[i + 1..] == orig[k + 1..];
    }
  }

  lemma FilteredStep<T>(s: seq<T>, k: int, keep: T -> bool)
    requires 0 <= k < |s|
    ensures Filtered(s[..k + 1], keep) == Filtered(s[..k], keep) + (if keep(s[k]) then [s[k]] else [])
    ensures s[k..] == [s[k]] + s[k + 1..]
  {
    assert s[..k + 1][..k] == s[..k];
  }

  /** `filter(c, predicate)`: removes, through the iterator, every element that does not
    * match. */
  method Filter<T>(c: JavaList<T>, keep: T -> bool)
    modifies c
    ensures c.elements == Filtered(old(c.elements), keep)
  {
    ghost var orig := c.elements;
    var i := 0;
    ghost var k := 0;
    while i < |c.elements|
      invariant 0 <= k <= |orig|
      invariant c.elements == Filtered(orig[..k], keep) + orig[k..]
      invariant i == |Filtered(orig[..k], keep)|
      decreases |c.elements| - i
    {
      assert k < |orig|;
      FilterLoopStep(orig, k, keep, c.elements, i);
      if !keep(c.elements[i]) {
        c.elements := c.elements[..i] + c.elements[i + 1..];
      } else {
        i := i + 1;
      }
      k := k + 1;
    }
    assert orig[..k] == orig;
  }
}
