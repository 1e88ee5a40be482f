/**
 * WordTrie: a trie keyed by words, each node holding an optional value and a map
 * from the next word to a child node.
 *
 * Every node carries a ghost abstraction `Tree` of its subtree; the methods are
 * proved against the pure functions on tries below.
 */
module WordTries {
  import opened Wrappers

  /** The value of a subtree: the node's value and its children by word. */
  datatype Trie<T> = Trie(value: Option<T>, kids: map<string, Trie<T>>)

  function EmptyTrie<T>(): Trie<T> { Trie(None, map[]) }

  /** `Node.match(words, i)` on the abstraction: the subtree the words lead to, or None as soon
    * as a word has no child. */
  function MatchT<T>(t: Trie<T>, ws: seq<string>): Option<Trie<T>>
    decreases |ws|
  {
    if ws == [] then Some(t)
    else if ws[0] in t.kids then MatchT(t.kids[ws[0]], ws[1..])
    else None
  }

  /** `Node.add(words, i, value)` on the abstraction: the missing children along the path are
    * created and the last one gets the value. */
  function AddT<T>(t: Trie<T>, ws: seq<string>, v: T): Trie<T>
    decreases |ws|
  {
    if ws == [] then t.(value := Some(v))
    else
      var kid := if ws[0] in t.kids then t.kids[ws[0]] else EmptyTrie();
      t.(kids := t.kids[ws[0] := AddT(kid, ws[1..], v)])
  }

  /** The value stored under a word sequence, if the path exists and holds one. */
  function ValueAt<T>(t: Trie<T>, ws: seq<string>): Option<T>
  {
    match MatchT(t, ws)
    case None => None
    case Some(n) => n.value
  }

  predicate IsPrefix(p: seq<string>, ws: seq<string>)
  {
    |p| <= |ws| && ws[..|p|] == p
  }

  /** After add(ws, v), match(ws) returns a node holding v. */
  lemma {:induction false} AddThenMatch<T>(t: Trie<T>, ws: seq<string>, v: T)
    ensures MatchT(AddT(t, ws, v), ws).Some?
    ensures ValueAt(AddT(t, ws, v), ws) == Some(v)
    decreases |ws|
  {
    if ws != [] {
      var kid := if ws[0] in t.kids then t.kids[ws[0]] else EmptyTrie();
      AddThenMatch(kid, ws[1..], v);
    }
  }

  /** add sets only the final node's value: every other path keeps its value. */
  lemma {:induction false} AddKeepsOtherValues<T>(t: Trie<T>, ws: seq<string>, v: T, other: seq<string>)
    requires other != ws
    ensures ValueAt(AddT(t, ws, v), other) == ValueAt(t, other)
    decreases |ws|
  {
    if ws == [] {
      assert other != [];
    } else if other != [] {
      var kid := if ws[0] in t.kids then t.kids[ws[0]] else EmptyTrie();
      if other[0] == ws[0] {
        assert other[1..] != ws[1..] by {
          assert other == [other[0]] + other[1..] && ws == [ws[0]] + ws[1..];
        }
        AddKeepsOtherValues(kid, ws[1..], v, other[1..]);
        if ws[0] !in t.kids {
          EmptyHasNoValues<T>(other[1..]);
        }
      }
    }
  }

  lemma {:induction false} EmptyHasNoValues<T>(ws: seq<string>)
    ensures ValueAt(EmptyTrie<T>(), ws) == None
  {
  }

  /** add creates only missing children: a path exists afterwards exactly when it existed
    * before or leads along the added words. */
  lemma {:induction false} AddCreatesOnlyThePath<T>(t: Trie<T>, ws: seq<string>, v: T, p: seq<string>)
    ensures MatchT(AddT(t, ws, v), p).Some? <==> MatchT(t, p).Some? || IsPrefix(p, ws)
    decreases |ws|
  {
    if ws != [] && p != [] {
      var kid := if ws[0] in t.kids then t.kids[ws[0]] else EmptyTrie();
      if p[0] == ws[0] {
        AddCreatesOnlyThePath(kid, ws[1..], v, p[1..]);
        if ws[0] !in t.kids {
          EmptyMatchesOnlyEmpty<T>(p[1..]);
        }
        assert IsPrefix(p, ws) <==> IsPrefix(p[1..], ws[1..]) by {
          assert p == [p[0]] + p[1..] && ws == [ws[0]] + ws[1..];
          if IsPrefix(p[1..], ws[1..]) {
            assert ws[..|p|] == [ws[0]] + ws[1..][..|p| - 1];
          }
        }
      }
    }
  }

  lemma {:induction false} EmptyMatchesOnlyEmpty<T>(ws: seq<string>)
    ensures MatchT(EmptyTrie<T>(), ws).Some? <==> ws == []
  {
  }

  /** Matching follows the words one child at a time: it fails exactly when some prefix
    * reaches a node without a child for the next word. */
  lemma {:induction false} MatchStep<T>(t: Trie<T>, ws: seq<string>, w: string)
    ensures MatchT(t, ws + [w]) ==
      match MatchT(t, ws)
      case None => None
      case Some(n) => if w in n.kids then Some(n.kids[w]) else None
    decreases |ws|
  {
    if ws != [] {
      assert (ws + [w])[0] == ws[0] && (ws + [w])[1..] == ws[1..] + [w];
      if ws[0] in t.kids {
        MatchStep(t.kids[ws[0]], ws[1..], w);
      }
    } else {
      assert [] + [w] == [w];
      assert [w][1..] == [];
    }
  }

  class Node<T> {
    var value: Option<T>
    var kids: map<string, Node<T>>
    ghost var Tree: Trie<T>
    ghost var Repr: set<object>

    ghost predicate Valid()
      reads this, Repr
      decreases Repr
    {
      this in Repr
      && value == Tree.value
      && kids.Keys == Tree.kids.Keys
      && (forall w :: w in kids ==>
            kids[w] in Repr && kids[w].Repr <= Repr && this !in kids[w].Repr
            && kids[w].Valid() && kids[w].Tree == Tree.kids[w])
      && (forall w, w' :: w in kids && w' in kids && w != w' ==> kids[w].Repr !! kids[w'].Repr)
    }

    constructor()
      ensures Valid() && fresh(Repr) && Tree == EmptyTrie()
    {
      value := None;
      kids := map[];
      Tree := EmptyTrie();
      Repr := {this};
    }

    /** `Node.add(words, iWord, value)`. */
    method Add(words: seq<string>, i: nat, v: T)
      requires Valid() && i <= |words|
      modifies Repr
      ensures Valid() && Tree == AddT(old(Tree), words[i..], v)
      ensures fresh(Repr - old(Repr))
      decreases |words| - i, 0
    {
      if i >= |words| {
        SetValue(v);
        return;
      }
      var w := words[i];
      assert words[i..][0] == w && words[i..][1..] == words[i + 1..];
      var kid := KidFor(w);
      ghost var kidTree1 := kid.Tree;
      ghost var grown := AddT(kidTree1, words[i + 1..], v);
      assert AddT(old(Tree), words[i..], v) == old(Tree).(kids := old(Tree).kids[w := grown]);
      GrowKid(w, kid, words, i + 1, v);
      UpdateTwice(old(Tree).kids, w, kidTree1, grown);
    }

    static lemma UpdateTwice<K, V>(m: map<K, V>, k: K, a: V, b: V)
      ensures m[k := a][k := b] == m[k := b]
    {
    }

    /** The recursive call `fKids.get(word).add(words, iWord + 1, value)` and its effect on
      * this node's abstraction. */
    method GrowKid(w: string, kid: Node<T>, words: seq<string>, j: nat, v: T)
      requires Valid() && w in kids && kid == kids[w] && j <= |words|
      modifies Repr
      ensures Valid() && Tree == old(Tree).(kids := old(Tree).kids[w := AddT(old(kid.Tree), words[j..], v)])
      ensures fresh(Repr - old(Repr))
      decreases |words| - j, 1
    {
      ghost var tree1, repr1 := Tree, Repr;
      kid.Add(words, j, v);
      assert this !in kid.Repr && kid in kid.Repr;
      forall w' | w' in kids && w' != w
        ensures kids[w'].Valid() && kids[w'].Tree == tree1.kids[w'] && kids[w'].Repr <= repr1
        ensures kids[w'].Repr !! kid.Repr && this !in kids[w'].Repr
      {
      }
      Adopt(w, kid);
    }

    /** The end of the path: `fValue = value`. */
    method SetValue(v: T)
      requires Valid()
      modifies this
      ensures Valid() && Tree == old(Tree).(value := Some(v)) && Repr == old(Repr)
    {
      value := Some(v);
      Tree := Tree.(value := Some(v));
    }

    /** Takes back the child for w after it has grown: its new tree and footprint. */
    method Adopt(w: string, kid: Node<T>)
      requires w in kids && kid == kids[w] && kid.Valid() && this !in kid.Repr
      requires this in Repr && value == Tree.value && kids.Keys == Tree.kids.Keys
      requires forall w' :: w' in kids && w' != w ==>
        kids[w'] in Repr && kids[w'].Repr <= Repr && this !in kids[w'].Repr
        && kids[w'].Valid() && kids[w'].Tree == Tree.kids[w'] && kids[w'].Repr !! kid.Repr
      requires forall w1, w2 :: w1 in kids && w2 in kids && w1 != w2 && w1 != w && w2 != w ==>
        kids[w1].Repr !! kids[w2].Repr
      modifies this
      ensures Valid() && Tree == old(Tree).(kids := old(Tree).kids[w := kid.Tree])
      ensures Repr == old(Repr) + kid.Repr && kids == old(kids) && value == old(value)
    {
      Tree := Tree.(kids := Tree.kids[w := kid.Tree]);
      Repr := Repr + kid.Repr;
      forall w' | w' in kids
        ensures kids[w'] in Repr && kids[w'].Repr <= Repr && kids[w'].Valid() && kids[w'].Tree == Tree.kids[w']
      {
        StillValid(kids[w']);
      }
    }

    /** A node none of whose objects changed is as valid as it was. */
    twostate lemma StillValid(n: Node<T>)
      requires old(n.Valid()) && unchanged(old(n.Repr))
      ensures n.Valid() && n.Tree == old(n.Tree) && n.Repr == old(n.Repr)
      decreases old(n.Repr)
    {
      forall w | w in n.kids
        ensures n.kids[w].Valid()
      {
        StillValid(n.kids[w]);
      }
    }

    /** The child for a word, created empty if it is missing (`fKids.put(word, new Node())`). */
    method KidFor(w: string) returns (kid: Node<T>)
      requires Valid()
      modifies this
      ensures Valid() && w in kids && kid == kids[w] && kid.Repr <= Repr && this !in kid.Repr
      ensures kid.Tree == if w in old(Tree).kids then old(Tree).kids[w] else EmptyTrie()
      ensures Tree == old(Tree).(kids := old(Tree).kids[w := kid.Tree])
      ensures fresh(Repr - old(Repr))
      ensures forall w' :: w' in kids && w' != w ==> kids[w'].Repr !! kid.Repr
    {
      if w in kids {
        kid := kids[w];
      } else {
        kid := new Node();
        kids := kids[w := kid];
        Tree := Tree.(kids := Tree.kids[w := EmptyTrie()]);
        forall w' | w' in kids && w' != w
          ensures kids[w'].Valid() && kids[w'].Tree == Tree.kids[w']
        {
          StillValid(kids[w']);
        }
        Adopt(w, kid);
      }
    }

    /** `Node.match(words, iWord)`: the node the words lead to, or null. */
    method Match(words: seq<string>, i: nat) returns (n: Node?<T>)
      requires Valid() && i <= |words|
      ensures n == null <==> MatchT(Tree, words[i..]).None?
      ensures n != null ==> n in Repr && n.Repr <= Repr && n.Valid() && n.Tree == MatchT(Tree, words[i..]).value
      decreases |words| - i
    {
      if i >= |words| {
        return this;
      }
      assert words[i..][0] == words[i] && words[i..][1..] == words[i + 1..];
      if words[i] in kids {
        n := kids[words[i]].Match(words, i + 1);
      } else {
        n := null;
      }
    }
  }

  class WordTrie<T> {
    var root: Node<T>

    ghost predicate Valid()
      reads this, root, root.Repr
    {
      root.Valid() && this !in root.Repr
    }

    constructor()
      ensures Valid() && fresh(root) && fresh(root.Repr) && root.Tree == EmptyTrie()
    {
      root := new Node();
    }

    /** `add(String[] words, T value)`. */
    method Add(words: seq<string>, v: T)
      requires Valid()
      modifies root.Repr
      ensures Valid() && root == old(root) && root.Tree == AddT(old(root.Tree), words, v)
      ensures fresh(root.Repr - old(root.Repr))
    {
      root.Add(words, 0, v);
      assert words[0..] == words;
    }

    /** `match(String[] words)`. */
    method Match(words: seq<string>) returns (n: Node?<T>)
      requires Valid()
      ensures n == null <==> MatchT(root.Tree, words).None?
      ensures n != null ==> n.Valid() && n.Tree == MatchT(root.Tree, words).value
    {
      n := root.Match(words, 0);
      assert words[0..] == words;
    }
  }
}
