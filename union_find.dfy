/**
 * UnionFind: disjoint sets as a forest of parent pointers, with union by depth and
 * path compression in `find`. Each node also keeps the set of its children.
 *
 * The nodes that make up one forest are passed to the methods as a ghost set `S`.
 * A ghost field `root` records the root every node reaches by following parents:
 * `Find` returns it and leaves it unchanged, and `Union` merges exactly the two sets
 * it is given.
 */
module UnionFinds {

  class UnionFind<T> {
    var obj: T
    var parent: UnionFind?<T>
    var kids: set<UnionFind<T>>
    var depth: int
    ghost var root: UnionFind?<T>

    /** `UnionFind(object)`: a new node is a singleton set, its own parent, at depth 0. */
    constructor(item: T)
      ensures obj == item && parent == this && kids == {} && depth == 0 && root == this
    {
      obj := item;
      depth := 0;
      kids := {};
      new;
      parent := this;
      root := this;
    }

    /** `find()`: the root of this node's tree, which becomes this node's parent. */
    method Find(ghost S: set<UnionFind<T>>) returns (r: UnionFind<T>)
      requires Forest(S) && this in S
      modifies S
      ensures Forest(S)
      ensures r == old(root) && r.parent == r && parent == r
      ensures r.depth >= depth
      ensures forall n :: n in S && n.depth < depth ==> n.parent == old(n.parent)
      ensures forall n :: n in S ==> n.root == old(n.root) && n.depth == old(n.depth) && n.obj == old(n.obj)
      decreases MaxDepth(S) - depth
    {
      assert ForestAt(S, this);
      if parent == this {
        return this;
      }
      var p := parent;
      assert ForestAt(S, p);
      assert p.depth <= MaxDepth(S);
      var top := p.Find(S);
      r := Repoint(top, S);
    }

    /** The path-compression step of `find`: this node is moved under its root. */
    method Repoint(top: UnionFind<T>, ghost S: set<UnionFind<T>>) returns (r: UnionFind<T>)
      requires Forest(S) && this in S && top in S && parent in S
      requires parent != this && top == root && top.parent == top && top.depth > depth
      modifies this, parent, top
      ensures Forest(S) && r == top && parent == top
      ensures forall n :: n in S ==>
        n.depth == old(n.depth) && n.root == old(n.root) && n.obj == old(n.obj)
        && (n != this ==> n.parent == old(n.parent))
    {
      assert ForestAt(S, top);
      r := SetParent(top, S);
      forall n | n in S
        ensures ForestAt(S, n)
      {
        assert old(ForestAt(S, n));
      }
    }

    /** `union(with)` of two roots: the shallower tree goes under the deeper one; on a tie
      * `with` goes under this node, whose depth grows by one. Returns the new root. */
    method Union(with: UnionFind<T>, ghost S: set<UnionFind<T>>) returns (r: UnionFind<T>)
      requires Forest(S) && this in S && with in S
      requires parent == this && with.parent == with
      modifies S
      ensures Forest(S)
      ensures with == this ==> r == this && unchanged(S)
      ensures r == (if old(with.depth) > old(depth) then with else this)
      ensures with != this && old(with.depth) == old(depth) ==> depth == old(depth) + 1
      ensures forall n :: n in S && n != this ==> n.depth == old(n.depth)
      ensures with != this && old(with.depth) != old(depth) ==> depth == old(depth)
      ensures r.parent == r && (with != this ==> (if r == this then with.parent == this else parent == with))
      ensures forall n :: n in S && n != this && n != with ==> n.parent == old(n.parent)
      ensures forall n :: n in S ==>
        n.root == (if old(n.root) == this || old(n.root) == with then r else old(n.root))
    {
      if with == this {
        return this;
      }
      assert ForestAt(S, this) && ForestAt(S, with);
      if with.depth > depth {
        r := SetParent(with, S);
      } else if depth > with.depth {
        r := with.SetParent(this, S);
      } else {
        depth := depth + 1;
        r := with.SetParent(this, S);
      }
      // the root of every node of the absorbed tree is now r
      ghost var absorbed := if r == this then with else this;
      forall n | n in S && n.root == absorbed {
        n.root := r;
      }
      forall n | n in S
        ensures ForestAt(S, n)
      {
        assert old(ForestAt(S, n));
        if n != this && n != with {
          assert n.parent == old(n.parent) && n.parent in S;
          assert n.parent.root == (if old(n.parent.root) == this || old(n.parent.root) == with then r else old(n.parent.root));
        }
      }
    }

    /** `setParent(parent)`: this node leaves its old parent's children and joins the new
      * parent's. */
    method SetParent(p: UnionFind<T>, ghost S: set<UnionFind<T>>) returns (r: UnionFind<T>)
      requires this in S && p in S && p != this && parent != null && parent in S
      modifies this, parent, p
      ensures r == p && parent == p
      ensures old(parent) != this && old(parent) != p ==> old(parent).kids == old(parent.kids) - {this}
      ensures p.kids == old(p.kids) + {this}
      ensures kids == old(kids) && depth == old(depth) && root == old(root) && obj == old(obj)
      ensures p.parent == old(p.parent) && p.depth == old(p.depth) && p.root == old(p.root)
      ensures old(parent) != this ==> old(parent).parent == old(parent.parent) && old(parent).depth == old(parent.depth)
      ensures old(parent).root == old(parent.root)
      ensures forall n :: n in S ==>
        n.depth == old(n.depth) && n.root == old(n.root) && n.obj == old(n.obj)
        && (n != this ==> n.parent == old(n.parent))
    {
      if parent != this {
        parent.kids := parent.kids - {this};
      }
      p.kids := p.kids + {this};
      parent := p;
      r := p;
    }
  }

  /** The conditions one node of a forest meets. */
  ghost predicate ForestAt<T>(S: set<UnionFind<T>>, n: UnionFind<T>)
    requires n in S
    reads S
  {
    n.parent != null && n.parent in S && n.root != null && n.root in S
    && n.depth >= 0
    && n.root.parent == n.root
    && (n.parent == n ==> n.root == n)
    && (n.parent != n ==> n.parent.depth > n.depth && n.parent.root == n.root)
  }

  /** The nodes of S form a forest: parents stay in S, depth grows strictly towards the
    * root, and every node's root is the root of its parent. */
  ghost predicate Forest<T>(S: set<UnionFind<T>>)
    reads S
  {
    forall n {:trigger ForestAt(S, n)} :: n in S ==> ForestAt(S, n)
  }

  /** The largest depth in S, which bounds the climb to a root. */
  ghost function MaxDepth<T>(S: set<UnionFind<T>>): (m: int)
    reads S
    ensures forall n :: n in S ==> n.depth <= m
  {
    if S == {} then 0
    else
      var n :| n in S;
      var rest := MaxDepth(S - {n});
      if n.depth > rest then n.depth else rest
  }
}
