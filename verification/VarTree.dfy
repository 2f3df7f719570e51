/**
 The tree of shader variables, by node number: node 0 is the invisible root, and a node is created
 after its parent. The module holds the tree order and nothing that changes.
 */
module VarTree {
  datatype Tree = Tree(parent: seq<nat>, children: seq<seq<nat>>, selectable: seq<bool>)

  ghost predicate Linked(t: Tree, n: nat)
    requires n < |t.parent| == |t.children|
  {
    && (n > 0 ==> t.parent[n] < n && n in t.children[t.parent[n]])
    && (forall i :: 0 <= i < |t.children[n]| ==> n < t.children[n][i] < |t.parent| && t.parent[t.children[n][i]] == n)
    && (forall i, j :: 0 <= i < j < |t.children[n]| ==> t.children[n][i] != t.children[n][j])
  }

  ghost predicate ValidTree(t: Tree) {
    && 0 < |t.parent| == |t.children| == |t.selectable|
    && forall n: nat :: n < |t.parent| ==> Linked(t, n)
  }

  predicate IsNode(t: Tree, n: nat) {
    0 < n < |t.parent|
  }

  predicate IsLeaf(t: Tree, n: nat)
    requires n < |t.children|
  {
    t.children[n] == []
  }

  /** `n` lies in the subtree of `a`. */
  ghost predicate Under(t: Tree, n: nat, a: nat)
    requires ValidTree(t) && n < |t.parent|
    decreases n
  {
    n == a || (n > a && assert Linked(t, n); Under(t, t.parent[n], a))
  }

  lemma {:induction false} ParentOf(t: Tree, n: nat)
    requires ValidTree(t) && IsNode(t, n)
    ensures t.parent[n] < n && n in t.children[t.parent[n]] && Under(t, n, t.parent[n])
  {
    assert Linked(t, n);
  }

  lemma {:induction false} ChildOf(t: Tree, n: nat, i: nat)
    requires ValidTree(t) && n < |t.parent| && i < |t.children[n]|
    ensures n < t.children[n][i] < |t.parent| && t.parent[t.children[n][i]] == n && Under(t, t.children[n][i], n)
  {
    assert Linked(t, n);
  }

  lemma {:induction false} UnderTrans(t: Tree, n: nat, a: nat, b: nat)
    requires ValidTree(t) && n < |t.parent| && a < |t.parent| && Under(t, n, a) && Under(t, a, b)
    ensures Under(t, n, b)
    decreases n
  {
    if n == a {
    } else {
      ParentOf(t, n);
      UnderTrans(t, t.parent[n], a, b);
    }
  }

  /** A node below `a` is below one of its children. */
  lemma {:induction false} Descend(t: Tree, n: nat, a: nat) returns (c: nat)
    requires ValidTree(t) && n < |t.parent| && Under(t, n, a) && n != a
    ensures a < c <= n && t.parent[c] == a && c in t.children[a] && Under(t, n, c)
    decreases n
  {
    ParentOf(t, n);
    if t.parent[n] == a {
      c := n;
    } else {
      c := Descend(t, t.parent[n], a);
      UnderTrans(t, n, t.parent[n], c);
    }
  }

  lemma {:induction false} UnderLeaf(t: Tree, n: nat, a: nat)
    requires ValidTree(t) && n < |t.parent| && a < |t.parent| && Under(t, n, a) && IsLeaf(t, a)
    ensures n == a
  {
    if n != a {
      var c := Descend(t, n, a);
      assert false;
    }
  }

  /** The ancestors of a node form a chain. */
  lemma {:induction false} Chain(t: Tree, n: nat, a: nat, b: nat)
    requires ValidTree(t) && n < |t.parent| && a <= b < |t.parent| && Under(t, n, a) && Under(t, n, b)
    ensures Under(t, b, a)
    decreases n
  {
    if n == b {
    } else {
      ParentOf(t, n);
      Chain(t, t.parent[n], a, b);
    }
  }

  /** `n` lies below one of the first `k` children of `a`. */
  ghost predicate UnderFirst(t: Tree, n: nat, a: nat, k: nat)
    requires ValidTree(t) && n < |t.parent| && a < |t.parent| && k <= |t.children[a]|
  {
    exists i :: 0 <= i < k && Under(t, n, t.children[a][i])
  }

  lemma {:induction false} UnderSplit(t: Tree, n: nat, a: nat)
    requires ValidTree(t) && n < |t.parent| && a < |t.parent|
    ensures Under(t, n, a) <==> n == a || UnderFirst(t, n, a, |t.children[a]|)
  {
    if Under(t, n, a) && n != a {
      var c := Descend(t, n, a);
    }
    if i :| 0 <= i < |t.children[a]| && Under(t, n, t.children[a][i]) {
      ChildOf(t, a, i);
      UnderTrans(t, n, t.children[a][i], a);
    }
  }

  ghost function Subtree(t: Tree, n: nat): set<nat>
    requires ValidTree(t)
  {
    set k: nat | k < |t.parent| && Under(t, k, n)
  }

  /** The top-level node above `n`: the variable that `n` is a part of. */
  ghost function Top(t: Tree, n: nat): (r: nat)
    requires ValidTree(t) && IsNode(t, n)
    ensures IsNode(t, r) && t.parent[r] == 0 && r in t.children[0]
    decreases n
  {
    ParentOf(t, n);
    if t.parent[n] == 0 then n else Top(t, t.parent[n])
  }

  lemma {:induction false} BelowRoot(t: Tree, n: nat)
    requires ValidTree(t) && n < |t.parent|
    ensures Under(t, n, 0)
    decreases n
  {
    if n == 0 {
    } else {
      ParentOf(t, n);
      BelowRoot(t, t.parent[n]);
    }
  }

  lemma {:induction false} UnderTop(t: Tree, n: nat, r: nat)
    requires ValidTree(t) && IsNode(t, n) && IsNode(t, r) && t.parent[r] == 0
    ensures Under(t, n, r) <==> Top(t, n) == r
    decreases n
  {
    ParentOf(t, n);
    if t.parent[n] == 0 {
    } else {
      UnderTop(t, t.parent[n], r);
    }
  }

  // ---------- Sizes ----------

  ghost function Size(t: Tree, n: nat): (r: nat)
    requires ValidTree(t) && n < |t.parent|
    ensures r > 0
    decreases |t.parent| - n, |t.children[n]| + 1
  {
    1 + SizeOf(t, n, |t.children[n]|)
  }

  /** The size of the subtrees of the first `k` children of `n`. */
  ghost function SizeOf(t: Tree, n: nat, k: nat): nat
    requires ValidTree(t) && n < |t.parent| && k <= |t.children[n]|
    decreases |t.parent| - n, k
  {
    if k == 0 then 0
    else
      ChildOf(t, n, k - 1);
      SizeOf(t, n, k - 1) + Size(t, t.children[n][k - 1])
  }
}
