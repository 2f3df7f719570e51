/**
 Watching and unwatching shader variables. Only leaves are in the watch list and own a data box; an
 inner node is marked when something below it is watched, so that views show the path to it.
 */
module WatchTree {
  import opened VarTree

  // ---------- What watching and unwatching mean for the list ----------

  /** The list after node `n` was watched: every selectable leaf below it is appended once, unless
      an inner node on the way is not selectable. */
  ghost function WatchAll(t: Tree, list: seq<nat>, n: nat): seq<nat>
    requires ValidTree(t) && n < |t.parent|
    decreases |t.parent| - n, |t.children[n]| + 1
  {
    if !t.selectable[n] then list
    else if IsLeaf(t, n) then (if n in list then list else list + [n])
    else WatchChildren(t, list, n, |t.children[n]|)
  }

  ghost function WatchChildren(t: Tree, list: seq<nat>, n: nat, k: nat): seq<nat>
    requires ValidTree(t) && n < |t.parent| && k <= |t.children[n]|
    decreases |t.parent| - n, k
  {
    if k == 0 then list
    else
      ChildOf(t, n, k - 1);
      WatchAll(t, WatchChildren(t, list, n, k - 1), t.children[n][k - 1])
  }

  /** From `n` down to `x` every node is selectable. */
  ghost predicate Open(t: Tree, x: nat, n: nat)
    requires ValidTree(t) && x < |t.parent|
    decreases x
  {
    t.selectable[x] && (x == n || (x > n && assert Linked(t, x); Open(t, t.parent[x], n)))
  }

  function Without(list: seq<nat>, gone: set<nat>): seq<nat> {
    if list == [] then []
    else
      var rest := Without(list[..|list| - 1], gone);
      if list[|list| - 1] in gone then rest else rest + [list[|list| - 1]]
  }

  /** Entries are dropped one by one, and the others keep their order. */
  lemma {:induction false} WithoutConcat(a: seq<nat>, b: seq<nat>, gone: set<nat>)
    ensures Without(a + b, gone) == Without(a, gone) + Without(b, gone)
  {
    if b == [] {
      assert a + b == a;
    } else {
      var front := b[..|b| - 1];
      WithoutConcat(a, front, gone);
      assert (a + b)[..|a + b| - 1] == a + front;
    }
  }

  lemma {:induction false} WithoutOne(x: nat, gone: set<nat>)
    ensures Without([x], gone) == if x in gone then [] else [x]
  {
    assert [x][..0] == [];
  }

  lemma {:induction false} WithoutTwice(list: seq<nat>, a: set<nat>, b: set<nat>)
    ensures Without(Without(list, a), b) == Without(list, a + b)
  {
    if list == [] {
    } else {
      WithoutTwice(list[..|list| - 1], a, b);
    }
  }

  lemma {:induction false} WithoutNone(list: seq<nat>)
    ensures Without(list, {}) == list
  {
    if list == [] {
    } else {
      WithoutNone(list[..|list| - 1]);
    }
  }

  ghost predicate NoDuplicates(list: seq<nat>) {
    forall i, j :: 0 <= i < j < |list| ==> list[i] != list[j]
  }

  lemma {:induction false} WithoutHolds(list: seq<nat>, gone: set<nat>)
    ensures forall x :: x in Without(list, gone) <==> x in list && x !in gone
    ensures NoDuplicates(list) ==> NoDuplicates(Without(list, gone))
  {
    if list == [] {
    } else {
      WithoutHolds(list[..|list| - 1], gone);
    }
  }

  // ---------- The invariant ----------

  ghost predicate SomeChildWatched(t: Tree, watched: seq<bool>, n: nat)
    requires ValidTree(t) && n < |t.parent| == |watched|
  {
    exists c :: c in t.children[n] && c < |watched| && watched[c]
  }

  /** The list holds each watched leaf once, and an unwatched leaf owns no box. */
  ghost predicate LeavesMatch(t: Tree, watched: seq<bool>, boxes: seq<bool>, list: seq<nat>) {
    && |watched| == |boxes| == |t.parent| == |t.children| && |t.parent| > 0 && !watched[0]
    && NoDuplicates(list)
    && (forall x :: x in list ==> IsNode(t, x) && IsLeaf(t, x))
    && (forall n: nat :: IsNode(t, n) && IsLeaf(t, n) ==> (watched[n] <==> n in list) && (boxes[n] ==> watched[n]))
  }

  /** An inner node with a watched child is watched. */
  ghost predicate UpClosed(t: Tree, watched: seq<bool>)
    requires ValidTree(t) && |watched| == |t.parent|
  {
    forall n: nat :: IsNode(t, n) && SomeChildWatched(t, watched, n) ==> watched[n]
  }

  /** A watched inner node that is not on the path above `p` has a watched child. */
  ghost predicate DownClosedBut(t: Tree, watched: seq<bool>, p: nat)
    requires ValidTree(t) && |watched| == |t.parent| && p < |t.parent|
  {
    forall n: nat :: IsNode(t, n) && !IsLeaf(t, n) && watched[n] && !Under(t, p, n) ==> SomeChildWatched(t, watched, n)
  }

  ghost predicate DownClosed(t: Tree, watched: seq<bool>)
    requires ValidTree(t) && |watched| == |t.parent|
  {
    forall n: nat :: IsNode(t, n) && !IsLeaf(t, n) && watched[n] ==> SomeChildWatched(t, watched, n)
  }

  ghost predicate Closed(t: Tree, watched: seq<bool>, boxes: seq<bool>, list: seq<nat>)
    requires ValidTree(t)
  {
    && LeavesMatch(t, watched, boxes, list) && UpClosed(t, watched) && DownClosed(t, watched)
  }

  // ---------- Watching one leaf ----------

  /** A leaf and all its ancestors but the root are marked. */
  ghost predicate Marked(t: Tree, before: seq<bool>, after: seq<bool>, n: nat)
    requires ValidTree(t) && |before| == |after| == |t.parent| && n < |t.parent|
  {
    forall k: nat :: k < |t.parent| ==> (after[k] <==> before[k] || (k != 0 && Under(t, n, k)))
  }

  lemma {:induction false} MarkedUp(t: Tree, before: seq<bool>, after: seq<bool>, n: nat)
    requires ValidTree(t) && |before| == |after| == |t.parent| && n < |t.parent|
    requires UpClosed(t, before) && Marked(t, before, after, n)
    ensures UpClosed(t, after)
  {
    forall k: nat | IsNode(t, k) && SomeChildWatched(t, after, k) ensures after[k] {
      var c :| c in t.children[k] && c < |after| && after[c];
      assert Linked(t, k);
      if before[c] {
        assert SomeChildWatched(t, before, k);
      } else {
        ParentOf(t, c);
        UnderTrans(t, n, c, k);
      }
    }
  }

  lemma {:induction false} MarkedDown(t: Tree, before: seq<bool>, after: seq<bool>, n: nat)
    requires ValidTree(t) && |before| == |after| == |t.parent| && n < |t.parent| && IsLeaf(t, n)
    requires DownClosed(t, before) && Marked(t, before, after, n)
    ensures DownClosed(t, after)
  {
    forall k: nat | IsNode(t, k) && !IsLeaf(t, k) && after[k] ensures SomeChildWatched(t, after, k) {
      if before[k] {
        var c :| c in t.children[k] && c < |before| && before[c];
        assert after[c];
      } else {
        var c := Descend(t, n, k);
        assert after[c];
      }
    }
  }

  lemma {:induction false} MarkedLeaves(t: Tree, before: seq<bool>, after: seq<bool>, boxes: seq<bool>, list: seq<nat>,
                                        n: nat, box: bool)
    requires ValidTree(t) && LeavesMatch(t, before, boxes, list) && |after| == |t.parent|
    requires IsNode(t, n) && IsLeaf(t, n) && n !in list && Marked(t, before, after, n)
    ensures LeavesMatch(t, after, boxes[n := box], list + [n])
  {
    forall k: nat | IsNode(t, k) && IsLeaf(t, k) && Under(t, n, k) ensures k == n {
      UnderLeaf(t, n, k);
    }
  }

  // ---------- Unwatching ----------

  /** Going up from an unwatched path, a watched node ends the climb. */
  lemma {:induction false} WatchedUp(t: Tree, watched: seq<bool>, p: nat, a: nat)
    requires ValidTree(t) && |watched| == |t.parent| && UpClosed(t, watched)
    requires p < |t.parent| && Under(t, p, a) && a != 0 && watched[p]
    ensures watched[a]
    decreases p
  {
    if p == a {
    } else {
      ParentOf(t, p);
      assert SomeChildWatched(t, watched, t.parent[p]);
      WatchedUp(t, watched, t.parent[p], a);
    }
  }

  /** The climb stops at a node with a watched child: everything above it has one too. */
  lemma {:induction false} ClimbStops(t: Tree, watched: seq<bool>, p: nat)
    requires ValidTree(t) && |watched| == |t.parent| && UpClosed(t, watched) && IsNode(t, p)
    requires DownClosedBut(t, watched, p) && SomeChildWatched(t, watched, p)
    ensures DownClosed(t, watched)
  {
    forall n: nat | IsNode(t, n) && !IsLeaf(t, n) && watched[n] ensures SomeChildWatched(t, watched, n) {
      if Under(t, p, n) && n != p {
        var c := Descend(t, p, n);
        WatchedUp(t, watched, p, c);
      }
    }
  }

  /** Unmarking a node without watched children moves the gap to its parent. */
  lemma {:induction false} ClimbOn(t: Tree, watched: seq<bool>, p: nat, q: nat)
    requires ValidTree(t) && |watched| == |t.parent| && UpClosed(t, watched) && IsNode(t, p)
    requires q == t.parent[p] < |t.parent|
    requires DownClosedBut(t, watched, p) && !SomeChildWatched(t, watched, p)
    ensures UpClosed(t, watched[p := false])
    ensures DownClosedBut(t, watched[p := false], q)
    ensures q == 0 ==> DownClosed(t, watched[p := false])
  {
    var after := watched[p := false];
    ParentOf(t, p);
    forall n: nat | IsNode(t, n) && SomeChildWatched(t, after, n) ensures after[n] {
      assert SomeChildWatched(t, watched, n);
    }
    forall n: nat | IsNode(t, n) && !IsLeaf(t, n) && after[n] && (!Under(t, q, n) || q == 0)
      ensures SomeChildWatched(t, after, n)
    {
      assert !Under(t, p, n);
      var c :| c in t.children[n] && c < |watched| && watched[c];
      assert Linked(t, n);
      if c == p {
        assert false;
      }
    }
  }

  /** The nodes below `n` are unmarked and the others are as before. */
  ghost predicate Cleared(t: Tree, before: seq<bool>, after: seq<bool>, n: nat)
    requires ValidTree(t) && |before| == |after| == |t.parent| && n < |t.parent|
  {
    forall k: nat :: k < |t.parent| ==> (after[k] <==> before[k] && !Under(t, k, n))
  }

  /** After a subtree is cleared, the gap is on the path above any of its nodes. */
  lemma {:induction false} ClearedGap(t: Tree, before: seq<bool>, after: seq<bool>, n: nat, p: nat)
    requires ValidTree(t) && |before| == |after| == |t.parent| && p < |t.parent| && n < |t.parent| && Under(t, p, n)
    requires UpClosed(t, before) && DownClosed(t, before) && Cleared(t, before, after, n)
    ensures UpClosed(t, after) && DownClosedBut(t, after, p)
  {
    forall k: nat | IsNode(t, k) && SomeChildWatched(t, after, k) ensures after[k] {
      var c :| c in t.children[k] && c < |after| && after[c];
      assert Linked(t, k);
      assert SomeChildWatched(t, before, k);
    }
    forall k: nat | IsNode(t, k) && !IsLeaf(t, k) && after[k] && !Under(t, p, k) ensures SomeChildWatched(t, after, k) {
      var c :| c in t.children[k] && c < |before| && before[c];
      assert Linked(t, k);
      if Under(t, c, n) {
        if c == n {
          ParentOf(t, c);
          UnderTrans(t, p, c, k);
        }
      }
      assert after[c];
    }
  }

  lemma {:induction false} ClearedLeaves(t: Tree, before: seq<bool>, after: seq<bool>, boxes: seq<bool>,
                                         left: seq<bool>, list: seq<nat>, n: nat, gone: set<nat>)
    requires ValidTree(t) && IsNode(t, n) && LeavesMatch(t, before, boxes, list)
    requires |after| == |left| == |t.parent| && Cleared(t, before, after, n)
    requires forall k: nat :: IsNode(t, k) && IsLeaf(t, k) ==> (left[k] <==> boxes[k] && !Under(t, k, n))
    requires forall k: nat :: k < |t.parent| && IsLeaf(t, k) ==> (k in gone <==> Under(t, k, n))
    ensures LeavesMatch(t, after, left, Without(list, gone))
  {
    WithoutHolds(list, gone);
  }

  /** New entries of the list have the boxes that were delivered, the other boxes are as before. */
  ghost predicate NewBoxes(readable: seq<bool>, list0: seq<nat>, list: seq<nat>, had: seq<bool>, boxes: seq<bool>) {
    && |readable| == |had| == |boxes|
    && forall k: nat :: k < |boxes| ==> boxes[k] == if k in list && k !in list0 then readable[k] else had[k]
  }

  // ---------- The watch list of ShVarModel ----------

  ghost predicate Nodes(t: Tree, stack: seq<nat>) {
    forall s :: s in stack ==> IsNode(t, s)
  }

  /** Node `k` lies below a node on the stack. */
  ghost predicate Pending(t: Tree, stack: seq<nat>, k: nat)
    requires ValidTree(t) && k < |t.parent|
  {
    exists s :: s in stack && Under(t, k, s)
  }

  /** The subtree of `n` is split into the nodes that are gone and those below the stack. */
  ghost predicate Progress(t: Tree, n: nat, stack: seq<nat>, gone: set<nat>)
    requires ValidTree(t) && Nodes(t, stack)
  {
    && (forall s :: s in stack ==> Under(t, s, n))
    && (forall k :: k in gone ==> k < |t.parent| && Under(t, k, n))
    && (forall k: nat :: k < |t.parent| && Under(t, k, n) ==> k in gone || Pending(t, stack, k))
  }

  ghost predicate Erased(t: Tree, before: seq<bool>, after: seq<bool>, gone: set<nat>)
    requires |before| == |after| == |t.parent|
  {
    forall k: nat :: k < |t.parent| ==> (after[k] <==> before[k] && k !in gone)
  }

  ghost predicate BoxesErased(t: Tree, had: seq<bool>, boxes: seq<bool>, gone: set<nat>)
    requires |had| == |boxes| == |t.parent| == |t.children|
  {
    forall k: nat :: k < |t.parent| && IsLeaf(t, k) ==> (boxes[k] <==> had[k] && k !in gone)
  }

  ghost function Weight(t: Tree, stack: seq<nat>): nat
    requires ValidTree(t) && Nodes(t, stack)
  {
    if stack == [] then 0
    else
      assert stack[|stack| - 1] in stack;
      Weight(t, stack[..|stack| - 1]) + Size(t, stack[|stack| - 1])
  }

  /** An inner node is not in the list, so dropping it changes nothing. */
  lemma {:induction false} InnerNotListed(t: Tree, list: seq<nat>, gone: set<nat>, item: nat)
    requires item < |t.children| && !IsLeaf(t, item) && forall x :: x in list ==> x < |t.children| && IsLeaf(t, x)
    ensures Without(list, gone + {item}) == Without(list, gone)
  {
    if list == [] {
    } else {
      var rest := list[..|list| - 1];
      assert list[|list| - 1] in list;
      forall x | x in rest ensures x < |t.children| && IsLeaf(t, x) {
        assert x in list;
      }
      InnerNotListed(t, rest, gone, item);
    }
  }

  /** The list after one more node is gone. */
  lemma {:induction false} DropOne(t: Tree, list: seq<nat>, gone: set<nat>, item: nat)
    requires item < |t.children| && forall x :: x in list ==> x < |t.children| && IsLeaf(t, x)
    ensures Without(list, gone + {item})
            == if IsLeaf(t, item) then Without(Without(list, gone), {item}) else Without(list, gone)
  {
    if IsLeaf(t, item) {
      WithoutTwice(list, gone, {item});
    } else {
      InnerNotListed(t, list, gone, item);
    }
  }

  lemma {:induction false} EraseOne(t: Tree, before: seq<bool>, after: seq<bool>, had: seq<bool>, boxes: seq<bool>,
                                    gone: set<nat>, item: nat)
    requires |before| == |after| == |had| == |boxes| == |t.parent| == |t.children| && IsNode(t, item)
    requires Erased(t, before, after, gone) && BoxesErased(t, had, boxes, gone)
    ensures Erased(t, before, after[item := false], gone + {item})
    ensures BoxesErased(t, had, if IsLeaf(t, item) then boxes[item := false] else boxes, gone + {item})
  {
  }

  lemma {:induction false} AllGone(t: Tree, n: nat, stack: seq<nat>, gone: set<nat>)
    requires ValidTree(t) && stack == [] && Progress(t, n, stack, gone)
    ensures gone == Subtree(t, n)
  {
  }

  /** Children on top of a stack weigh as much as their subtrees. */
  lemma {:induction false} WeightPush(t: Tree, rest: seq<nat>, n: nat, k: nat)
    requires ValidTree(t) && Nodes(t, rest) && n < |t.parent| && k <= |t.children[n]|
    ensures Nodes(t, rest + t.children[n][..k])
    ensures Weight(t, rest + t.children[n][..k]) == Weight(t, rest) + SizeOf(t, n, k)
  {
    var pushed := rest + t.children[n][..k];
    if k == 0 {
      assert pushed == rest;
    } else {
      WeightPush(t, rest, n, k - 1);
      ChildOf(t, n, k - 1);
      assert pushed[..|pushed| - 1] == rest + t.children[n][..k - 1];
      assert pushed[|pushed| - 1] == t.children[n][k - 1];
      assert pushed == pushed[..|pushed| - 1] + [t.children[n][k - 1]];
    }
  }

  /** The part of the subtree below the popped node is the node itself and what lies below its children. */
  lemma {:induction false} StillPending(t: Tree, all: seq<nat>, rest: seq<nat>, item: nat, k: nat)
    requires ValidTree(t) && Nodes(t, all) && all == rest + [item] && k < |t.parent| && Pending(t, all, k) && k != item
    requires IsNode(t, item) && Nodes(t, rest + t.children[item])
    ensures Pending(t, rest + t.children[item], k)
  {
    var s :| s in all && Under(t, k, s);
    if s == item {
      var c := Descend(t, k, item);
      assert c in rest + t.children[item];
    } else {
      assert s in rest + t.children[item];
    }
  }

  /** One turn of the loop keeps the split of the subtree and makes the stack lighter. */
  lemma {:induction false} PopAndPush(t: Tree, n: nat, all: seq<nat>, rest: seq<nat>, item: nat, gone: set<nat>)
    requires ValidTree(t) && Nodes(t, all) && all == rest + [item] && Progress(t, n, all, gone)
    ensures IsNode(t, item) && Under(t, item, n) && Nodes(t, rest + t.children[item])
    ensures Progress(t, n, rest + t.children[item], gone + {item})
    ensures Weight(t, rest + t.children[item]) < Weight(t, all)
    ensures IsLeaf(t, item) ==> rest + t.children[item] == rest
  {
    assert item in all;
    assert Nodes(t, rest);
    var kids := t.children[item];
    WeightPush(t, rest, item, |kids|);
    assert kids[..|kids|] == kids;
    assert all[..|all| - 1] == rest;
    forall s | s in rest + kids ensures Under(t, s, n) {
      if s in kids {
        var i :| 0 <= i < |kids| && kids[i] == s;
        ChildOf(t, item, i);
        UnderTrans(t, s, item, n);
      } else {
        assert s in all;
      }
    }
    forall k: nat | k < |t.parent| && Under(t, k, n) ensures k in gone + {item} || Pending(t, rest + kids, k) {
      if k !in gone && k != item {
        StillPending(t, all, rest, item, k);
      }
    }
  }

  class ShVarWatchList {
    const tree: Tree
    var watched: seq<bool>
    var boxes: seq<bool>
    /** The watch list, oldest entry first. */
    var watchList: seq<nat>

    ghost predicate Valid()
      reads this
    {
      ValidTree(tree) && Closed(tree, watched, boxes, watchList)
    }

    constructor (t: Tree)
      requires ValidTree(t)
      ensures Valid() && tree == t && watchList == []
    {
      tree := t;
      watched, boxes := seq(|t.parent|, i => false), seq(|t.parent|, i => false);
      watchList := [];
    }

    /** Marks a node and its ancestors below the root. */
    method SetRecursiveWatched(n: nat)
      requires ValidTree(tree) && |watched| == |tree.parent| && IsNode(tree, n)
      modifies this`watched
      ensures |watched| == |tree.parent| && Marked(tree, old(watched), watched, n)
      decreases n
    {
      ParentOf(tree, n);
      watched := watched[n := true];
      if tree.parent[n] != 0 {
        SetRecursiveWatched(tree.parent[n]);
      }
    }

    /** Watches a node. `readable` says for which leaves the first readback delivers a box. */
    method SetItemWatched(n: nat, readable: seq<bool>)
      requires Valid() && IsNode(tree, n) && |readable| == |tree.parent|
      modifies this
      ensures Valid() && watchList == WatchAll(tree, old(watchList), n)
      ensures old(watchList) <= watchList && NewBoxes(readable, old(watchList), watchList, old(boxes), boxes)
      ensures |boxes| == |old(boxes)|
      ensures forall k: nat :: k < |boxes| ==>
                boxes[k] == if k in watchList && k !in old(watchList) then readable[k] else old(boxes)[k]
      decreases |tree.parent| - n
    {
      if tree.selectable[n] && (!IsLeaf(tree, n) || !watched[n]) {
        if IsLeaf(tree, n) {
          AddLeaf(n, readable[n]);
        } else {
          var i := 0;
          while i < |tree.children[n]|
            invariant 0 <= i <= |tree.children[n]| && Valid()
            invariant watchList == WatchChildren(tree, old(watchList), n, i) && old(watchList) <= watchList
            invariant NewBoxes(readable, old(watchList), watchList, old(boxes), boxes)
          {
            ChildOf(tree, n, i);
            ghost var list1, boxes1 := watchList, boxes;
            SetItemWatched(tree.children[n][i], readable);
            i := i + 1;
          }
        }
      }
    }

    method AddLeaf(n: nat, box: bool)
      requires Valid() && IsNode(tree, n) && IsLeaf(tree, n) && !watched[n]
      modifies this
      ensures Valid() && watchList == old(watchList) + [n] && boxes == old(boxes)[n := box]
    {
      ghost var before := watched;
      MarkedLeavesBefore(n);
      watchList := watchList + [n];
      SetRecursiveWatched(n);
      MarkedUp(tree, before, watched, n);
      MarkedDown(tree, before, watched, n);
      MarkedLeaves(tree, before, watched, boxes, old(watchList), n, box);
      boxes := boxes[n := box];
    }

    lemma {:induction false} MarkedLeavesBefore(n: nat)
      requires Valid() && IsNode(tree, n) && IsLeaf(tree, n) && !watched[n]
      ensures n !in watchList
    {
    }

    /** Unmarks a node without watched children, and then its ancestors while they have none. */
    method UnsetRecursiveWatched(p: nat)
      requires ValidTree(tree) && IsNode(tree, p) && LeavesMatch(tree, watched, boxes, watchList)
      requires UpClosed(tree, watched) && DownClosedBut(tree, watched, p)
      requires IsLeaf(tree, p) ==> !watched[p]
      modifies this`watched
      ensures Valid()
      decreases p
    {
      var descent := true;
      var i := 0;
      while i < |tree.children[p]|
        invariant 0 <= i <= |tree.children[p]| && watched == old(watched)
        invariant descent <==> forall j :: 0 <= j < i ==> !Flag(tree.children[p][j])
      {
        ChildOf(tree, p, i);
        if watched[tree.children[p][i]] {
          descent := false;
        }
        i := i + 1;
      }
      ghost var kids := tree.children[p];
      if !descent {
        ghost var j :| 0 <= j < |kids| && Flag(kids[j]);
        assert kids[j] in kids;
      }
      if descent {
        var q := tree.parent[p];
        ParentOf(tree, p);
        ClimbOn(tree, watched, p, q);
        watched := watched[p := false];
        if q != 0 {
          UnsetRecursiveWatched(q);
        }
      } else {
        ClimbStops(tree, watched, p);
      }
    }

    predicate Flag(n: nat)
      reads this
    {
      n < |watched| && watched[n]
    }

    /** Unwatches a node: its subtree is cleared with an explicit stack, and the climb to the marked
        ancestors starts at the node popped last. */
    method UnsetItemWatched(n: nat)
      requires Valid() && IsNode(tree, n)
      modifies this
      ensures Valid() && watchList == Without(old(watchList), Subtree(tree, n))
      ensures BoxesErased(tree, old(boxes), boxes, Subtree(tree, n))
    {
      ghost var before, had, list0 := watched, boxes, watchList;
      var stack: seq<nat>, item: nat := [n], n;
      ghost var gone: set<nat> := {};
      WithoutNone(watchList);
      while stack != []
        invariant |watched| == |boxes| == |tree.parent| && Nodes(tree, stack)
        invariant Progress(tree, n, stack, gone)
        invariant Erased(tree, before, watched, gone) && BoxesErased(tree, had, boxes, gone)
        invariant watchList == Without(list0, gone)
        invariant IsNode(tree, item) && Under(tree, item, n) && (stack == [] ==> IsLeaf(tree, item))
        decreases Weight(tree, stack)
      {
        ghost var all := stack;
        item := stack[|stack| - 1];
        stack := stack[..|stack| - 1];
        PopAndPush(tree, n, all, stack, item, gone);
        EraseOne(tree, before, watched, had, boxes, gone, item);
        DropOne(tree, list0, gone, item);
        watched := watched[item := false];
        if !IsLeaf(tree, item) {
          stack := stack + tree.children[item];
        } else {
          boxes := boxes[item := false];
          watchList := Without(watchList, {item});
        }
        gone := gone + {item};
      }
      AllGone(tree, n, stack, gone);
      ClearedGap(tree, before, watched, n, item);
      ClearedLeaves(tree, before, watched, had, boxes, list0, n, gone);
      UnsetRecursiveWatched(item);
    }
  }

  // ---------- What holds over every run ----------

  lemma {:induction false} ListedBelow(t: Tree, watched: seq<bool>, boxes: seq<bool>, list: seq<nat>, n: nat)
    returns (x: nat)
    requires ValidTree(t) && Closed(t, watched, boxes, list) && IsNode(t, n) && watched[n]
    ensures x in list && x < |t.parent| && Under(t, x, n)
    decreases |t.parent| - n
  {
    if IsLeaf(t, n) {
      x := n;
    } else {
      var c :| c in t.children[n] && c < |watched| && watched[c];
      assert Linked(t, n);
      x := ListedBelow(t, watched, boxes, list, c);
      ParentOf(t, c);
      UnderTrans(t, x, c, n);
    }
  }

  /** The marks say exactly what the list says: a node is marked if and only if a listed leaf lies
      below it. */
  lemma {:induction false} MarkedIffListedBelow(t: Tree, watched: seq<bool>, boxes: seq<bool>, list: seq<nat>, n: nat)
    requires ValidTree(t) && Closed(t, watched, boxes, list) && IsNode(t, n)
    ensures watched[n] <==> exists x :: x in list && x < |t.parent| && Under(t, x, n)
    decreases |t.parent| - n
  {
    if watched[n] {
      var x := ListedBelow(t, watched, boxes, list, n);
    } else if x :| x in list && x < |t.parent| && Under(t, x, n) {
      WatchedUp(t, watched, x, n);
    }
  }

  lemma {:induction false} OpenTop(t: Tree, x: nat, n: nat)
    requires ValidTree(t) && x < |t.parent| && n < |t.parent| && Open(t, x, n)
    ensures t.selectable[n]
    decreases x
  {
    if x == n {
    } else {
      ParentOf(t, x);
      OpenTop(t, t.parent[x], n);
    }
  }

  /** The open path to a leaf runs through one of the children. */
  ghost predicate OpenBelowChild(t: Tree, n: nat, k: nat, x: nat)
    requires ValidTree(t) && n < |t.parent| && k <= |t.children[n]| && x < |t.parent|
  {
    exists i :: 0 <= i < k && Under(t, x, t.children[n][i]) && Open(t, x, t.children[n][i])
  }

  lemma {:induction false} OpenThrough(t: Tree, x: nat, c: nat, n: nat)
    requires ValidTree(t) && x < |t.parent| && IsNode(t, c) && t.parent[c] == n < |t.parent| && t.selectable[n]
    requires Under(t, x, c)
    ensures Under(t, x, n) && (Open(t, x, n) <==> Open(t, x, c))
    decreases x
  {
    ParentOf(t, c);
    UnderTrans(t, x, c, n);
    if x == c {
    } else {
      ParentOf(t, x);
      OpenThrough(t, t.parent[x], c, n);
    }
  }

  lemma {:induction false} OpenBelow(t: Tree, x: nat, n: nat)
    requires ValidTree(t) && x < |t.parent| && n < |t.parent| && t.selectable[n] && !IsLeaf(t, n)
    ensures IsLeaf(t, x) && Under(t, x, n) && Open(t, x, n)
            <==> IsLeaf(t, x) && OpenBelowChild(t, n, |t.children[n]|, x)
  {
    if IsLeaf(t, x) && Under(t, x, n) {
      var c := Descend(t, x, n);
      OpenThrough(t, x, c, n);
    }
    if i :| 0 <= i < |t.children[n]| && Under(t, x, t.children[n][i]) && Open(t, x, t.children[n][i]) {
      ChildOf(t, n, i);
      OpenThrough(t, x, t.children[n][i], n);
    }
  }

  /** Watching appends, keeps the list free of duplicates, and adds the leaves that lie open below `n`. */
  lemma {:induction false} WatchAllHolds(t: Tree, list: seq<nat>, n: nat, x: nat)
    requires ValidTree(t) && n < |t.parent| && x < |t.parent|
    ensures list <= WatchAll(t, list, n) && (NoDuplicates(list) ==> NoDuplicates(WatchAll(t, list, n)))
    ensures x in WatchAll(t, list, n) <==> x in list || (IsLeaf(t, x) && Under(t, x, n) && Open(t, x, n))
    decreases |t.parent| - n, |t.children[n]| + 1
  {
    if t.selectable[n] && !IsLeaf(t, n) {
      WatchChildrenHolds(t, list, n, |t.children[n]|, x);
      OpenBelow(t, x, n);
    } else if IsLeaf(t, n) {
      if Under(t, x, n) {
        UnderLeaf(t, x, n);
      }
    } else if Under(t, x, n) && Open(t, x, n) {
      OpenTop(t, x, n);
      assert false;
    }
  }

  lemma {:induction false} WatchChildrenHolds(t: Tree, list: seq<nat>, n: nat, k: nat, x: nat)
    requires ValidTree(t) && n < |t.parent| && k <= |t.children[n]| && x < |t.parent|
    ensures list <= WatchChildren(t, list, n, k)
    ensures NoDuplicates(list) ==> NoDuplicates(WatchChildren(t, list, n, k))
    ensures x in WatchChildren(t, list, n, k) <==> x in list || (IsLeaf(t, x) && OpenBelowChild(t, n, k, x))
    decreases |t.parent| - n, k
  {
    if k == 0 {
    } else {
      ChildOf(t, n, k - 1);
      WatchChildrenHolds(t, list, n, k - 1, x);
      WatchAllHolds(t, WatchChildren(t, list, n, k - 1), t.children[n][k - 1], x);
    }
  }

  /** In tree order `x` comes before `y`: below some node they lie below different children, `x` first. */
  ghost predicate Precedes(t: Tree, x: nat, y: nat)
    requires ValidTree(t) && x < |t.parent| && y < |t.parent|
  {
    exists a, i, j :: 0 <= a < |t.parent| && 0 <= i < j < |t.children[a]|
                      && Under(t, x, t.children[a][i]) && Under(t, y, t.children[a][j])
  }

  /** The entries from `from` on are nodes, and stand in tree order. */
  ghost predicate InTreeOrder(t: Tree, list: seq<nat>, from: nat)
    requires ValidTree(t)
  {
    && (forall i :: from <= i < |list| ==> list[i] < |t.parent|)
    && forall i, j :: from <= i < j < |list| ==> Precedes(t, list[i], list[j])
  }

  /** The entries from `from` on lie below the first `k` children of `n`. */
  ghost predicate BelowFirst(t: Tree, list: seq<nat>, from: nat, n: nat, k: nat)
    requires ValidTree(t) && n < |t.parent| && k <= |t.children[n]|
  {
    forall i :: from <= i < |list| ==> list[i] < |t.parent| && UnderFirst(t, list[i], n, k)
  }

  /** Entries below the next child come behind those below the children before it. */
  lemma {:induction false} OrderedBehind(t: Tree, before: seq<nat>, all: seq<nat>, from: nat, n: nat, k: nat)
    requires ValidTree(t) && n < |t.parent| && 0 < k <= |t.children[n]| && from <= |before| && before <= all
    requires InTreeOrder(t, before, from) && BelowFirst(t, before, from, n, k - 1) && InTreeOrder(t, all, |before|)
    requires forall i :: |before| <= i < |all| ==> Under(t, all[i], t.children[n][k - 1])
    ensures InTreeOrder(t, all, from) && BelowFirst(t, all, from, n, k)
  {
    forall i | from <= i < |all| ensures all[i] < |t.parent| && UnderFirst(t, all[i], n, k) {
      if i < |before| {
        assert UnderFirst(t, before[i], n, k - 1);
        var c :| 0 <= c < k - 1 && Under(t, before[i], t.children[n][c]);
      }
    }
    forall i, j | from <= i < j < |all| ensures Precedes(t, all[i], all[j]) {
      if i < |before| <= j {
        assert UnderFirst(t, before[i], n, k - 1) && Under(t, all[j], t.children[n][k - 1]);
        var c :| 0 <= c < k - 1 && Under(t, before[i], t.children[n][c]);
      } else if j < |before| {
        assert Precedes(t, before[i], before[j]);
      }
    }
  }

  /** Watching a node appends its leaves in tree order. */
  lemma {:induction false} WatchAllInOrder(t: Tree, list: seq<nat>, n: nat)
    requires ValidTree(t) && n < |t.parent|
    ensures list <= WatchAll(t, list, n) && InTreeOrder(t, WatchAll(t, list, n), |list|)
    ensures forall i :: |list| <= i < |WatchAll(t, list, n)| ==> Under(t, WatchAll(t, list, n)[i], n)
    decreases |t.parent| - n, |t.children[n]| + 1
  {
    if t.selectable[n] && !IsLeaf(t, n) {
      WatchChildrenInOrder(t, list, n, |t.children[n]|);
      var all := WatchAll(t, list, n);
      forall i | |list| <= i < |all| ensures Under(t, all[i], n) {
        UnderSplit(t, all[i], n);
      }
    }
  }

  lemma {:induction false} WatchChildrenInOrder(t: Tree, list: seq<nat>, n: nat, k: nat)
    requires ValidTree(t) && n < |t.parent| && k <= |t.children[n]|
    ensures list <= WatchChildren(t, list, n, k) && InTreeOrder(t, WatchChildren(t, list, n, k), |list|)
    ensures BelowFirst(t, WatchChildren(t, list, n, k), |list|, n, k)
    decreases |t.parent| - n, k
  {
    if k == 0 {
    } else {
      ChildOf(t, n, k - 1);
      var before, c := WatchChildren(t, list, n, k - 1), t.children[n][k - 1];
      WatchChildrenInOrder(t, list, n, k - 1);
      WatchAllInOrder(t, before, c);
      OrderedBehind(t, before, WatchAll(t, before, c), |list|, n, k);
    }
  }

  datatype Event = Watch(node: nat) | Unwatch(node: nat)

  /** The watch list after the first `k` events of a run. */
  ghost function ListAfter(t: Tree, events: seq<Event>, k: nat): seq<nat>
    requires ValidTree(t) && k <= |events| && forall i :: 0 <= i < |events| ==> IsNode(t, events[i].node)
  {
    if k == 0 then []
    else
      match events[k - 1]
      case Watch(n) => WatchAll(t, ListAfter(t, events, k - 1), n)
      case Unwatch(n) => Without(ListAfter(t, events, k - 1), Subtree(t, n))
  }

  ghost predicate Touches(t: Tree, e: Event, x: nat)
    requires ValidTree(t) && x < |t.parent|
  {
    Under(t, x, e.node) && (e.Watch? ==> Open(t, x, e.node))
  }

  /** Whether the last event that touches leaf `x` is a watch. */
  ghost predicate LastIsWatch(t: Tree, events: seq<Event>, k: nat, x: nat)
    requires ValidTree(t) && k <= |events| && x < |t.parent|
  {
    k > 0 && if Touches(t, events[k - 1], x) then events[k - 1].Watch? else LastIsWatch(t, events, k - 1, x)
  }

  /** Over every run a leaf is in the list, exactly once, if and only if the last event that
      touches it is a watch. */
  lemma {:induction false} ListedIffLastIsWatch(t: Tree, events: seq<Event>, k: nat, x: nat)
    requires ValidTree(t) && k <= |events| && x < |t.parent|
    requires forall i :: 0 <= i < |events| ==> IsNode(t, events[i].node)
    ensures NoDuplicates(ListAfter(t, events, k))
    ensures x in ListAfter(t, events, k) <==> IsLeaf(t, x) && LastIsWatch(t, events, k, x)
  {
    if k == 0 {
    } else {
      ListedIffLastIsWatch(t, events, k - 1, x);
      var before := ListAfter(t, events, k - 1);
      match events[k - 1]
      case Watch(n) => WatchAllHolds(t, before, n, x);
      case Unwatch(n) => WithoutHolds(before, Subtree(t, n));
    }
  }
}
