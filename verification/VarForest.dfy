/**
 The variable tree as it comes to be: every variable of the shader is expanded, and its items are
 appended to their parents one by one. The tree that results is what the modules about change flags
 and uniform values take for granted.
 */
module VarForest {
  import opened Wrappers
  import opened VarTree
  import opened VarFlags
  import opened VarExpand
  import UniformStream
  import UniformValues

  /** The nodes made so far, with their labels and full names. */
  datatype Forest = Forest(tree: Tree, labels: Labels, names: seq<string>)

  function NodeCount(f: Forest): nat {
    |f.tree.parent|
  }

  /** The invisible root carries the headings of the columns. */
  function Planted(): Forest {
    Forest(Tree([0], [[]], [false]), Labels([-1], [OtherKind], [0], [false]), ["FullName"])
  }

  /** A new node for an item, behind the children that `p` has. */
  function AppendChild(f: Forest, p: nat, item: Item): (r: Forest)
    requires p < |f.tree.children|
    ensures |r.tree.children| == |f.tree.children| + 1
  {
    var t, l := f.tree, f.labels;
    Forest(Tree(t.parent + [p], t.children[p := t.children[p] + [NodeCount(f)]] + [[]],
      t.selectable + [item.selectable]),
           Labels(l.id + [item.id], l.kind + [if item.kind.Some? then item.kind.value else OtherKind],
                  l.position + [if item.indexA.Some? then item.indexA.value else 0], l.builtIn + [item.builtIn]),
           f.names + [item.fullName])
  }

  /** An item with everything below it. */
  function Hang(f: Forest, p: nat, item: Item): (r: Forest)
    requires p < |f.tree.children| == NodeCount(f)
    ensures |f.tree.children| <= |r.tree.children| == NodeCount(r)
    decreases item, 0
  {
    HangParts(AppendChild(f, p, item), NodeCount(f), item.children, |item.children|)
  }

  function HangParts(f: Forest, n: nat, items: seq<Item>, k: nat): (r: Forest)
    requires n < |f.tree.children| == NodeCount(f) && k <= |items|
    ensures |f.tree.children| <= |r.tree.children| == NodeCount(r)
    decreases items, k
  {
    if k == 0 then f else Hang(HangParts(f, n, items, k - 1), n, items[k - 1])
  }

  /** The tree of the first `k` variables. */
  function Grown(vs: seq<ShVariable>, k: nat): (r: Forest)
    requires k <= |vs|
    ensures 0 < |r.tree.children| == NodeCount(r)
  {
    if k == 0 then Planted() else Hang(Grown(vs, k - 1), 0, Expand(vs[k - 1], "", false, NoForce))
  }

  // ---------- What a forest keeps ----------

  ghost predicate Sized(f: Forest) {
    && 0 < NodeCount(f) == |f.tree.children| == |f.tree.selectable| == |f.names|
    && NodeCount(f) == |f.labels.id| == |f.labels.kind| == |f.labels.position| == |f.labels.builtIn|
  }

  /** The full name of a part is longer than that of its parent; with `placed`, the part also stands
      where its label says. */
  ghost predicate NodeFits(f: Forest, n: nat, placed: bool)
    requires Sized(f) && ValidTree(f.tree) && IsNode(f.tree, n)
  {
    ParentOf(f.tree, n);
    f.tree.parent[n] != 0 ==> |f.names[f.tree.parent[n]]| < |f.names[n]| && (placed ==> Placed(f.tree, f.labels, n))
  }

  ghost predicate DifferentIds(f: Forest)
    requires Sized(f) && ValidTree(f.tree)
  {
    forall i: nat, j: nat :: i < j < |f.tree.children[0]| ==>
      f.labels.id[Variable(f.tree, i)] != f.labels.id[Variable(f.tree, j)]
  }

  ghost predicate Sound(f: Forest, placed: bool) {
    && Sized(f) && ValidTree(f.tree) && DifferentIds(f)
    && forall n: nat :: IsNode(f.tree, n) ==> NodeFits(f, n, placed)
  }

  /** The label of an item says that it is part `k` of its parent. */
  predicate AtPosition(item: Item, k: nat) {
    item.kind.Some? && Steps(item.kind.value) && item.indexA == Some(k)
  }

  ghost predicate CanAppend(f: Forest, p: nat, item: Item, placed: bool)
    requires Sized(f) && ValidTree(f.tree) && p < NodeCount(f)
  {
    if p == 0 then forall i: nat :: i < |f.tree.children[0]| ==> f.labels.id[Variable(f.tree, i)] != item.id
    else |f.names[p]| < |item.fullName| && (placed ==> AtPosition(item, |f.tree.children[p]|))
  }

  /** The forest has grown, and of the nodes there were only `p` has got new children. */
  ghost predicate Extended(f: Forest, g: Forest, p: nat) {
    && Sized(f) && Sized(g) && f.tree.parent <= g.tree.parent && f.names <= g.names && f.labels.id <= g.labels.id
    && f.tree.selectable <= g.tree.selectable && f.labels.kind <= g.labels.kind
    && f.labels.position <= g.labels.position && f.labels.builtIn <= g.labels.builtIn
    && forall q: nat :: q < NodeCount(f) && q != p ==> g.tree.children[q] == f.tree.children[q]
  }

  lemma {:induction false} AppendLinks(f: Forest, p: nat, item: Item, n: nat)
    requires Sized(f) && ValidTree(f.tree) && p < NodeCount(f) && n <= NodeCount(f)
    ensures Linked(AppendChild(f, p, item).tree, n)
  {
    var t := AppendChild(f, p, item).tree;
    if n == NodeCount(f) {
      assert t.children[p][|f.tree.children[p]|] == n;
    } else {
      assert Linked(f.tree, n);
      if n > 0 {
        var up := f.tree.parent[n];
        var i :| 0 <= i < |f.tree.children[up]| && f.tree.children[up][i] == n;
        assert t.children[up][i] == n;
      }
    }
  }

  lemma {:induction false} AppendValid(f: Forest, p: nat, item: Item)
    requires Sized(f) && ValidTree(f.tree) && p < NodeCount(f)
    ensures Sized(AppendChild(f, p, item)) && ValidTree(AppendChild(f, p, item).tree)
    ensures Extended(f, AppendChild(f, p, item), p)
  {
    var t := AppendChild(f, p, item).tree;
    forall n: nat | n < |t.parent| ensures Linked(t, n) {
      AppendLinks(f, p, item, n);
    }
  }

  lemma {:induction false} AppendFits(f: Forest, p: nat, item: Item, placed: bool, n: nat)
    requires Sound(f, placed) && p < NodeCount(f) && CanAppend(f, p, item, placed)
    requires Sized(AppendChild(f, p, item)) && ValidTree(AppendChild(f, p, item).tree)
    requires 0 < n <= NodeCount(f)
    ensures NodeFits(AppendChild(f, p, item), n, placed)
  {
    if n == NodeCount(f) {
    } else {
      assert NodeFits(f, n, placed);
      ParentOf(f.tree, n);
    }
  }

  lemma {:induction false} AppendIds(f: Forest, p: nat, item: Item, placed: bool)
    requires Sound(f, placed) && p < NodeCount(f) && CanAppend(f, p, item, placed)
    requires Sized(AppendChild(f, p, item)) && ValidTree(AppendChild(f, p, item).tree)
    ensures DifferentIds(AppendChild(f, p, item))
  {
    var g := AppendChild(f, p, item);
    forall i: nat, j: nat | i < j < |g.tree.children[0]|
      ensures g.labels.id[Variable(g.tree, i)] != g.labels.id[Variable(g.tree, j)]
    {
      assert Variable(g.tree, i) == Variable(f.tree, i);
      if j < |f.tree.children[0]| {
        assert Variable(g.tree, j) == Variable(f.tree, j);
      } else {
        assert Variable(g.tree, j) == NodeCount(f);
      }
    }
  }

  lemma {:induction false} AppendSound(f: Forest, p: nat, item: Item, placed: bool)
    requires Sound(f, placed) && p < NodeCount(f) && CanAppend(f, p, item, placed)
    ensures Sound(AppendChild(f, p, item), placed) && Extended(f, AppendChild(f, p, item), p)
  {
    var g := AppendChild(f, p, item);
    AppendValid(f, p, item);
    AppendIds(f, p, item, placed);
    forall n: nat | IsNode(g.tree, n) ensures NodeFits(g, n, placed) {
      AppendFits(f, p, item, placed, n);
    }
  }

  // ---------- The tree shows the expansions ----------

  /** Node `n` says of itself what the item says. */
  ghost predicate Shows(f: Forest, n: nat, item: Item)
    requires Sized(f)
  {
    && n < NodeCount(f) && f.names[n] == item.fullName && f.labels.id[n] == item.id
    && (f.tree.selectable[n] <==> item.selectable) && (f.labels.builtIn[n] <==> item.builtIn)
    && (item.kind.Some? ==> f.labels.kind[n] == item.kind.value)
    && (item.indexA.Some? ==> f.labels.position[n] == item.indexA.value)
  }

  /** Node `n` and what lies below it show the item and what lies below that, in order. */
  ghost predicate Mirrors(f: Forest, n: nat, item: Item)
    requires Sized(f)
    decreases item
  {
    && Shows(f, n, item) && |f.tree.children[n]| == |item.children|
    && forall k: nat :: k < |item.children| ==> Mirrors(f, f.tree.children[n][k], item.children[k])
  }

  /** What is hung below `p` changes nothing below a later node. */
  lemma {:induction false} MirrorsStill(f: Forest, g: Forest, p: nat, n: nat, item: Item)
    requires Extended(f, g, p) && ValidTree(f.tree) && p < n && Mirrors(f, n, item)
    ensures Mirrors(g, n, item)
    decreases item
  {
    forall k: nat | k < |item.children| ensures Mirrors(g, g.tree.children[n][k], item.children[k]) {
      ChildOf(f.tree, n, k);
      MirrorsStill(f, g, p, f.tree.children[n][k], item.children[k]);
    }
  }

  lemma {:induction false} HangMirrors(f: Forest, p: nat, item: Item)
    requires Sized(f) && ValidTree(f.tree) && p < NodeCount(f)
    ensures var g := Hang(f, p, item);
            && Extended(f, g, p) && ValidTree(g.tree) && g.tree.children[p] == f.tree.children[p] + [NodeCount(f)]
            && Mirrors(g, NodeCount(f), item)
    decreases item, 0
  {
    AppendValid(f, p, item);
    PartsMirror(AppendChild(f, p, item), NodeCount(f), item.children, |item.children|);
  }

  lemma {:induction false} PartsMirror(f: Forest, n: nat, items: seq<Item>, k: nat)
    requires Sized(f) && ValidTree(f.tree) && n < NodeCount(f) && f.tree.children[n] == [] && k <= |items|
    ensures var g := HangParts(f, n, items, k);
            && Extended(f, g, n) && ValidTree(g.tree) && |g.tree.children[n]| == k
            && forall i: nat :: i < k ==> Mirrors(g, g.tree.children[n][i], items[i])
    decreases items, k
  {
    if k == 0 {
    } else {
      PartsMirror(f, n, items, k - 1);
      var h, g := HangParts(f, n, items, k - 1), HangParts(f, n, items, k);
      HangMirrors(h, n, items[k - 1]);
      forall i: nat | i < k - 1 ensures Mirrors(g, g.tree.children[n][i], items[i]) {
        ChildOf(h.tree, n, i);
        MirrorsStill(h, g, n, h.tree.children[n][i], items[i]);
      }
    }
  }

  /** The variables below the root show the expansions of the shader's variables, in order. */
  lemma {:induction false} TreeMirrors(vs: seq<ShVariable>, k: nat)
    requires k <= |vs|
    ensures var f := Grown(vs, k);
            && Sized(f) && ValidTree(f.tree) && |f.tree.children[0]| == k
            && forall i: nat :: i < k ==> Mirrors(f, f.tree.children[0][i], Expand(vs[i], "", false, NoForce))
  {
    if k == 0 {
      assert Linked(Planted().tree, 0);
    } else {
      TreeMirrors(vs, k - 1);
      var f, g := Grown(vs, k - 1), Grown(vs, k);
      HangMirrors(f, 0, Expand(vs[k - 1], "", false, NoForce));
      forall i: nat | i < k - 1 ensures Mirrors(g, g.tree.children[0][i], Expand(vs[i], "", false, NoForce)) {
        ChildOf(f.tree, 0, i);
        MirrorsStill(f, g, 0, f.tree.children[0][i], Expand(vs[i], "", false, NoForce));
      }
    }
  }

  // ---------- Whole items ----------

  /** What the items below an item must be like: longer names, and labels that count them. */
  ghost predicate Tidy(item: Item, placed: bool)
    decreases item, 0
  {
    forall k: nat :: k < |item.children| ==> TidyPart(item.fullName, item.children, placed, k)
  }

  ghost predicate TidyPart(full: string, items: seq<Item>, placed: bool, k: nat)
    requires k < |items|
    decreases items, 0
  {
    |full| < |items[k].fullName| && (placed ==> AtPosition(items[k], k)) && Tidy(items[k], placed)
  }

  /** What hanging an item below `p` does. */
  ghost predicate Hung(f: Forest, g: Forest, p: nat, placed: bool)
    requires Sized(f) && p < NodeCount(f)
  {
    Sound(g, placed) && Extended(f, g, p) && g.tree.children[p] == f.tree.children[p] + [NodeCount(f)]
  }

  lemma {:induction false} HangSound(f: Forest, p: nat, item: Item, placed: bool)
    requires Sound(f, placed) && p < NodeCount(f) && CanAppend(f, p, item, placed) && Tidy(item, placed)
    ensures Hung(f, Hang(f, p, item), p, placed)
    ensures NodeCount(f) < NodeCount(Hang(f, p, item)) && Hang(f, p, item).labels.id[NodeCount(f)] == item.id
    decreases item, 0
  {
    var h := AppendChild(f, p, item);
    AppendSound(f, p, item, placed);
    PartsSound(h, NodeCount(f), item.children, |item.children|, placed);
  }

  lemma {:induction false} PartsSound(f: Forest, n: nat, items: seq<Item>, k: nat, placed: bool)
    requires Sound(f, placed) && 0 < n < NodeCount(f) && f.tree.children[n] == [] && k <= |items|
    requires forall i: nat :: i < |items| ==> TidyPart(f.names[n], items, placed, i)
    ensures var g := HangParts(f, n, items, k);
            Sound(g, placed) && Extended(f, g, n) && |g.tree.children[n]| == k
    decreases items, k
  {
    if k == 0 {
    } else {
      PartsSound(f, n, items, k - 1, placed);
      var h := HangParts(f, n, items, k - 1);
      assert TidyPart(f.names[n], items, placed, k - 1);
      HangSound(h, n, items[k - 1], placed);
    }
  }

  // ---------- Expansions are tidy ----------

  /** There is no matrix below the variable. */
  predicate NoMatrix(v: ShVariable) {
    if v.fields == [] then !v.isMatrix else forall f :: f in v.fields ==> NoMatrix(f)
  }

  lemma {:induction false} ExpansionTidy(v: ShVariable, base: string, forceBuiltIn: bool, f: Force, placed: bool)
    requires placed ==> NoMatrix(v)
    ensures Tidy(Expand(v, base, forceBuiltIn, f), placed)
    decreases v.fields, ArraysLeft(v), OneIf(v.isMatrix), OneIf(v.size > 1), 1
  {
    var full := FullName(v, base, f);
    var parts := Parts(v, full, forceBuiltIn, PartCount(v));
    forall k: nat | k < |parts| ensures TidyPart(full, parts, placed, k) {
      PartTidy(v, full, forceBuiltIn, parts, placed, k);
    }
  }

  lemma {:induction false} PartTidy(v: ShVariable, full: string, forceBuiltIn: bool, parts: seq<Item>, placed: bool,
                                    k: nat)
    requires (placed ==> NoMatrix(v)) && k < PartCount(v) && parts == Parts(v, full, forceBuiltIn, PartCount(v))
    ensures TidyPart(full, parts, placed, k)
    decreases v.fields, ArraysLeft(v), OneIf(v.isMatrix), OneIf(v.size > 1), 0
  {
    var p := PartOf(v, k);
    PartAt(v, full, forceBuiltIn, PartCount(v), k);
    ExpansionTidy(p.0, full, ForcedBelow(v, forceBuiltIn), p.1, placed);
  }

  // ---------- The tree of a shader ----------

  /** The compiler gives every variable an id of its own. */
  ghost predicate OwnIds(vs: seq<ShVariable>) {
    forall i, j :: 0 <= i < j < |vs| ==> vs[i].id != vs[j].id
  }

  ghost predicate TopIds(f: Forest, vs: seq<ShVariable>, k: nat)
    requires Sized(f) && ValidTree(f.tree) && k <= |vs|
  {
    |f.tree.children[0]| == k && forall i: nat :: i < k ==> f.labels.id[Variable(f.tree, i)] == vs[i].id
  }

  lemma {:induction false} GrownSound(vs: seq<ShVariable>, k: nat, placed: bool)
    requires OwnIds(vs) && k <= |vs| && (placed ==> forall v :: v in vs ==> NoMatrix(v))
    ensures Sound(Grown(vs, k), placed) && TopIds(Grown(vs, k), vs, k)
  {
    if k == 0 {
      assert Linked(Planted().tree, 0);
    } else {
      GrownSound(vs, k - 1, placed);
      var f, item := Grown(vs, k - 1), Expand(vs[k - 1], "", false, NoForce);
      assert vs[k - 1] in vs;
      ExpansionTidy(vs[k - 1], "", false, NoForce, placed);
      HangSound(f, 0, item, placed);
    }
  }

  /** Without matrices, the labels of the tree fit it: parts stand where they say, and no two variables
      share an id. */
  lemma {:induction false} TreeIsLabelled(vs: seq<ShVariable>)
    requires OwnIds(vs) && forall v :: v in vs ==> NoMatrix(v)
    ensures Labelled(Grown(vs, |vs|).tree, Grown(vs, |vs|).labels)
  {
    GrownSound(vs, |vs|, true);
    var f := Grown(vs, |vs|);
    forall n: nat | IsNode(f.tree, n) && f.tree.parent[n] != 0 ensures Placed(f.tree, f.labels, n) {
      assert NodeFits(f, n, true);
    }
  }

  lemma {:induction false} LongerBelow(f: Forest, k: nat, a: nat)
    requires Sound(f, false) && k < NodeCount(f) && IsNode(f.tree, a) && Under(f.tree, k, a) && k != a
    ensures |f.names[a]| < |f.names[k]|
    decreases k
  {
    ParentOf(f.tree, k);
    assert NodeFits(f, k, false);
    if f.tree.parent[k] == a {
    } else {
      LongerBelow(f, f.tree.parent[k], a);
    }
  }

  function Bytes(s: string): (r: seq<UniformStream.Byte>)
    ensures |r| == |s|
  {
    seq(|s|, i requires 0 <= i < |s| => (s[i] as int % 256) as UniformStream.Byte)
  }

  function BytesOf(names: seq<string>): (r: seq<seq<UniformStream.Byte>>)
    ensures |r| == |names|
  {
    seq(|names|, n requires 0 <= n < |names| => Bytes(names[n]))
  }

  /** With or without matrices, no item has the full name of an item above it. */
  lemma {:induction false} TreeNamesAreProper(vs: seq<ShVariable>)
    requires OwnIds(vs)
    ensures UniformValues.ProperNames(Grown(vs, |vs|).tree, BytesOf(Grown(vs, |vs|).names))
  {
    GrownSound(vs, |vs|, false);
    var f := Grown(vs, |vs|);
    forall k: nat, a: nat | k < NodeCount(f) && IsNode(f.tree, a) && Under(f.tree, k, a) && k != a
      ensures BytesOf(f.names)[k] != BytesOf(f.names)[a]
    {
      LongerBelow(f, k, a);
    }
  }
}
