/**
 What a debug step does to the tree of shader variables: which nodes are flagged as changed, and in
 which scope they are. Changed variables arrive as access paths; the same paths are sent to the
 compiler to ask for the value of a node.
 */
module VarFlags {
  import opened VarTree
  import opened VarScope

  datatype IndexKind = ArrayDirect | ArrayIndirect | Member | Swizzle | OtherKind

  datatype Index = Index(kind: IndexKind, index: int)

  /** A changed variable, or a part of one: the unique id of the variable and a path into it. */
  datatype Changeable = Changeable(id: int, indices: seq<Index>)

  /** What the nodes say about themselves: the unique id of a variable, and for a part of a variable
      how it is reached from its parent. */
  datatype Labels = Labels(id: seq<int>, kind: seq<IndexKind>, position: seq<nat>, builtIn: seq<bool>)

  ghost function Variable(t: Tree, i: nat): (r: nat)
    requires ValidTree(t) && i < |t.children[0]|
    ensures IsNode(t, r) && t.parent[r] == 0 && r == t.children[0][i]
  {
    ChildOf(t, 0, i);
    t.children[0][i]
  }

  ghost predicate Placed(t: Tree, l: Labels, n: nat)
    requires ValidTree(t) && IsNode(t, n) && |l.kind| == |l.position| == |t.parent|
  {
    ParentOf(t, n);
    && l.position[n] < |t.children[t.parent[n]]| && t.children[t.parent[n]][l.position[n]] == n
    && (l.kind[n].ArrayDirect? || l.kind[n].ArrayIndirect? || l.kind[n].Member?)
  }

  /** The labels fit the tree: variables have different ids, and a part stands where its label says.
      Parts of matrices carry two indices and are not covered. */
  ghost predicate Labelled(t: Tree, l: Labels) {
    && ValidTree(t) && |l.id| == |l.kind| == |l.position| == |l.builtIn| == |t.parent|
    && (forall i: nat, j: nat :: i < j < |t.children[0]| ==> l.id[Variable(t, i)] != l.id[Variable(t, j)])
    && (forall n: nat :: IsNode(t, n) && t.parent[n] != 0 ==> Placed(t, l, n))
  }

  /** The access path of a node. */
  ghost function PathOf(t: Tree, l: Labels, n: nat): Changeable
    requires Labelled(t, l) && IsNode(t, n)
    decreases n
  {
    ParentOf(t, n);
    if t.parent[n] == 0 then Changeable(l.id[n], [])
    else
      var up := PathOf(t, l, t.parent[n]);
      up.(indices := up.indices + [Index(l.kind[n], l.position[n])])
  }

  // ---------- What an access path flags ----------

  predicate Steps(k: IndexKind) {
    k.ArrayDirect? || k.ArrayIndirect? || k.Member?
  }

  /** Component `m` of a swizzle mask, as the code reads it: the mask is a two's complement number. */
  predicate Bit(mask: int, m: nat)
    requires m < 4
  {
    mask / [1, 2, 4, 8][m] % 2 == 1
  }

  /** The path can be followed from node `n`: its indices name children, a swizzle names components
      and comes last. */
  ghost predicate Follows(t: Tree, n: nat, path: seq<Index>)
    requires ValidTree(t) && n < |t.parent|
    decreases |path|
  {
    path == [] ||
      var s := path[0];
      if Steps(s.kind) then
        s.index == -1 ||
          (0 <= s.index < |t.children[n]| && (ChildOf(t, n, s.index); Follows(t, t.children[n][s.index], path[1..])))
      else if s.kind.Swizzle? then |path| == 1 && forall m: nat :: m < 4 && Bit(s.index, m) ==> m < |t.children[n]|
      else Follows(t, n, path[1..])
  }

  ghost function Components(t: Tree, n: nat, mask: int, k: nat): set<nat>
    requires n < |t.children| && k <= 4
    requires forall m: nat :: m < 4 && Bit(mask, m) ==> m < |t.children[n]|
  {
    if k == 0 then {}
    else Components(t, n, mask, k - 1) + if Bit(mask, k - 1) then {t.children[n][k - 1]} else {}
  }

  /** The nodes that a path flags below node `n`, which is flagged already. */
  ghost function FlaggedBy(t: Tree, n: nat, path: seq<Index>): set<nat>
    requires ValidTree(t) && n < |t.parent| && Follows(t, n, path)
    decreases |path|
  {
    if path == [] then Subtree(t, n)
    else
      var s := path[0];
      if Steps(s.kind) then
        if s.index == -1 then Subtree(t, n)
        else
          ChildOf(t, n, s.index);
          {t.children[n][s.index]} + FlaggedBy(t, t.children[n][s.index], path[1..])
      else if s.kind.Swizzle? then Components(t, n, s.index, 4)
      else FlaggedBy(t, n, path[1..])
  }

  /** An entry of a change list can be followed in every variable it names. */
  ghost predicate WellFormed(t: Tree, l: Labels, c: Changeable)
    requires Labelled(t, l)
  {
    forall i: nat :: i < |t.children[0]| && l.id[Variable(t, i)] == c.id ==> Follows(t, Variable(t, i), c.indices)
  }

  /** As `ChangedBy`, among the first `k` variables. */
  ghost function ChangedFirst(t: Tree, l: Labels, c: Changeable, k: nat): set<nat>
    requires Labelled(t, l) && WellFormed(t, l, c) && k <= |t.children[0]|
  {
    if k == 0 then {}
    else
      var r := Variable(t, k - 1);
      ChangedFirst(t, l, c, k - 1) + if l.id[r] == c.id then {r} + FlaggedBy(t, r, c.indices) else {}
  }

  /** The nodes that an entry of a change list flags. */
  ghost function ChangedBy(t: Tree, l: Labels, c: Changeable): set<nat>
    requires Labelled(t, l) && WellFormed(t, l, c)
  {
    ChangedFirst(t, l, c, |t.children[0]|)
  }

  /** The nodes that the first `k` entries of a change list flag. */
  ghost function ChangedByAll(t: Tree, l: Labels, list: seq<Changeable>, k: nat): set<nat>
    requires Labelled(t, l) && k <= |list| && forall c :: c in list ==> WellFormed(t, l, c)
  {
    if k == 0 then {} else ChangedByAll(t, l, list, k - 1) + ChangedBy(t, l, list[k - 1])
  }

  // ---------- Sending a path and getting it back ----------

  /** From an ancestor `a` of `n`, the path flags the nodes between, `n` and the nodes `s` below `n`. */
  ghost predicate LeadsTo(t: Tree, a: nat, path: seq<Index>, n: nat, s: set<nat>)
    requires ValidTree(t) && a < |t.parent| && n < |t.parent|
  {
    && Under(t, n, a) && Follows(t, a, path)
    && forall k: nat :: k in FlaggedBy(t, a, path) <==>
                          k in s || (k < |t.parent| && Under(t, n, k) && Under(t, k, a) && k != a)
  }

  lemma {:induction false} Between(t: Tree, n: nat, k: nat, a: nat, p: nat)
    requires ValidTree(t) && n < |t.parent| && k < |t.parent| && IsNode(t, a) && t.parent[a] == p
    requires Under(t, n, k) && Under(t, n, a) && k != a
    ensures Under(t, k, p) && k != p <==> Under(t, k, a)
  {
    ParentOf(t, a);
    if Under(t, k, a) {
      UnderTrans(t, k, a, p);
    } else if Under(t, k, p) && k != p {
      if a <= k {
        Chain(t, n, a, k);
        assert false;
      }
      Chain(t, n, k, a);
      assert false;
    }
  }

  /** A path that leads to `n` from a part, with the index of the part in front, leads to `n` from
      the part's parent. */
  lemma {:induction false} LeadsFromParent(t: Tree, l: Labels, a: nat, path: seq<Index>, n: nat, s: set<nat>)
    requires Labelled(t, l) && IsNode(t, a) && t.parent[a] != 0 && n < |t.parent| && LeadsTo(t, a, path, n, s)
    ensures t.parent[a] < |t.parent| && LeadsTo(t, t.parent[a], [Index(l.kind[a], l.position[a])] + path, n, s)
  {
    var p, index := t.parent[a], Index(l.kind[a], l.position[a]);
    var whole := [index] + path;
    assert Placed(t, l, a) && whole[1..] == path && whole[0] == index;
    ParentOf(t, a);
    UnderTrans(t, n, a, p);
    assert FlaggedBy(t, p, whole) == {a} + FlaggedBy(t, a, path);
    forall k: nat | k < |t.parent| && Under(t, n, k) && k != a
      ensures Under(t, k, p) && k != p <==> Under(t, k, a)
    {
      Between(t, n, k, a, p);
    }
  }

  /** The path `whole`, of `n` and maybe something behind, from ancestor `a` on. */
  lemma {:induction false} PathLeads(t: Tree, l: Labels, a: nat, path: seq<Index>, n: nat, whole: Changeable,
                                     s: set<nat>)
    requires Labelled(t, l) && IsNode(t, a) && n < |t.parent| && LeadsTo(t, a, path, n, s)
    requires whole == Changeable(PathOf(t, l, a).id, PathOf(t, l, a).indices + path)
    ensures LeadsTo(t, Top(t, a), whole.indices, n, s) && whole.id == l.id[Top(t, a)]
    decreases a
  {
    ParentOf(t, a);
    if t.parent[a] == 0 {
      assert whole.indices == path;
    } else {
      var index := Index(l.kind[a], l.position[a]);
      LeadsFromParent(t, l, a, path, n, s);
      var up := PathOf(t, l, t.parent[a]);
      assert PathOf(t, l, a).indices + path == up.indices + ([index] + path);
      PathLeads(t, l, t.parent[a], [index] + path, n, whole, s);
    }
  }

  lemma {:induction false} OnlyVariable(t: Tree, l: Labels, c: Changeable, r: nat, k: nat)
    requires Labelled(t, l) && WellFormed(t, l, c) && k <= |t.children[0]|
    requires r < |t.children[0]| && l.id[Variable(t, r)] == c.id
    ensures ChangedFirst(t, l, c, k) == if r < k then {Variable(t, r)} + FlaggedBy(t, Variable(t, r), c.indices) else {}
  {
    if k == 0 {
    } else {
      OnlyVariable(t, l, c, r, k - 1);
    }
  }

  lemma {:induction false} SameTop(t: Tree, n: nat, k: nat)
    requires ValidTree(t) && IsNode(t, n) && IsNode(t, k) && Under(t, n, k)
    ensures Top(t, n) == Top(t, k)
    decreases n
  {
    if n == k {
    } else {
      ParentOf(t, n);
      SameTop(t, t.parent[n], k);
    }
  }

  /** The path of `n` with `more` behind it flags the ancestors of `n`, `n`, and what `more` flags from there. */
  lemma {:induction false} PathFlags(t: Tree, l: Labels, n: nat, more: seq<Index>, c: Changeable, s: set<nat>, k: nat)
    requires Labelled(t, l) && IsNode(t, n) && LeadsTo(t, n, more, n, s)
    requires c == Changeable(PathOf(t, l, n).id, PathOf(t, l, n).indices + more)
    ensures WellFormed(t, l, c)
    ensures k in ChangedBy(t, l, c) <==> k in s || (IsNode(t, k) && Under(t, n, k))
  {
    var top := Top(t, n);
    PathLeads(t, l, n, more, n, c, s);
    var r: nat :| r < |t.children[0]| && t.children[0][r] == top;
    assert Variable(t, r) == top;
    forall i: nat | i < |t.children[0]| && l.id[Variable(t, i)] == c.id ensures Follows(t, Variable(t, i), c.indices) {
      assert !(i < r) && !(r < i);
    }
    OnlyVariable(t, l, c, r, |t.children[0]|);
    if k < |t.parent| && Under(t, n, k) && k > 0 {
      UnderTop(t, k, top);
      SameTop(t, n, k);
    }
    UnderTop(t, n, top);
  }

  /** A node's own access path is a well-formed change, and it flags the node, its ancestors and
      its descendants, and nothing else. */
  lemma {:induction false} PathRoundTrip(t: Tree, l: Labels, n: nat, k: nat)
    requires Labelled(t, l) && IsNode(t, n)
    ensures WellFormed(t, l, PathOf(t, l, n))
    ensures k in ChangedBy(t, l, PathOf(t, l, n)) <==> IsNode(t, k) && (Under(t, k, n) || Under(t, n, k))
  {
    var c := PathOf(t, l, n);
    assert c.indices + [] == c.indices;
    PathFlags(t, l, n, [], c, Subtree(t, n), k);
  }

  /** An index -1 behind the path of a node says that any part of the node may have changed. */
  lemma {:induction false} AnyPart(t: Tree, l: Labels, n: nat, kind: IndexKind, more: seq<Index>, k: nat)
    requires Labelled(t, l) && IsNode(t, n) && (kind.ArrayDirect? || kind.ArrayIndirect? || kind.Member?)
    ensures var c := Changeable(PathOf(t, l, n).id, PathOf(t, l, n).indices + ([Index(kind, -1)] + more));
            && WellFormed(t, l, c)
            && (k in ChangedBy(t, l, c) <==> IsNode(t, k) && (Under(t, k, n) || Under(t, n, k)))
  {
    var all := [Index(kind, -1)] + more;
    PathFlags(t, l, n, all, Changeable(PathOf(t, l, n).id, PathOf(t, l, n).indices + all), Subtree(t, n), k);
  }

  /** The bits of a mask, from the lowest on. */
  lemma {:induction false} BitsOf(mask: int, b0: bool, b1: bool, b2: bool, b3: bool)
    requires mask == (if b0 then 1 else 0) + (if b1 then 2 else 0) + (if b2 then 4 else 0) + (if b3 then 8 else 0)
    ensures Bit(mask, 0) == b0 && Bit(mask, 1) == b1 && Bit(mask, 2) == b2 && Bit(mask, 3) == b3
  {
  }

  lemma {:induction false} ComponentsIff(t: Tree, n: nat, mask: int, b: seq<bool>, j: nat, k: nat)
    requires n < |t.children| && |t.children[n]| == |b| == 4 && j <= 4
    requires forall m: nat :: m < 4 ==> Bit(mask, m) == b[m]
    ensures k in Components(t, n, mask, j) <==> exists m :: 0 <= m < j && b[m] && k == t.children[n][m]
  {
    if j == 0 {
    } else {
      ComponentsIff(t, n, mask, b, j - 1, k);
    }
  }

  /** A swizzle flags exactly the components whose bits are set. */
  lemma {:induction false} SwizzleComponents(t: Tree, n: nat, mask: int, b: seq<bool>)
    requires ValidTree(t) && n < |t.parent| && |t.children[n]| == |b| == 4
    requires mask == (if b[0] then 1 else 0) + (if b[1] then 2 else 0) + (if b[2] then 4 else 0)
                     + (if b[3] then 8 else 0)
    ensures Follows(t, n, [Index(Swizzle, mask)])
    ensures forall k: nat :: k in FlaggedBy(t, n, [Index(Swizzle, mask)]) <==>
                               exists m :: 0 <= m < 4 && b[m] && k == t.children[n][m]
  {
    BitsOf(mask, b[0], b[1], b[2], b[3]);
    forall k: nat ensures k in Components(t, n, mask, 4) <==>
                            exists m :: 0 <= m < 4 && b[m] && k == t.children[n][m] {
      ComponentsIff(t, n, mask, b, 4, k);
    }
  }

  /** A swizzle behind the path of a vector: its ancestors, the vector and the components whose bits are set
      are flagged, and nothing else. Bit 0 stands for the first component. */
  lemma {:induction false} SwizzleRoundTrip(t: Tree, l: Labels, n: nat, mask: int, b: seq<bool>, k: nat)
    requires Labelled(t, l) && IsNode(t, n) && |t.children[n]| == |b| == 4
    requires mask == (if b[0] then 1 else 0) + (if b[1] then 2 else 0) + (if b[2] then 4 else 0)
                     + (if b[3] then 8 else 0)
    ensures var c := Changeable(PathOf(t, l, n).id, PathOf(t, l, n).indices + [Index(Swizzle, mask)]);
            && WellFormed(t, l, c)
            && (k in ChangedBy(t, l, c) <==>
                  || (IsNode(t, k) && Under(t, n, k))
                  || exists m :: 0 <= m < 4 && b[m] && k == t.children[n][m])
  {
    var more := [Index(Swizzle, mask)];
    SwizzleComponents(t, n, mask, b);
    PathFlags(t, l, n, more, Changeable(PathOf(t, l, n).id, PathOf(t, l, n).indices + more),
      FlaggedBy(t, n, more), k);
  }

  /** The flags of a change list are those of its entries together. */
  lemma {:induction false} ChangedTogether(t: Tree, l: Labels, list: seq<Changeable>, j: nat, k: nat)
    requires Labelled(t, l) && j <= |list| && forall c :: c in list ==> WellFormed(t, l, c)
    ensures k in ChangedByAll(t, l, list, j) <==> exists i :: 0 <= i < j && k in ChangedBy(t, l, list[i])
  {
    if j == 0 {
    } else {
      ChangedTogether(t, l, list, j - 1, k);
    }
  }

  lemma {:induction false} ComponentsAre(t: Tree, n: nat, mask: int, j: nat, k: nat)
    requires ValidTree(t) && n < |t.parent| && j <= 4 && forall m: nat :: m < 4 && Bit(mask, m) ==> m < |t.children[n]|
    requires k in Components(t, n, mask, j)
    ensures IsNode(t, k) && t.parent[k] == n && Under(t, k, n)
  {
    if Bit(mask, j - 1) {
      ChildOf(t, n, j - 1);
    }
    if !(Bit(mask, j - 1) && k == t.children[n][j - 1]) {
      ComponentsAre(t, n, mask, j - 1, k);
    }
  }

  /** Only nodes below the starting node are flagged, and a flagged node's parent is flagged too. */
  lemma {:induction false} FlaggedClosed(t: Tree, n: nat, path: seq<Index>, k: nat)
    requires ValidTree(t) && n < |t.parent| && Follows(t, n, path) && k in FlaggedBy(t, n, path)
    ensures k < |t.parent| && Under(t, k, n)
    ensures k != n ==> t.parent[k] == n || t.parent[k] in FlaggedBy(t, n, path)
    decreases |path|
  {
    if path == [] || (Steps(path[0].kind) && path[0].index == -1) {
      if k != n {
        ParentOf(t, k);
      }
    } else if Steps(path[0].kind) {
      var c := t.children[n][path[0].index];
      ChildOf(t, n, path[0].index);
      if k != c {
        FlaggedClosed(t, c, path[1..], k);
        UnderTrans(t, k, c, n);
      }
    } else if path[0].kind.Swizzle? {
      ComponentsAre(t, n, path[0].index, 4, k);
    } else {
      FlaggedClosed(t, n, path[1..], k);
    }
  }

  lemma {:induction false} ParentFlagged(t: Tree, l: Labels, c: Changeable, j: nat, k: nat)
    requires Labelled(t, l) && WellFormed(t, l, c) && j <= |t.children[0]| && k in ChangedFirst(t, l, c, j)
    ensures IsNode(t, k) && (t.parent[k] != 0 ==> t.parent[k] in ChangedFirst(t, l, c, j))
  {
    var r := Variable(t, j - 1);
    if l.id[r] == c.id && k in FlaggedBy(t, r, c.indices) {
      FlaggedClosed(t, r, c.indices, k);
    } else if !(l.id[r] == c.id && k == r) {
      ParentFlagged(t, l, c, j - 1, k);
    }
  }

  /** Over any change list the flags are closed under parents, up to the variable. */
  lemma {:induction false} ParentsAreFlagged(t: Tree, l: Labels, list: seq<Changeable>, j: nat, k: nat)
    requires Labelled(t, l) && j <= |list| && forall c :: c in list ==> WellFormed(t, l, c)
    requires k in ChangedByAll(t, l, list, j)
    ensures IsNode(t, k) && (t.parent[k] != 0 ==> t.parent[k] in ChangedByAll(t, l, list, j))
  {
    if k in ChangedBy(t, l, list[j - 1]) {
      ParentFlagged(t, l, list[j - 1], |t.children[0]|, k);
    } else {
      ParentsAreFlagged(t, l, list, j - 1, k);
    }
  }

  // ---------- Scopes ----------

  ghost function SeenIn(l: Labels, r: nat, listed: seq<int>, stacked: seq<int>): Sighting
    requires r < |l.id|
  {
    Sighting(l.id[r] in listed, l.id[r] in stacked)
  }

  /** The scope of node `k` after a step: the next scope of its variable, unless that is built in. */
  ghost function ScopeNext(t: Tree, l: Labels, scope: seq<Scope>, k: nat, listed: seq<int>, stacked: seq<int>): Scope
    requires Labelled(t, l) && IsNode(t, k) && |scope| == |t.parent|
  {
    var r := Top(t, k);
    if l.builtIn[r] then scope[k] else NextScope(scope[r], SeenIn(l, r, listed, stacked))
  }

  ghost predicate ScopeStep(t: Tree, l: Labels, before: seq<Scope>, after: seq<Scope>, listed: seq<int>,
                            stacked: seq<int>)
    requires Labelled(t, l)
  {
    && |before| == |after| == |t.parent|
    && forall k: nat :: IsNode(t, k) ==> after[k] == ScopeNext(t, l, before, k, listed, stacked)
  }

  /** Over any run of steps every part of a variable that is not built in has the scope that the
      variable's own history gives: `h` says when the variable was listed and when it was stacked. */
  lemma {:induction false} ScopeOverRun(t: Tree, l: Labels, scopes: seq<seq<Scope>>, listed: seq<seq<int>>,
                                        stacked: seq<seq<int>>, h: seq<Sighting>, n: nat, k: nat)
    requires Labelled(t, l) && IsNode(t, k) && !l.builtIn[Top(t, k)]
    requires n <= |h| == |listed| == |stacked| && |scopes| == |h| + 1
    requires forall i: nat :: i < |h| ==> ScopeStep(t, l, scopes[i], scopes[i + 1], listed[i], stacked[i])
    requires forall i: nat :: i < |h| ==>
               h[i] == Sighting(l.id[Top(t, k)] in listed[i], l.id[Top(t, k)] in stacked[i])
    requires |scopes[0]| == |t.parent| && scopes[0][k] == scopes[0][Top(t, k)] == OutOfScope
    ensures |scopes[n]| == |t.parent| && scopes[n][k] == scopes[n][Top(t, k)] == ScopeAfter(h, n)
  {
    if n == 0 {
    } else {
      ScopeOverRun(t, l, scopes, listed, stacked, h, n - 1, k);
      assert ScopeStep(t, l, scopes[n - 1], scopes[n - 1 + 1], listed[n - 1], stacked[n - 1]);
    }
  }

  // ---------- The flags of ShVarModel ----------

  ghost predicate FlagsAre(t: Tree, before: seq<bool>, after: seq<bool>, more: set<nat>) {
    |before| == |after| == |t.parent| && forall k: nat :: k < |after| ==> (after[k] <==> before[k] || k in more)
  }

  class ShVarFlags {
    const tree: Tree
    const labels: Labels
    var changed: seq<bool>
    var scope: seq<Scope>

    ghost predicate Valid()
      reads this
    {
      Labelled(tree, labels) && |changed| == |scope| == |tree.parent|
    }

    constructor (t: Tree, l: Labels)
      requires Labelled(t, l)
      ensures Valid() && tree == t && labels == l
      ensures forall k: nat :: k < |t.parent| ==>
                !changed[k] && scope[k] == if l.builtIn[k] then InScope else OutOfScope
      ensures (forall k: nat :: IsNode(t, k) && l.builtIn[k] ==> l.builtIn[Top(t, k)]) ==> Uniform()
    {
      tree, labels := t, l;
      changed := seq(|t.parent|, i => false);
      scope := seq(|t.parent|, i requires 0 <= i < |t.parent| => if l.builtIn[i] then InScope else OutOfScope);
    }

    method ClearChanged(n: nat)
      requires Valid() && n < |tree.parent|
      modifies this`changed
      ensures Valid()
      ensures forall k: nat :: k < |changed| ==> (changed[k] <==> old(changed[k]) && !(k != 0 && Under(tree, k, n)))
      decreases |tree.parent| - n
    {
      if n != 0 {
        changed := changed[n := false];
      }
      var i := 0;
      while i < |tree.children[n]|
        invariant 0 <= i <= |tree.children[n]| && Valid()
        invariant forall k: nat :: k < |changed| ==>
                    (changed[k] <==> old(changed[k]) && !(k != 0 && (k == n || UnderFirst(tree, k, n, i))))
      {
        ChildOf(tree, n, i);
        ClearChanged(tree.children[n][i]);
        i := i + 1;
      }
      forall k: nat | k < |changed| ensures Under(tree, k, n) <==> k == n || UnderFirst(tree, k, n, i) {
        UnderSplit(tree, k, n);
      }
    }

    method SetRecursiveChanged(n: nat)
      requires Valid() && n < |tree.parent|
      modifies this`changed
      ensures Valid() && FlagsAre(tree, old(changed), changed, Subtree(tree, n))
      decreases |tree.parent| - n
    {
      changed := changed[n := true];
      var i := 0;
      while i < |tree.children[n]|
        invariant 0 <= i <= |tree.children[n]| && Valid()
        invariant forall k: nat :: k < |changed| ==>
                    (changed[k] <==> old(changed[k]) || k == n || UnderFirst(tree, k, n, i))
      {
        ChildOf(tree, n, i);
        SetRecursiveChanged(tree.children[n][i]);
        i := i + 1;
      }
      forall k: nat | k < |changed| ensures Under(tree, k, n) <==> k == n || UnderFirst(tree, k, n, i) {
        UnderSplit(tree, k, n);
      }
    }

    method SetRecursiveScope(n: nat, s: Scope)
      requires Valid() && n < |tree.parent|
      modifies this`scope
      ensures Valid()
      ensures forall k: nat :: k < |scope| ==> scope[k] == if Under(tree, k, n) then s else old(scope[k])
      decreases |tree.parent| - n
    {
      scope := scope[n := s];
      var i := 0;
      while i < |tree.children[n]|
        invariant 0 <= i <= |tree.children[n]| && Valid()
        invariant forall k: nat :: k < |scope| ==>
                    scope[k] == if k == n || UnderFirst(tree, k, n, i) then s else old(scope[k])
      {
        ChildOf(tree, n, i);
        SetRecursiveScope(tree.children[n][i], s);
        i := i + 1;
      }
      forall k: nat | k < |scope| ensures Under(tree, k, n) <==> k == n || UnderFirst(tree, k, n, i) {
        UnderSplit(tree, k, n);
      }
    }

    /** Flags the components of a vector that a swizzle mask names. */
    method FlagComponents(n: nat, mask: int)
      requires Valid() && n < |tree.parent| && forall m: nat :: m < 4 && Bit(mask, m) ==> m < |tree.children[n]|
      modifies this`changed
      ensures Valid() && FlagsAre(tree, old(changed), changed, Components(tree, n, mask, 4))
    {
      var m: nat := 0;
      while m < 4
        invariant m <= 4 && Valid()
        invariant FlagsAre(tree, old(changed), changed, Components(tree, n, mask, m))
      {
        if Bit(mask, m) {
          ChildOf(tree, n, m);
          changed := changed[tree.children[n][m] := true];
        }
        m := m + 1;
      }
    }

    /** Follows a path from a variable and flags what it meets; what the path ends on is flagged with
        everything below it. A swizzle leaves no item to go on from. */
    method FlagPath(r: nat, path: seq<Index>)
      requires Valid() && r < |tree.parent| && Follows(tree, r, path)
      modifies this`changed
      ensures Valid() && FlagsAre(tree, old(changed), changed, {r} + FlaggedBy(tree, r, path))
    {
      changed := changed[r := true];
      var item, ended, done := r, false, false;
      var i := 0;
      ghost var all := {r} + FlaggedBy(tree, r, path);
      while i < |path| && !done
        invariant 0 <= i <= |path| && Valid() && item < |tree.parent|
        invariant !ended && !done ==> Follows(tree, item, path[i..])
        invariant done && !ended ==> FlagsStill(old(changed), all, Subtree(tree, item))
        invariant ended ==> i == |path| && FlagsStill(old(changed), all, {})
        invariant !ended && !done ==> FlagsStill(old(changed), all, FlaggedBy(tree, item, path[i..]))
        decreases |path| - i, if done then 0 else 1
      {
        var s := path[i];
        assert path[i..][0] == s && path[i..][1..] == path[i + 1..];
        if Steps(s.kind) {
          if s.index == -1 {
            changed := changed[item := true];
            done := true;
          } else {
            ChildOf(tree, item, s.index);
            item := tree.children[item][s.index];
            changed := changed[item := true];
          }
        } else if s.kind.Swizzle? {
          FlagComponents(item, s.index);
          ended := true;
        }
        if !done {
          i := i + 1;
        }
      }
      if !ended {
        assert !done ==> path[i..] == [];
        SetRecursiveChanged(item);
      }
    }

    /** The flags together with what is still to come make up the flags that are wanted. */
    ghost predicate FlagsStill(before: seq<bool>, all: set<nat>, rest: set<nat>)
      reads this
    {
      |before| == |changed| && forall k: nat :: k < |changed| ==> (changed[k] || k in rest <==> before[k] || k in all)
    }

    /** The changed part of a debug step: the flags are those of the entries of the change list. */
    method SetChanged(list: seq<Changeable>)
      requires Valid() && !changed[0] && forall c :: c in list ==> WellFormed(tree, labels, c)
      modifies this`changed
      ensures Valid()
      ensures forall k: nat :: k < |changed| ==> (changed[k] <==> k in ChangedByAll(tree, labels, list, |list|))
    {
      ClearChanged(0);
      AllBelowRoot();
      ghost var none := changed;
      var i := 0;
      while i < |list|
        invariant 0 <= i <= |list| && Valid()
        invariant FlagsAre(tree, none, changed, ChangedByAll(tree, labels, list, i))
      {
        SetOneChanged(list[i]);
        i := i + 1;
      }
    }

    lemma {:induction false} AllBelowRoot()
      requires Valid()
      ensures forall k: nat :: k < |tree.parent| ==> Under(tree, k, 0)
    {
      forall k: nat | k < |tree.parent| ensures Under(tree, k, 0) {
        BelowRoot(tree, k);
      }
    }

    method SetOneChanged(c: Changeable)
      requires Valid() && WellFormed(tree, labels, c)
      modifies this`changed
      ensures Valid() && FlagsAre(tree, old(changed), changed, ChangedBy(tree, labels, c))
    {
      var j := 0;
      while j < |tree.children[0]|
        invariant 0 <= j <= |tree.children[0]| && Valid()
        invariant FlagsAre(tree, old(changed), changed, ChangedFirst(tree, labels, c, j))
      {
        ghost var r := Variable(tree, j);
        if labels.id[tree.children[0][j]] == c.id {
          FlagPath(tree.children[0][j], c.indices);
        }
        j := j + 1;
      }
    }

    method Contains(ids: seq<int>, id: int) returns (found: bool)
      ensures found <==> id in ids
    {
      var i := 0;
      while i < |ids|
        invariant 0 <= i <= |ids| && id !in ids[..i]
      {
        if ids[i] == id {
          return true;
        }
        i := i + 1;
      }
      return false;
    }

    /** The scope part of a debug step: every variable that is not built in takes its next scope, with
        everything below it. */
    method SetScope(listed: seq<int>, stacked: seq<int>)
      requires Valid() && Uniform()
      modifies this`scope
      ensures Valid() && Uniform()
      ensures forall k: nat :: IsNode(tree, k) ==> scope[k] == ScopeNext(tree, labels, old(scope), k, listed, stacked)
    {
      var j := 0;
      while j < |tree.children[0]|
        invariant 0 <= j <= |tree.children[0]| && Valid()
        invariant forall k: nat :: IsNode(tree, k) ==>
                    scope[k] == if UnderFirst(tree, k, 0, j)
                                then ScopeNext(tree, labels, old(scope), k, listed, stacked)
                                else old(scope[k])
      {
        ghost var r := Variable(tree, j);
        forall k: nat | IsNode(tree, k)
          ensures Under(tree, k, r) ==> Top(tree, k) == r && !UnderFirst(tree, k, 0, j)
          ensures UnderFirst(tree, k, 0, j + 1) <==> UnderFirst(tree, k, 0, j) || Under(tree, k, r)
        {
          NotSeenYet(j, k);
        }
        TopOfVariable(j);
        StepScope(tree.children[0][j], listed, stacked);
        j := j + 1;
      }
      forall k: nat | IsNode(tree, k) ensures UnderFirst(tree, k, 0, j) {
        BelowRoot(tree, k);
        UnderSplit(tree, k, 0);
      }
    }

    /** A variable that is not built in has one scope over all its parts. */
    ghost predicate Uniform()
      requires Valid()
      reads this
    {
      forall k: nat :: IsNode(tree, k) && !labels.builtIn[Top(tree, k)] ==> scope[k] == scope[Top(tree, k)]
    }

    lemma {:induction false} NotSeenYet(j: nat, k: nat)
      requires Valid() && j < |tree.children[0]| && IsNode(tree, k)
      ensures Under(tree, k, Variable(tree, j)) ==> Top(tree, k) == Variable(tree, j) && !UnderFirst(tree, k, 0, j)
      ensures UnderFirst(tree, k, 0, j + 1) <==> UnderFirst(tree, k, 0, j) || Under(tree, k, Variable(tree, j))
    {
      UnderTop(tree, k, Variable(tree, j));
      if i: nat :| i < j && Under(tree, k, tree.children[0][i]) {
        UnderTop(tree, k, Variable(tree, i));
        assert Linked(tree, 0);
      }
    }

    lemma {:induction false} TopOfVariable(j: nat)
      requires Valid() && j < |tree.children[0]|
      ensures Top(tree, Variable(tree, j)) == Variable(tree, j)
    {
    }

    method StepScope(r: nat, listed: seq<int>, stacked: seq<int>)
      requires Valid() && r < |tree.parent|
      requires !labels.builtIn[r] ==> forall k: nat :: k < |scope| && Under(tree, k, r) ==> scope[k] == scope[r]
      modifies this`scope
      ensures Valid()
      ensures forall k: nat :: k < |scope| ==>
                scope[k] == if Under(tree, k, r) && !labels.builtIn[r]
                            then NextScope(old(scope[r]), Sighting(labels.id[r] in listed, labels.id[r] in stacked))
                            else old(scope[k])
    {
      if labels.builtIn[r] {
        return;
      }
      var oldScope := scope[r];
      var found := Contains(listed, labels.id[r]);
      if found {
        if oldScope.InScope? {
        } else if oldScope.NewInScope? {
          SetRecursiveScope(r, InScope);
        } else {
          SetRecursiveScope(r, NewInScope);
        }
      } else {
        found := Contains(stacked, labels.id[r]);
        if found {
          SetRecursiveScope(r, InScopeStack);
        } else if oldScope.LeftScope? {
          SetRecursiveScope(r, OutOfScope);
        } else {
          SetRecursiveScope(r, LeftScope);
        }
      }
    }
  }
}
