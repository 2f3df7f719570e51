/**
 Storing parsed uniform values in the variable tree: a value goes to the item whose full name is the
 name in the record.
 */
module UniformValues {
  import opened Wrappers
  import opened VarTree
  import opened UniformStream

  type Name = seq<Byte>

  ghost function TextOf(u: Uniform, show: seq<Byte> -> string): string {
    Text(u, ArraySize(u), show)
  }

  /** The value that the first `n` records leave at an item of the given name. */
  ghost function LastText(us: seq<Uniform>, n: nat, name: Name, before: Option<string>, show: seq<Byte> -> string)
    : Option<string>
    requires n <= |us|
  {
    if n == 0 then before
    else if us[n - 1].name == name then Some(TextOf(us[n - 1], show))
    else LastText(us, n - 1, name, before, show)
  }

  /** It is the text of the last record with the name; without such a record the item keeps its value. */
  lemma {:induction false} LastRecordCounts(us: seq<Uniform>, n: nat, name: Name, before: Option<string>,
                                            show: seq<Byte> -> string, i: nat)
    requires n <= |us|
    ensures (forall j :: 0 <= j < n ==> us[j].name != name) ==> LastText(us, n, name, before, show) == before
    ensures i < n && us[i].name == name && (forall j :: i < j < n ==> us[j].name != name) ==>
              LastText(us, n, name, before, show) == Some(Text(us[i], ArraySize(us[i]), show))
  {
    if n == 0 {
    } else {
      LastRecordCounts(us, n - 1, name, before, show, i);
    }
  }

  /** A part's full name is longer than the full names of the items above it, so never equal to one. */
  ghost predicate ProperNames(t: Tree, names: seq<Name>) {
    && ValidTree(t) && |names| == |t.parent|
    && forall k: nat, a: nat :: k < |t.parent| && IsNode(t, a) && Under(t, k, a) && k != a ==> names[k] != names[a]
  }

  class UniformModel {
    const tree: Tree
    const names: seq<Name>
    /** For a top-level item: it is a uniform and not built in. */
    const eligible: seq<bool>
    var values: seq<Option<string>>

    ghost predicate Valid()
      reads this
    {
      ProperNames(tree, names) && |values| == |eligible| == |tree.parent|
    }

    constructor (t: Tree, fullNames: seq<Name>, uniforms: seq<bool>)
      requires ProperNames(t, fullNames) && |uniforms| == |t.parent|
      ensures Valid() && tree == t && names == fullNames && eligible == uniforms
      ensures forall k :: 0 <= k < |values| ==> values[k] == None
    {
      tree, names, eligible := t, fullNames, uniforms;
      values := seq(|t.parent|, i => None);
    }

    /** The search stops at the first item with the name and does not go below it. */
    method SetRecursiveUniformValues(n: nat, u: Uniform, show: seq<Byte> -> string)
      requires Valid() && IsNode(tree, n)
      modifies this`values
      ensures Valid()
      ensures forall k: nat :: k < |values| ==>
                values[k] == if Under(tree, k, n) && names[k] == u.name then Some(TextOf(u, show)) else old(values[k])
      decreases |tree.parent| - n
    {
      if names[n] == u.name {
        var text := ToString(u, show);
        values := values[n := Some(text)];
      } else {
        ghost var before, text := values, TextOf(u, show);
        var i := 0;
        while i < |tree.children[n]|
          invariant 0 <= i <= |tree.children[n]| && Valid()
          invariant forall k: nat :: k < |values| ==>
                      values[k] == if UnderFirst(tree, k, n, i) && names[k] == u.name then Some(text) else before[k]
        {
          var c := tree.children[n][i];
          ChildOf(tree, n, i);
          SetRecursiveUniformValues(c, u, show);
          i := i + 1;
        }
        forall k: nat | k < |values| ensures Under(tree, k, n) <==> k == n || UnderFirst(tree, k, n, i) {
          UnderSplit(tree, k, n);
        }
      }
    }

    /** Items of variables that may hold uniform values, among the first `j` variables. */
    ghost predicate Open(k: nat, j: nat)
      requires ValidTree(tree) && k < |tree.parent| && |eligible| == |tree.parent| && j <= |tree.children[0]|
    {
      exists i :: 0 <= i < j && IsOpen(i) && Under(tree, k, tree.children[0][i])
    }

    ghost predicate IsOpen(i: nat)
      requires ValidTree(tree) && |eligible| == |tree.parent| && i < |tree.children[0]|
    {
      ChildOf(tree, 0, i);
      eligible[tree.children[0][i]]
    }

    method SetOneValue(u: Uniform, show: seq<Byte> -> string)
      requires Valid()
      modifies this`values
      ensures Valid()
      ensures forall k: nat :: k < |values| ==>
                values[k] == if Open(k, |tree.children[0]|) && names[k] == u.name then Some(TextOf(u, show))
                             else old(values[k])
    {
      var j := 0;
      while j < |tree.children[0]|
        invariant 0 <= j <= |tree.children[0]| && Valid()
        invariant forall k: nat :: k < |values| ==>
                    values[k] == if Open(k, j) && names[k] == u.name then Some(TextOf(u, show)) else old(values[k])
      {
        ChildOf(tree, 0, j);
        forall k: nat | k < |values|
          ensures Open(k, j + 1) <==> Open(k, j) || (IsOpen(j) && Under(tree, k, tree.children[0][j]))
        {
          OpenNext(k, j);
        }
        if eligible[tree.children[0][j]] {
          SetRecursiveUniformValues(tree.children[0][j], u, show);
        }
        j := j + 1;
      }
    }

    lemma {:induction false} OpenNext(k: nat, j: nat)
      requires Valid() && k < |values| && j < |tree.children[0]|
      ensures Open(k, j + 1) <==> Open(k, j) || (IsOpen(j) && Under(tree, k, tree.children[0][j]))
    {
      if Open(k, j + 1) {
        var i :| 0 <= i < j + 1 && IsOpen(i) && Under(tree, k, tree.children[0][i]);
      }
    }

    /** Parses the records one behind the other and stores each value. `us` are the records that the
        stream holds. */
    method SetUniformValues(b: seq<Byte>, count: nat, show: seq<Byte> -> string, ghost us: seq<Uniform>,
                            ghost ends: seq<nat>)
      requires Valid() && Holds(b, us, ends) && |us| == count
      modifies this`values
      ensures Valid()
      ensures forall k: nat :: k < |values| ==>
                values[k] == if Open(k, |tree.children[0]|) then LastText(us, count, names[k], old(values[k]), show)
                             else old(values[k])
    {
      var p, i := 0, 0;
      while i < count
        invariant 0 <= i <= count && Valid() && ends[i] == p
        invariant forall k: nat :: k < |values| ==>
                    values[k] == if Open(k, |tree.children[0]|) then LastText(us, i, names[k], old(values[k]), show)
                                 else old(values[k])
      {
        assert RecordAt(b, us, ends, i);
        var record := Parse(b, p);
        SetOneValue(record.value.uniform, show);
        i := i + 1;
        p := record.value.next;
      }
    }
  }
}
