/**
 The vertex table and its six selection lists. Every list offers "off" and one entry per data column;
 entries carry their column number in a packed integer, and are renumbered when a column goes away.
 */
module Selections {
  import opened Wrappers

  datatype MapType = Black | White | Var | Off

  datatype Mapping = Mapping(index: int, kind: MapType)

  function TypeCode(t: MapType): int {
    match t
    case Black => 0
    case White => 1
    case Var => 2
    case Off => 3
  }

  function TypeOf(code: int): MapType {
    if code == 0 then Black else if code == 1 then White else if code == 2 then Var else Off
  }

  /** The column number above two bits of type. */
  function GetIntFromMapping(m: Mapping): int {
    m.index * 4 + TypeCode(m.kind)
  }

  function GetMappingFromInt(i: int): Mapping {
    Mapping(i / 4, TypeOf(i % 4))
  }

  /** Packing loses nothing, for negative column numbers too, and every integer is a mapping. */
  lemma {:induction false} PackingRoundTrip(m: Mapping, i: int)
    ensures GetMappingFromInt(GetIntFromMapping(m)) == m
    ensures GetIntFromMapping(GetMappingFromInt(i)) == i
  {
    var r := GetIntFromMapping(m);
    assert r % 4 == TypeCode(m.kind) && r / 4 == m.index;
  }

  /** The packed numbers. */
  lemma {:induction false} PackedAs(index: int)
    ensures GetIntFromMapping(Mapping(index, Black)) == 4 * index
    ensures GetIntFromMapping(Mapping(index, White)) == 4 * index + 1
    ensures GetIntFromMapping(Mapping(index, Var)) == 4 * index + 2
    ensures GetIntFromMapping(Mapping(index, Off)) == 4 * index + 3
  {
  }

  /** The entries of a selection list over `n` columns. */
  function Options(n: nat): (r: seq<int>)
    ensures |r| == n + 1
  {
    if n == 0 then [GetIntFromMapping(Mapping(0, Off))] else Options(n - 1) + [GetIntFromMapping(Mapping(n - 1, Var))]
  }

  /** Entry 0 is "off", and entry k stands for column k - 1. */
  lemma {:induction false} OptionAt(n: nat, k: nat)
    requires k <= n
    ensures GetMappingFromInt(Options(n)[k]) == if k == 0 then Mapping(0, Off) else Mapping(k - 1, Var)
  {
    if k < n {
      OptionAt(n - 1, k);
    } else {
      PackingRoundTrip(if k == 0 then Mapping(0, Off) else Mapping(k - 1, Var), 0);
    }
  }

  /** Where a selected column is after column `idx` has gone. */
  function Moved(selected: Option<nat>, idx: nat): Option<nat> {
    match selected
    case None => None
    case Some(k) => if k == idx then None else if k < idx then Some(k) else Some(k - 1)
  }

  /** The entry of a column is found right where it belongs, and the entries before it stay as they are. */
  lemma {:induction false} FoundAt(columns: nat, idx: nat, items: seq<int>, at: int)
    requires idx < columns && items == Options(columns)
    requires at == -1 ==> GetIntFromMapping(Mapping(idx, Var)) !in items
    requires at != -1 ==> 0 <= at < |items| && items[at] == GetIntFromMapping(Mapping(idx, Var))
    ensures at == idx + 1
    ensures forall k :: 0 <= k < at ==> items[k] == Options(columns - 1)[k]
  {
    OptionAt(columns, idx + 1);
    PackingRoundTrip(Mapping(idx, Var), items[idx + 1]);
    assert items[idx + 1] in items;
    OptionAt(columns, at);
    PackingRoundTrip(Mapping(idx, Var), 0);
  }

  class ComboBox {
    var items: seq<int>
    var current: nat

    ghost predicate Valid(columns: nat)
      reads this
    {
      items == Options(columns) && current < |items|
    }

    constructor ()
      ensures Valid(0)
    {
      items, current := Options(0), 0;
    }

    /** The column that is selected, if any. */
    ghost function Selected(): Option<nat>
      reads this
    {
      if current == 0 then None else Some(current - 1)
    }

    method AddItem(data: int)
      modifies this
      ensures items == old(items) + [data] && current == old(current)
    {
      items := items + [data];
    }

    method FindData(data: int) returns (i: int)
      ensures i == -1 ==> data !in items
      ensures i != -1 ==> 0 <= i < |items| && items[i] == data && data !in items[..i]
    {
      i := 0;
      while i < |items|
        invariant 0 <= i <= |items| && data !in items[..i]
      {
        if items[i] == data {
          return;
        }
        i := i + 1;
      }
      i := -1;
    }

    /** Removing an entry above the current one leaves the current index alone; below, it moves with its entry. */
    method RemoveItem(i: nat)
      requires i < |items| && i != current < |items|
      modifies this
      ensures items == old(items[..i] + items[i + 1..])
      ensures current == if i < old(current) then old(current) - 1 else old(current)
    {
      items := items[..i] + items[i + 1..];
      if i < current {
        current := current - 1;
      }
    }

    method AddMappingOption(columns: nat)
      requires Valid(columns)
      modifies this
      ensures Valid(columns + 1) && current == old(current)
    {
      AddItem(GetIntFromMapping(Mapping(columns, Var)));
    }

    /** Takes column `idx` out of the list: a selection of it goes to "off", and the entries behind it
        are renumbered. */
    method DelMappingOption(ghost columns: nat, idx: nat)
      requires Valid(columns) && idx < columns
      modifies this
      ensures Valid(columns - 1)
      ensures Selected() == Moved(old(Selected()), idx)
    {
      OptionAt(columns, current);
      var m := GetMappingFromInt(items[current]);
      if m.index == idx {
        current := 0;
      }
      OptionAt(columns, idx + 1);
      var packed := GetIntFromMapping(Mapping(idx, Var));
      var at := FindData(packed);
      FoundAt(columns, idx, items, at);
      RemoveItem(at);
      Renumber(columns, at);
    }

    /** Entry `from` and the entries behind it stand for the columns before theirs from now on. */
    method Renumber(ghost columns: nat, from: nat)
      requires |items| == columns && 0 < from <= columns
      requires forall k :: 0 <= k < from ==> items[k] == Options(columns - 1)[k]
      requires forall k :: from <= k < |items| ==> items[k] == Options(columns)[k + 1]
      modifies this
      ensures items == Options(columns - 1) && current == old(current)
    {
      var i := from;
      while i < |items|
        invariant from <= i <= |items| == columns && current == old(current)
        invariant forall k :: 0 <= k < i ==> items[k] == Options(columns - 1)[k]
        invariant forall k :: i <= k < |items| ==> items[k] == Options(columns)[k + 1]
      {
        OptionAt(columns, i + 1);
        OptionAt(columns - 1, i);
        var n := GetMappingFromInt(items[i]);
        PackingRoundTrip(n, Options(columns - 1)[i]);
        items := items[i := GetIntFromMapping(Mapping(n.index - 1, n.kind))];
        i := i + 1;
      }
      assert items == Options(columns - 1);
    }
  }

  type VertexBox = nat

  predicate AllDifferent(boxes: seq<VertexBox>) {
    forall i, j :: 0 <= i < j < |boxes| ==> boxes[i] != boxes[j]
  }

  /** The box of a selected column. */
  function BoxAt(boxes: seq<VertexBox>, selected: Option<nat>): Option<VertexBox>
    requires selected.Some? ==> selected.value < |boxes|
  {
    match selected
    case None => None
    case Some(k) => Some(boxes[k])
  }

  lemma {:induction false} DifferentWithout(boxes: seq<VertexBox>, idx: nat, rest: seq<VertexBox>)
    requires AllDifferent(boxes) && idx < |boxes| && rest == boxes[..idx] + boxes[idx + 1..]
    ensures AllDifferent(rest) && boxes[idx] !in rest
  {
  }

  class WatchTable {
    /** The columns of the vertex table. */
    var boxes: seq<VertexBox>
    const channels: seq<ComboBox>

    ghost predicate Valid()
      reads this, channels
    {
      && AllDifferent(boxes)
      && (forall c, d :: 0 <= c < d < |channels| ==> channels[c] != channels[d])
      && forall c :: 0 <= c < |channels| ==> channels[c].Valid(|boxes|)
    }

    /** The box that a channel shows. */
    ghost function Shown(c: nat): Option<VertexBox>
      requires Valid() && c < |channels|
      reads this, channels
    {
      BoxAt(boxes, channels[c].Selected())
    }

    constructor (lists: seq<ComboBox>)
      requires forall c, d :: 0 <= c < d < |lists| ==> lists[c] != lists[d]
      requires forall c :: 0 <= c < |lists| ==> lists[c].Valid(0)
      ensures Valid() && channels == lists && boxes == []
    {
      channels, boxes := lists, [];
    }

    /** A box that is in the table already is not added again. Selections stay as they are. */
    method AttachVpData(vb: VertexBox)
      requires Valid()
      modifies this, channels
      ensures Valid() && boxes == if vb in old(boxes) then old(boxes) else old(boxes) + [vb]
      ensures forall c: nat :: c < |channels| ==> Shown(c) == old(Shown(c))
    {
      if vb in boxes {
        return;
      }
      AddToLists();
      boxes := boxes + [vb];
    }

    method AddToLists()
      requires Valid()
      modifies channels
      ensures forall d :: 0 <= d < |channels| ==> channels[d].Valid(|boxes| + 1)
      ensures forall d :: 0 <= d < |channels| ==> channels[d].current == old(channels[d].current)
    {
      var c := 0;
      while c < |channels|
        invariant 0 <= c <= |channels|
        invariant forall d :: 0 <= d < |channels| ==> channels[d].Valid(if d < c then |boxes| + 1 else |boxes|)
        invariant forall d :: 0 <= d < |channels| ==> channels[d].current == old(channels[d].current)
      {
        channels[c].AddMappingOption(|boxes|);
        c := c + 1;
      }
    }

    /** A box goes away with its column. A channel that shows it goes to "off", the others show what
        they showed. */
    method DetachData(vb: VertexBox)
      requires Valid() && vb in boxes
      modifies this, channels
      ensures Valid() && vb !in boxes && |boxes| == |old(boxes)| - 1
      ensures exists idx :: 0 <= idx < |old(boxes)| && old(boxes)[idx] == vb
                            && boxes == old(boxes)[..idx] + old(boxes)[idx + 1..]
      ensures forall c: nat :: c < |channels| ==> Shown(c) == if old(Shown(c)) == Some(vb) then None else old(Shown(c))
    {
      ghost var before := boxes;
      var idx := IndexOf(vb);
      DelFromLists(idx);
      boxes := boxes[..idx] + boxes[idx + 1..];
      DifferentWithout(before, idx, boxes);
      forall c: nat | c < |channels| ensures Shown(c) == if old(Shown(c)) == Some(vb) then None else old(Shown(c)) {
      }
    }

    method DelFromLists(idx: nat)
      requires Valid() && idx < |boxes|
      modifies channels
      ensures forall d :: 0 <= d < |channels| ==> channels[d].Valid(|boxes| - 1)
      ensures forall d :: 0 <= d < |channels| ==> channels[d].Selected() == Moved(old(channels[d].Selected()), idx)
    {
      var c := 0;
      while c < |channels|
        invariant 0 <= c <= |channels|
        invariant forall d :: 0 <= d < |channels| ==> channels[d].Valid(if d < c then |boxes| - 1 else |boxes|)
        invariant forall d :: 0 <= d < c ==> channels[d].Selected() == Moved(old(channels[d].Selected()), idx)
        invariant forall d :: c <= d < |channels| ==> channels[d].Selected() == old(channels[d].Selected())
      {
        channels[c].DelMappingOption(|boxes|, idx);
        c := c + 1;
      }
    }

    method IndexOf(vb: VertexBox) returns (i: nat)
      requires vb in boxes
      ensures i < |boxes| && boxes[i] == vb
    {
      i := 0;
      while boxes[i] != vb
        invariant i < |boxes| && vb !in boxes[..i]
        decreases |boxes| - i
      {
        i := i + 1;
      }
    }
  }
}
