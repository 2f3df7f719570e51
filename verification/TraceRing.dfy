/**
 The call trace: a ring of a fixed number of items. What it shows is the end of the whole history of
 the trace, and marks that are put on the newest item afterwards stay with it.
 */
module TraceRing {
  datatype Icon = Empty | Actual | Ok | Error | Warning | Important | Record

  datatype Item = Item(icon: Icon, text: string)

  /** The last `n` items, or all if there are fewer. */
  function Last(s: seq<Item>, n: nat): (r: seq<Item>)
    ensures |r| == if |s| <= n then |s| else n
  {
    if |s| <= n then s else s[|s| - n..]
  }

  /** Counted from the end, the items are those of the whole sequence. */
  lemma {:induction false} LastItems(s: seq<Item>, n: nat, i: nat)
    requires i < |s| && i < n
    ensures |Last(s, n)| == (if |s| < n then |s| else n) && Last(s, n)[|Last(s, n)| - 1 - i] == s[|s| - 1 - i]
  {
  }

  /** The array index `i` places behind `first`. */
  function Slot(first: nat, i: nat, max: nat): nat {
    if first + i >= max then first + i - max else first + i
  }

  lemma {:induction false} SlotsDiffer(first: nat, i: nat, j: nat, max: nat)
    requires first < max && i < j < max
    ensures Slot(first, i, max) < max && Slot(first, i, max) != Slot(first, j, max)
  {
  }

  lemma {:induction false} UniqueMod(x: nat, max: nat, q: int, r: int)
    requires 0 < max && x == q * max + r && 0 <= r < max
    ensures x % max == r
  {
    var d := x / max - q;
    assert d * max == r - x % max;
  }

  lemma {:induction false} SmallMod(x: nat, max: nat)
    requires 0 < max && x < 3 * max
    ensures x % max == if x < max then x else if x < 2 * max then x - max else x - 2 * max
  {
    if x < max {
      UniqueMod(x, max, 0, x);
    } else if x < 2 * max {
      UniqueMod(x, max, 1, x - max);
    } else {
      UniqueMod(x, max, 2, x - 2 * max);
    }
  }

  class GlTraceListModel {
    const max: nat
    const data: array<Item>
    var first: nat
    var num: nat
    /** All items since the trace was cleared. */
    ghost var history: seq<Item>

    ghost predicate Valid()
      reads this, data
    {
      && 0 < max == data.Length && first < max && num <= max
      && (first > 0 ==> num == max)
      && Shows(Last(history, max))
    }

    ghost predicate Shows(s: seq<Item>)
      requires data.Length == max
      reads this, data
    {
      first < max && |s| == num <= max && forall i :: 0 <= i < num ==> data[Slot(first, i, max)] == s[i]
    }

    constructor (maxListEntries: nat)
      requires maxListEntries > 0
      ensures Valid() && max == maxListEntries && history == [] && fresh(data)
    {
      max := maxListEntries;
      data := new Item[maxListEntries](i => Item(Empty, ""));
      first, num, history := 0, 0, [];
    }

    method Clear()
      requires Valid()
      modifies this
      ensures Valid() && history == []
    {
      first, num, history := 0, 0, [];
    }

    /** Makes room for one item; when the ring is full the oldest item gives way. */
    method GetNextIndex() returns (idx: nat)
      requires Valid()
      modifies this`first, this`num
      ensures first < max && num <= max && (first > 0 ==> num == max)
      ensures num == (if old(num) < max then old(num) + 1 else max) && idx == Slot(first, num - 1, max) < max
      ensures first == if old(num) < max then old(first) else if old(first) + 1 == max then 0 else old(first) + 1
    {
      num := num + 1;
      if num > max {
        num := max;
        first := first + 1;
        if first >= max {
          first := 0;
        }
        idx := if first > 0 then first - 1 else max - 1;
      } else {
        idx := num - 1;
      }
    }

    method AddGlTraceItem(icon: Icon, text: string)
      requires Valid()
      modifies this, data
      ensures Valid() && history == old(history) + [Item(icon, text)]
    {
      ghost var before := Last(history, max);
      var idx := GetNextIndex();
      data[idx] := Item(icon, text);
      history := history + [Item(icon, text)];
      ghost var after := Last(history, max);
      assert |after| == num && after[num - 1] == Item(icon, text);
      forall i | 0 <= i < num - 1 ensures data[Slot(first, i, max)] == after[i] {
        SlotsDiffer(first, i, num - 1, max);
        if old(num) < max {
          assert after[i] == before[i];
        } else {
          assert after[i] == before[i + 1];
          assert Slot(first, i, max) == Slot(old(first), i + 1, max);
        }
      }
    }

    /** The history with its newest item changed. */
    ghost function Newest(icon: Icon, text: string): seq<Item>
      requires history != []
      reads this
    {
      history[|history| - 1 := Item(icon, text)]
    }

    /** The array index of the newest item, counted as the code counts with offset -1. */
    function NewestIndex(): int
      reads this
    {
      if first + num - 1 >= max then first + num - 1 - max else first + num - 1
    }

    method SetCurrentGlTraceIconType(icon: Icon)
      requires Valid()
      modifies this`history, data
      ensures Valid()
      ensures history == if old(history) == [] then [] else old(Newest(icon, history[|history| - 1].text))
    {
      var idx := NewestIndex();
      if 0 <= idx < max {
        EditNewest(idx, Item(icon, data[idx].text));
      }
    }

    method SetCurrentGlTraceText(text: string)
      requires Valid()
      modifies this`history, data
      ensures Valid()
      ensures history == if old(history) == [] then [] else old(Newest(history[|history| - 1].icon, text))
    {
      var idx := NewestIndex();
      if 0 <= idx < max {
        EditNewest(idx, Item(data[idx].icon, text));
      }
    }

    method EditNewest(idx: nat, item: Item)
      requires Valid() && idx == NewestIndex() && idx < max
      modifies this`history, data
      ensures Valid() && old(history) != [] && old(data[idx]) == old(history[|history| - 1])
      ensures history == old(history)[|old(history)| - 1 := item]
    {
      ghost var before := Last(history, max);
      assert idx == Slot(first, num - 1, max) && before[num - 1] == history[|history| - 1];
      data[idx] := item;
      history := history[|history| - 1 := item];
      ghost var after := Last(history, max);
      forall i | 0 <= i < num ensures data[Slot(first, i, max)] == after[i] {
        if i < num - 1 {
          SlotsDiffer(first, i, num - 1, max);
          assert after[i] == before[i];
        }
      }
    }

    /** Row `row` is the newest item. */
    method IsCurrentCall(row: nat) returns (current: bool)
      requires Valid() && row < num
      ensures current <==> row == num - 1
    {
      SmallMod(first + row, max);
      SmallMod(first + num - 1 + max, max);
      current := (first + row) % max == (first + num - 1 + max) % max;
    }

    /** What the trace writes out: the last items of the history, oldest first. */
    method Traverse() returns (out: seq<Item>)
      requires Valid()
      ensures out == Last(history, max)
    {
      out := [];
      var i, idx := 0, first;
      while i < num
        invariant 0 <= i <= num && (i < num ==> idx == Slot(first, i, max) || idx == first + i == max)
        invariant out == Last(history, max)[..i]
      {
        if idx >= max {
          idx := idx - max;
        }
        if 0 <= idx < max {
          out := out + [data[idx]];
        }
        i, idx := i + 1, idx + 1;
      }
    }
  }
}
