/**
 Loop debugging: how many pixels still run a loop, are done with this iteration, or have left the loop
 earlier. Every iteration adds a row to a table, and an image shows the same classes in colours.
 */
module LoopStatistics {
  import opened PixelBoxes

  /** What a pixel does in an iteration. `NotInLoop` pixels were not covered when the loop began. */
  datatype Class = NotInLoop | Active | Done | Out

  datatype Colour = Green | Red | Orange | White | Grey

  datatype Row = Row(iteration: int, active: nat, done: nat, out: nat)

  function ClassOf(initial: bool, covered: bool, condition: real): Class {
    if !initial then NotInLoop else if !covered then Out else if condition > 0.75 then Active else Done
  }

  /** The classes of the first `n` pixels. The condition is the first of `c` channels. */
  function Classes(initial: seq<bool>, covered: seq<bool>, data: seq<real>, c: nat, n: nat): (r: seq<Class>)
    requires n <= |initial| == |covered| && 0 < c && n * c <= |data|
    ensures |r| == n
  {
    if n == 0 then []
    else
      MulStep(n - 1, n, c);
      Classes(initial, covered, data, c, n - 1) + [ClassOf(initial[n - 1], covered[n - 1], data[(n - 1) * c])]
  }

  function Count<T(==)>(s: seq<T>, x: T, n: nat): nat
    requires n <= |s|
  {
    if n == 0 then 0 else Count(s, x, n - 1) + if s[n - 1] == x then 1 else 0
  }

  function RowOf(iteration: int, classes: seq<Class>): Row {
    Row(iteration, Count(classes, Active, |classes|), Count(classes, Done, |classes|), Count(classes, Out, |classes|))
  }

  lemma {:induction false} CountPrefixOf<T>(s: seq<T>, t: seq<T>, x: T, n: nat)
    requires n <= |s| && s <= t
    ensures Count(s, x, n) == Count(t, x, n)
  {
    if n == 0 {
    } else {
      CountPrefixOf(s, t, x, n - 1);
    }
  }

  /** Active, done and out pixels are together the pixels that were covered when the loop began. */
  lemma {:induction false} ClassesAddUp(initial: seq<bool>, covered: seq<bool>, data: seq<real>, c: nat, n: nat)
    requires n <= |initial| == |covered| && 0 < c && n * c <= |data|
    ensures var s := Classes(initial, covered, data, c, n);
            Count(s, Active, n) + Count(s, Done, n) + Count(s, Out, n) == CountTrue(initial, n)
  {
    if n == 0 {
    } else {
      MulStep(n - 1, n, c);
      ClassesAddUp(initial, covered, data, c, n - 1);
      var before, s := Classes(initial, covered, data, c, n - 1), Classes(initial, covered, data, c, n);
      CountPrefixOf(before, s, Active, n - 1);
      CountPrefixOf(before, s, Done, n - 1);
      CountPrefixOf(before, s, Out, n - 1);
    }
  }

  /** The colour of pixel (x, y). Pixels outside the loop show a checkerboard of 8 by 8 squares. */
  function ColourAt(k: Class, x: nat, y: nat): Colour {
    match k
    case Active => Green
    case Done => Red
    case Out => Orange
    case NotInLoop => if x / 8 % 2 == y / 8 % 2 then White else Grey
  }

  ghost predicate PaintedAt(colour: Colour, k: Class, width: nat, p: nat) {
    width > 0 && colour == ColourAt(k, p % width, p / width)
  }

  /** The first pixels of the image have the colours of their classes. */
  ghost predicate Painted(image: seq<Colour>, classes: seq<Class>, width: nat) {
    |image| <= |classes| && forall p: nat :: p < |image| ==> PaintedAt(image[p], classes[p], width, p)
  }

  /** Green, red and orange pixels number exactly the active, done and out pixels. */
  lemma {:induction false} ColoursCount(image: seq<Colour>, classes: seq<Class>, width: nat, n: nat)
    requires Painted(image, classes, width) && n <= |image|
    ensures Count(image, Green, n) == Count(classes, Active, n)
    ensures Count(image, Red, n) == Count(classes, Done, n)
    ensures Count(image, Orange, n) == Count(classes, Out, n)
  {
    if n == 0 {
    } else {
      ColoursCount(image, classes, width, n - 1);
    }
  }

  lemma {:induction false} PixelAt(x: nat, y: nat, width: nat)
    requires x < width
    ensures (y * width + x) % width == x && (y * width + x) / width == y
  {
    var p := y * width + x;
    var e := p / width - y;
    assert e * width == x - p % width;
  }

  lemma {:induction false} ClassesAt(initial: seq<bool>, covered: seq<bool>, data: seq<real>, c: nat, n: nat, p: nat)
    requires p < n <= |initial| == |covered| && 0 < c && n * c <= |data|
    ensures 0 <= p * c < |data|
    ensures Classes(initial, covered, data, c, n)[p] == ClassOf(initial[p], covered[p], data[p * c])
  {
    MulStep(p, n, c);
    if p == n - 1 {
    } else {
      MulStep(n - 1, n, c);
      ClassesAt(initial, covered, data, c, n - 1, p);
    }
  }

  lemma {:induction false} CountIs<T>(s: seq<T>, x: T, n: nat, members: set<int>)
    requires n <= |s| && forall p :: p in members <==> 0 <= p < n && s[p] == x
    ensures Count(s, x, n) == |members|
  {
    if n == 0 {
      assert forall p :: p !in members;
    } else if s[n - 1] == x {
      CountIs(s, x, n - 1, members - {n - 1});
    } else {
      CountIs(s, x, n - 1, members);
    }
  }

  lemma {:induction false} Colours(k: Class, x: nat, y: nat)
    ensures ColourAt(k, x, y) == Green <==> k == Active
    ensures ColourAt(k, x, y) == Red <==> k == Done
    ensures ColourAt(k, x, y) == Orange <==> k == Out
    ensures ColourAt(k, x, y) == White <==> k == NotInLoop && (x / 8 + y / 8) % 2 == 0
    ensures ColourAt(k, x, y) == Grey <==> k == NotInLoop && (x / 8 + y / 8) % 2 == 1
  {
  }

  /** Pixel (x, y) of a painted image, the `p`-th. */
  lemma {:induction false} PixelPainted(image: seq<Colour>, initial: seq<bool>, covered: seq<bool>, data: seq<real>,
                                        c: nat, width: nat, n: nat, x: nat, y: nat, p: nat)
    requires n == |initial| == |covered| == |image| && 0 < c && n * c <= |data|
    requires x < width && p == y * width + x && p < n
    requires Painted(image, Classes(initial, covered, data, c, n), width)
    ensures 0 <= p * c < |data|
    ensures image[p] == if initial[p] && covered[p] && data[p * c] > 0.75 then Green
                        else if initial[p] && covered[p] then Red
                        else if initial[p] then Orange
                        else if (x / 8 + y / 8) % 2 == 0 then White else Grey
  {
    ClassesAt(initial, covered, data, c, n, p);
    PixelAt(x, y, width);
    var k := Classes(initial, covered, data, c, n)[p];
    assert PaintedAt(image[p], k, width, p);
    Colours(k, x, y);
  }

  class LoopData {
    const initialCoverage: array<bool>
    var actual: PixelBox
    var table: seq<Row>

    ghost predicate Valid()
      reads this, initialCoverage, actual, actual.coverage
    {
      && actual.Valid() && actual.coverage != null && actual.channels > 0 && initialCoverage.Length == actual.Pixels()
      && forall r :: r in table ==> r.active + r.done + r.out == CountTrue(initialCoverage[..], initialCoverage.Length)
    }

    /** The classes of all pixels in the current iteration. */
    ghost function Current(): seq<Class>
      requires Valid()
      reads this, initialCoverage, actual, actual.coverage, actual.data
    {
      Classes(initialCoverage[..], actual.coverage[..], actual.data[..], actual.channels, actual.Pixels())
    }

    constructor (condition: PixelBox)
      requires condition.Valid() && condition.coverage != null && condition.channels > 0
      ensures Valid() && fresh(initialCoverage) && initialCoverage[..] == condition.coverage[..]
      ensures table == [RowOf(0, Current())]
    {
      initialCoverage := new bool[condition.coverage.Length];
      actual := new PixelBox.Copy(condition);
      table := [];
      new;
      forall i | 0 <= i < initialCoverage.Length {
        initialCoverage[i] := condition.coverage[i];
      }
      UpdateStatistic(0);
    }

    method AddLoopIteration(condition: PixelBox, iteration: int)
      requires Valid() && condition.Valid() && condition.coverage != null && condition.channels > 0
      requires condition.width == actual.width && condition.height == actual.height
      modifies this
      ensures Valid() && table == old(table) + [RowOf(iteration, Current())]
    {
      actual := new PixelBox.Copy(condition);
      UpdateStatistic(iteration);
    }

    /** The condition of pixel `p`, its first channel. */
    ghost function Condition(p: nat): real
      requires Valid() && p < actual.Pixels()
      reads this, initialCoverage, actual, actual.coverage, actual.data
    {
      MulStep(p, actual.Pixels(), actual.channels);
      actual.data[p * actual.channels]
    }

    lemma {:induction false} CurrentClass(p: nat)
      requires Valid() && p < actual.Pixels()
      ensures Current()[p] == ClassOf(initialCoverage[p], actual.coverage[p], Condition(p))
    {
      ClassesAt(initialCoverage[..], actual.coverage[..], actual.data[..], actual.channels, actual.Pixels(), p);
    }

    /** The row in terms of the pixels: of those that were covered when the loop began, the ones that are
        covered with a condition above three quarters are active, the other covered ones done, the rest out. */
    lemma {:induction false} CurrentRow(iteration: int, active: set<nat>, done: set<nat>, out: set<nat>)
      requires Valid()
      requires forall p: nat :: p in active <==>
                 p < actual.Pixels() && initialCoverage[p] && actual.coverage[p] && Condition(p) > 0.75
      requires forall p: nat :: p in done <==>
                 p < actual.Pixels() && initialCoverage[p] && actual.coverage[p] && Condition(p) <= 0.75
      requires forall p: nat :: p in out <==> p < actual.Pixels() && initialCoverage[p] && !actual.coverage[p]
      ensures RowOf(iteration, Current()) == Row(iteration, |active|, |done|, |out|)
    {
      var all, n := Current(), actual.Pixels();
      forall p: nat | p < n ensures p in active <==> all[p] == Active
        ensures p in done <==> all[p] == Done
        ensures p in out <==> all[p] == Out
      {
        CurrentClass(p);
      }
      CountIs(all, Active, n, active);
      CountIs(all, Done, n, done);
      CountIs(all, Out, n, out);
    }

    /** Counts the classes and appends a row. */
    method UpdateStatistic(iteration: int)
      requires Valid()
      modifies this`table
      ensures Valid() && table == old(table) + [RowOf(iteration, Current())]
    {
      ghost var init, cov, data, c, n := initialCoverage[..], actual.coverage[..], actual.data[..], actual.channels,
        actual.Pixels();
      var active, done, out := CountClasses();
      ClassesAddUp(init, cov, data, c, n);
      table := table + [Row(iteration, active, done, out)];
    }

    method CountClasses() returns (active: nat, done: nat, out: nat)
      requires Valid()
      ensures Row(0, active, done, out) == RowOf(0, Current())
    {
      ghost var all := Current();
      active, done, out := 0, 0, 0;
      var y, p, k := 0, 0, 0;
      while y < actual.height
        invariant 0 <= y <= actual.height && p == y * actual.width <= actual.Pixels() && k == p * actual.channels
        invariant active == Count(all, Active, p) && done == Count(all, Done, p) && out == Count(all, Out, p)
      {
        MulStep(y, actual.height, actual.width);
        var x := 0;
        while x < actual.width
          invariant 0 <= x <= actual.width && p == y * actual.width + x <= actual.Pixels() && k == p * actual.channels
          invariant active == Count(all, Active, p) && done == Count(all, Done, p) && out == Count(all, Out, p)
        {
          MulStep(p, actual.Pixels(), actual.channels);
          ClassesAt(initialCoverage[..], actual.coverage[..], actual.data[..], actual.channels, actual.Pixels(), p);
          if initialCoverage[p] {
            if actual.coverage[p] {
              if actual.data[k] > 0.75 {
                active := active + 1;
              } else {
                done := done + 1;
              }
            } else {
              out := out + 1;
            }
          }
          p, k, x := p + 1, k + actual.channels, x + 1;
        }
        y := y + 1;
      }
    }

    /** The colour of pixel (x, y), the `p`-th, whose condition is at entry `k`. */
    method PixelColour(x: nat, y: nat, p: nat, k: nat) returns (colour: Colour)
      requires Valid() && x < actual.width && p == y * actual.width + x < actual.Pixels() && k == p * actual.channels
      ensures PaintedAt(colour, Current()[p], actual.width, p)
    {
      MulStep(p, actual.Pixels(), actual.channels);
      ClassesAt(initialCoverage[..], actual.coverage[..], actual.data[..], actual.channels, actual.Pixels(), p);
      PixelAt(x, y, actual.width);
      if initialCoverage[p] {
        if actual.coverage[p] {
          colour := if actual.data[k] > 0.75 then Green else Red;
        } else {
          colour := Orange;
        }
      } else {
        colour := if x / 8 % 2 == y / 8 % 2 then White else Grey;
      }
    }

    method PaintRow(y: nat, before: seq<Colour>, from: nat) returns (image: seq<Colour>, k: nat)
      requires Valid() && y < actual.height && |before| == y * actual.width && from == |before| * actual.channels
      requires |before| + actual.width <= actual.Pixels() && Painted(before, Current(), actual.width)
      ensures |image| == |before| + actual.width && k == |image| * actual.channels
      ensures Painted(image, Current(), actual.width)
    {
      ghost var all := Current();
      image, k := before, from;
      var x := 0;
      while x < actual.width
        invariant 0 <= x <= actual.width && |image| == |before| + x && k == |image| * actual.channels
        invariant Painted(image, all, actual.width)
      {
        MulStep(|image|, actual.Pixels(), actual.channels);
        var colour := PixelColour(x, y, |image|, k);
        image := image + [colour];
        k, x := k + actual.channels, x + 1;
      }
    }

    method GetImage() returns (image: seq<Colour>)
      requires Valid()
      ensures |image| == |Current()| && Painted(image, Current(), actual.width)
    {
      image := [];
      var y, k := 0, 0;
      while y < actual.height
        invariant 0 <= y <= actual.height && |image| == y * actual.width <= actual.Pixels()
        invariant k == |image| * actual.channels && Painted(image, Current(), actual.width)
      {
        MulStep(y, actual.height, actual.width);
        image, k := PaintRow(y, image, k);
        y := y + 1;
      }
    }
  }
}
