/**
 The cache of watched values in fragment debugging. After every debug step the debugger decides for
 every watched variable whether to read its values again, to keep them or to drop them. The module
 states when the cache may be believed: it never shows a value that the variable does not have, and
 it is complete as long as coverage only grows and shrinks.
 */
module WatchCache {
  import opened PixelBoxes
  import opened VarScope

  datatype CoverageStatus = Unchanged | Grown | Shrinked

  /** The debugger compares the numbers of covered pixels, not the pixels. */
  function StatusOf(oldCount: nat, newCount: nat): CoverageStatus {
    if newCount == oldCount then Unchanged else if newCount > oldCount then Grown else Shrinked
  }

  datatype Action = Keep | ReadBack | Drop

  function Decide(status: CoverageStatus, force: bool, scope: Scope, changed: bool, builtIn: bool,
                  available: bool): Action {
    if force then
      if IsInScope(scope) || builtIn || scope.InScopeStack? then ReadBack else Drop
    else if (changed || scope.NewInScope?) && (IsInScope(scope) || scope.InScopeStack?) then ReadBack
    else if scope.LeftScope? then Drop
    else if status.Grown? then
      if IsInScope(scope) || builtIn || scope.InScopeStack? then (if available then Keep else ReadBack) else Drop
    else Keep
  }

  ghost function Act(a: Action, box: Box, coverage: seq<bool>, image: seq<Texel>): (r: Box)
    requires SizedFor(box, |coverage|) && |image| == |coverage|
    ensures SizedFor(r, |coverage|)
  {
    match a
    case Keep => box
    case ReadBack => Merge(box, Box(image, coverage))
    case Drop => Invalidate(box)
  }

  /** The box of a watched variable after a step that was covered by `oldCount` pixels before and by
      `coverage` now; `image` is what a readback delivers. */
  ghost function NextBox(box: Box, oldCount: nat, scope: Scope, changed: bool, builtIn: bool, force: bool,
                         coverage: seq<bool>, image: seq<Texel>): (r: Box)
    requires SizedFor(box, |coverage|) && |image| == |coverage|
    ensures SizedFor(r, |coverage|)
  {
    var status := StatusOf(oldCount, CountTrue(coverage, |coverage|));
    Act(Decide(status, force, scope, changed, builtIn, Available(coverage, box.known)), box, coverage, image)
  }

  // ---------- The list of watched items ----------

  class WatchItem {
    var scope: Scope
    var changed: bool
    var builtIn: bool
    /** None before the first readback. */
    var box: PixelBox?

    constructor (s: Scope, c: bool, b: bool) {
      scope, changed, builtIn, box := s, c, b, null;
    }
  }

  ghost predicate Fits(item: WatchItem, width: nat, height: nat)
    reads item, item.box
  {
    && item.box != null && item.box.Valid() && item.box.coverage != null
    && item.box.width == width && item.box.height == height && item.box.channels == 1
  }

  /** The arrays that the readback of an item may write. */
  ghost function Buffers(item: WatchItem): set<object>
    reads item, item.box
  {
    if item.box == null then {} else {item.box.data, item.box.dataMap}
  }

  ghost function Listed(items: seq<WatchItem>): set<WatchItem> {
    set i | 0 <= i < |items| :: items[i]
  }

  ghost function Boxes(items: seq<WatchItem>): set<PixelBox>
    reads Listed(items)
  {
    set i | 0 <= i < |items| && items[i].box != null :: items[i].box
  }

  /** All items have boxes of one shape under one coverage map, and no two share an array. */
  ghost predicate Separate(items: seq<WatchItem>, width: nat, height: nat, coverage: array<bool>)
    reads items, set i | 0 <= i < |items| :: items[i].box
  {
    && (forall i :: 0 <= i < |items| ==> Fits(items[i], width, height) && items[i].box.coverage == coverage)
    && (forall i, j :: 0 <= i < j < |items| ==>
          items[i].box.data != items[j].box.data && items[i].box.dataMap != items[j].box.dataMap)
  }

  ghost function BoxOf(item: WatchItem): Box
    requires item.box != null && item.box.Valid()
    reads item, item.box, Buffers(item)
  {
    item.box.View()
  }

  /** The box an item should hold after the update, `image` being what a readback would deliver. */
  ghost function Refreshed(item: WatchItem, status: CoverageStatus, force: bool, image: seq<real>, n: nat): Box
    requires item.box != null && item.box.Valid() && item.box.coverage != null && item.box.Pixels() == n == |image|
    reads item, item.box, Buffers(item), if item.box == null then {} else {item.box.coverage}
  {
    var cov := item.box.coverage[..];
    var a := Decide(status, force, item.scope, item.changed, item.builtIn, Available(cov, BoxOf(item).known));
    Act(a, BoxOf(item), cov, Texels(image, 1, n))
  }

  method Readback(width: nat, height: nat, image: array<real>, coverage: array<bool>) returns (fb: PixelBox)
    requires image.Length == width * height && coverage.Length == width * height
    ensures fresh(fb) && fb.Valid() && fresh(fb.data) && fresh(fb.dataMap) && fb.coverage == coverage
    ensures fb.width == width && fb.height == height && fb.channels == 1
    ensures fb.View() == Box(Texels(image[..], 1, width * height), coverage[..])
    ensures fb.data[..] == image[..] && fb.dataMap[..] == coverage[..]
  {
    fb := new PixelBox(width, height, 1, image, coverage);
  }

  /** The covered pixels have the values of the image and are known, the others are as before. */
  ghost predicate TakenOver(item: WatchItem, image: array<real>, data: seq<real>, known: seq<bool>)
    requires item.box != null && item.box.Valid() && item.box.coverage != null && item.box.channels == 1
    requires image.Length == |data| == |known| == item.box.Pixels()
    reads item, item.box, Buffers(item), item.box.coverage, image
  {
    forall p :: 0 <= p < |data| ==>
      && item.box.dataMap[p] == (known[p] || item.box.coverage[p])
      && item.box.data[p] == if item.box.coverage[p] then image[p] else data[p]
  }

  /** No value is known any more. */
  ghost predicate Forgotten(item: WatchItem, data: seq<real>)
    requires item.box != null
    reads item, item.box, Buffers(item)
  {
    item.box.data[..] == data && forall p :: 0 <= p < item.box.dataMap.Length ==> !item.box.dataMap[p]
  }

  /** A later readback of an item. */
  method MergeReadback(item: WatchItem, width: nat, height: nat, image: array<real>)
    requires Fits(item, width, height) && image.Length == width * height && image != item.box.data
    modifies item.box.data, item.box.dataMap
    ensures Fits(item, width, height)
    ensures BoxOf(item) == Merge(old(BoxOf(item)), Box(Texels(image[..], 1, width * height), item.box.coverage[..]))
    ensures TakenOver(item, image, old(item.box.data[..]), old(item.box.dataMap[..]))
  {
    var fb := Readback(width, height, image, item.box.coverage);
    item.box.AddPixelBox(fb);
    forall p | 0 <= p < width * height
      ensures item.box.dataMap[p] == (old(item.box.dataMap[p]) || item.box.coverage[p])
      ensures item.box.data[p] == if item.box.coverage[p] then image[p] else old(item.box.data[p])
    {
      assert fb.dataMap[..][p] == item.box.coverage[..][p] && fb.data[..][p] == image[..][p];
    }
  }

  method DropValues(item: WatchItem)
    requires item.box != null && item.box.Valid()
    modifies item.box.dataMap
    ensures item.box.Valid() && BoxOf(item) == Invalidate(old(BoxOf(item)))
    ensures Forgotten(item, old(item.box.data[..]))
  {
    item.box.InvalidateData();
  }

  /** Reads the values of an item back. The first time the item gets a box of its own; later the values
      are merged into its box. */
  method UpdateWatchItemData(item: WatchItem, width: nat, height: nat, image: array<real>, coverage: array<bool>)
    requires image.Length == width * height && coverage.Length == width * height
    requires item.box != null ==>
               Fits(item, width, height) && item.box.coverage == coverage && image != item.box.data
    modifies item`box, Buffers(item)
    ensures Fits(item, width, height) && item.box.coverage == coverage && coverage[..] == old(coverage[..])
    ensures if old(item.box) == null then
              fresh(item.box) && fresh(Buffers(item)) && BoxOf(item)
                == Box(Texels(image[..], 1, width * height), coverage[..])
            else
              && item.box == old(item.box) && item.box.data == old(item.box.data)
                && item.box.dataMap == old(item.box.dataMap)
              && BoxOf(item) == Merge(old(BoxOf(item)), Box(Texels(image[..], 1, width * height), coverage[..]))
  {
    if item.box != null {
      MergeReadback(item, width, height, image);
    } else {
      item.box := Readback(width, height, image, coverage);
    }
  }

  /** The items of the watch list have their boxes, since the first readback comes when they are listed. */
  method UpdateItem(item: WatchItem, status: CoverageStatus, force: bool, width: nat, height: nat, image: array<real>)
    requires Fits(item, width, height) && image.Length == width * height && image != item.box.data
    modifies item.box.data, item.box.dataMap
    ensures Fits(item, width, height)
    ensures BoxOf(item) == old(Refreshed(item, status, force, image[..], width * height))
    ensures var live := item.scope in {InScope, NewInScope, InScopeStack};
            var told := live && (item.changed || item.scope == NewInScope);
            var all := old(forall p :: 0 <= p < width * height && item.box.coverage[p] ==> item.box.dataMap[p]);
            var data, known := old(item.box.data[..]), old(item.box.dataMap[..]);
            && (force ==> if live || item.builtIn then TakenOver(item, image, data, known) else Forgotten(item, data))
            && (!force && told ==> TakenOver(item, image, data, known))
            && (!force && item.scope == LeftScope ==> Forgotten(item, data))
            && (!force && !told && item.scope != LeftScope && status == Grown ==>
                  if !live && !item.builtIn then Forgotten(item, data)
                  else if all then item.box.data[..] == data && item.box.dataMap[..] == known
                  else TakenOver(item, image, data, known))
            && (!force && !told && item.scope != LeftScope && status != Grown ==>
                  item.box.data[..] == data && item.box.dataMap[..] == known)
  {
    if force {
      if IsInScope(item.scope) || item.builtIn || item.scope.InScopeStack? {
        MergeReadback(item, width, height, image);
      } else {
        DropValues(item);
      }
    } else if (item.changed || item.scope.NewInScope?) && (IsInScope(item.scope) || item.scope.InScopeStack?) {
      MergeReadback(item, width, height, image);
    } else if item.scope.LeftScope? {
      DropValues(item);
    } else if status.Grown? {
      if IsInScope(item.scope) || item.builtIn || item.scope.InScopeStack? {
        var available := item.box.IsAllDataAvailable();
        if !available {
          MergeReadback(item, width, height, image);
        }
      } else {
        DropValues(item);
      }
    }
  }

  /** The images are not the buffers of the boxes. */
  ghost predicate Foreign(images: seq<array<real>>, items: seq<WatchItem>, length: nat)
    reads items, set i | 0 <= i < |items| :: items[i].box
  {
    && |images| == |items| && (forall i :: 0 <= i < |images| ==> images[i].Length == length)
    && (forall i, j :: 0 <= i < |images| && 0 <= j < |items| && items[j].box != null ==> images[i] != items[j].box.data)
  }

  /** One turn of the loop: the other items are left alone. */
  method UpdateAt(items: seq<WatchItem>, i: nat, item: WatchItem, status: CoverageStatus, force: bool, width: nat,
                  height: nat, coverage: array<bool>, images: seq<array<real>>)
    requires i < |items| && item == items[i] && Separate(items, width, height, coverage)
    requires Foreign(images, items, width * height)
    modifies item.box.data, item.box.dataMap
    ensures Separate(items, width, height, coverage) && Foreign(images, items, width * height)
    ensures BoxOf(items[i]) == old(Refreshed(items[i], status, force, images[i][..], width * height))
    ensures forall k :: 0 <= k < |items| && k != i ==> BoxOf(items[k]) == old(BoxOf(items[k]))
    ensures coverage[..] == old(coverage[..])
    ensures forall k :: 0 <= k < |images| ==> images[k][..] == old(images[k][..])
  {
    UpdateItem(item, status, force, width, height, images[i]);
  }

  /** Every item of the watch list gets the box it should hold. */
  method UpdateWatchListData(items: seq<WatchItem>, status: CoverageStatus, force: bool, width: nat, height: nat,
                             coverage: array<bool>, images: seq<array<real>>)
    requires Separate(items, width, height, coverage) && Foreign(images, items, width * height)
    modifies set i | 0 <= i < |items| :: items[i].box.data
    modifies set i | 0 <= i < |items| :: items[i].box.dataMap
    ensures Separate(items, width, height, coverage) && coverage[..] == old(coverage[..])
    ensures forall k :: 0 <= k < |items| ==>
              BoxOf(items[k]) == old(Refreshed(items[k], status, force, images[k][..], width * height))
  {
    var i := 0;
    while i < |items|
      invariant 0 <= i <= |items| && Separate(items, width, height, coverage)
      invariant Foreign(images, items, width * height)
      invariant forall k :: 0 <= k < i ==>
                  BoxOf(items[k]) == old(Refreshed(items[k], status, force, images[k][..], width * height))
      invariant forall k :: i <= k < |items| ==>
                  BoxOf(items[k]) == old(BoxOf(items[k])) && images[k][..] == old(images[k][..])
      invariant coverage[..] == old(coverage[..])
    {
      UpdateAt(items, i, items[i], status, force, width, height, coverage, images);
      i := i + 1;
    }
  }

  // ---------- One debug step ----------

  /** A new coverage map is installed in every box. */
  method UpdateWatchItemsCoverage(items: seq<WatchItem>, width: nat, height: nat, ghost before: array<bool>,
                                  coverage: array<bool>)
    requires Separate(items, width, height, before) && coverage.Length == width * height
    requires forall i :: 0 <= i < |items| ==> items[i].box.dataMap != coverage
    modifies Boxes(items)`coverage
    ensures Separate(items, width, height, coverage)
    ensures forall k :: 0 <= k < |items| ==> BoxOf(items[k]) == old(BoxOf(items[k]))
  {
    var i := 0;
    while i < |items|
      invariant 0 <= i <= |items|
      invariant forall k :: 0 <= k < |items| ==>
                  Fits(items[k], width, height) && items[k].box.coverage == if k < i then coverage else before
    {
      items[i].box.SetNewCoverage(coverage);
      i := i + 1;
    }
  }

  /** The boxes of the items are `boxes`. */
  ghost predicate Hold(items: seq<WatchItem>, boxes: seq<Box>)
    reads items, set i | 0 <= i < |items| :: items[i].box
    reads set i | 0 <= i < |items| && items[i].box != null :: items[i].box.data
    reads set i | 0 <= i < |items| && items[i].box != null :: items[i].box.dataMap
  {
    && |boxes| == |items|
    && forall k :: 0 <= k < |items| ==> items[k].box != null && items[k].box.Valid() && BoxOf(items[k]) == boxes[k]
  }

  /** The images hold the texels `shots`. */
  ghost predicate Show(images: seq<array<real>>, shots: seq<seq<Texel>>, n: nat)
    reads images
  {
    && |shots| == |images|
    && forall k :: 0 <= k < |images| ==> images[k].Length == n && Texels(images[k][..], 1, n) == shots[k]
  }

  /** The box of an item has taken the step from `was`. */
  ghost predicate Stepped(item: WatchItem, was: Box, oldCount: nat, force: bool, coverage: array<bool>,
                          shot: seq<Texel>)
    reads item, item.box, Buffers(item), coverage
  {
    && item.box != null && item.box.Valid() && SizedFor(was, coverage.Length) && |shot| == coverage.Length
    && BoxOf(item) == NextBox(was, oldCount, item.scope, item.changed, item.builtIn, force, coverage[..], shot)
  }

  /** The refresh after a step: the status is that of the counts. */
  method RefreshWatchItems(items: seq<WatchItem>, force: bool, width: nat, height: nat, oldCount: nat, newCount: nat,
                           coverage: array<bool>, images: seq<array<real>>, ghost was: seq<Box>,
                             ghost shots: seq<seq<Texel>>)
    requires Separate(items, width, height, coverage) && Foreign(images, items, width * height)
    requires coverage.Length == width * height && newCount == CountTrue(coverage[..], width * height)
    requires Hold(items, was) && Show(images, shots, width * height)
    modifies set i | 0 <= i < |items| :: items[i].box.data
    modifies set i | 0 <= i < |items| :: items[i].box.dataMap
    ensures Separate(items, width, height, coverage) && coverage[..] == old(coverage[..])
    ensures forall k :: 0 <= k < |items| ==> Stepped(items[k], was[k], oldCount, force, coverage, shots[k])
  {
    UpdateWatchListData(items, StatusOf(oldCount, newCount), force, width, height, coverage, images);
  }

  /** The new coverage is read from its image, counted and installed. */
  method ReadCoverage(items: seq<WatchItem>, width: nat, height: nat, ghost before: array<bool>, coverageBox: PixelBox,
                      ghost was: seq<Box>)
    returns (coverage: array<bool>, newCount: nat)
    requires Separate(items, width, height, before) && Hold(items, was)
    requires coverageBox.Valid() && coverageBox.width == width && coverageBox.height == height
    requires coverageBox.channels > 0
    modifies Boxes(items)`coverage
    ensures Separate(items, width, height, coverage) && Hold(items, was) && fresh(coverage)
    ensures coverage.Length == width * height && newCount == CountTrue(coverage[..], width * height)
    ensures forall p :: 0 <= p < width * height ==> coverage[p] == IsCovered(old(coverageBox.View()).texels[p])
  {
    coverage, newCount := coverageBox.GetCoverageFromData();
    UpdateWatchItemsCoverage(items, width, height, before, coverage);
  }

  /** The fragment part of a debug step, after the scopes and change flags of the items have been set:
      the boxes `was` and the readbacks `shots` give every item its next box under the new coverage. */
  method ShaderStep(items: seq<WatchItem>, force: bool, width: nat, height: nat, ghost before: array<bool>,
                    oldCount: nat,
                    coverageBox: PixelBox, images: seq<array<real>>, ghost was: seq<Box>, ghost shots: seq<seq<Texel>>)
    returns (coverage: array<bool>, newCount: nat)
    requires Separate(items, width, height, before) && Foreign(images, items, width * height)
    requires coverageBox.Valid() && coverageBox.width == width && coverageBox.height == height
    requires coverageBox.channels > 0
    requires Hold(items, was) && Show(images, shots, width * height)
    modifies Boxes(items)`coverage
    modifies set i | 0 <= i < |items| :: items[i].box.data
    modifies set i | 0 <= i < |items| :: items[i].box.dataMap
    ensures Separate(items, width, height, coverage)
    ensures coverage.Length == width * height && newCount == CountTrue(coverage[..], width * height)
    ensures forall p :: 0 <= p < width * height ==> coverage[p] == IsCovered(old(coverageBox.View()).texels[p])
    ensures forall k :: 0 <= k < |items| ==> Stepped(items[k], was[k], oldCount, force, coverage, shots[k])
  {
    coverage, newCount := ReadCoverage(items, width, height, before, coverageBox, was);
    RefreshWatchItems(items, force, width, height, oldCount, newCount, coverage, images, was, shots);
  }
}
