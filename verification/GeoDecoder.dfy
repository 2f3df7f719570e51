/**
 The geometry-shader stream: what the debug run writes for one draw call, and the tree that
 GeoShaderDataModel rebuilds from it.

 The stream has two maps. The count map holds one record per (sub-)primitive sent into the
 geometry shader: how many vertices it emitted and the id of the input primitive. The primitive
 map holds one record per emitted vertex slot: the output strip it belongs to and its vertex
 index. Strips are flattened into points, lines or triangles, so a vertex of a strip can appear
 in several slots.
 */
module GeoStream {
  import opened Wrappers
  import opened GlConstants

  // ---------- The decoded tree ----------

  datatype Vertex = Vertex(number: int, position: nat)
  datatype OutPrim = OutPrim(number: nat, vertices: seq<Vertex>)
  datatype SubPrim = SubPrim(number: nat, outs: seq<OutPrim>)
  datatype InPrim = InPrim(id: int, dataIndex: int, outs: seq<OutPrim>, subs: seq<SubPrim>)

  // ---------- The maps, as integers ----------

  datatype Entry = Entry(prim: int, index: int)
  datatype Count = Count(vertices: int, prim: int)

  /** The C cast from a floating-point number to int drops the fraction. */
  function Truncate(r: real): (k: int)
    ensures if r >= 0.0 then 0 <= k && k as real <= r < k as real + 1.0 else k <= 0 && k as real - 1.0 < r <= k as real
  {
    if r >= 0.0 then r.Floor else -((-r).Floor)
  }

  function Entries(map3: seq<real>): seq<Entry>
    requires |map3| % 3 == 0
  {
    seq(|map3| / 3, j requires 0 <= j < |map3| / 3 => Entry(Truncate(map3[3 * j]), Truncate(map3[3 * j + 1])))
  }

  function Counts(map3: seq<real>): seq<Count>
    requires |map3| % 3 == 0
  {
    seq(|map3| / 3, i requires 0 <= i < |map3| / 3 => Count(Truncate(map3[3 * i]), Truncate(map3[3 * i + 2])))
  }

  /** Slot `j` of the primitive map: its red and green components. */
  function SlotAt(primMap: array<real>, j: nat): Entry
    requires primMap.Length % 3 == 0 && j < primMap.Length / 3
    reads primMap
  {
    Entry(Truncate(primMap[3 * j]), Truncate(primMap[3 * j + 1]))
  }

  /** Record `i` of the count map: its red and blue components. */
  function CountAt(vcMap: array<real>, i: nat): Count
    requires vcMap.Length % 3 == 0 && i < vcMap.Length / 3
    reads vcMap
  {
    Count(Truncate(vcMap[3 * i]), Truncate(vcMap[3 * i + 2]))
  }

  ghost predicate HoldsSlots(primMap: array<real>, m: seq<Entry>)
    reads primMap
  {
    && primMap.Length % 3 == 0 && |m| == primMap.Length / 3
    && forall j :: 0 <= j < |m| ==> m[j] == SlotAt(primMap, j)
  }

  ghost predicate HoldsCounts(vcMap: array<real>, counts: seq<Count>)
    reads vcMap
  {
    && vcMap.Length % 3 == 0 && |counts| == vcMap.Length / 3
    && forall i :: 0 <= i < |counts| ==> counts[i] == CountAt(vcMap, i)
  }

  // ---------- One block of the primitive map ----------

  datatype BlockEnd = BlockEnd(outs: seq<OutPrim>, next: nat, vertices: nat)

  /** Where the walk over a block stands: the current strip, the greatest vertex index seen in it,
      the number of vertices seen in the block, and the output primitives built so far. */
  datatype Walk = Walk(prim: int, maxIndex: int, seen: nat, outs: seq<OutPrim>)

  function AddVertex(outs: seq<OutPrim>, v: Vertex): (r: seq<OutPrim>)
    requires outs != []
    ensures |r| == |outs|
  {
    var last := |outs| - 1;
    outs[last := outs[last].(vertices := outs[last].vertices + [v])]
  }

  function EnterBlock(e: Entry): Walk {
    Walk(e.prim, e.index - 1, 0, [OutPrim(0, [])])
  }

  /** Slot `j`: a vertex index above all earlier ones of the strip is a new vertex. */
  function See(w: Walk, e: Entry, j: nat): (r: Walk)
    requires w.outs != []
    ensures |r.outs| == |w.outs|
  {
    if w.maxIndex < e.index then
      Walk(w.prim, e.index, w.seen + 1, AddVertex(w.outs, Vertex(w.seen, j)))
    else w
  }

  /** The slot ahead: another strip id opens the next output primitive. */
  function Enter(w: Walk, e: Entry): (r: Walk)
    ensures |w.outs| <= |r.outs|
  {
    if e.prim != w.prim then
      Walk(e.prim, e.index - 1, w.seen, w.outs + [OutPrim(|w.outs|, [])])
    else w
  }

  /** The walk over one block, from slot `j` on. None means that the walk needs a slot that is
      not there. */
  function BlockFrom(m: seq<Entry>, j: nat, limit: int, w: Walk): (r: Option<BlockEnd>)
    requires j < |m| && w.outs != []
    ensures r.Some? ==> j < r.value.next <= |m|
    decreases |m| - j
  {
    var w1 := See(w, m[j], j);
    if limit <= w1.seen then Some(BlockEnd(w1.outs, j + 1, w1.seen))
    else if j + 1 == |m| then None
    else BlockFrom(m, j + 1, limit, Enter(w1, m[j + 1]))
  }

  function DecodeBlock(m: seq<Entry>, j: nat, limit: int): (r: Option<BlockEnd>)
    requires j <= |m|
    ensures r.Some? ==> j <= r.value.next <= |m|
  {
    if limit == 0 then Some(BlockEnd([], j, 0))
    else if j == |m| then None
    else BlockFrom(m, j, limit, EnterBlock(m[j]))
  }

  // ---------- The whole stream ----------

  /** Adds a block to an input primitive: directly, or as its next sub-primitive. */
  function AddBlock(p: InPrim, number: nat, outs: seq<OutPrim>, basic: bool): InPrim {
    if basic then p.(outs := p.outs + outs) else p.(subs := p.subs + [SubPrim(number, outs)])
  }

  function NewInPrim(id: int, i: nat, basic: bool): InPrim {
    InPrim(id, if basic then i else -1, [], [])
  }

  /** The fields of the model while the count map is read. */
  datatype Model = Model(root: seq<InPrim>, inPrims: nat, subPrims: nat, outPrims: nat, vertices: nat)

  function Open(v: Model, id: int, i: nat, basic: bool): (r: Model)
    ensures r.root != []
  {
    v.(root := v.root + [NewInPrim(id, i, basic)], inPrims := v.inPrims + 1)
  }

  /** Hangs the block of a record below the last input primitive. With a condition the output
      primitives are counted and not shown. */
  function Hang(v: Model, b: BlockEnd, basic: bool, condition: bool): (r: Model)
    requires v.root != []
    ensures |r.root| == |v.root|
  {
    var last := |v.root| - 1;
    Model(v.root[last := AddBlock(v.root[last], v.subPrims, if condition then [] else b.outs, basic)],
          v.inPrims, if basic then v.subPrims else v.subPrims + 1, v.outPrims + |b.outs|, v.vertices + b.vertices)
  }

  /** A record with the id of the record before it belongs to the same input primitive. */
  predicate Continues(counts: seq<Count>, i: nat)
    requires i < |counts|
  {
    i > 0 && counts[i].prim == counts[i - 1].prim
  }

  datatype Cursor = Cursor(model: Model, next: nat)

  function Begin(c: Cursor, counts: seq<Count>, i: nat, basic: bool): Cursor
    requires i < |counts|
  {
    if Continues(counts, i) then c else c.(model := Open(c.model, counts[i].prim, i, basic))
  }

  function ReadBlock(c: Cursor, counts: seq<Count>, m: seq<Entry>, basic: bool, condition: bool, i: nat)
    : (r: Option<Cursor>)
    requires i < |counts| && c.next <= |m| && c.model.root != []
    ensures r.Some? ==> r.value.next <= |m| && r.value.model.root != []
  {
    match DecodeBlock(m, c.next, counts[i].vertices)
    case None => None
    case Some(b) => Some(Cursor(Hang(c.model, b, basic, condition), b.next))
  }

  /** The model after the first `n` count records. None means a read past the end of the map. */
  function Read(counts: seq<Count>, m: seq<Entry>, basic: bool, condition: bool, n: nat): (r: Option<Cursor>)
    requires n <= |counts|
    ensures r.Some? ==> r.value.next <= |m| && (n > 0 ==> r.value.model.root != [])
  {
    if n == 0 then Some(Cursor(Model([], 0, 0, 0, 0), 0))
    else
      match Read(counts, m, basic, condition, n - 1)
      case None => None
      case Some(c) => ReadBlock(Begin(c, counts, n - 1, basic), counts, m, basic, condition, n - 1)
  }

  lemma {:induction false} ReadFails(counts: seq<Count>, m: seq<Entry>, basic: bool, condition: bool, n: nat, k: nat)
    requires n <= k <= |counts|
    requires Read(counts, m, basic, condition, n).None?
    ensures Read(counts, m, basic, condition, k).None?
    decreases k
  {
    if n == k {
    } else {
      ReadFails(counts, m, basic, condition, n, k - 1);
    }
  }

  /** Whether a primitive enters the geometry shader whole. Quads and polygons are split first;
      unknown types are treated like them. */
  predicate IsBasicPrimitive(primType: int) {
    primType in {GL_POINTS, GL_LINES, GL_LINE_STRIP, GL_LINE_LOOP, GL_LINES_ADJACENCY_EXT,
                 GL_LINE_STRIP_ADJACENCY_EXT, GL_TRIANGLES, GL_TRIANGLE_STRIP, GL_TRIANGLE_FAN,
                 GL_TRIANGLE_MESH_SUN, GL_TRIANGLES_ADJACENCY_EXT, GL_TRIANGLE_STRIP_ADJACENCY_EXT}
  }

  /** The two inner loops of the constructor: one block, strip by strip and slot by slot. */
  method WalkBlock(primMap: array<real>, start: nat, vertexCount: int, condition: bool, ghost m: seq<Entry>)
    returns (ok: bool, shown: seq<OutPrim>, outPrims: nat, vertices: nat, next: nat, ghost outs: seq<OutPrim>)
    requires HoldsSlots(primMap, m) && start <= |m|
    ensures ok <==> DecodeBlock(m, start, vertexCount).Some?
    ensures ok ==> DecodeBlock(m, start, vertexCount) == Some(BlockEnd(outs, next, vertices))
    ensures ok ==> shown == (if condition then [] else outs) && outPrims == |outs|
  {
    ok, shown, outPrims, vertices, next, outs := true, [], 0, 0, start, [];
    if vertexCount == 0 {
      return;
    }
    var totalVertices := primMap.Length / 3;
    if start == totalVertices {
      ok := false;
      return;
    }
    var j, k := start, 0;
    var primitiveIdOut := SlotAt(primMap, j).prim;
    var maxIndex := SlotAt(primMap, j).index - 1;
    outs := [OutPrim(k, [])];
    if !condition {
      shown := [OutPrim(k, [])];
    }
    outPrims := 1;
    ghost var result := DecodeBlock(m, start, vertexCount);
    while true
      invariant start <= j < totalVertices == |m|
      invariant |outs| == outPrims == k + 1
      invariant shown == if condition then [] else outs
      invariant BlockFrom(m, j, vertexCount, Walk(primitiveIdOut, maxIndex, vertices, outs)) == result
      decreases totalVertices - j
    {
      ghost var w := Walk(primitiveIdOut, maxIndex, vertices, outs);
      ghost var w1 := See(w, m[j], j);
      if maxIndex < SlotAt(primMap, j).index {
        outs := AddVertex(outs, Vertex(vertices, j));
        if !condition {
          shown := AddVertex(shown, Vertex(vertices, j));
        }
        vertices := vertices + 1;
        maxIndex := SlotAt(primMap, j).index;
      }
      assert w1 == Walk(primitiveIdOut, maxIndex, vertices, outs);
      j := j + 1;
      if vertices < vertexCount {
        if j == totalVertices {
          ok := false;
          return;
        }
        if SlotAt(primMap, j).prim != primitiveIdOut {
          k := k + 1;
          primitiveIdOut := SlotAt(primMap, j).prim;
          maxIndex := SlotAt(primMap, j).index - 1;
          outs := outs + [OutPrim(k, [])];
          if !condition {
            shown := shown + [OutPrim(k, [])];
          }
          outPrims := outPrims + 1;
        }
        assert Enter(w1, m[j]) == Walk(primitiveIdOut, maxIndex, vertices, outs);
      }
      if !(vertices < vertexCount && j < totalVertices) {
        break;
      }
    }
    next := j;
  }

  /** The first `i` count records are read, and the model stands at `c`. */
  ghost predicate Reached(c: Cursor, counts: seq<Count>, m: seq<Entry>, basic: bool, condition: bool, i: nat) {
    i <= |counts| && Read(counts, m, basic, condition, i) == Some(c)
  }

  /** As `Reached`, and the input primitive of record `i` is open. */
  ghost predicate Ready(c: Cursor, counts: seq<Count>, m: seq<Entry>, basic: bool, condition: bool, i: nat) {
    && i < |counts| && Read(counts, m, basic, condition, i).Some?
    && c == Begin(Read(counts, m, basic, condition, i).value, counts, i, basic)
  }

  lemma {:induction false} ReadyToOpen(c: Cursor, counts: seq<Count>, m: seq<Entry>, basic: bool, condition: bool,
                                       i: nat)
    requires i < |counts| && Reached(c, counts, m, basic, condition, i) && !Continues(counts, i)
    ensures Ready(c.(model := Open(c.model, counts[i].prim, i, basic)), counts, m, basic, condition, i)
  {
  }

  lemma {:induction false} ReadyToContinue(c: Cursor, counts: seq<Count>, m: seq<Entry>, basic: bool, condition: bool,
                                           i: nat)
    requires i < |counts| && Reached(c, counts, m, basic, condition, i) && Continues(counts, i)
    ensures Ready(c, counts, m, basic, condition, i)
  {
  }

  class GeoShaderDataModel {
    var root: seq<InPrim>
    var numInPrimitives: nat
    var numSubInPrimitives: nat
    var numOutPrimitives: nat
    var numOutVertices: nat
    /** Set when the walk needed a slot behind the end of the primitive map; it stops there. */
    var readPastEnd: bool

    function View(): Model
      reads this
    {
      Model(root, numInPrimitives, numSubInPrimitives, numOutPrimitives, numOutVertices)
    }

    constructor (inPrimitiveType: int, primMap: array<real>, vcMap: array<real>, condition: bool)
      requires primMap.Length % 3 == 0 && vcMap.Length % 3 == 0
      ensures var counts := Counts(vcMap[..]);
              var r := Read(counts, Entries(primMap[..]), IsBasicPrimitive(inPrimitiveType), condition, |counts|);
              && (readPastEnd <==> r.None?)
              && (r.Some? ==> View() == r.value.model)
    {
      root := [];
      numInPrimitives, numSubInPrimitives, numOutPrimitives, numOutVertices := 0, 0, 0, 0;
      readPastEnd := false;
      new;
      ghost var counts, m := Counts(vcMap[..]), Entries(primMap[..]);
      ReadAll(IsBasicPrimitive(inPrimitiveType), primMap, vcMap, condition, m, counts);
    }

    /** The loop over the count records, one input primitive at a time. */
    method ReadAll(basic: bool, primMap: array<real>, vcMap: array<real>, condition: bool, ghost m: seq<Entry>,
                   ghost counts: seq<Count>)
      requires HoldsSlots(primMap, m) && HoldsCounts(vcMap, counts)
      requires !readPastEnd && View() == Model([], 0, 0, 0, 0)
      modifies this
      ensures readPastEnd <==> Read(counts, m, basic, condition, |counts|).None?
      ensures !readPastEnd ==> View() == Read(counts, m, basic, condition, |counts|).value.model
    {
      var i, j := 0, 0;
      while i < vcMap.Length / 3
        invariant !readPastEnd && HoldsSlots(primMap, m) && HoldsCounts(vcMap, counts)
        invariant Reached(Cursor(View(), j), counts, m, basic, condition, i)
        invariant i < |counts| ==> !Continues(counts, i)
      {
        var ok;
        ok, i, j := ReadInPrim(basic, primMap, vcMap, condition, i, j, m, counts);
        if !ok {
          return;
        }
      }
    }

    /** One input primitive: the records from `first` on that carry its id. */
    method ReadInPrim(basic: bool, primMap: array<real>, vcMap: array<real>, condition: bool, first: nat, start: nat,
                      ghost m: seq<Entry>, ghost counts: seq<Count>)
      returns (ok: bool, i: nat, j: nat)
      requires HoldsSlots(primMap, m) && HoldsCounts(vcMap, counts) && first < |counts| && !Continues(counts, first)
      requires !readPastEnd && Reached(Cursor(View(), start), counts, m, basic, condition, first)
      modifies this
      ensures ok == !readPastEnd
      ensures ok ==>
        && first < i && Reached(Cursor(View(), j), counts, m, basic, condition, i)
        && (i < |counts| ==> !Continues(counts, i))
      ensures !ok ==> Read(counts, m, basic, condition, |counts|).None?
    {
      i, j := first, start;
      ReadyToOpen(Cursor(View(), j), counts, m, basic, condition, i);
      var primitiveIdIn := CountAt(vcMap, i).prim;
      OpenInPrim(primitiveIdIn, i, basic);
      var more := true;
      while more
        invariant first <= i && !readPastEnd && HoldsSlots(primMap, m) && HoldsCounts(vcMap, counts)
        invariant more ==> Ready(Cursor(View(), j), counts, m, basic, condition, i) && counts[i].prim == primitiveIdIn
        invariant !more ==> first < i && Reached(Cursor(View(), j), counts, m, basic, condition, i)
        invariant !more && i < |counts| ==> !Continues(counts, i)
        decreases |counts| - i, more
      {
        ok, j := AddRecord(basic, primMap, vcMap, condition, i, j, m, counts);
        if !ok {
          return;
        }
        i := i + 1;
        more := SameInPrim(vcMap, i, primitiveIdIn, counts);
        if more {
          ReadyToContinue(Cursor(View(), j), counts, m, basic, condition, i);
        }
      }
      ok := true;
    }

    /** Whether record `i` is there and carries the id of the record before it. */
    method SameInPrim(vcMap: array<real>, i: nat, id: int, ghost counts: seq<Count>) returns (more: bool)
      requires HoldsCounts(vcMap, counts) && 0 < i <= |counts| && counts[i - 1].prim == id
      ensures more <==> i < |counts| && Continues(counts, i)
      ensures more ==> counts[i].prim == id
    {
      more := i < vcMap.Length / 3 && id == CountAt(vcMap, i).prim;
    }

    method OpenInPrim(id: int, i: nat, basic: bool)
      modifies this
      ensures View() == Open(old(View()), id, i, basic) && readPastEnd == old(readPastEnd)
    {
      root := root + [NewInPrim(id, i, basic)];
      numInPrimitives := numInPrimitives + 1;
    }

    /** One record of the count map: its block is decoded and hung below the open primitive. */
    method AddRecord(basic: bool, primMap: array<real>, vcMap: array<real>, condition: bool, i: nat, j: nat,
                     ghost m: seq<Entry>, ghost counts: seq<Count>)
      returns (ok: bool, next: nat)
      requires HoldsSlots(primMap, m) && HoldsCounts(vcMap, counts) && !readPastEnd
      requires Ready(Cursor(View(), j), counts, m, basic, condition, i)
      modifies this
      ensures ok == !readPastEnd
      ensures ok ==> Reached(Cursor(View(), next), counts, m, basic, condition, i + 1)
      ensures !ok ==> Read(counts, m, basic, condition, |counts|).None?
    {
      ok, next := HangBlock(basic, primMap, vcMap, condition, i, j, m, counts);
      if !ok {
        ReadFails(counts, m, basic, condition, i + 1, |counts|);
      }
    }

    method HangBlock(basic: bool, primMap: array<real>, vcMap: array<real>, condition: bool, i: nat, j: nat,
                     ghost m: seq<Entry>, ghost counts: seq<Count>)
      returns (ok: bool, next: nat)
      requires HoldsSlots(primMap, m) && HoldsCounts(vcMap, counts) && i < |counts| && j <= |m|
      requires root != [] && !readPastEnd
      modifies this
      ensures var r := ReadBlock(old(Cursor(View(), j)), counts, m, basic, condition, i);
              && ok == r.Some? == !readPastEnd
              && (ok ==> r.value == Cursor(View(), next))
    {
      ghost var outs;
      var shown, outPrims, vertices;
      ok, shown, outPrims, vertices, next, outs := WalkBlock(primMap, j, CountAt(vcMap, i).vertices, condition, m);
      if !ok {
        readPastEnd := true;
        return;
      }
      root := root[|root| - 1 := AddBlock(root[|root| - 1], numSubInPrimitives, shown, basic)];
      if !basic {
        numSubInPrimitives := numSubInPrimitives + 1;
      }
      numOutPrimitives := numOutPrimitives + outPrims;
      numOutVertices := numOutVertices + vertices;
    }
  }
}
