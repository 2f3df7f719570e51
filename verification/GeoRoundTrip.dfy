/**
 What the geometry-shader decoder is for: it undoes the flattening of output strips. A scene says
 which strips the shader emitted for which input primitive; encoding it gives the two maps;
 decoding the maps gives the tree of the scene back.
 */
module GeoRoundTrip {
  import opened Wrappers
  import opened GeoStream

  // ---------- Scenes ----------

  /** An output strip: its id and the vertex indices of its slots, in stream order. */
  datatype Strip = Strip(prim: int, indices: seq<int>)

  /** The output of one (sub-)primitive. */
  type Block = seq<Strip>

  /** An input primitive and the blocks of its sub-primitives. */
  datatype Sent = Sent(id: int, blocks: seq<Block>)

  /** Slot `i` shows a vertex that lies above all vertices shown before it. */
  ghost predicate IsNew(s: seq<int>, i: nat)
    requires i < |s|
  {
    forall p :: 0 <= p < i ==> s[p] < s[i]
  }

  ghost function NewCount(s: seq<int>, n: nat): nat
    requires n <= |s|
  {
    if n == 0 then 0 else NewCount(s, n - 1) + if IsNew(s, n - 1) then 1 else 0
  }

  ghost function Emitted(b: Block, n: nat): nat
    requires n <= |b|
  {
    if n == 0 then 0 else Emitted(b, n - 1) + NewCount(b[n - 1].indices, |b[n - 1].indices|)
  }

  ghost predicate ValidStrip(b: Block, t: nat) {
    t < |b| && b[t].indices != [] && (t > 0 ==> b[t].prim != b[t - 1].prim)
  }

  /** Consecutive strips can be told apart, and the block ends on a new vertex. */
  ghost predicate ValidBlock(b: Block) {
    && (forall t :: 0 <= t < |b| ==> ValidStrip(b, t))
    && (b != [] ==> var last := b[|b| - 1].indices; last != [] && IsNew(last, |last| - 1))
  }

  // ---------- Encoding ----------

  ghost function StripSlots(s: Strip, n: nat): (r: seq<Entry>)
    requires n <= |s.indices|
    ensures |r| == n
  {
    if n == 0 then [] else StripSlots(s, n - 1) + [Entry(s.prim, s.indices[n - 1])]
  }

  /** The number of slots of the first `n` strips. */
  ghost function Offset(b: Block, n: nat): nat
    requires n <= |b|
  {
    if n == 0 then 0 else Offset(b, n - 1) + |b[n - 1].indices|
  }

  ghost function Slots(b: Block, n: nat): (r: seq<Entry>)
    requires n <= |b|
    ensures |r| == Offset(b, n)
  {
    if n == 0 then [] else Slots(b, n - 1) + StripSlots(b[n - 1], |b[n - 1].indices|)
  }

  ghost function AllSlots(bs: seq<Block>, n: nat): seq<Entry>
    requires n <= |bs|
  {
    if n == 0 then [] else AllSlots(bs, n - 1) + Slots(bs[n - 1], |bs[n - 1]|)
  }

  /** The number of the first block of input primitive `n`. */
  ghost function First(scene: seq<Sent>, n: nat): nat
    requires n <= |scene|
  {
    if n == 0 then 0 else First(scene, n - 1) + |scene[n - 1].blocks|
  }

  /** The blocks of the first `n` input primitives, in stream order. */
  ghost function SceneBlocks(scene: seq<Sent>, n: nat): (r: seq<Block>)
    requires n <= |scene|
    ensures |r| == First(scene, n)
  {
    if n == 0 then [] else SceneBlocks(scene, n - 1) + scene[n - 1].blocks
  }

  ghost function Repeat(id: int, n: nat): (r: seq<int>)
    ensures |r| == n
  {
    if n == 0 then [] else Repeat(id, n - 1) + [id]
  }

  /** The id of the input primitive of every block. */
  ghost function SceneIds(scene: seq<Sent>, n: nat): (r: seq<int>)
    requires n <= |scene|
    ensures |r| == First(scene, n)
  {
    if n == 0 then [] else SceneIds(scene, n - 1) + Repeat(scene[n - 1].id, |scene[n - 1].blocks|)
  }

  /** The primitive map of a scene. */
  ghost function EncodeSlots(scene: seq<Sent>): seq<Entry> {
    AllSlots(SceneBlocks(scene, |scene|), First(scene, |scene|))
  }

  ghost function CountsOf(bs: seq<Block>, ids: seq<int>, n: nat): (r: seq<Count>)
    requires n <= |ids| == |bs|
    ensures |r| == n
  {
    if n == 0 then [] else CountsOf(bs, ids, n - 1) + [Count(Emitted(bs[n - 1], |bs[n - 1]|), ids[n - 1])]
  }

  /** The count map of a scene. */
  ghost function EncodeCounts(scene: seq<Sent>): seq<Count> {
    CountsOf(SceneBlocks(scene, |scene|), SceneIds(scene, |scene|), First(scene, |scene|))
  }

  // ---------- The tree of a scene ----------

  /** The vertices of a strip: every new slot is one, numbered from `first`. */
  ghost function StripVertices(s: seq<int>, n: nat, first: nat, base: nat): (r: seq<Vertex>)
    requires n <= |s|
    ensures |r| == NewCount(s, n)
  {
    if n == 0 then []
    else
      var r := StripVertices(s, n - 1, first, base);
      if IsNew(s, n - 1) then r + [Vertex(first + |r|, base + n - 1)] else r
  }

  /** The output primitives of a block whose slots start at `base`. */
  ghost function BlockTree(b: Block, n: nat, base: nat): (r: seq<OutPrim>)
    requires n <= |b|
    ensures |r| == n
  {
    if n == 0 then []
    else BlockTree(b, n - 1, base) +
         [OutPrim(n - 1, StripVertices(b[n - 1].indices, |b[n - 1].indices|, Emitted(b, n - 1),
           base + Offset(b, n - 1)))]
  }

  ghost predicate ValidSent(scene: seq<Sent>, p: nat) {
    && p < |scene| && scene[p].blocks != []
    && (forall b :: b in scene[p].blocks ==> ValidBlock(b))
    && (p > 0 ==> scene[p].id != scene[p - 1].id)
  }

  /** Every input primitive has a block, and neighbours have different ids. */
  ghost predicate ValidScene(scene: seq<Sent>) {
    forall p :: 0 <= p < |scene| ==> ValidSent(scene, p)
  }

  /** What the decoder finds in block `k` of the stream. */
  ghost function EndOf(bs: seq<Block>, k: nat): BlockEnd
    requires k < |bs|
  {
    BlockEnd(BlockTree(bs[k], |bs[k]|, |AllSlots(bs, k)|), |AllSlots(bs, k + 1)|, Emitted(bs[k], |bs[k]|))
  }

  /** What the decoder finds in the blocks of the stream. */
  ghost function Ends(bs: seq<Block>): (r: seq<BlockEnd>)
    ensures |r| == |bs|
  {
    seq(|bs|, k requires 0 <= k < |bs| => EndOf(bs, k))
  }

  ghost predicate EndAt(bs: seq<Block>, es: seq<BlockEnd>, k: nat) {
    k < |bs| == |es| && es[k] == EndOf(bs, k)
  }

  ghost predicate AreEnds(bs: seq<Block>, es: seq<BlockEnd>) {
    |es| == |bs| && forall k: nat :: k < |bs| ==> EndAt(bs, es, k)
  }

  /** The output primitives below an input primitive over the blocks `first` to `n - 1`. */
  ghost function OutsOf(es: seq<BlockEnd>, first: nat, n: nat): seq<OutPrim>
    requires first <= n <= |es|
  {
    if n == first then [] else OutsOf(es, first, n - 1) + es[n - 1].outs
  }

  /** The sub-primitives below an input primitive over the blocks `first` to `n - 1`. */
  ghost function SubsOf(es: seq<BlockEnd>, first: nat, n: nat, condition: bool): seq<SubPrim>
    requires first <= n <= |es|
  {
    if n == first then []
    else SubsOf(es, first, n - 1, condition) + [SubPrim(n - 1, if condition then [] else es[n - 1].outs)]
  }

  /** An input primitive over the blocks `first` to `n - 1`. With a condition the tree stops above
      the output primitives. */
  ghost function PrimTree(es: seq<BlockEnd>, id: int, first: nat, n: nat, basic: bool, condition: bool): InPrim
    requires first <= n <= |es|
  {
    if basic then InPrim(id, first, if condition then [] else OutsOf(es, first, n), [])
    else InPrim(id, -1, [], SubsOf(es, first, n, condition))
  }

  ghost function SceneTree(scene: seq<Sent>, n: nat, es: seq<BlockEnd>, basic: bool, condition: bool): (r: seq<InPrim>)
    requires n <= |scene| && First(scene, n) <= |es|
    ensures |r| == n
  {
    if n == 0 then []
    else
      SceneTree(scene, n - 1, es, basic, condition) +
      [PrimTree(es, scene[n - 1].id, First(scene, n - 1), First(scene, n), basic, condition)]
  }

  ghost function StripTotal(bs: seq<Block>, n: nat): nat
    requires n <= |bs|
  {
    if n == 0 then 0 else StripTotal(bs, n - 1) + |bs[n - 1]|
  }

  ghost function VertexTotal(bs: seq<Block>, n: nat): nat
    requires n <= |bs|
  {
    if n == 0 then 0 else VertexTotal(bs, n - 1) + Emitted(bs[n - 1], |bs[n - 1]|)
  }

  /** The model of a whole scene. */
  ghost function SceneModel(scene: seq<Sent>, basic: bool, condition: bool): Model {
    var bs := SceneBlocks(scene, |scene|);
    Model(SceneTree(scene, |scene|, Ends(bs), basic, condition), |scene|, if basic then 0 else |bs|,
          StripTotal(bs, |bs|), VertexTotal(bs, |bs|))
  }

  // ---------- One strip ----------

  /** The running maximum of the decoder, before slot `i` of a strip. */
  ghost function MaxBefore(s: seq<int>, i: nat): int
    requires i <= |s| && s != []
  {
    if i == 0 then s[0] - 1
    else if MaxBefore(s, i - 1) < s[i - 1] then s[i - 1]
    else MaxBefore(s, i - 1)
  }

  lemma {:induction false} RunningMaximum(s: seq<int>, i: nat)
    requires i <= |s| && s != []
    ensures forall p :: 0 <= p < i ==> s[p] <= MaxBefore(s, i)
    ensures i > 0 ==> exists p :: 0 <= p < i && s[p] == MaxBefore(s, i)
    ensures i < |s| ==> (MaxBefore(s, i) < s[i] <==> IsNew(s, i))
  {
    if i == 0 {
    } else {
      RunningMaximum(s, i - 1);
      assert MaxBefore(s, i) < s[i - 1] + 1 || i > 1;
    }
  }

  lemma {:induction false} MaximumDecides(s: seq<int>, i: nat)
    requires i < |s|
    ensures MaxBefore(s, i) < s[i] <==> IsNew(s, i)
  {
    RunningMaximum(s, i);
  }

  lemma {:induction false} NewCountGrows(s: seq<int>, i: nat, n: nat)
    requires i <= n <= |s|
    ensures NewCount(s, i) <= NewCount(s, n)
  {
    if i == n {
    } else {
      NewCountGrows(s, i, n - 1);
    }
  }

  lemma {:induction false} EmittedGrows(b: Block, t: nat, n: nat)
    requires t <= n <= |b|
    ensures Emitted(b, t) <= Emitted(b, n)
  {
    if t == n {
    } else {
      EmittedGrows(b, t, n - 1);
    }
  }

  /** Before the last slot of a block not all its vertices have been seen. */
  lemma {:induction false} NotYetAll(b: Block, t: nat, i: nat)
    requires ValidBlock(b) && t < |b| && i < |b[t].indices|
    ensures var seen := Emitted(b, t) + NewCount(b[t].indices, i + 1);
            if t == |b| - 1 && i == |b[t].indices| - 1 then seen == Emitted(b, |b|) else seen < Emitted(b, |b|)
  {
    var last := b[|b| - 1].indices;
    assert Emitted(b, |b|) == Emitted(b, |b| - 1) + NewCount(last, |last| - 1) + 1;
    if t == |b| - 1 {
      if i < |last| - 1 {
        NewCountGrows(last, i + 1, |last| - 1);
      }
    } else {
      NewCountGrows(b[t].indices, i + 1, |b[t].indices|);
      EmittedGrows(b, t + 1, |b| - 1);
    }
  }

  // ---------- One block ----------

  ghost predicate SlotIs(m: seq<Entry>, base: nat, b: Block, t: nat, i: nat)
    requires t < |b| && i < |b[t].indices|
  {
    var j := base + Offset(b, t) + i;
    j < |m| && m[j] == Entry(b[t].prim, b[t].indices[i])
  }

  /** The slots of the block lie in the map from `base` on. */
  ghost predicate SlotsAt(m: seq<Entry>, base: nat, b: Block) {
    && base + Offset(b, |b|) <= |m|
    && forall t, i :: 0 <= t < |b| && 0 <= i < |b[t].indices| ==> SlotIs(m, base, b, t, i)
  }

  lemma {:induction false} StripSlotAt(s: Strip, i: nat, n: nat)
    requires i < n <= |s.indices|
    ensures StripSlots(s, n)[i] == Entry(s.prim, s.indices[i])
  {
    if i == n - 1 {
    } else {
      StripSlotAt(s, i, n - 1);
    }
  }

  lemma {:induction false} SlotValue(b: Block, t: nat, i: nat, n: nat)
    requires t < n <= |b| && i < |b[t].indices|
    ensures Offset(b, t) + i < Offset(b, n)
    ensures Slots(b, n)[Offset(b, t) + i] == Entry(b[t].prim, b[t].indices[i])
  {
    if t < n - 1 {
      SlotValue(b, t, i, n - 1);
    } else {
      StripSlotAt(b[t], i, |b[t].indices|);
    }
  }

  lemma {:induction false} SlotsOfBlock(m: seq<Entry>, base: nat, b: Block)
    requires base + Offset(b, |b|) <= |m| && m[base..base + Offset(b, |b|)] == Slots(b, |b|)
    ensures SlotsAt(m, base, b)
  {
    var all := m[base..base + Offset(b, |b|)];
    forall t: nat, i: nat | t < |b| && i < |b[t].indices| ensures SlotIs(m, base, b, t, i) {
      SlotValue(b, t, i, |b|);
      assert all[Offset(b, t) + i] == m[base + Offset(b, t) + i];
    }
  }

  lemma {:induction false} AddVertexToLast(outs: seq<OutPrim>, p: OutPrim, v: Vertex)
    ensures AddVertex(outs + [p], v) == outs + [p.(vertices := p.vertices + [v])]
  {
  }

  /** Where the decoder stands before slot `i` of a strip, `prefix` being the finished strips. */
  ghost function WalkIn(prim: int, s: seq<int>, i: nat, prefix: seq<OutPrim>, first: nat, at: nat): Walk
    requires i <= |s| && s != []
  {
    Walk(prim, MaxBefore(s, i), first + NewCount(s, i), prefix + [OutPrim(|prefix|, StripVertices(s, i, first, at))])
  }

  lemma {:induction false} SeeSlot(prim: int, s: seq<int>, i: nat, prefix: seq<OutPrim>, first: nat, at: nat)
    requires i < |s|
    ensures See(WalkIn(prim, s, i, prefix, first, at), Entry(prim, s[i]), at + i)
            == WalkIn(prim, s, i + 1, prefix, first, at)
  {
    MaximumDecides(s, i);
    if IsNew(s, i) {
      AddVertexToLast(prefix, OutPrim(|prefix|, StripVertices(s, i, first, at)),
        Vertex(first + NewCount(s, i), at + i));
    }
  }

  /** Where the decoder stands when it reaches slot `i` of strip `t`. */
  ghost function WalkAt(b: Block, t: nat, i: nat, base: nat): Walk
    requires t < |b| && i <= |b[t].indices| && b[t].indices != []
  {
    WalkIn(b[t].prim, b[t].indices, i, BlockTree(b, t, base), Emitted(b, t), base + Offset(b, t))
  }

  lemma {:induction false} EnterStrip(b: Block, t: nat, base: nat)
    requires t + 1 < |b| && ValidStrip(b, t) && ValidStrip(b, t + 1)
    ensures Enter(WalkAt(b, t, |b[t].indices|, base), Entry(b[t + 1].prim, b[t + 1].indices[0]))
            == WalkAt(b, t + 1, 0, base)
  {
  }

  /** What the decoder finds in a block whose slots start at `base`. */
  ghost function Found(b: Block, base: nat): BlockEnd {
    BlockEnd(BlockTree(b, |b|, base), base + Offset(b, |b|), Emitted(b, |b|))
  }

  /** One slot of the walk, `w1` being the walk after the slot. */
  lemma {:induction false} BlockStep(m: seq<Entry>, j: nat, limit: int, w: Walk, w1: Walk)
    requires j < |m| && w.outs != [] && w1 == See(w, m[j], j)
    ensures limit <= w1.seen ==> BlockFrom(m, j, limit, w) == Some(BlockEnd(w1.outs, j + 1, w1.seen))
    ensures w1.seen < limit && j + 1 < |m| ==>
              BlockFrom(m, j, limit, w) == BlockFrom(m, j + 1, limit, Enter(w1, m[j + 1]))
  {
  }

  /** Slot `i` of strip `t`, seen by the decoder. */
  lemma {:induction false} OneSlot(m: seq<Entry>, base: nat, b: Block, t: nat, i: nat)
    requires ValidBlock(b) && SlotsAt(m, base, b) && t < |b| && i < |b[t].indices|
    ensures var j := base + Offset(b, t) + i;
            var from := WalkAt(b, t, i, base);
            var to := WalkAt(b, t, i + 1, base);
            && j < |m| && to == See(from, m[j], j)
            && (i + 1 < |b[t].indices| ==>
                  j + 1 < |m| && BlockFrom(m, j, Emitted(b, |b|), from) == BlockFrom(m, j + 1, Emitted(b, |b|), to))
  {
    assert SlotIs(m, base, b, t, i);
    SeeSlot(b[t].prim, b[t].indices, i, BlockTree(b, t, base), Emitted(b, t), base + Offset(b, t));
    if i + 1 < |b[t].indices| {
      NotYetAll(b, t, i);
      assert SlotIs(m, base, b, t, i + 1);
      BlockStep(m, base + Offset(b, t) + i, Emitted(b, |b|), WalkAt(b, t, i, base), WalkAt(b, t, i + 1, base));
    }
  }

  /** The slots of strip `t` up to its last one. */
  lemma {:induction false} WalkStrip(m: seq<Entry>, base: nat, b: Block, t: nat, i: nat)
    requires ValidBlock(b) && SlotsAt(m, base, b) && t < |b| && i < |b[t].indices|
    ensures var j := base + Offset(b, t);
            && j + |b[t].indices| <= |m|
            && BlockFrom(m, j + i, Emitted(b, |b|), WalkAt(b, t, i, base))
               == BlockFrom(m, j + |b[t].indices| - 1, Emitted(b, |b|), WalkAt(b, t, |b[t].indices| - 1, base))
    decreases |b[t].indices| - i
  {
    OneSlot(m, base, b, t, i);
    if i + 1 == |b[t].indices| {
    } else {
      WalkStrip(m, base, b, t, i + 1);
    }
  }

  /** What the decoder does from strip `t` on. */
  ghost function FromStrip(m: seq<Entry>, base: nat, b: Block, t: nat): Option<BlockEnd>
    requires t < |b| && b[t].indices != [] && base + Offset(b, t) < |m|
  {
    BlockFrom(m, base + Offset(b, t), Emitted(b, |b|), WalkAt(b, t, 0, base))
  }

  /** Up to the last slot of strip `t` the walk does not end. */
  lemma {:induction false} ToLastSlot(m: seq<Entry>, base: nat, b: Block, t: nat, j: nat, w: Walk)
    requires ValidBlock(b) && SlotsAt(m, base, b) && t < |b| && b[t].indices != []
    requires j == base + Offset(b, t) + |b[t].indices| - 1 && w == WalkAt(b, t, |b[t].indices| - 1, base)
    ensures j < |m| && WalkAt(b, t, |b[t].indices|, base) == See(w, m[j], j)
    ensures FromStrip(m, base, b, t) == BlockFrom(m, j, Emitted(b, |b|), w)
  {
    WalkStrip(m, base, b, t, 0);
    OneSlot(m, base, b, t, |b[t].indices| - 1);
  }

  lemma {:induction false} ThroughStrip(m: seq<Entry>, base: nat, b: Block, t: nat)
    requires ValidBlock(b) && SlotsAt(m, base, b) && t + 1 < |b|
    ensures base + Offset(b, t) < |m| && base + Offset(b, t + 1) < |m|
    ensures ValidStrip(b, t) && ValidStrip(b, t + 1)
    ensures FromStrip(m, base, b, t) == FromStrip(m, base, b, t + 1)
  {
    assert ValidStrip(b, t) && ValidStrip(b, t + 1);
    var n := |b[t].indices|;
    var j, w := base + Offset(b, t) + n - 1, WalkAt(b, t, n - 1, base);
    ToLastSlot(m, base, b, t, j, w);
    NotYetAll(b, t, n - 1);
    BlockStep(m, j, Emitted(b, |b|), w, WalkAt(b, t, n, base));
    assert SlotIs(m, base, b, t + 1, 0);
    EnterStrip(b, t, base);
  }

  lemma {:induction false} LastStrip(m: seq<Entry>, base: nat, b: Block)
    requires ValidBlock(b) && SlotsAt(m, base, b) && b != []
    ensures base + Offset(b, |b| - 1) < |m|
    ensures FromStrip(m, base, b, |b| - 1) == Some(Found(b, base))
  {
    var t := |b| - 1;
    var n := |b[t].indices|;
    var j, w, w1 := base + Offset(b, t) + n - 1, WalkAt(b, t, n - 1, base), WalkAt(b, t, n, base);
    ToLastSlot(m, base, b, t, j, w);
    BlockStep(m, j, Emitted(b, |b|), w, w1);
  }

  /** From strip `t` on, the decoder ends with the tree of the whole block. */
  lemma {:induction false} WalkStrips(m: seq<Entry>, base: nat, b: Block, t: nat)
    requires ValidBlock(b) && SlotsAt(m, base, b) && t < |b|
    ensures base + Offset(b, t) < |m| && ValidStrip(b, t)
    ensures FromStrip(m, base, b, t) == Some(Found(b, base))
    decreases |b| - t
  {
    if t + 1 < |b| {
      ThroughStrip(m, base, b, t);
      WalkStrips(m, base, b, t + 1);
    } else {
      LastStrip(m, base, b);
    }
  }

  lemma {:induction false} BlockDecodes(m: seq<Entry>, base: nat, b: Block)
    requires ValidBlock(b) && SlotsAt(m, base, b)
    ensures DecodeBlock(m, base, Emitted(b, |b|)) == Some(Found(b, base))
  {
    if b != [] {
      assert ValidStrip(b, 0);
      NotYetAll(b, 0, 0);
      assert SlotIs(m, base, b, 0, 0);
      WalkStrips(m, base, b, 0);
      assert WalkAt(b, 0, 0, base) == EnterBlock(m[base]);
    }
  }

  // ---------- The whole stream ----------

  /** The model the decoder builds from blocks it has decoded. */
  ghost function Assemble(counts: seq<Count>, es: seq<BlockEnd>, basic: bool, condition: bool, n: nat): (r: Model)
    requires n <= |es| <= |counts|
    ensures n > 0 ==> r.root != []
  {
    if n == 0 then Model([], 0, 0, 0, 0)
    else
      var c := Begin(Cursor(Assemble(counts, es, basic, condition, n - 1), 0), counts, n - 1, basic);
      Hang(c.model, es[n - 1], basic, condition)
  }

  lemma {:induction false} AllSlotsPrefix(bs: seq<Block>, n: nat, k: nat)
    requires n <= k <= |bs|
    ensures AllSlots(bs, n) <= AllSlots(bs, k)
  {
    if n == k {
    } else {
      AllSlotsPrefix(bs, n, k - 1);
    }
  }

  lemma {:induction false} Middle<T>(x: seq<T>, y: seq<T>, m: seq<T>)
    requires x + y <= m
    ensures |x| + |y| <= |m| && m[|x|..|x| + |y|] == y
  {
    assert (x + y)[|x|..|x| + |y|] == y;
  }

  lemma {:induction false} EndDecodes(bs: seq<Block>, m: seq<Entry>, k: nat)
    requires k < |bs| && ValidBlock(bs[k]) && AllSlots(bs, |bs|) <= m
    ensures |AllSlots(bs, k)| <= |m|
    ensures DecodeBlock(m, |AllSlots(bs, k)|, Emitted(bs[k], |bs[k]|)) == Some(EndOf(bs, k))
  {
    AllSlotsPrefix(bs, k + 1, |bs|);
    Middle(AllSlots(bs, k), Slots(bs[k], |bs[k]|), m);
    SlotsOfBlock(m, |AllSlots(bs, k)|, bs[k]);
    BlockDecodes(m, |AllSlots(bs, k)|, bs[k]);
  }

  lemma {:induction false} CountIs(bs: seq<Block>, ids: seq<int>, k: nat, n: nat)
    requires k < n <= |bs| == |ids|
    ensures CountsOf(bs, ids, n)[k] == Count(Emitted(bs[k], |bs[k]|), ids[k])
  {
    if k == n - 1 {
    } else {
      CountIs(bs, ids, k, n - 1);
    }
  }

  /** The decoder compares its vertex count behind a slot, so a negative count works like 1. */
  function Needed(count: int): nat {
    if count < 0 then 1 else count
  }

  lemma {:induction false} NegativeCount(m: seq<Entry>, j: nat, limit: int)
    requires j <= |m|
    ensures DecodeBlock(m, j, limit) == DecodeBlock(m, j, Needed(limit))
  {
  }

  ghost predicate AllValid(bs: seq<Block>) {
    forall k :: 0 <= k < |bs| ==> ValidBlock(bs[k])
  }

  ghost predicate CountMatches(bs: seq<Block>, counts: seq<Count>, k: nat) {
    k < |bs| <= |counts| && Needed(counts[k].vertices) == Emitted(bs[k], |bs[k]|)
  }

  /** The maps are the encoding of the blocks, up to a tail of the primitive map. */
  ghost predicate Encodes(bs: seq<Block>, counts: seq<Count>, m: seq<Entry>) {
    && |bs| <= |counts| && AllValid(bs) && AllSlots(bs, |bs|) <= m
    && forall k :: 0 <= k < |bs| ==> CountMatches(bs, counts, k)
  }

  /** One block: `v` is the model in front of it, `e` what the decoder finds in it. */
  lemma {:induction false} ReadOne(bs: seq<Block>, counts: seq<Count>, m: seq<Entry>, basic: bool, condition: bool,
                                   n: nat, v: Model, e: BlockEnd)
    requires n < |bs| && Encodes(bs, counts, m) && e == EndOf(bs, n)
    requires Read(counts, m, basic, condition, n) == Some(Cursor(v, |AllSlots(bs, n)|))
    ensures var w := Begin(Cursor(v, 0), counts, n, basic).model;
            && w.root != []
            && Read(counts, m, basic, condition, n + 1)
               == Some(Cursor(Hang(w, e, basic, condition), |AllSlots(bs, n + 1)|))
  {
    assert CountMatches(bs, counts, n) && ValidBlock(bs[n]);
    EndDecodes(bs, m, n);
    NegativeCount(m, |AllSlots(bs, n)|, counts[n].vertices);
  }

  /** The decoder reads every block at its place and assembles them. */
  lemma {:induction false} ReadBlocks(bs: seq<Block>, es: seq<BlockEnd>, counts: seq<Count>, m: seq<Entry>, basic: bool,
                                      condition: bool, n: nat)
    requires n <= |bs| && Encodes(bs, counts, m) && AreEnds(bs, es)
    ensures Read(counts, m, basic, condition, n)
            == Some(Cursor(Assemble(counts, es, basic, condition, n), |AllSlots(bs, n)|))
  {
    if n == 0 {
    } else {
      var k, v := n - 1, Assemble(counts, es, basic, condition, n - 1);
      ReadBlocks(bs, es, counts, m, basic, condition, k);
      assert EndAt(bs, es, k);
      ReadOne(bs, counts, m, basic, condition, k, v, es[k]);
    }
  }

  // ---------- The tree, primitive by primitive ----------

  lemma {:induction false} RepeatAt(id: int, n: nat, k: nat)
    requires k < n
    ensures Repeat(id, n)[k] == id
  {
    if k == n - 1 {
    } else {
      RepeatAt(id, n - 1, k);
    }
  }

  lemma {:induction false} IdAt(scene: seq<Sent>, n: nat, q: nat, k: nat)
    requires n < k <= |scene| && q < |scene[n].blocks|
    ensures First(scene, n) + q < First(scene, k)
    ensures SceneIds(scene, k)[First(scene, n) + q] == scene[n].id
  {
    if n < k - 1 {
      IdAt(scene, n, q, k - 1);
    } else {
      RepeatAt(scene[n].id, |scene[n].blocks|, q);
    }
  }

  lemma {:induction false} CountId(scene: seq<Sent>, n: nat, q: nat)
    requires n < |scene| && q < |scene[n].blocks|
    ensures First(scene, n) + q < |EncodeCounts(scene)|
    ensures EncodeCounts(scene)[First(scene, n) + q].prim == scene[n].id
  {
    IdAt(scene, n, q, |scene|);
    CountIs(SceneBlocks(scene, |scene|), SceneIds(scene, |scene|), First(scene, n) + q, First(scene, |scene|));
  }

  lemma {:induction false} Continuation(scene: seq<Sent>, n: nat, q: nat)
    requires ValidScene(scene) && n < |scene| && q < |scene[n].blocks|
    ensures First(scene, n) + q < |EncodeCounts(scene)|
    ensures EncodeCounts(scene)[First(scene, n) + q].prim == scene[n].id
    ensures Continues(EncodeCounts(scene), First(scene, n) + q) <==> q > 0
  {
    CountId(scene, n, q);
    if q > 0 {
      CountId(scene, n, q - 1);
    } else if n > 0 {
      assert ValidSent(scene, n) && ValidSent(scene, n - 1);
      CountId(scene, n - 1, |scene[n - 1].blocks| - 1);
    }
  }

  lemma {:induction false} UpdateLast<T>(x: seq<T>, a: T, b: T)
    ensures (x + [a])[|x| := b] == x + [b]
  {
  }

  lemma {:induction false} PrimNext(es: seq<BlockEnd>, id: int, first: nat, n: nat, basic: bool, condition: bool)
    requires first <= n < |es|
    ensures AddBlock(PrimTree(es, id, first, n, basic, condition), n, if condition then [] else es[n].outs, basic)
            == PrimTree(es, id, first, n + 1, basic, condition)
  {
  }

  ghost function OutTotal(es: seq<BlockEnd>, n: nat): nat
    requires n <= |es|
  {
    if n == 0 then 0 else OutTotal(es, n - 1) + |es[n - 1].outs|
  }

  ghost function SeenTotal(es: seq<BlockEnd>, n: nat): nat
    requires n <= |es|
  {
    if n == 0 then 0 else SeenTotal(es, n - 1) + es[n - 1].vertices
  }

  lemma {:induction false} EndsAre(bs: seq<Block>)
    ensures AreEnds(bs, Ends(bs))
  {
  }

  ghost predicate SizesAgree(bs: seq<Block>, es: seq<BlockEnd>, k: nat) {
    k < |bs| == |es| && |es[k].outs| == |bs[k]| && es[k].vertices == Emitted(bs[k], |bs[k]|)
  }

  lemma {:induction false} TotalsAgree(bs: seq<Block>, es: seq<BlockEnd>, n: nat)
    requires n <= |bs| == |es| && forall k: nat :: k < n ==> SizesAgree(bs, es, k)
    ensures OutTotal(es, n) == StripTotal(bs, n) && SeenTotal(es, n) == VertexTotal(bs, n)
  {
    if n == 0 {
    } else {
      TotalsAgree(bs, es, n - 1);
      assert SizesAgree(bs, es, n - 1);
    }
  }

  /** The model after `i` blocks, the last of them below a primitive of which `p` is the tree. */
  ghost function ModelAt(es: seq<BlockEnd>, i: nat, before: seq<InPrim>, p: InPrim, basic: bool): Model
    requires i <= |es|
  {
    Model(before + [p], |before| + 1, if basic then 0 else i, OutTotal(es, i), SeenTotal(es, i))
  }

  lemma {:induction false} HangNext(es: seq<BlockEnd>, id: int, first: nat, n: nat, before: seq<InPrim>, basic: bool,
                                    condition: bool)
    requires first <= n < |es|
    ensures Hang(ModelAt(es, n, before, PrimTree(es, id, first, n, basic, condition), basic), es[n], basic, condition)
            == ModelAt(es, n + 1, before, PrimTree(es, id, first, n + 1, basic, condition), basic)
  {
    PrimNext(es, id, first, n, basic, condition);
    UpdateLast(before, PrimTree(es, id, first, n, basic, condition), PrimTree(es, id, first, n + 1, basic, condition));
  }

  /** The model inside input primitive `n`, after `i` blocks of the stream. */
  ghost function ModelIn(scene: seq<Sent>, es: seq<BlockEnd>, n: nat, i: nat, basic: bool, condition: bool): Model
    requires n < |scene| && First(scene, n) <= i <= |es|
  {
    ModelAt(es, i, SceneTree(scene, n, es, basic, condition),
            PrimTree(es, scene[n].id, First(scene, n), i, basic, condition), basic)
  }

  /** The model after `n` whole input primitives. */
  ghost function ModelOf(scene: seq<Sent>, es: seq<BlockEnd>, n: nat, basic: bool, condition: bool): Model
    requires n <= |scene| && First(scene, n) <= |es|
  {
    Model(SceneTree(scene, n, es, basic, condition), n, if basic then 0 else First(scene, n),
          OutTotal(es, First(scene, n)), SeenTotal(es, First(scene, n)))
  }

  lemma {:induction false} HangIn(scene: seq<Sent>, es: seq<BlockEnd>, n: nat, i: nat, basic: bool, condition: bool)
    requires n < |scene| && First(scene, n) <= i < |es|
    ensures Hang(ModelIn(scene, es, n, i, basic, condition), es[i], basic, condition)
            == ModelIn(scene, es, n, i + 1, basic, condition)
  {
    var before := SceneTree(scene, n, es, basic, condition);
    HangNext(es, scene[n].id, First(scene, n), i, before, basic, condition);
  }

  /** The model in front of block `i`: of whole primitives, or inside primitive `n`. */
  ghost predicate InFront(v: Model, scene: seq<Sent>, es: seq<BlockEnd>, n: nat, i: nat, basic: bool, condition: bool)
    requires n < |scene| && First(scene, n) <= i <= |es|
  {
    v == if i == First(scene, n) then ModelOf(scene, es, n, basic, condition)
         else ModelIn(scene, es, n, i, basic, condition)
  }

  lemma {:induction false} BeginIn(v: Model, scene: seq<Sent>, counts: seq<Count>, es: seq<BlockEnd>, n: nat, i: nat,
                                   basic: bool, condition: bool)
    requires n < |scene| && First(scene, n) <= i < |es| <= |counts|
    requires counts[i].prim == scene[n].id && (Continues(counts, i) <==> i > First(scene, n))
    requires InFront(v, scene, es, n, i, basic, condition)
    ensures Begin(Cursor(v, 0), counts, i, basic).model == ModelIn(scene, es, n, i, basic, condition)
  {
  }

  /** One block further. */
  lemma {:induction false} AssembleNext(scene: seq<Sent>, counts: seq<Count>, es: seq<BlockEnd>, n: nat, i: nat,
                                        basic: bool, condition: bool)
    requires n < |scene| && First(scene, n) <= i < |es| <= |counts|
    requires counts[i].prim == scene[n].id && (Continues(counts, i) <==> i > First(scene, n))
    requires InFront(Assemble(counts, es, basic, condition, i), scene, es, n, i, basic, condition)
    ensures Assemble(counts, es, basic, condition, i + 1) == ModelIn(scene, es, n, i + 1, basic, condition)
  {
    BeginIn(Assemble(counts, es, basic, condition, i), scene, counts, es, n, i, basic, condition);
    HangIn(scene, es, n, i, basic, condition);
  }

  /** The blocks of input primitive `n`, up to block `i` of the stream. */
  lemma {:induction false} AssembleIn(scene: seq<Sent>, counts: seq<Count>, es: seq<BlockEnd>, n: nat, i: nat,
                                      basic: bool, condition: bool)
    requires ValidScene(scene) && n < |scene| && counts == EncodeCounts(scene)
    requires First(scene, n) <= i <= First(scene, n + 1) && i <= |es| <= |counts|
    requires Assemble(counts, es, basic, condition, First(scene, n)) == ModelOf(scene, es, n, basic, condition)
    ensures InFront(Assemble(counts, es, basic, condition, i), scene, es, n, i, basic, condition)
  {
    if i == First(scene, n) {
    } else {
      var j := i - 1;
      AssembleIn(scene, counts, es, n, j, basic, condition);
      Continuation(scene, n, j - First(scene, n));
      AssembleNext(scene, counts, es, n, j, basic, condition);
    }
  }

  lemma {:induction false} FirstGrows(scene: seq<Sent>, n: nat, k: nat)
    requires n <= k <= |scene|
    ensures First(scene, n) <= First(scene, k)
  {
    if n == k {
    } else {
      FirstGrows(scene, n, k - 1);
    }
  }

  lemma {:induction false} AssembleOver(scene: seq<Sent>, counts: seq<Count>, es: seq<BlockEnd>, n: nat, basic: bool,
                                        condition: bool)
    requires ValidScene(scene) && n <= |scene| && counts == EncodeCounts(scene)
    requires First(scene, n) <= |es| <= |counts|
    ensures Assemble(counts, es, basic, condition, First(scene, n)) == ModelOf(scene, es, n, basic, condition)
  {
    if n == 0 {
    } else {
      FirstGrows(scene, n - 1, n);
      AssembleOver(scene, counts, es, n - 1, basic, condition);
      assert ValidSent(scene, n - 1);
      AssembleIn(scene, counts, es, n - 1, First(scene, n), basic, condition);
    }
  }

  lemma {:induction false} AssembleScene(scene: seq<Sent>, bs: seq<Block>, es: seq<BlockEnd>, basic: bool,
                                         condition: bool)
    requires ValidScene(scene) && bs == SceneBlocks(scene, |scene|) && es == Ends(bs)
    ensures Assemble(EncodeCounts(scene), es, basic, condition, |es|) == SceneModel(scene, basic, condition)
  {
    EndsAre(bs);
    forall k: nat | k < |bs| ensures SizesAgree(bs, es, k) {
      assert EndAt(bs, es, k);
    }
    TotalsAgree(bs, es, |bs|);
    AssembleOver(scene, EncodeCounts(scene), es, |scene|, basic, condition);
  }

  lemma {:induction false} BlocksAreValid(scene: seq<Sent>, n: nat)
    requires ValidScene(scene) && n <= |scene|
    ensures AllValid(SceneBlocks(scene, n))
  {
    if n == 0 {
    } else {
      BlocksAreValid(scene, n - 1);
      assert ValidSent(scene, n - 1);
    }
  }

  /** Decoding undoes encoding: the decoder rebuilds the scene's tree, counts its parts, stops
      right behind the last slot of the scene and never reads behind the end of the map. */
  lemma {:induction false} RoundTrip(scene: seq<Sent>, tail: seq<Entry>, basic: bool, condition: bool)
    requires ValidScene(scene)
    ensures Read(EncodeCounts(scene), EncodeSlots(scene) + tail, basic, condition, |EncodeCounts(scene)|)
            == Some(Cursor(SceneModel(scene, basic, condition), |EncodeSlots(scene)|))
  {
    BlocksAreValid(scene, |scene|);
    var counts, bs := EncodeCounts(scene), SceneBlocks(scene, |scene|);
    forall k: nat | k < |bs| ensures CountMatches(bs, counts, k) {
      CountIs(bs, SceneIds(scene, |scene|), k, |bs|);
    }
    EndsAre(bs);
    ReadBlocks(bs, Ends(bs), counts, EncodeSlots(scene) + tail, basic, condition, |bs|);
    AssembleScene(scene, bs, Ends(bs), basic, condition);
  }

  /** A float with the whole part `k` is cast to `k`. */
  lemma {:induction false} CastIs(r: real, k: int)
    requires if r >= 0.0 then k as real <= r < k as real + 1.0 else k as real - 1.0 < r <= k as real
    ensures Truncate(r) == k
  {
    var t := Truncate(r);
    assert t as real < k as real + 1.0 && k as real < t as real + 1.0;
    assert t < k + 1 && k < t + 1;
  }

  lemma {:induction false} EntriesAre(map3: seq<real>, m: seq<Entry>)
    requires |map3| % 3 == 0 && |m| <= |map3| / 3
    requires forall j :: 0 <= j < |m| ==> Truncate(map3[3 * j]) == m[j].prim
    requires forall j :: 0 <= j < |m| ==> Truncate(map3[3 * j + 1]) == m[j].index
    ensures m <= Entries(map3)
  {
    var es := Entries(map3);
    forall j | 0 <= j < |m| ensures m[j] == es[j] {
      assert es[j].prim == m[j].prim && es[j].index == m[j].index;
    }
  }

  lemma {:induction false} CountsAre(map3: seq<real>, counts: seq<Count>)
    requires |map3| == 3 * |counts|
    requires forall i :: 0 <= i < |counts| ==> Truncate(map3[3 * i]) == counts[i].vertices
    requires forall i :: 0 <= i < |counts| ==> Truncate(map3[3 * i + 2]) == counts[i].prim
    ensures Counts(map3) == counts
  {
    var cs := Counts(map3);
    forall i | 0 <= i < |counts| ensures counts[i] == cs[i] {
      assert cs[i].vertices == counts[i].vertices && cs[i].prim == counts[i].prim;
    }
  }

  /** The constructor on the floats of a scene. The red and the green component of a slot hold the strip
      and the vertex index, those of a record, red and blue, the vertex count and the id of the input
      primitive; fractions are dropped towards zero, and slots may follow behind the scene. */
  method DecodeScene(ghost scene: seq<Sent>, inPrimitiveType: int, primMap: array<real>, vcMap: array<real>,
                     condition: bool)
    returns (model: GeoShaderDataModel)
    requires ValidScene(scene) && primMap.Length % 3 == 0 && |EncodeSlots(scene)| <= primMap.Length / 3
    requires vcMap.Length == 3 * |EncodeCounts(scene)|
    requires forall j :: 0 <= j < |EncodeSlots(scene)| ==>
               var k, r := EncodeSlots(scene)[j].prim as real, primMap[3 * j];
               if r >= 0.0 then k <= r < k + 1.0 else k - 1.0 < r <= k
    requires forall j :: 0 <= j < |EncodeSlots(scene)| ==>
               var k, r := EncodeSlots(scene)[j].index as real, primMap[3 * j + 1];
               if r >= 0.0 then k <= r < k + 1.0 else k - 1.0 < r <= k
    requires forall i :: 0 <= i < |EncodeCounts(scene)| ==>
               var k, r := EncodeCounts(scene)[i].vertices as real, vcMap[3 * i];
               if r >= 0.0 then k <= r < k + 1.0 else k - 1.0 < r <= k
    requires forall i :: 0 <= i < |EncodeCounts(scene)| ==>
               var k, r := EncodeCounts(scene)[i].prim as real, vcMap[3 * i + 2];
               if r >= 0.0 then k <= r < k + 1.0 else k - 1.0 < r <= k
    ensures !model.readPastEnd
    ensures model.View() == SceneModel(scene, 0 <= inPrimitiveType <= 6 || 0xA <= inPrimitiveType <= 0xD
                                              || inPrimitiveType == 0x8615, condition)
  {
    ghost var m, counts := EncodeSlots(scene), EncodeCounts(scene);
    ghost var floats, records := primMap[..], vcMap[..];
    forall j | 0 <= j < |m| ensures Truncate(floats[3 * j]) == m[j].prim {
      CastIs(primMap[3 * j], m[j].prim);
    }
    forall j | 0 <= j < |m| ensures Truncate(floats[3 * j + 1]) == m[j].index {
      CastIs(primMap[3 * j + 1], m[j].index);
    }
    forall i | 0 <= i < |counts| ensures Truncate(records[3 * i]) == counts[i].vertices {
      CastIs(vcMap[3 * i], counts[i].vertices);
    }
    forall i | 0 <= i < |counts| ensures Truncate(records[3 * i + 2]) == counts[i].prim {
      CastIs(vcMap[3 * i + 2], counts[i].prim);
    }
    EntriesAre(floats, m);
    CountsAre(records, counts);
    ghost var tail := Entries(floats)[|m|..];
    assert Entries(floats) == m + tail;
    RoundTrip(scene, tail, IsBasicPrimitive(inPrimitiveType), condition);
    model := new GeoShaderDataModel(inPrimitiveType, primMap, vcMap, condition);
  }
}
