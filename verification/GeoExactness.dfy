/**
 The converse of the round trip: maps that the geometry-shader decoder reads to the end are
 encodings. Together with the round trip this says exactly when the decoder stays inside the map.
 The module also states what the rebuilt leaves are: the first occurrences of the vertices.
 */
module GeoExactness {
  import opened Wrappers
  import opened GeoStream
  import opened GeoRoundTrip

  // ---------- Prefixes ----------

  lemma {:induction false} StripPrefix(s: seq<int>, t: seq<int>, n: nat)
    requires s <= t && n <= |s|
    ensures NewCount(t, n) == NewCount(s, n)
    ensures s != [] ==> MaxBefore(t, n) == MaxBefore(s, n)
  {
    if n == 0 {
    } else {
      StripPrefix(s, t, n - 1);
      assert IsNew(t, n - 1) <==> IsNew(s, n - 1) by {
        assert forall p :: 0 <= p < n ==> s[p] == t[p];
      }
    }
  }

  lemma {:induction false} StripSlotsPrefix(p: int, s: seq<int>, t: seq<int>, n: nat)
    requires s <= t && n <= |s|
    ensures StripSlots(Strip(p, t), n) == StripSlots(Strip(p, s), n)
  {
    if n == 0 {
    } else {
      StripSlotsPrefix(p, s, t, n - 1);
    }
  }

  lemma {:induction false} BlockPrefix(b: Block, x: Strip, n: nat)
    requires n <= |b|
    ensures Emitted(b + [x], n) == Emitted(b, n) && Slots(b + [x], n) == Slots(b, n)
  {
    if n == 0 {
    } else {
      BlockPrefix(b, x, n - 1);
    }
  }

  lemma {:induction false} StreamPrefix(bs: seq<Block>, x: Block, n: nat)
    requires n <= |bs|
    ensures AllSlots(bs + [x], n) == AllSlots(bs, n)
  {
    if n == 0 {
    } else {
      StreamPrefix(bs, x, n - 1);
    }
  }

  // ---------- One block ----------

  /** The finished strips of a block that is being read: valid, and none runs on into `prim`. */
  ghost predicate Finished(b: Block, prim: int) {
    && (forall t :: 0 <= t < |b| ==> ValidStrip(b, t))
    && (b != [] ==> b[|b| - 1].prim != prim)
  }

  /** The walk `w` in front of slot `j`: strips `b` and the slots `s` of the current strip are behind it. */
  ghost predicate Behind(m: seq<Entry>, start: nat, j: nat, b: Block, s: seq<int>, w: Walk) {
    && start <= j < |m| && w.outs != [] && m[j].prim == w.prim
    && Finished(b, w.prim)
    && w.maxIndex == MaxBefore(s + [m[j].index], |s|)
    && w.seen == Emitted(b, |b|) + NewCount(s, |s|)
    && m[start..j] == Slots(b, |b|) + StripSlots(Strip(w.prim, s), |s|)
  }

  lemma {:induction false} FinishStrip(b: Block, x: Strip)
    requires Finished(b, x.prim) && x.indices != []
    ensures forall t :: 0 <= t < |b + [x]| ==> ValidStrip(b + [x], t)
    ensures Emitted(b + [x], |b| + 1) == Emitted(b, |b|) + NewCount(x.indices, |x.indices|)
    ensures Slots(b + [x], |b| + 1) == Slots(b, |b|) + StripSlots(x, |x.indices|)
  {
    BlockPrefix(b, x, |b|);
    forall t | 0 <= t < |b + [x]| ensures ValidStrip(b + [x], t) {
      if t < |b| {
        assert ValidStrip(b, t);
      }
    }
  }

  lemma {:induction false} SlotsGrow(m: seq<Entry>, start: nat, j: nat, done: seq<Entry>, p: int, s: seq<int>)
    requires start <= j < |m| && m[j].prim == p && m[start..j] == done + StripSlots(Strip(p, s), |s|)
    ensures var s1 := s + [m[j].index];
            m[start..j + 1] == done + StripSlots(Strip(p, s1), |s1|)
  {
    var s1 := s + [m[j].index];
    StripSlotsPrefix(p, s, s1, |s|);
    assert m[start..j + 1] == m[start..j] + [m[j]];
  }

  /** Slot `j` belongs to the current strip. */
  lemma {:induction false} SeeBehind(m: seq<Entry>, start: nat, j: nat, b: Block, s: seq<int>, w: Walk)
    requires Behind(m, start, j, b, s, w)
    ensures var s1 := s + [m[j].index];
            var w1 := See(w, m[j], j);
            && w1.prim == w.prim && w1.outs != []
            && w1.maxIndex == MaxBefore(s1, |s1|)
            && w1.seen == Emitted(b, |b|) + NewCount(s1, |s1|)
            && (w1.seen > w.seen <==> IsNew(s1, |s|)) && w1.seen <= w.seen + 1
            && m[start..j + 1] == Slots(b, |b|) + StripSlots(Strip(w.prim, s1), |s1|)
  {
    var s1 := s + [m[j].index];
    MaximumDecides(s1, |s|);
    StripPrefix(s, s1, |s|);
    SlotsGrow(m, start, j, Slots(b, |b|), w.prim, s);
  }

  lemma {:induction false} MaxAppend(s: seq<int>, x: int)
    requires s != []
    ensures MaxBefore(s + [x], |s|) == MaxBefore(s, |s|)
  {
    StripPrefix(s, s + [x], |s|);
  }

  /** The slot ahead belongs to the current strip. */
  lemma {:induction false} BehindSame(m: seq<Entry>, start: nat, j: nat, b: Block, s: seq<int>, w: Walk)
    requires Behind(m, start, j, b, s, w) && j + 1 < |m| && m[j + 1].prim == w.prim
    ensures Behind(m, start, j + 1, b, s + [m[j].index], See(w, m[j], j))
  {
    SeeBehind(m, start, j, b, s, w);
    MaxAppend(s + [m[j].index], m[j + 1].index);
  }

  /** The slot ahead opens the next strip. */
  lemma {:induction false} BehindNext(m: seq<Entry>, start: nat, j: nat, b: Block, s: seq<int>, w: Walk)
    requires Behind(m, start, j, b, s, w) && j + 1 < |m| && m[j + 1].prim != w.prim
    ensures Behind(m, start, j + 1, b + [Strip(w.prim, s + [m[j].index])], [], Enter(See(w, m[j], j), m[j + 1]))
  {
    var x := Strip(w.prim, s + [m[j].index]);
    SeeBehind(m, start, j, b, s, w);
    FinishStrip(b, x);
    assert Finished(b + [x], m[j + 1].prim);
  }

  /** The walk ends behind slot `j`: the current strip is the last one. */
  lemma {:induction false} BlockBehind(m: seq<Entry>, start: nat, j: nat, limit: int, b: Block, s: seq<int>, w: Walk)
    returns (r: Block)
    requires Behind(m, start, j, b, s, w) && w.seen < limit <= See(w, m[j], j).seen
    ensures ValidBlock(r) && Emitted(r, |r|) == limit && m[start..j + 1] == Slots(r, |r|)
  {
    var x := Strip(w.prim, s + [m[j].index]);
    SeeBehind(m, start, j, b, s, w);
    FinishStrip(b, x);
    r := b + [x];
  }

  /** What a successful walk over a block has read is the encoding of a block. */
  lemma {:induction false} ParseFrom(m: seq<Entry>, start: nat, j: nat, limit: int, b: Block, s: seq<int>, w: Walk)
    returns (r: Block)
    requires Behind(m, start, j, b, s, w) && w.seen < limit
    requires BlockFrom(m, j, limit, w).Some?
    ensures ValidBlock(r) && Emitted(r, |r|) == limit
    ensures m[start..BlockFrom(m, j, limit, w).value.next] == Slots(r, |r|)
    decreases |m| - j
  {
    var w1 := See(w, m[j], j);
    BlockStep(m, j, limit, w, w1);
    if limit <= w1.seen {
      r := BlockBehind(m, start, j, limit, b, s, w);
    } else if m[j + 1].prim == w.prim {
      BehindSame(m, start, j, b, s, w);
      r := ParseFrom(m, start, j + 1, limit, b, s + [m[j].index], w1);
    } else {
      BehindNext(m, start, j, b, s, w);
      r := ParseFrom(m, start, j + 1, limit, b + [Strip(w.prim, s + [m[j].index])], [], Enter(w1, m[j + 1]));
    }
  }

  lemma {:induction false} ParseBlock(m: seq<Entry>, j: nat, limit: nat) returns (r: Block)
    requires j <= |m| && DecodeBlock(m, j, limit).Some?
    ensures ValidBlock(r) && Emitted(r, |r|) == limit
    ensures m[j..DecodeBlock(m, j, limit).value.next] == Slots(r, |r|)
  {
    if limit == 0 {
      r := [];
    } else {
      r := ParseFrom(m, j, j, limit, [], [], EnterBlock(m[j]));
    }
  }

  // ---------- The whole stream ----------

  lemma {:induction false} EncodesMore(bs: seq<Block>, b: Block, counts: seq<Count>, m: seq<Entry>)
    requires |bs| < |counts| && Encodes(bs, counts, m) && ValidBlock(b)
    requires Needed(counts[|bs|].vertices) == Emitted(b, |b|) && AllSlots(bs, |bs|) + Slots(b, |b|) <= m
    ensures Encodes(bs + [b], counts, m)
    ensures AllSlots(bs + [b], |bs| + 1) == AllSlots(bs, |bs|) + Slots(b, |b|)
  {
    StreamPrefix(bs, b, |bs|);
    var more := bs + [b];
    forall k: nat | k < |more| ensures CountMatches(more, counts, k) {
      if k < |bs| {
        assert CountMatches(bs, counts, k);
      }
    }
  }

  /** One more block, behind the blocks `before`. */
  lemma {:induction false} ParseMore(counts: seq<Count>, m: seq<Entry>, before: seq<Block>, at: nat)
    returns (bs: seq<Block>)
    requires |before| < |counts| && Encodes(before, counts, m) && at == |AllSlots(before, |before|)|
    requires at <= |m| && DecodeBlock(m, at, counts[|before|].vertices).Some?
    ensures |bs| == |before| + 1 && Encodes(bs, counts, m)
    ensures DecodeBlock(m, at, counts[|before|].vertices).value.next == |AllSlots(bs, |bs|)|
  {
    var limit := Needed(counts[|before|].vertices);
    var b := ParseBlock(m, at, limit);
    EncodesMore(before, b, counts, m);
    bs := before + [b];
  }

  lemma {:induction false} ParseStream(counts: seq<Count>, m: seq<Entry>, basic: bool, condition: bool, n: nat)
    returns (bs: seq<Block>)
    requires n <= |counts| && Read(counts, m, basic, condition, n).Some?
    ensures |bs| == n && Encodes(bs, counts, m)
    ensures Read(counts, m, basic, condition, n).value.next == |AllSlots(bs, n)|
  {
    bs := [];
    if n == 0 {
    } else {
      var before := ParseStream(counts, m, basic, condition, n - 1);
      var c := Read(counts, m, basic, condition, n - 1).value;
      bs := ParseMore(counts, m, before, c.next);
    }
  }

  /** The decoder stays inside the primitive map if and only if the maps are an encoding. */
  lemma {:induction false} ReadsInsideIffEncoded(counts: seq<Count>, m: seq<Entry>, basic: bool, condition: bool)
    ensures Read(counts, m, basic, condition, |counts|).Some? <==>
      exists bs :: |bs| == |counts| && Encodes(bs, counts, m)
  {
    if Read(counts, m, basic, condition, |counts|).Some? {
      var bs := ParseStream(counts, m, basic, condition, |counts|);
      assert Encodes(bs, counts, m);
    }
    if bs :| |bs| == |counts| && Encodes(bs, counts, m) {
      EndsAre(bs);
      ReadBlocks(bs, Ends(bs), counts, m, basic, condition, |bs|);
    }
  }

  // ---------- Leaves are first occurrences ----------

  ghost predicate Repeats(s: seq<int>, i: nat)
    requires i < |s|
  {
    exists p :: 0 <= p < i && s[p] == s[i]
  }

  /** Vertices of a strip first appear in increasing index order. */
  ghost predicate Ascending(s: seq<int>) {
    forall i :: 0 <= i < |s| ==> IsNew(s, i) || Repeats(s, i)
  }

  ghost function Shows(s: seq<int>, n: nat): set<int>
    requires n <= |s|
  {
    set i | 0 <= i < n :: s[i]
  }

  lemma {:induction false} NewIffUnseen(s: seq<int>, n: nat)
    requires Ascending(s) && n < |s|
    ensures IsNew(s, n) <==> s[n] !in Shows(s, n)
  {
    assert IsNew(s, n) || Repeats(s, n);
  }

  lemma {:induction false} OneMoreSeen(seen: set<int>, x: int)
    ensures |seen + {x}| == |seen| + if x in seen then 0 else 1
  {
    if x in seen {
      assert seen + {x} == seen;
    }
  }

  lemma {:induction false} ShowsCount(s: seq<int>, n: nat)
    requires Ascending(s) && n <= |s|
    ensures |Shows(s, n)| == NewCount(s, n)
  {
    if n == 0 {
    } else {
      ShowsCount(s, n - 1);
      NewIffUnseen(s, n - 1);
      OneMoreSeen(Shows(s, n - 1), s[n - 1]);
      assert Shows(s, n) == Shows(s, n - 1) + {s[n - 1]};
    }
  }

  /** The running maximum drops exactly the repeated vertices, so a strip gets one leaf per vertex. */
  lemma {:induction false} OneLeafPerVertex(s: seq<int>, n: nat, first: nat, base: nat)
    requires Ascending(s) && n <= |s|
    ensures |StripVertices(s, n, first, base)| == |Shows(s, n)|
    ensures n < |s| ==> (IsNew(s, n) <==> s[n] !in Shows(s, n))
  {
    ShowsCount(s, n);
    if n < |s| {
      NewIffUnseen(s, n);
    }
  }

  /** Every leaf of a strip holds the position of a first occurrence, and its number in the block. */
  lemma {:induction false} LeafIsFirstOccurrence(s: seq<int>, n: nat, first: nat, base: nat, k: nat)
    requires Ascending(s) && n <= |s| && k < NewCount(s, n)
    ensures var v := StripVertices(s, n, first, base)[k];
            && v.number == first + k && base <= v.position < base + n
            && !Repeats(s, v.position - base) && NewCount(s, v.position - base) == k
  {
    if k == NewCount(s, n - 1) {
      assert IsNew(s, n - 1);
    } else {
      LeafIsFirstOccurrence(s, n - 1, first, base, k);
    }
  }

  // ---------- Bookkeeping, on every input ----------

  ghost function Positions(vs: seq<Vertex>): (r: seq<nat>)
    ensures |r| == |vs|
  {
    if vs == [] then [] else Positions(vs[..|vs| - 1]) + [vs[|vs| - 1].position]
  }

  ghost function OutLeaves(outs: seq<OutPrim>): seq<nat> {
    if outs == [] then [] else OutLeaves(outs[..|outs| - 1]) + Positions(outs[|outs| - 1].vertices)
  }

  ghost function SubLeaves(subs: seq<SubPrim>): seq<nat> {
    if subs == [] then [] else SubLeaves(subs[..|subs| - 1]) + OutLeaves(subs[|subs| - 1].outs)
  }

  /** The leaf positions of the tree, in tree order. */
  ghost function RootLeaves(root: seq<InPrim>, basic: bool): seq<nat> {
    if root == [] then []
    else RootLeaves(root[..|root| - 1], basic)
         + if basic then OutLeaves(root[|root| - 1].outs) else SubLeaves(root[|root| - 1].subs)
  }

  ghost predicate Within(lo: nat, s: seq<nat>, hi: nat) {
    && (forall i :: 0 <= i < |s| ==> lo <= s[i] < hi)
    && (forall i, k :: 0 <= i < k < |s| ==> s[i] < s[k])
  }

  lemma {:induction false} OutLeavesAppend(outs: seq<OutPrim>, p: OutPrim)
    ensures OutLeaves(outs + [p]) == OutLeaves(outs) + Positions(p.vertices)
  {
    assert (outs + [p])[..|outs|] == outs;
  }

  lemma {:induction false} Regroup<T>(a: seq<T>, b: seq<T>, c: seq<T>, x: T)
    requires b == c + [x]
    ensures a + b == (a + c) + [x]
  {
  }

  lemma {:induction false} Associate<T>(a: seq<T>, b: seq<T>, c: seq<T>)
    ensures (a + b) + c == a + (b + c)
  {
  }

  lemma {:induction false} OutLeavesConcat(a: seq<OutPrim>, b: seq<OutPrim>)
    ensures OutLeaves(a + b) == OutLeaves(a) + OutLeaves(b)
  {
    if b == [] {
      assert a + b == a;
    } else {
      var c, p := b[..|b| - 1], b[|b| - 1];
      OutLeavesConcat(a, c);
      Regroup(a, b, c, p);
      OutLeavesAppend(a + c, p);
      Associate(OutLeaves(a), OutLeaves(c), Positions(p.vertices));
    }
  }

  lemma {:induction false} AddVertexLeaf(outs: seq<OutPrim>, v: Vertex)
    requires outs != []
    ensures OutLeaves(AddVertex(outs, v)) == OutLeaves(outs) + [v.position]
  {
    var r := AddVertex(outs, v);
    var last := |outs| - 1;
    assert r[..last] == outs[..last];
    assert r[last].vertices[..|outs[last].vertices|] == outs[last].vertices;
  }

  /** The leaves of a walk that started at slot `start` and stands in front of slot `j`. */
  ghost predicate LeavesInOrder(outs: seq<OutPrim>, start: nat, j: nat, count: nat) {
    Within(start, OutLeaves(outs), j) && |OutLeaves(outs)| == count
  }

  lemma {:induction false} WithinPush(lo: nat, s: seq<nat>, hi: nat)
    requires Within(lo, s, hi) && lo <= hi
    ensures Within(lo, s, hi + 1) && Within(lo, s + [hi], hi + 1)
  {
  }

  lemma {:induction false} SeeLeaf(w: Walk, e: Entry, j: nat, start: nat)
    requires w.outs != [] && start <= j && LeavesInOrder(w.outs, start, j, w.seen)
    ensures var w1 := See(w, e, j); LeavesInOrder(w1.outs, start, j + 1, w1.seen)
  {
    AddVertexLeaf(w.outs, Vertex(w.seen, j));
    WithinPush(start, OutLeaves(w.outs), j);
  }

  lemma {:induction false} EnterLeaf(w: Walk, e: Entry, j: nat, start: nat)
    requires LeavesInOrder(w.outs, start, j, w.seen)
    ensures LeavesInOrder(Enter(w, e).outs, start, j, Enter(w, e).seen)
  {
    OutLeavesAppend(w.outs, OutPrim(|w.outs|, []));
  }

  lemma {:induction false} BlockLeaves(m: seq<Entry>, j: nat, limit: int, w: Walk, start: nat)
    requires j < |m| && w.outs != [] && start <= j && LeavesInOrder(w.outs, start, j, w.seen)
    requires BlockFrom(m, j, limit, w).Some?
    ensures var r := BlockFrom(m, j, limit, w).value; LeavesInOrder(r.outs, start, r.next, r.vertices)
    decreases |m| - j
  {
    var w1 := See(w, m[j], j);
    SeeLeaf(w, m[j], j, start);
    BlockStep(m, j, limit, w, w1);
    if limit <= w1.seen {
    } else {
      EnterLeaf(w1, m[j + 1], j + 1, start);
      BlockLeaves(m, j + 1, limit, Enter(w1, m[j + 1]), start);
    }
  }

  lemma {:induction false} DecodeLeaves(m: seq<Entry>, j: nat, limit: int)
    requires j <= |m| && DecodeBlock(m, j, limit).Some?
    ensures var r := DecodeBlock(m, j, limit).value;
            Within(j, OutLeaves(r.outs), r.next) && |OutLeaves(r.outs)| == r.vertices
  {
    if limit != 0 {
      OutLeavesAppend([], OutPrim(0, []));
      assert [] + [OutPrim(0, [])] == [OutPrim(0, [])];
      BlockLeaves(m, j, limit, EnterBlock(m[j]), j);
    }
  }

  /** The number of maximal runs of equal ids among the first `n` count records. */
  ghost function Runs(counts: seq<Count>, n: nat): nat
    requires n <= |counts|
  {
    if n == 0 then 0 else Runs(counts, n - 1) + if Continues(counts, n - 1) then 0 else 1
  }

  lemma {:induction false} OpenLeaves(v: Model, id: int, i: nat, basic: bool)
    ensures RootLeaves(Open(v, id, i, basic).root, basic) == RootLeaves(v.root, basic)
  {
    assert Open(v, id, i, basic).root[..|v.root|] == v.root;
  }

  lemma {:induction false} HangLeaves(v: Model, b: BlockEnd, basic: bool)
    requires v.root != []
    ensures RootLeaves(Hang(v, b, basic, false).root, basic) == RootLeaves(v.root, basic) + OutLeaves(b.outs)
  {
    var last := |v.root| - 1;
    var r := Hang(v, b, basic, false).root;
    assert r[..last] == v.root[..last];
    if basic {
      OutLeavesConcat(v.root[last].outs, b.outs);
    } else {
      assert r[last].subs[..|v.root[last].subs|] == v.root[last].subs;
    }
  }

  ghost function OutsIn(subs: seq<SubPrim>): nat {
    if subs == [] then 0 else OutsIn(subs[..|subs| - 1]) + |subs[|subs| - 1].outs|
  }

  /** The number of output primitives below an input primitive. */
  ghost function OutsBelow(p: InPrim, basic: bool): nat {
    if basic then |p.outs| else OutsIn(p.subs)
  }

  ghost function RootOuts(root: seq<InPrim>, basic: bool): nat {
    if root == [] then 0 else RootOuts(root[..|root| - 1], basic) + OutsBelow(root[|root| - 1], basic)
  }

  /** The number of vertices that the first `n` records announce. */
  ghost function NeededTotal(counts: seq<Count>, n: nat): nat
    requires n <= |counts|
  {
    if n == 0 then 0 else NeededTotal(counts, n - 1) + Needed(counts[n - 1].vertices)
  }

  lemma {:induction false} OpenOuts(v: Model, id: int, i: nat, basic: bool)
    ensures RootOuts(Open(v, id, i, basic).root, basic) == RootOuts(v.root, basic)
  {
    assert Open(v, id, i, basic).root[..|v.root|] == v.root;
  }

  lemma {:induction false} HangOuts(v: Model, b: BlockEnd, basic: bool)
    requires v.root != []
    ensures RootOuts(Hang(v, b, basic, false).root, basic) == RootOuts(v.root, basic) + |b.outs|
  {
    var last := |v.root| - 1;
    var r := Hang(v, b, basic, false).root;
    assert r[..last] == v.root[..last];
    if !basic {
      assert r[last].subs[..|v.root[last].subs|] == v.root[last].subs;
    }
  }

  /** The walk stops at the vertex that makes the count full. */
  lemma {:induction false} StopsAtLimit(m: seq<Entry>, j: nat, limit: int, w: Walk)
    requires j < |m| && w.outs != [] && w.seen < limit && BlockFrom(m, j, limit, w).Some?
    ensures BlockFrom(m, j, limit, w).value.vertices == limit
    decreases |m| - j
  {
    var w1 := See(w, m[j], j);
    BlockStep(m, j, limit, w, w1);
    if limit <= w1.seen {
    } else {
      StopsAtLimit(m, j + 1, limit, Enter(w1, m[j + 1]));
    }
  }

  lemma {:induction false} DecodesNeeded(m: seq<Entry>, j: nat, count: int)
    requires j <= |m| && DecodeBlock(m, j, count).Some?
    ensures DecodeBlock(m, j, count).value.vertices == Needed(count)
  {
    var limit := Needed(count);
    if limit == 0 {
    } else {
      StopsAtLimit(m, j, limit, EnterBlock(m[j]));
    }
  }

  /** The counters agree with the tree and the `n` records read, and the leaves lie in front of the cursor. */
  ghost predicate Tallied(c: Cursor, counts: seq<Count>, basic: bool, n: nat)
    requires n <= |counts|
  {
    && c.model.inPrims == |c.model.root| == Runs(counts, n)
    && c.model.subPrims == (if basic then 0 else n)
    && Within(0, RootLeaves(c.model.root, basic), c.next)
    && c.model.vertices == |RootLeaves(c.model.root, basic)| == NeededTotal(counts, n)
    && c.model.outPrims == RootOuts(c.model.root, basic)
  }

  lemma {:induction false} BeginTally(c: Cursor, counts: seq<Count>, basic: bool, n: nat)
    requires n < |counts| && Tallied(c, counts, basic, n)
    ensures var d := Begin(c, counts, n, basic);
            && d.next == c.next && d.model.inPrims == |d.model.root| == Runs(counts, n + 1)
            && d.model.subPrims == c.model.subPrims && d.model.vertices == c.model.vertices
            && RootLeaves(d.model.root, basic) == RootLeaves(c.model.root, basic)
            && d.model.outPrims == c.model.outPrims && RootOuts(d.model.root, basic) == RootOuts(c.model.root, basic)
  {
    OpenLeaves(c.model, counts[n].prim, n, basic);
    OpenOuts(c.model, counts[n].prim, n, basic);
  }

  lemma {:induction false} WithinAppend(a: seq<nat>, b: seq<nat>, mid: nat, hi: nat)
    requires Within(0, a, mid) && Within(mid, b, hi) && mid <= hi
    ensures Within(0, a + b, hi)
  {
  }

  /** The tally of the model `r` behind the block `b`. */
  lemma {:induction false} TallyNext(c: Cursor, r: Model, counts: seq<Count>, b: BlockEnd, basic: bool, n: nat)
    requires n < |counts| && Tallied(c, counts, basic, n)
    requires && r.inPrims == |r.root| == Runs(counts, n + 1)
             && r.subPrims == c.model.subPrims + (if basic then 0 else 1)
             && r.vertices == c.model.vertices + b.vertices && r.outPrims == c.model.outPrims + |b.outs|
    requires RootLeaves(r.root, basic) == RootLeaves(c.model.root, basic) + OutLeaves(b.outs)
    requires RootOuts(r.root, basic) == RootOuts(c.model.root, basic) + |b.outs|
    requires b.vertices == Needed(counts[n].vertices)
    requires c.next <= b.next && Within(c.next, OutLeaves(b.outs), b.next) && |OutLeaves(b.outs)| == b.vertices
    ensures Tallied(Cursor(r, b.next), counts, basic, n + 1)
  {
    WithinAppend(RootLeaves(c.model.root, basic), OutLeaves(b.outs), c.next, b.next);
  }

  /** On every input read to the end: one input primitive per run of ids, one sub-primitive per
      record unless the type is basic, the output counter counts the output primitives, the vertex
      counter counts the leaves and is the sum of what the records announce, and leaf positions
      strictly increase in tree order and stay in front of the cursor. */
  lemma {:induction false} Bookkeeping(counts: seq<Count>, m: seq<Entry>, basic: bool, n: nat)
    requires n <= |counts| && Read(counts, m, basic, false, n).Some?
    ensures Tallied(Read(counts, m, basic, false, n).value, counts, basic, n)
  {
    if n == 0 {
    } else {
      var c := Read(counts, m, basic, false, n - 1).value;
      var d := Begin(c, counts, n - 1, basic);
      Bookkeeping(counts, m, basic, n - 1);
      BeginTally(c, counts, basic, n - 1);
      DecodeLeaves(m, c.next, counts[n - 1].vertices);
      DecodesNeeded(m, c.next, counts[n - 1].vertices);
      var b := DecodeBlock(m, c.next, counts[n - 1].vertices).value;
      HangLeaves(d.model, b, basic);
      HangOuts(d.model, b, basic);
      TallyNext(c, Hang(d.model, b, basic, false), counts, b, basic, n - 1);
    }
  }

  /** The same cursor and counters; `hidden` shows no output primitive. */
  ghost predicate SameButHidden(full: Cursor, hidden: Cursor, basic: bool) {
    && full.next == hidden.next
    && full.model.inPrims == hidden.model.inPrims && full.model.subPrims == hidden.model.subPrims
    && full.model.outPrims == hidden.model.outPrims && full.model.vertices == hidden.model.vertices
    && |full.model.root| == |hidden.model.root|
    && RootLeaves(hidden.model.root, basic) == []
  }

  lemma {:induction false} HangHides(c: Cursor, d: Cursor, b: BlockEnd, basic: bool)
    requires SameButHidden(c, d, basic) && c.model.root != []
    ensures SameButHidden(Cursor(Hang(c.model, b, basic, false), b.next),
                          Cursor(Hang(d.model, b, basic, true), b.next), basic)
  {
    var v, last := d.model, |d.model.root| - 1;
    var r := Hang(v, b, basic, true).root;
    assert r[..last] == v.root[..last];
    if basic {
      assert r[last].outs == v.root[last].outs;
    } else {
      assert r[last].subs[..|v.root[last].subs|] == v.root[last].subs;
    }
  }

  lemma {:induction false} ReadHides(counts: seq<Count>, m: seq<Entry>, basic: bool, i: nat, c: Cursor, d: Cursor)
    requires i < |counts| && SameButHidden(c, d, basic) && c.next <= |m| && c.model.root != []
    ensures var full, hidden := ReadBlock(c, counts, m, basic, false, i), ReadBlock(d, counts, m, basic, true, i);
            && (full.Some? <==> hidden.Some?)
            && (full.Some? ==> SameButHidden(full.value, hidden.value, basic))
  {
    var b := DecodeBlock(m, c.next, counts[i].vertices);
    if b.Some? {
      HangHides(c, d, b.value, basic);
    }
  }

  /** One record further, from states that differ in what is shown. */
  lemma {:induction false} HidesNext(counts: seq<Count>, m: seq<Entry>, basic: bool, i: nat, c: Cursor, d: Cursor)
    requires i < |counts| && SameButHidden(c, d, basic)
    requires Read(counts, m, basic, false, i) == Some(c) && Read(counts, m, basic, true, i) == Some(d)
    ensures var full, hidden := Read(counts, m, basic, false, i + 1), Read(counts, m, basic, true, i + 1);
            && (full.Some? <==> hidden.Some?)
            && (full.Some? ==> SameButHidden(full.value, hidden.value, basic))
  {
    var c1, d1 := Begin(c, counts, i, basic), Begin(d, counts, i, basic);
    ReadHides(counts, m, basic, i, c1, d1);
  }

  /** With a condition the tree stops above the output primitives; cursor and counters are those
      of the full tree. */
  lemma {:induction false} ConditionOnlyHides(counts: seq<Count>, m: seq<Entry>, basic: bool, n: nat)
    requires n <= |counts|
    ensures Read(counts, m, basic, false, n).Some? <==> Read(counts, m, basic, true, n).Some?
    ensures Read(counts, m, basic, false, n).Some? ==>
              SameButHidden(Read(counts, m, basic, false, n).value, Read(counts, m, basic, true, n).value, basic)
  {
    if n == 0 {
    } else {
      ConditionOnlyHides(counts, m, basic, n - 1);
      var full, hidden := Read(counts, m, basic, false, n - 1), Read(counts, m, basic, true, n - 1);
      if hidden.Some? {
        HidesNext(counts, m, basic, n - 1, full.value, hidden.value);
      }
    }
  }
}
