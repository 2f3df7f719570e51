/**
 PixelBox: the values of one shader variable for all pixels, a map of the pixels for which a value
 has been read, and the coverage map of the current debug position, which all boxes share.
 */
module PixelBoxes {
  import opened Wrappers

  /** The values of one pixel, one per channel. */
  type Texel = seq<real>

  /** What a box holds: a texel per pixel, and whether it has been read. */
  datatype Box = Box(texels: seq<Texel>, known: seq<bool>)

  ghost predicate SizedFor(b: Box, n: nat) {
    |b.texels| == |b.known| == n
  }

  /** Merging keeps the old texels where the other box knows nothing. */
  ghost function Merge(b: Box, f: Box): (r: Box)
    requires SizedFor(b, |b.known|) && SizedFor(f, |b.known|)
    ensures SizedFor(r, |b.known|)
  {
    var n := |b.known|;
    Box(seq(n, i requires 0 <= i < n => if f.known[i] then f.texels[i] else b.texels[i]),
        seq(n, i requires 0 <= i < n => f.known[i] || b.known[i]))
  }

  ghost function Invalidate(b: Box): (r: Box)
    ensures |r.known| == |b.known|
  {
    Box(b.texels, seq(|b.known|, i => false))
  }

  /** Every covered pixel has been read. */
  ghost predicate Available(coverage: seq<bool>, known: seq<bool>)
    requires |coverage| == |known|
  {
    forall i :: 0 <= i < |coverage| && coverage[i] ==> known[i]
  }

  /** What a box tells about pixel `i`. */
  ghost function ValueAt(b: Box, coverage: seq<bool>, i: nat): Option<Texel>
    requires SizedFor(b, |coverage|) && i < |coverage|
  {
    if coverage[i] && b.known[i] then Some(b.texels[i]) else None
  }

  ghost predicate IsCovered(v: Texel) {
    v != [] && v[0] > 0.5
  }

  function CountTrue(s: seq<bool>, n: nat): (r: nat)
    requires n <= |s|
    ensures r <= n
  {
    if n == 0 then 0 else CountTrue(s, n - 1) + if s[n - 1] then 1 else 0
  }

  lemma {:induction false} TrueBelow(s: seq<bool>, n: nat)
    requires n <= |s|
    ensures CountTrue(s, n) == |set i | 0 <= i < n && s[i]|
  {
    if n == 0 {
    } else {
      TrueBelow(s, n - 1);
      var before, now := set i | 0 <= i < n - 1 && s[i], set i | 0 <= i < n && s[i];
      if s[n - 1] {
        assert now == before + {n - 1};
      } else {
        assert now == before;
      }
    }
  }

  lemma {:induction false} CountPrefix(s: seq<bool>, t: seq<bool>, n: nat)
    requires n <= |s| == |t| && forall i :: 0 <= i < n ==> s[i] == t[i]
    ensures CountTrue(s, n) == CountTrue(t, n)
  {
    if n == 0 {
    } else {
      CountPrefix(s, t, n - 1);
    }
  }

  // ---------- The flat arrays ----------

  lemma {:induction false} MulStep(i: nat, n: nat, c: nat)
    requires i < n
    ensures 0 <= i * c && i * c + c == (i + 1) * c <= n * c
  {
    var d := n - i - 1;
    assert n * c == (i + 1) * c + d * c;
  }

  /** The texels of the first `n` pixels of a flat array with `c` channels. */
  ghost function Texels(s: seq<real>, c: nat, n: nat): (r: seq<Texel>)
    requires n * c <= |s|
    ensures |r| == n
  {
    if n == 0 then []
    else
      MulStep(n - 1, n, c);
      Texels(s, c, n - 1) + [s[(n - 1) * c..(n - 1) * c + c]]
  }

  lemma {:induction false} TexelsAt(s: seq<real>, c: nat, n: nat, i: nat)
    requires n * c <= |s| && i < n
    ensures i * c + c <= |s| && Texels(s, c, n)[i] == s[i * c..i * c + c]
  {
    MulStep(i, n, c);
    if i == n - 1 {
    } else {
      MulStep(n - 1, n, c);
      TexelsAt(s, c, n - 1, i);
    }
  }

  ghost function Part(s: seq<real>, from: nat, n: nat): (r: seq<real>)
    requires from + n <= |s|
    ensures |r| == n
  {
    s[from..from + n]
  }

  /** The flat array after merging the first `n` pixels of `s` into `d`. */
  ghost function MergeFlat(d: seq<real>, s: seq<real>, known: seq<bool>, c: nat, n: nat): (r: seq<real>)
    requires n <= |known| && n * c <= |d| && |s| == |d|
    ensures |r| == n * c
  {
    if n == 0 then []
    else
      MulStep(n - 1, n, c);
      MergeFlat(d, s, known, c, n - 1) + Part(if known[n - 1] then s else d, (n - 1) * c, c)
  }

  lemma {:induction false} MergeFlatPart(d: seq<real>, s: seq<real>, known: seq<bool>, c: nat, n: nat, i: nat)
    requires i < n <= |known| && n * c <= |d| && |s| == |d|
    ensures i * c + c <= n * c
    ensures MergeFlat(d, s, known, c, n)[i * c..i * c + c] == Part(if known[i] then s else d, i * c, c)
  {
    MulStep(i, n, c);
    MulStep(n - 1, n, c);
    if i == n - 1 {
    } else {
      MergeFlatPart(d, s, known, c, n - 1, i);
      var before := MergeFlat(d, s, known, c, n - 1);
      assert MergeFlat(d, s, known, c, n)[..(n - 1) * c] == before;
      assert MergeFlat(d, s, known, c, n)[i * c..i * c + c] == before[i * c..i * c + c];
    }
  }

  /** Entries of texel `i` of `r` come from `s` if the pixel is known there, otherwise from `d`. */
  ghost predicate TexelMerged(r: seq<real>, d: seq<real>, s: seq<real>, known: seq<bool>, c: nat, i: nat) {
    && i < |known| && i * c + c <= |r| == |d| == |s|
    && forall e :: i * c <= e < i * c + c ==> r[e] == if known[i] then s[e] else d[e]
  }

  lemma {:induction false} FlatIsMerged(d: seq<real>, s: seq<real>, known: seq<bool>, c: nat, n: nat, i: nat)
    requires i < n <= |known| && n * c == |d| == |s|
    ensures TexelMerged(MergeFlat(d, s, known, c, n), d, s, known, c, i)
  {
    MergeFlatPart(d, s, known, c, n, i);
    var r := MergeFlat(d, s, known, c, n);
    var part, from := r[i * c..i * c + c], if known[i] then s else d;
    forall e | i * c <= e < i * c + c ensures r[e] == from[e] {
      assert part[e - i * c] == Part(from, i * c, c)[e - i * c];
    }
  }

  lemma {:induction false} MergedTexels(a: Box, b: Box, d: seq<real>, s: seq<real>, c: nat, n: nat)
    requires SizedFor(a, n) && SizedFor(b, n) && n * c == |d| == |s|
    requires a.texels == Texels(d, c, n) && b.texels == Texels(s, c, n)
    ensures Texels(MergeFlat(d, s, b.known, c, n), c, n) == Merge(a, b).texels
  {
    var r := Texels(MergeFlat(d, s, b.known, c, n), c, n);
    forall i: nat | i < n ensures r[i] == if b.known[i] then b.texels[i] else a.texels[i] {
      MergeFlatPart(d, s, b.known, c, n, i);
      TexelsAt(MergeFlat(d, s, b.known, c, n), c, n, i);
      TexelsAt(d, c, n, i);
      TexelsAt(s, c, n, i);
    }
  }

  /** The covered pixels are those whose first channel is above one half. */
  lemma {:induction false} FirstChannels(d: seq<real>, c: nat, n: nat, covered: seq<bool>)
    requires n * c <= |d| && c > 0 && |covered| == n
    requires forall i :: 0 <= i < n ==> covered[i] == IsCovered(Texels(d, c, n)[i])
    ensures forall i: nat :: i < n && i * c < |d| ==> covered[i] == (d[i * c] > 0.5)
    ensures CountTrue(covered, n) == |set i | 0 <= i < n && covered[i]|
  {
    forall i: nat | i < n && i * c < |d| ensures covered[i] == (d[i * c] > 0.5) {
      TexelsAt(d, c, n, i);
    }
    TrueBelow(covered, n);
  }

  // ---------- The class ----------

  class PixelBox {
    const width: nat
    const height: nat
    const channels: nat
    var data: array<real>
    var dataMap: array<bool>
    var coverage: array?<bool>

    /** The number of pixels. */
    function Pixels(): nat {
      width * height
    }

    /** The number of pixel (x, y) in row order. */
    function Index(x: nat, y: nat): (p: nat)
      requires x < width && y < height
      ensures p < Pixels()
    {
      MulStep(y, height, width);
      y * width + x
    }

    lemma {:induction false} Inside(x: nat, y: nat)
      requires x < width && y < height
      ensures 0 <= y * width + x < width * height
      ensures 0 <= channels * (y * width + x)
              && channels * (y * width + x) + channels <= width * height * channels
    {
      MulStep(y, height, width);
      MulStep(y * width + x, width * height, channels);
    }

    ghost predicate Valid()
      reads this
    {
      && data.Length == Pixels() * channels && dataMap.Length == Pixels()
      && (coverage == null || (coverage.Length == Pixels() && coverage != dataMap))
    }

    ghost function View(): (r: Box)
      requires Valid()
      reads this, data, dataMap
      ensures SizedFor(r, Pixels())
    {
      Box(Texels(data[..], channels, Pixels()), dataMap[..])
    }

    /** A box over a copy of the image; without an image the data is zero, and without a coverage
        all of it is used. */
    constructor (w: nat, h: nat, c: nat, image: array?<real>, cov: array?<bool>)
      requires image == null || image.Length == w * h * c
      requires cov == null || cov.Length == w * h
      ensures Valid() && fresh(data) && fresh(dataMap)
      ensures width == w && height == h && channels == c && coverage == cov
      ensures image != null ==> data[..] == image[..]
      ensures image == null ==> forall i :: 0 <= i < data.Length ==> data[i] == 0.0
      ensures cov != null ==> dataMap[..] == cov[..]
      ensures cov == null ==> forall i :: 0 <= i < dataMap.Length ==> dataMap[i]
    {
      width, height, channels, coverage := w, h, c, cov;
      data := new real[w * h * c];
      dataMap := new bool[w * h];
      new;
      forall i | 0 <= i < data.Length {
        data[i] := if image != null then image[i] else 0.0;
      }
      forall i | 0 <= i < dataMap.Length {
        dataMap[i] := if cov != null then cov[i] else true;
      }
    }

    /** A copy of a box with its own buffers; the coverage map is shared. */
    constructor Copy(src: PixelBox)
      requires src.Valid()
      ensures Valid() && fresh(data) && fresh(dataMap)
      ensures width == src.width && height == src.height && channels == src.channels && coverage == src.coverage
      ensures data[..] == src.data[..] && dataMap[..] == src.dataMap[..]
    {
      width, height, channels, coverage := src.width, src.height, src.channels, src.coverage;
      data := new real[src.data.Length];
      dataMap := new bool[src.dataMap.Length];
      new;
      forall i | 0 <= i < data.Length {
        data[i] := src.data[i];
      }
      forall i | 0 <= i < dataMap.Length {
        dataMap[i] := src.dataMap[i];
      }
    }

    method SetNewCoverage(cov: array<bool>)
      requires Valid() && cov.Length == Pixels() && cov != dataMap
      modifies this`coverage
      ensures Valid() && coverage == cov
    {
      coverage := cov;
    }

    /** The outer loop of the merge. */
    method CopyKnown(f: PixelBox, ghost merged: seq<real>, ghost s: seq<real>, ghost known: seq<bool>)
      requires Valid() && f.Valid() && f.data != data && f.dataMap != dataMap
      requires f.width == width && f.height == height && f.channels == channels
      requires s == f.data[..] && known == f.dataMap[..] && |merged| == data.Length
      requires forall i: nat :: i < Pixels() ==> TexelMerged(merged, data[..], s, known, channels, i)
      modifies data, dataMap
      ensures forall e :: 0 <= e < data.Length ==> data[e] == merged[e]
      ensures forall p :: 0 <= p < Pixels() ==> dataMap[p] == (known[p] || old(dataMap[p]))
    {
      ghost var d, map0 := data[..], dataMap[..];
      var i, k := 0, 0;
      while i < Pixels()
        invariant 0 <= i <= Pixels() && k == i * channels <= data.Length
        invariant f.data[..] == s && f.dataMap[..] == known
        invariant forall e :: 0 <= e < k ==> data[e] == merged[e]
        invariant forall e :: k <= e < data.Length ==> data[e] == d[e]
        invariant forall p :: 0 <= p < Pixels() ==> dataMap[p] == (map0[p] || (p < i && known[p]))
      {
        MulStep(i, Pixels(), channels);
        assert TexelMerged(merged, d, s, known, channels, i);
        if f.dataMap[i] {
          dataMap[i] := true;
          CopyTexel(f, k);
        }
        i, k := i + 1, k + channels;
      }
    }

    /** The inner loop of the merge: one texel, from entry `k` on. */
    method CopyTexel(f: PixelBox, k: nat)
      requires f.data != data && k + channels <= data.Length == f.data.Length
      modifies data
      ensures forall e :: 0 <= e < data.Length ==>
                data[e] == if k <= e < k + channels then f.data[e] else old(data[e])
    {
      var j := 0;
      while j < channels
        invariant 0 <= j <= channels
        invariant forall e :: 0 <= e < data.Length ==>
                    data[e] == if k <= e < k + j then f.data[e] else old(data[e])
      {
        data[k + j] := f.data[k + j];
        j := j + 1;
      }
    }

    /** Merges a box of the same shape. */
    method MergeBox(f: PixelBox)
      requires Valid() && f.Valid() && f.data != data && f.dataMap != dataMap
      requires f.width == width && f.height == height && f.channels == channels
      modifies data, dataMap
      ensures Valid() && View() == Merge(old(View()), old(f.View()))
      ensures forall p: nat :: p < Pixels() ==>
                TexelMerged(data[..], old(data[..]), old(f.data[..]), old(f.dataMap[..]), channels, p)
      ensures forall p :: 0 <= p < Pixels() ==> dataMap[p] == (old(f.dataMap[p]) || old(dataMap[p]))
    {
      ghost var d, s, a, b := data[..], f.data[..], View(), f.View();
      ghost var merged := MergeFlat(d, s, b.known, channels, Pixels());
      forall i: nat | i < Pixels() ensures TexelMerged(merged, d, s, b.known, channels, i) {
        FlatIsMerged(d, s, b.known, channels, Pixels(), i);
      }
      CopyKnown(f, merged, s, b.known);
      MergedTexels(a, b, d, s, channels, Pixels());
      assert data[..] == merged;
      assert dataMap[..] == Merge(a, b).known;
    }

    /** Takes over the pixels that `f` knows; a box of another shape is ignored. */
    method AddPixelBox(f: PixelBox)
      requires Valid() && f.Valid() && f.data != data && f.dataMap != dataMap
      modifies data, dataMap
      ensures Valid()
      ensures f.width == width && f.height == height && f.channels == channels
              ==> View() == Merge(old(View()), old(f.View()))
      ensures !(f.width == width && f.height == height && f.channels == channels) ==>
                data[..] == old(data[..]) && dataMap[..] == old(dataMap[..])
      ensures f.width == width && f.height == height && f.channels == channels ==>
                && (forall p :: 0 <= p < width * height ==> dataMap[p] == (old(dataMap[p]) || old(f.dataMap[p])))
                && (forall p, e :: 0 <= p < width * height && 0 <= e < data.Length
                                   && p * channels <= e < p * channels + channels
                      ==> data[e] == if old(f.dataMap[p]) then old(f.data[e]) else old(data[e]))
    {
      if width != f.width || height != f.height || channels != f.channels {
        return;
      }
      MergeBox(f);
      forall p: nat, e | p < Pixels() && 0 <= e < data.Length && p * channels <= e < p * channels + channels
        ensures data[e] == if old(f.dataMap[p]) then old(f.data[e]) else old(data[e])
      {
        assert TexelMerged(data[..], old(data[..]), old(f.data[..]), old(f.dataMap[..]), channels, p);
      }
    }

    /** The loop over the pixels. */
    method CountCovered() returns (cov: array<bool>, active: nat)
      requires Valid() && channels > 0
      ensures fresh(cov) && cov.Length == Pixels()
      ensures forall i :: 0 <= i < Pixels() ==> cov[i] == IsCovered(View().texels[i])
      ensures active == CountTrue(cov[..], Pixels())
    {
      cov := new bool[Pixels()];
      active := 0;
      ghost var texels := View().texels;
      var i, k := 0, 0;
      while i < Pixels()
        invariant 0 <= i <= Pixels() && k == i * channels <= data.Length
        invariant forall p :: 0 <= p < i ==> cov[p] == IsCovered(texels[p])
        invariant active == CountTrue(cov[..], i)
      {
        MulStep(i, Pixels(), channels);
        TexelsAt(data[..], channels, Pixels(), i);
        ghost var before := cov[..];
        cov[i] := data[k] > 0.5;
        if data[k] > 0.5 {
          active := active + 1;
        }
        CountPrefix(before, cov[..], i);
        i, k := i + 1, k + channels;
      }
    }

    /** A pixel is covered when its first channel is above one half. */
    method GetCoverageFromData() returns (cov: array<bool>, active: nat)
      requires Valid() && channels > 0
      ensures fresh(cov) && cov.Length == Pixels()
      ensures forall i :: 0 <= i < Pixels() ==> cov[i] == IsCovered(View().texels[i])
      ensures forall i: nat :: i < width * height && i * channels < data.Length ==> cov[i] == (data[i * channels] > 0.5)
      ensures active == CountTrue(cov[..], Pixels()) == |set i | 0 <= i < width * height && cov[i]|
    {
      cov, active := CountCovered();
      ghost var d, covered := data[..], cov[..];
      FirstChannels(d, channels, Pixels(), covered);
      assert (set p | 0 <= p < width * height && cov[p]) == set p | 0 <= p < Pixels() && covered[p];
    }

    method InvalidateData()
      requires Valid()
      modifies dataMap
      ensures Valid() && View() == Invalidate(old(View()))
      ensures forall p :: 0 <= p < dataMap.Length ==> !dataMap[p]
    {
      var y, p := 0, 0;
      while y < height
        invariant 0 <= y <= height && p == y * width <= dataMap.Length
        invariant forall q :: 0 <= q < p ==> !dataMap[q]
      {
        MulStep(y, height, width);
        var x := 0;
        while x < width
          invariant 0 <= x <= width && p == y * width + x <= dataMap.Length
          invariant forall q :: 0 <= q < p ==> !dataMap[q]
        {
          dataMap[p] := false;
          p := p + 1;
          x := x + 1;
        }
        y := y + 1;
      }
    }

    method GetDataValue(x: nat, y: nat) returns (ok: bool, v: Texel)
      requires Valid() && x < width && y < height
      ensures ok <==> coverage != null && ValueAt(View(), coverage[..], Index(x, y)).Some?
      ensures ok ==> v == ValueAt(View(), coverage[..], Index(x, y)).value
      ensures (Inside(x, y); ok <==> coverage != null && coverage[y * width + x] && dataMap[y * width + x])
      ensures (Inside(x, y);
               ok ==> v == data[channels * (y * width + x)..channels * (y * width + x) + channels])
    {
      var p := Index(x, y);
      v := [];
      ok := coverage != null && coverage[p] && dataMap[p];
      if ok {
        MulStep(p, Pixels(), channels);
        TexelsAt(data[..], channels, Pixels(), p);
        var i := 0;
        while i < channels
          invariant 0 <= i <= channels && v == data[p * channels..p * channels + i]
        {
          v := v + [data[p * channels + i]];
          i := i + 1;
        }
      }
    }

    method IsAllDataAvailable() returns (ok: bool)
      requires Valid() && coverage != null
      ensures ok <==> Available(coverage[..], dataMap[..])
      ensures ok <==> forall p :: 0 <= p < coverage.Length && coverage[p] ==> dataMap[p]
    {
      var y, p := 0, 0;
      while y < height
        invariant 0 <= y <= height && p == y * width <= dataMap.Length
        invariant forall q :: 0 <= q < p ==> (coverage[q] ==> dataMap[q])
      {
        MulStep(y, height, width);
        var x := 0;
        while x < width
          invariant 0 <= x <= width && p == y * width + x <= dataMap.Length
          invariant forall q :: 0 <= q < p ==> (coverage[q] ==> dataMap[q])
        {
          if coverage[p] && !dataMap[p] {
            return false;
          }
          p := p + 1;
          x := x + 1;
        }
        y := y + 1;
      }
      return true;
    }
  }
}
