/**
 What the resampler computes, said without windows or passes: each channel of a target pixel is the mean of
 that channel over the whole source, weighed by a triangle across and a triangle down.
 */
module ResamplerMean {
  import opened Resampler

  // ---------------------------------------------------------------------------------------------
  // The triangle
  // ---------------------------------------------------------------------------------------------

  /** Falls from one, at the target sample's middle, to zero at the distance of one source sample, or of one
      target sample where that is wider. */
  function Kernel(n: nat, m: nat, o: nat, i: nat): (w: real)
    requires m > 0
    ensures w >= 0.0
  {
    var ratio := n as real / m as real;
    var width := if ratio > 1.0 then ratio else 1.0;
    var off := i as real + 0.5 - (o as real + 0.5) * ratio;
    var w := 1.0 - (if off < 0.0 then -off else off) / width;
    if w > 0.0 then w else 0.0
  }

  lemma QuotientSign(a: real, s: real)
    requires s >= 1.0
    ensures Abs(a / s) == (if a < 0.0 then -a else a) / s
  {
    if a < 0.0 {
      assert a / s < 0.0;
    } else {
      assert a / s >= 0.0;
    }
  }

  lemma KernelIsRaw(n: nat, m: nat, o: nat, i: nat)
    requires m > 0
    ensures Kernel(n, m, o, i) == Raw(n, m, o, i)
  {
    hide Abs;
    var off := i as real - (Center(n, m, o) - 0.5);
    QuotientSign(off, Support(n, m));
    TriangleIs(off / Support(n, m));
  }

  lemma TriangleIs(x: real)
    ensures Triangle(x) == if 1.0 - Abs(x) > 0.0 then 1.0 - Abs(x) else 0.0
  {
  }

  lemma FarIsZero(off: real, s: real)
    requires s >= 1.0 && (off >= s || off <= -s)
    ensures Triangle(off / s) == 0.0
  {
    QuotientSign(off, s);
    var far := if off < 0.0 then -off else off;
    assert far / s >= 1.0 by {
      AtLeastOne(far, s);
    }
  }

  lemma AtLeastOne(far: real, s: real)
    requires s >= 1.0 && far >= s
    ensures far / s >= 1.0
  {
    var q := far / s;
    assert q * s == far;
    if q < 1.0 {
      ScaleLess(q, 1.0, s);
    }
  }

  /** No sample outside the window weighs anything. */
  lemma OutsideIsZero(n: nat, m: nat, o: nat, i: nat)
    requires n > 0 && o < m && i < n && (i < Left(n, m, o) || i >= Right(n, m, o))
    ensures Kernel(n, m, o, i) == 0.0
  {
    hide Center, Support, Triangle, Kernel;
    var c, s := Center(n, m, o), Support(n, m);
    KernelIsRaw(n, m, o, i);
    var off := i as real - (c - 0.5);
    if i < Left(n, m, o) {
      assert i + 1 <= (c - s).Floor;
      assert off <= -s;
    } else {
      assert i >= Ceil(c + s);
      assert off >= s;
    }
    FarIsZero(off, s);
  }

  // ---------------------------------------------------------------------------------------------
  // Sums over a whole axis
  // ---------------------------------------------------------------------------------------------

  /** The weights of the first `k` samples together. */
  function KernelSum(n: nat, m: nat, o: nat, k: nat): (sum: real)
    requires m > 0
    ensures sum >= 0.0
  {
    if k == 0 then 0.0 else KernelSum(n, m, o, k - 1) + Kernel(n, m, o, k - 1)
  }

  /** The first `k` values, weighed and added. */
  function Dot(n: nat, m: nat, o: nat, v: seq<real>, k: nat): real
    requires m > 0 && k <= |v|
  {
    if k == 0 then 0.0 else Dot(n, m, o, v, k - 1) + v[k - 1] * Kernel(n, m, o, k - 1)
  }

  lemma {:induction false} NothingBefore(n: nat, m: nat, o: nat, v: seq<real>, k: nat)
    requires n > 0 && o < m && |v| == n && k <= Left(n, m, o) < n
    ensures KernelSum(n, m, o, k) == 0.0 && Dot(n, m, o, v, k) == 0.0
  {
    if k > 0 {
      hide Kernel, Left, Right;
      NothingBefore(n, m, o, v, k - 1);
      OutsideIsZero(n, m, o, k - 1);
    }
  }

  lemma {:induction false} NothingBehind(n: nat, m: nat, o: nat, v: seq<real>, k: nat)
    requires n > 0 && o < m && |v| == n && Right(n, m, o) <= k <= n && 0 <= Right(n, m, o)
    ensures KernelSum(n, m, o, k) == KernelSum(n, m, o, Right(n, m, o))
    ensures Dot(n, m, o, v, k) == Dot(n, m, o, v, Right(n, m, o))
  {
    if k > Right(n, m, o) {
      hide Kernel, Left, Right;
      NothingBehind(n, m, o, v, k - 1);
      OutsideIsZero(n, m, o, k - 1);
    }
  }

  lemma {:induction false} RawsAdd(n: nat, m: nat, o: nat, count: nat)
    requires m > 0 && 0 <= Left(n, m, o)
    ensures Total(Raws(n, m, o, count)) == KernelSum(n, m, o, Left(n, m, o) + count) - KernelSum(n, m, o, Left(n, m, o))
  {
    hide Raw, Kernel, Left;
    if count > 0 {
      hide Total;
      RawsAdd(n, m, o, count - 1);
      KernelIsRaw(n, m, o, Left(n, m, o) + count - 1);
      TotalSnoc(Raws(n, m, o, count - 1), Raw(n, m, o, Left(n, m, o) + count - 1));
    }
  }

  /** The window's raw weights add up to those of the whole axis, and that is not zero. */
  lemma WindowWeighsAll(n: nat, m: nat, o: nat)
    requires n > 0 && o < m
    ensures 0 <= Left(n, m, o) < Right(n, m, o) <= n
    ensures KernelSum(n, m, o, n) == Total(Raws(n, m, o, Right(n, m, o) - Left(n, m, o))) >= 0.5
  {
    hide Raws, Total, Left, Right, Kernel, KernelSum;
    WindowIsInside(n, m, o);
    RawTotalIsPositive(n, m, o);
    var v := seq(n, _ => 0.0);
    NothingBefore(n, m, o, v, Left(n, m, o));
    NothingBehind(n, m, o, v, n);
    RawsAdd(n, m, o, Right(n, m, o) - Left(n, m, o));
  }

  /** A sample's share is its triangle weight over all of them; outside the window it would be zero. */
  lemma WeightsAreTriangle(n: nat, m: nat, o: nat, i: nat)
    requires n > 0 && o < m && i < n
    ensures 0 <= Left(n, m, o) < Right(n, m, o) <= n
    ensures Left(n, m, o) <= i < Right(n, m, o) ==>
              Weights(n, m, o)[i - Left(n, m, o)] * KernelSum(n, m, o, n) == Kernel(n, m, o, i)
    ensures !(Left(n, m, o) <= i < Right(n, m, o)) ==> Kernel(n, m, o, i) == 0.0
  {
    hide Left, Right, Kernel, KernelSum, Raw, Total, Triangle;
    WindowWeighsAll(n, m, o);
    if Left(n, m, o) <= i < Right(n, m, o) {
      KernelIsRaw(n, m, o, i);
      var raws := Raws(n, m, o, Right(n, m, o) - Left(n, m, o));
      Undivided(raws[i - Left(n, m, o)], Total(raws));
    } else {
      OutsideIsZero(n, m, o, i);
    }
  }

  lemma Undivided(w: real, total: real)
    requires total > 0.0
    ensures w / total * total == w
  {
  }

  // ---------------------------------------------------------------------------------------------
  // One pass
  // ---------------------------------------------------------------------------------------------

  /** `v` holds channel `c` of the window's pixels at their places. */
  ghost predicate HoldsWindow(v: seq<real>, left: nat, qs: seq<Quad>, c: nat) {
    left + |qs| <= |v| && forall k :: 0 <= k < |qs| ==> v[left + k] == Channel(qs[k], c)
  }

  lemma OneMore(mix: real, q: real, w: real, t: real, kernel: real, next: real, dot: real)
    requires mix * t == dot && w * t == kernel && next == mix + q * w
    ensures next * t == dot + q * kernel
  {
    assert next * t == mix * t + q * (w * t);
  }

  lemma {:induction false} PartOfPass(n: nat, m: nat, o: nat, qs: seq<Quad>, c: nat, v: seq<real>, k: nat)
    requires n > 0 && o < m && |v| == n && 0 <= Left(n, m, o) < Right(n, m, o) <= n
    requires |qs| == |Weights(n, m, o)| && k <= |qs| && HoldsWindow(v, Left(n, m, o), qs, c)
    ensures Channel(Mix(Weights(n, m, o)[..k], qs[..k]), c) * KernelSum(n, m, o, n) == Dot(n, m, o, v, Left(n, m, o) + k)
  {
    hide Left, Right, Weights, Kernel, KernelSum, Mix, Channel, Plus, Times;
    var ws, left, t := Weights(n, m, o), Left(n, m, o), KernelSum(n, m, o, n);
    if k == 0 {
      NothingBefore(n, m, o, v, left);
      MixLast(ws[..0], qs[..0]);
      BlackChannel(c);
    } else {
      PartOfPass(n, m, o, qs, c, v, k - 1);
      WeightsAreTriangle(n, m, o, left + k - 1);
      assert ws[..k] == ws[..k - 1] + [ws[k - 1]] && qs[..k] == qs[..k - 1] + [qs[k - 1]];
      MixSnoc(ws[..k - 1], qs[..k - 1], ws[k - 1], qs[k - 1]);
      ChannelPlus(Mix(ws[..k - 1], qs[..k - 1]), qs[k - 1], ws[k - 1], c);
      OneMore(Channel(Mix(ws[..k - 1], qs[..k - 1]), c), Channel(qs[k - 1], c), ws[k - 1], t,
              Kernel(n, m, o, left + k - 1), Channel(Mix(ws[..k], qs[..k]), c), Dot(n, m, o, v, left + k - 1));
    }
  }

  /** A pass over its window is the weighted mean over the whole axis. */
  lemma PassIsMean(n: nat, m: nat, o: nat, qs: seq<Quad>, c: nat, v: seq<real>)
    requires n > 0 && o < m && |v| == n && 0 <= Left(n, m, o) < Right(n, m, o) <= n
    requires |qs| == |Weights(n, m, o)| && HoldsWindow(v, Left(n, m, o), qs, c)
    ensures Channel(Mix(Weights(n, m, o), qs), c) * KernelSum(n, m, o, n) == Dot(n, m, o, v, n)
  {
    hide Left, Right, Kernel, KernelSum, Mix, Channel, Raws, Divided, Total, Dot, HoldsWindow;
    var ws := Weights(n, m, o);
    PartOfPass(n, m, o, qs, c, v, |qs|);
    assert ws[..|qs|] == ws && qs[..|qs|] == qs;
    NothingBehind(n, m, o, v, n);
  }

  lemma {:induction false} DotScales(n: nat, m: nat, o: nat, v: seq<real>, u: seq<real>, t: real, k: nat)
    requires m > 0 && |u| == |v| && k <= |v| && forall i :: 0 <= i < |v| ==> v[i] * t == u[i]
    ensures Dot(n, m, o, v, k) * t == Dot(n, m, o, u, k)
  {
    hide Kernel;
    if k > 0 {
      DotScales(n, m, o, v, u, t, k - 1);
      Rescaled(Dot(n, m, o, v, k - 1), v[k - 1], Kernel(n, m, o, k - 1), t, u[k - 1]);
    }
  }

  lemma Rescaled(dot: real, v: real, w: real, t: real, u: real)
    requires v * t == u
    ensures (dot + v * w) * t == dot * t + u * w
  {
    assert v * w * t == v * t * w;
  }

  // ---------------------------------------------------------------------------------------------
  // The picture
  // ---------------------------------------------------------------------------------------------

  /** Channel `c` down column `i` of a source that lies in memory row after row. */
  function ColumnValues(src: seq<Word>, sw: nat, sh: nat, i: nat, c: nat): (v: seq<real>)
    requires IsImage(src, sw, sh) && i < sw
    ensures |v| == sh
  {
    AllInside(sw, sh);
    seq(sh, j requires 0 <= j < sh => ByteAt(src[At(i, j, sw)], c) as real)
  }

  lemma RowAfterRow(x: nat, y: nat, w: nat)
    ensures At(x, y, w) == x + y * w
  {
  }

  /** Each column, weighed down its whole length. */
  function ColumnSums(src: seq<Word>, sw: nat, sh: nat, nh: nat, y: nat, c: nat): (v: seq<real>)
    requires IsImage(src, sw, sh) && y < nh
    ensures |v| == sw
  {
    seq(sw, i requires 0 <= i < sw => Dot(sh, nh, y, ColumnValues(src, sw, sh, i, c), sh))
  }

  /** The whole source, weighed across and down. */
  function WeighedSource(src: seq<Word>, sw: nat, sh: nat, nw: nat, nh: nat, x: nat, y: nat, c: nat): real
    requires IsImage(src, sw, sh) && x < nw && y < nh
  {
    Dot(sw, nw, x, ColumnSums(src, sw, sh, nh, y, c), sw)
  }

  lemma {:induction false} ColumnHolds(src: seq<Word>, sw: nat, sh: nat, x: nat, first: nat, end: nat, c: nat)
    requires IsImage(src, sw, sh) && x < sw && first <= end <= sh && c < 4
    ensures HoldsWindow(ColumnValues(src, sw, sh, x, c), first, ColumnOf(src, sw, sh, x, first, end), c)
    decreases end
  {
    if first < end {
      hide ByteAt, AsQuad, Channel, At;
      ColumnHolds(src, sw, sh, x, first, end - 1, c);
      AtIsInside(x, end - 1, sw, sh);
      QuadByte(src[At(x, end - 1, sw)], c);
    }
  }

  lemma TallIsMean(src: seq<Word>, sw: nat, sh: nat, nh: nat, i: nat, y: nat, c: nat)
    requires IsImage(src, sw, sh) && i < sw && y < nh && c < 4
    ensures Channel(Tall(src, sw, sh, nh, i, y), c) * KernelSum(sh, nh, y, sh)
            == Dot(sh, nh, y, ColumnValues(src, sw, sh, i, c), sh)
  {
    hide Left, Right, Kernel, KernelSum, Mix, Channel, Weights, ColumnOf, ColumnValues, HoldsWindow, Dot;
    WindowIsInside(sh, nh, y);
    ColumnHolds(src, sw, sh, i, Left(sh, nh, y), Right(sh, nh, y), c);
    PassIsMean(sh, nh, y, Window1(src, sw, sh, nh, i, y), c, ColumnValues(src, sw, sh, i, c));
  }

  /** Each channel of a target pixel, before rounding, is the weighted mean of that channel over the whole source. */
  lemma WideIsMean(src: seq<Word>, sw: nat, sh: nat, nw: nat, nh: nat, x: nat, y: nat, c: nat)
    requires IsImage(src, sw, sh) && x < nw && y < nh && c < 4
    ensures Channel(Wide(src, sw, sh, nw, nh, x, y), c) * KernelSum(sw, nw, x, sw) * KernelSum(sh, nh, y, sh)
            == WeighedSource(src, sw, sh, nw, nh, x, y, c)
  {
    hide Left, Right, Kernel, KernelSum, Mix, Channel, Weights, Tall, ColumnValues, Dot;
    WindowIsInside(sw, nw, x);
    var left, right := Left(sw, nw, x), Right(sw, nw, x);
    var row := TallRow(src, sw, sh, nh, left, right, y);
    var v := seq(sw, i requires 0 <= i < sw => Channel(Tall(src, sw, sh, nh, i, y), c));
    assert HoldsWindow(v, left, row, c);
    PassIsMean(sw, nw, x, row, c, v);
    var sums := ColumnSums(src, sw, sh, nh, y, c);
    forall i | 0 <= i < sw
      ensures v[i] * KernelSum(sh, nh, y, sh) == sums[i]
    {
      TallIsMean(src, sw, sh, nh, i, y, c);
    }
    DotScales(sw, nw, x, v, sums, KernelSum(sh, nh, y, sh), sw);
  }

  // ---------------------------------------------------------------------------------------------
  // Rounding
  // ---------------------------------------------------------------------------------------------

  /** The byte nearest to a value between 0 and 255, the higher one if two are. */
  ghost predicate IsNearest(b: nat, v: real) {
    b as real - 0.5 <= v < b as real + 0.5
  }

  lemma RoundIsNearest(v: real)
    requires 0.0 <= v <= 255.0
    ensures IsNearest(Round(v), v)
  {
  }

  ghost predicate IsMeanOf(src: seq<Word>, sw: nat, sh: nat, nw: nat, nh: nat, x: nat, y: nat, c: nat, mean: real)
    requires IsImage(src, sw, sh) && x < nw && y < nh
  {
    && KernelSum(sw, nw, x, sw) > 0.0 && KernelSum(sh, nh, y, sh) > 0.0
    && mean * KernelSum(sw, nw, x, sw) * KernelSum(sh, nh, y, sh) == WeighedSource(src, sw, sh, nw, nh, x, y, c)
  }

  lemma BytesWithin(src: seq<Word>, c: nat)
    ensures SourceWithin(src, c, 0, 255)
  {
  }

  lemma WideIsByte(src: seq<Word>, sw: nat, sh: nat, nw: nat, nh: nat, x: nat, y: nat, c: nat)
    requires IsImage(src, sw, sh) && x < nw && y < nh && c < 4
    ensures 0.0 <= Channel(Wide(src, sw, sh, nw, nh, x, y), c) <= 255.0
  {
    hide Mix, Weights, Left, Right, Tall, SourceWithin, Averages, Channel;
    BytesWithin(src, c);
    WindowIsInside(sw, nw, x);
    WeightsAverage(sw, nw, x);
    var row := TallRow(src, sw, sh, nh, Left(sw, nw, x), Right(sw, nw, x), y);
    forall k | 0 <= k < |row|
      ensures 0.0 <= Channel(row[k], c) <= 255.0
    {
      TallIsBetween(src, sw, sh, nh, Left(sw, nw, x) + k, y, c, 0, 255);
    }
    AverageIsBetween(Weights(sw, nw, x), row, c, 0.0, 255.0);
  }

  /** Each byte of a target pixel is the one nearest to the weighted mean of its channel over the whole source. */
  lemma PixelIsNearestMean(src: seq<Word>, sw: nat, sh: nat, nw: nat, nh: nat, x: nat, y: nat, c: nat) returns (mean: real)
    requires IsImage(src, sw, sh) && x < nw && y < nh && c < 4
    ensures IsMeanOf(src, sw, sh, nw, nh, x, y, c, mean)
    ensures IsNearest(ByteAt(Packed(Wide(src, sw, sh, nw, nh, x, y)), c), mean)
  {
    hide Wide, Channel, Packed, ByteAt, Round, Kernel, KernelSum, Raws, Total, WeighedSource;
    var q := Wide(src, sw, sh, nw, nh, x, y);
    mean := Channel(q, c);
    WindowWeighsAll(sw, nw, x);
    WindowWeighsAll(sh, nh, y);
    WideIsMean(src, sw, sh, nw, nh, x, y, c);
    WideIsByte(src, sw, sh, nw, nh, x, y, c);
    PackedByte(q, c);
    RoundIsNearest(mean);
  }

  // ---------------------------------------------------------------------------------------------
  // Four pixels to two
  // ---------------------------------------------------------------------------------------------

  const STRIP: seq<Word> := [0, 0, 224, 0]

  lemma KernelOfFour()
    ensures Kernel(4, 2, 0, 0) == 0.75 && Kernel(4, 2, 0, 1) == 0.75 && Kernel(4, 2, 0, 2) == 0.25 && Kernel(4, 2, 0, 3) == 0.0
    ensures Kernel(4, 2, 1, 0) == 0.0 && Kernel(4, 2, 1, 1) == 0.25 && Kernel(4, 2, 1, 2) == 0.75 && Kernel(4, 2, 1, 3) == 0.75
    ensures Kernel(1, 1, 0, 0) == 1.0
  {
    assert 4 as real / 2 as real == 2.0;
  }

  lemma SumsOfFour(v: seq<real>)
    requires |v| == 4 && v[0] == 0.0 && v[1] == 0.0 && v[2] == 224.0 && v[3] == 0.0
    ensures KernelSum(4, 2, 0, 4) == 1.75 && KernelSum(4, 2, 1, 4) == 1.75
    ensures Dot(4, 2, 0, v, 4) == 56.0 && Dot(4, 2, 1, v, 4) == 168.0
  {
    hide Kernel;
    KernelOfFour();
    assert KernelSum(4, 2, 0, 2) == 1.5 && KernelSum(4, 2, 1, 2) == 0.25;
    assert Dot(4, 2, 0, v, 1) == 0.0 && Dot(4, 2, 1, v, 1) == 0.0;
    assert Dot(4, 2, 0, v, 2) == 0.0 && Dot(4, 2, 1, v, 2) == 0.0;
    assert Dot(4, 2, 0, v, 3) == 56.0 && Dot(4, 2, 1, v, 3) == 168.0;
  }

  lemma ValuesOfStrip()
    ensures IsImage(STRIP, 4, 1)
    ensures var v := ColumnSums(STRIP, 4, 1, 1, 0, 3); v[0] == 0.0 && v[1] == 0.0 && v[2] == 224.0 && v[3] == 0.0
    ensures KernelSum(1, 1, 0, 1) == 1.0
  {
    hide Kernel;
    KernelOfFour();
    assert KernelSum(1, 1, 0, 0) == 0.0;
    forall i: nat | i < 4
      ensures ColumnSums(STRIP, 4, 1, 1, 0, 3)[i] == STRIP[i] as real
    {
      var v := ColumnValues(STRIP, 4, 1, i, 3);
      RowAfterRow(i, 0, 4);
      assert v[0] == STRIP[i] as real;
      assert Dot(1, 1, 0, v, 0) == 0.0;
    }
  }

  lemma MeanIs(mean: real, weight: real, sum: real, b: nat, expected: nat)
    requires weight > 0.0 && mean * weight * 1.0 == sum && sum == expected as real * weight && IsNearest(b, mean)
    ensures b == expected
  {
    var off := mean - expected as real;
    assert off * weight == 0.0;
    if off > 0.0 {
      ScaleLess(0.0, off, weight);
    } else if off < 0.0 {
      ScaleLess(off, 0.0, weight);
    }
  }

  /** A strip of four samples 0, 0, 224, 0 becomes 32, 96. */
  lemma FourToTwo()
    ensures IsImage(STRIP, 4, 1)
    ensures ByteAt(Packed(Wide(STRIP, 4, 1, 2, 1, 0, 0)), 3) == 32
    ensures ByteAt(Packed(Wide(STRIP, 4, 1, 2, 1, 1, 0)), 3) == 96
  {
    hide Wide, Packed, ByteAt, Kernel, KernelSum, Dot, ColumnSums;
    ValuesOfStrip();
    SumsOfFour(ColumnSums(STRIP, 4, 1, 1, 0, 3));
    var left := PixelIsNearestMean(STRIP, 4, 1, 2, 1, 0, 0, 3);
    var right := PixelIsNearestMean(STRIP, 4, 1, 2, 1, 1, 0, 3);
    MeanIs(left, 1.75, 56.0, ByteAt(Packed(Wide(STRIP, 4, 1, 2, 1, 0, 0)), 3), 32);
    MeanIs(right, 1.75, 168.0, ByteAt(Packed(Wide(STRIP, 4, 1, 2, 1, 1, 0)), 3), 96);
  }
}
