/**
 The two-pass triangle filter that scales a wallpaper to the quantizer's grid: columns first, then rows,
 over real numbers.
 */
module Resampler {

  /** A 32-bit pixel of four 8-bit channels. */
  type Word = n: nat | n < 0x1_0000_0000

  type Byte = n: nat | n < 256

  /** The four channels of a pixel while it is being summed. */
  datatype Quad = Quad(c0: real, c1: real, c2: real, c3: real)

  // ---------------------------------------------------------------------------------------------
  // One axis: which source samples a target sample draws on, and how much
  // ---------------------------------------------------------------------------------------------

  function Clamp(v: int, lo: int, hi: int): int {
    if v < lo then lo else if v > hi then hi else v
  }

  function Ceil(r: real): int {
    -(-r).Floor
  }

  function Abs(r: real): real {
    if r < 0.0 then -r else r
  }

  /** The target sample's place among the source samples, `n` of them scaled to `m`. */
  function Center(n: nat, m: nat, o: nat): real
    requires m > 0
  {
    (o as real + 0.5) * (n as real / m as real)
  }

  /** Half the filter's width: a source sample, or a target sample when that is wider. */
  function Support(n: nat, m: nat): (s: real)
    requires m > 0
    ensures s >= 1.0
  {
    if n as real / m as real < 1.0 then 1.0 else n as real / m as real
  }

  function Left(n: nat, m: nat, o: nat): int
    requires m > 0
  {
    Clamp((Center(n, m, o) - Support(n, m)).Floor, 0, n - 1)
  }

  function Right(n: nat, m: nat, o: nat): int
    requires m > 0
  {
    Clamp(Ceil(Center(n, m, o) + Support(n, m)), Left(n, m, o) + 1, n)
  }

  function Triangle(x: real): (w: real)
    ensures 0.0 <= w <= 1.0
  {
    if Abs(x) < 1.0 then 1.0 - Abs(x) else 0.0
  }

  /** Every target sample has a window, and it lies inside the source. */
  lemma WindowIsInside(n: nat, m: nat, o: nat)
    requires n > 0 && o < m
    ensures 0 <= Left(n, m, o) < Right(n, m, o) <= n
  {
  }

  /** The weight of source sample `i` before the weights are scaled to one. */
  function Raw(n: nat, m: nat, o: nat, i: int): (w: real)
    requires m > 0
    ensures 0.0 <= w <= 1.0
  {
    Triangle((i as real - (Center(n, m, o) - 0.5)) / Support(n, m))
  }

  /** The raw weights of `count` samples from the window's left end. */
  function Raws(n: nat, m: nat, o: nat, count: nat): (ws: seq<real>)
    requires m > 0
    ensures |ws| == count
    ensures forall k :: 0 <= k < count ==> ws[k] == Raw(n, m, o, Left(n, m, o) + k)
  {
    if count == 0 then [] else Raws(n, m, o, count - 1) + [Raw(n, m, o, Left(n, m, o) + count - 1)]
  }

  function Total(ws: seq<real>): real {
    if ws == [] then 0.0 else Total(ws[..|ws| - 1]) + ws[|ws| - 1]
  }

  ghost predicate Nonnegative(ws: seq<real>) {
    forall k :: 0 <= k < |ws| ==> ws[k] >= 0.0
  }

  lemma {:induction false} TotalBounds(ws: seq<real>, k: nat)
    requires Nonnegative(ws) && k < |ws|
    ensures Total(ws) >= ws[k]
    decreases |ws|
  {
    if k < |ws| - 1 {
      TotalBounds(ws[..|ws| - 1], k);
    } else {
      TotalNonnegative(ws[..|ws| - 1]);
    }
  }

  lemma {:induction false} TotalNonnegative(ws: seq<real>)
    requires Nonnegative(ws)
    ensures Total(ws) >= 0.0
    decreases |ws|
  {
    if ws != [] {
      TotalNonnegative(ws[..|ws| - 1]);
    }
  }

  lemma CenterIsInside(n: nat, m: nat, o: nat)
    requires n > 0 && o < m
    ensures 0.0 < Center(n, m, o) < n as real
  {
    var ratio := n as real / m as real;
    assert ratio > 0.0;
    assert m as real * ratio == n as real;
    ScaleLess(o as real + 0.5, m as real, ratio);
    ScaleLess(0.0, o as real + 0.5, ratio);
  }

  lemma ScaleLess(a: real, b: real, c: real)
    requires a < b && c > 0.0
    ensures a * c < b * c
  {
    assert (b - a) * c > 0.0;
  }

  lemma HalfOverMore(a: real, s: real)
    requires -0.5 < a <= 0.5 && s >= 1.0
    ensures Abs(a / s) <= 0.5
  {
    var x := a / s;
    assert x * s == a;
    if x > 0.5 {
      ScaleLess(0.5, x, s);
    } else if x < -0.5 {
      ScaleLess(x, -0.5, s);
    }
  }

  /** The sample under the center is in the window and weighs at least a half. */
  lemma MiddleWeighs(n: nat, m: nat, o: nat)
    requires n > 0 && o < m
    ensures var i := Center(n, m, o).Floor;
            Left(n, m, o) <= i < Right(n, m, o) && Raw(n, m, o, i) >= 0.5
  {
    hide Center, Support;
    var center := Center(n, m, o);
    var i := center.Floor;
    CenterIsInside(n, m, o);
    HalfOverMore(i as real - (center - 0.5), Support(n, m));
  }

  lemma RawTotalIsPositive(n: nat, m: nat, o: nat)
    requires n > 0 && o < m
    ensures Right(n, m, o) > Left(n, m, o)
    ensures Total(Raws(n, m, o, Right(n, m, o) - Left(n, m, o))) >= 0.5
  {
    hide Raw, Left, Right, Total;
    WindowIsInside(n, m, o);
    MiddleWeighs(n, m, o);
    var k := Center(n, m, o).Floor - Left(n, m, o);
    var ws := Raws(n, m, o, Right(n, m, o) - Left(n, m, o));
    TotalBounds(ws, k);
  }

  function Divided(ws: seq<real>, unit: real): (r: seq<real>)
    requires unit > 0.0
    ensures |r| == |ws| && forall k :: 0 <= k < |ws| ==> r[k] == ws[k] / unit
  {
    if ws == [] then [] else Divided(ws[..|ws| - 1], unit) + [ws[|ws| - 1] / unit]
  }

  /** The weights of the window's samples. */
  function Weights(n: nat, m: nat, o: nat): (ws: seq<real>)
    requires n > 0 && o < m
    ensures |ws| == Right(n, m, o) - Left(n, m, o)
  {
    RawTotalIsPositive(n, m, o);
    var raws := Raws(n, m, o, Right(n, m, o) - Left(n, m, o));
    Divided(raws, Total(raws))
  }

  /** Non-negative weights that sum to one. */
  ghost predicate Averages(ws: seq<real>) {
    Nonnegative(ws) && Total(ws) == 1.0
  }

  lemma DividedLast(ws: seq<real>, unit: real)
    requires unit > 0.0 && ws != []
    ensures var r, n := Divided(ws, unit), |ws| - 1; r[..n] == Divided(ws[..n], unit) && r[n] == ws[n] / unit
  {
  }

  lemma SumOfQuotients(total: real, last: real, unit: real, whole: real)
    requires unit > 0.0 && whole == total + last
    ensures total / unit + last / unit == whole / unit
  {
  }

  lemma {:induction false} DividedTotal(ws: seq<real>, unit: real)
    requires unit > 0.0
    ensures Total(Divided(ws, unit)) == Total(ws) / unit
    decreases |ws|
  {
    hide Total, Divided;
    TotalLast(ws);
    TotalLast(Divided(ws, unit));
    if ws != [] {
      var n := |ws| - 1;
      DividedLast(ws, unit);
      DividedTotal(ws[..n], unit);
      SumOfQuotients(Total(ws[..n]), ws[n], unit, Total(ws));
    }
  }

  lemma DividedNonnegative(ws: seq<real>, unit: real)
    requires unit > 0.0 && Nonnegative(ws)
    ensures Nonnegative(Divided(ws, unit))
  {
  }

  lemma WeightsAverage(n: nat, m: nat, o: nat)
    requires n > 0 && o < m
    ensures Averages(Weights(n, m, o))
  {
    hide Raw, Left, Right, Total, Divided;
    RawTotalIsPositive(n, m, o);
    var raws := Raws(n, m, o, Right(n, m, o) - Left(n, m, o));
    DividedTotal(raws, Total(raws));
    DividedNonnegative(raws, Total(raws));
  }

  method Window(n: nat, m: nat, o: nat) returns (left: int, right: int)
    requires n > 0 && o < m
    ensures left == Left(n, m, o) && right == Right(n, m, o)
  {
    hide Center, Support;
    var input, support := Center(n, m, o), Support(n, m);
    left := Clamp((input - support).Floor, 0, n - 1);
    right := Clamp(Ceil(input + support), left + 1, n);
  }

  method WeighRaw(n: nat, m: nat, o: nat, left: int, right: int) returns (raws: seq<real>, sum: real)
    requires m > 0 && left == Left(n, m, o) && left <= right
    ensures raws == Raws(n, m, o, right - left) && sum == Total(raws)
  {
    hide Raw, Left, Total;
    NoTotal();
    raws, sum := [], 0.0;
    var i := left;
    while i < right
      invariant left <= i <= right
      invariant raws == Raws(n, m, o, i - left) && sum == Total(raws)
    {
      var w := Raw(n, m, o, i);
      TotalSnoc(raws, w);
      raws, sum := raws + [w], sum + w;
      i := i + 1;
    }
  }

  lemma NoTotal()
    ensures Total([]) == 0.0
  {
  }

  method Normalize(raws: seq<real>, sum: real) returns (ws: seq<real>)
    requires sum > 0.0
    ensures ws == Divided(raws, sum)
  {
    ws := [];
    var k := 0;
    while k < |raws|
      invariant 0 <= k <= |raws| && ws == Divided(raws[..k], sum)
    {
      assert raws[..k + 1][..k] == raws[..k];
      ws := ws + [raws[k] / sum];
      k := k + 1;
    }
    assert raws[..k] == raws;
  }

  /** Both passes weigh the same way. */
  method Weigh(n: nat, m: nat, o: nat) returns (left: nat, right: nat, ws: seq<real>)
    requires n > 0 && o < m
    ensures left == Left(n, m, o) && right == Right(n, m, o) <= n
    ensures ws == Weights(n, m, o)
  {
    hide Left, Right, Raws, Total, Divided;
    WindowIsInside(n, m, o);
    RawTotalIsPositive(n, m, o);
    var raws, sum;
    left, right := Window(n, m, o);
    raws, sum := WeighRaw(n, m, o, left, right);
    ws := Normalize(raws, sum);
  }

  lemma TotalSnoc(ws: seq<real>, w: real)
    ensures Total(ws + [w]) == Total(ws) + w
  {
    assert (ws + [w])[..|ws|] == ws;
  }

  // ---------------------------------------------------------------------------------------------
  // Weighted sums of pixels
  // ---------------------------------------------------------------------------------------------

  const BLACK := Quad(0.0, 0.0, 0.0, 0.0)

  function Plus(a: Quad, b: Quad): Quad {
    Quad(a.c0 + b.c0, a.c1 + b.c1, a.c2 + b.c2, a.c3 + b.c3)
  }

  function Times(q: Quad, w: real): Quad {
    Quad(q.c0 * w, q.c1 * w, q.c2 * w, q.c3 * w)
  }

  function Channel(q: Quad, c: nat): real {
    if c == 0 then q.c0 else if c == 1 then q.c1 else if c == 2 then q.c2 else q.c3
  }

  /** The weighted sum of `qs`, each channel for itself. */
  function Mix(ws: seq<real>, qs: seq<Quad>): Quad
    requires |ws| == |qs|
  {
    if ws == [] then BLACK
    else
      var n := |ws| - 1;
      Plus(Mix(ws[..n], qs[..n]), Times(qs[n], ws[n]))
  }

  lemma MixSnoc(ws: seq<real>, qs: seq<Quad>, w: real, q: Quad)
    requires |ws| == |qs|
    ensures Mix(ws + [w], qs + [q]) == Plus(Mix(ws, qs), Times(q, w))
  {
    assert (ws + [w])[..|ws|] == ws && (qs + [q])[..|qs|] == qs;
  }

  ghost predicate ChannelWithin(qs: seq<Quad>, c: nat, lo: real, hi: real) {
    forall k :: 0 <= k < |qs| ==> lo <= Channel(qs[k], c) <= hi
  }

  lemma Between(lo: real, v: real, hi: real, w: real)
    requires lo <= v <= hi && w >= 0.0
    ensures lo * w <= v * w <= hi * w
  {
    assert (v - lo) * w >= 0.0 && (hi - v) * w >= 0.0;
  }

  /** `sum` is within `lo` and `hi`, each taken `total` times. */
  predicate Bounded(lo: real, hi: real, total: real, sum: real) {
    lo * total <= sum <= hi * total
  }

  lemma BoundsStep(lo: real, hi: real, total: real, w: real, sum: real, v: real, next: real)
    requires Bounded(lo, hi, total, sum) && lo <= v <= hi && w >= 0.0 && next == sum + v * w
    ensures Bounded(lo, hi, total + w, next)
  {
    Between(lo, v, hi, w);
    assert lo * (total + w) == lo * total + lo * w;
    assert hi * (total + w) == hi * total + hi * w;
  }

  lemma BoundsStart(lo: real, hi: real)
    ensures Bounded(lo, hi, 0.0, 0.0)
  {
  }

  lemma ChannelPlus(a: Quad, q: Quad, w: real, c: nat)
    ensures Channel(Plus(a, Times(q, w)), c) == Channel(a, c) + Channel(q, c) * w
  {
  }

  lemma BlackChannel(c: nat)
    ensures Channel(BLACK, c) == 0.0
  {
  }

  lemma TotalLast(ws: seq<real>)
    ensures Total(ws) == if ws == [] then 0.0 else Total(ws[..|ws| - 1]) + ws[|ws| - 1]
  {
  }

  lemma MixLast(ws: seq<real>, qs: seq<Quad>)
    requires |ws| == |qs|
    ensures Mix(ws, qs) == if ws == [] then BLACK
                           else Plus(Mix(ws[..|ws| - 1], qs[..|ws| - 1]), Times(qs[|ws| - 1], ws[|ws| - 1]))
  {
  }

  lemma {:induction false} MixBounds(ws: seq<real>, qs: seq<Quad>, c: nat, lo: real, hi: real)
    requires |ws| == |qs| && Nonnegative(ws) && ChannelWithin(qs, c, lo, hi)
    ensures Bounded(lo, hi, Total(ws), Channel(Mix(ws, qs), c))
    decreases |ws|
  {
    hide Mix, Total, Bounded, Plus, Times, Channel;
    TotalLast(ws);
    MixLast(ws, qs);
    if ws == [] {
      BlackChannel(c);
      BoundsStart(lo, hi);
    } else {
      var n := |ws| - 1;
      var front := Mix(ws[..n], qs[..n]);
      MixBounds(ws[..n], qs[..n], c, lo, hi);
      ChannelPlus(front, qs[n], ws[n], c);
      BoundsStep(lo, hi, Total(ws[..n]), ws[n], Channel(front, c), Channel(qs[n], c), Channel(Mix(ws, qs), c));
    }
  }

  /** A weighted average lies between the least and the greatest of what it averages. */
  lemma AverageIsBetween(ws: seq<real>, qs: seq<Quad>, c: nat, lo: real, hi: real)
    requires |ws| == |qs| && Averages(ws) && ChannelWithin(qs, c, lo, hi)
    ensures lo <= Channel(Mix(ws, qs), c) <= hi
  {
    hide Mix, Total, Channel;
    MixBounds(ws, qs, c, lo, hi);
  }

  // ---------------------------------------------------------------------------------------------
  // Averaging columns and then rows is one average over the rectangle
  // ---------------------------------------------------------------------------------------------

  function Scaled(ws: seq<real>, w: real): (r: seq<real>)
    ensures |r| == |ws|
  {
    if ws == [] then [] else Scaled(ws[..|ws| - 1], w) + [ws[|ws| - 1] * w]
  }

  /** The weight of every pixel of the rectangle, column after column. */
  function Products(wh: seq<real>, wv: seq<real>): (ws: seq<real>)
    ensures |ws| == |wh| * |wv|
    decreases |wh|
  {
    if wh == [] then [] else Products(wh[..|wh| - 1], wv) + Scaled(wv, wh[|wh| - 1])
  }

  function Concat(cols: seq<seq<Quad>>): seq<Quad> {
    if cols == [] then [] else Concat(cols[..|cols| - 1]) + cols[|cols| - 1]
  }

  /** Each column's own sum. */
  function Columns(wv: seq<real>, cols: seq<seq<Quad>>): (qs: seq<Quad>)
    requires forall k :: 0 <= k < |cols| ==> |cols[k]| == |wv|
    ensures |qs| == |cols|
    ensures forall k :: 0 <= k < |cols| ==> qs[k] == Mix(wv, cols[k])
    decreases |cols|
  {
    if cols == [] then [] else Columns(wv, cols[..|cols| - 1]) + [Mix(wv, cols[|cols| - 1])]
  }

  lemma {:induction false} ScaledMix(ws: seq<real>, qs: seq<Quad>, w: real)
    requires |ws| == |qs|
    ensures Mix(Scaled(ws, w), qs) == Times(Mix(ws, qs), w)
    decreases |ws|
  {
    hide Mix, Scaled, Plus, Times;
    MixLast(ws, qs);
    MixLast(Scaled(ws, w), qs);
    if ws == [] {
      TimesBlack(w);
    } else {
      var n := |ws| - 1;
      ScaledMix(ws[..n], qs[..n], w);
      ScaledLast(ws, w);
      Distribute(Mix(ws[..n], qs[..n]), qs[n], ws[n], w, Scaled(ws, w)[n]);
    }
  }

  lemma TimesBlack(w: real)
    ensures Times(BLACK, w) == BLACK
  {
  }

  lemma Distribute(a: Quad, q: Quad, v: real, w: real, both: real)
    requires both == v * w
    ensures Plus(Times(a, w), Times(q, both)) == Times(Plus(a, Times(q, v)), w)
  {
    hide Plus, Times, Channel;
    DistributesIn(a, q, v, w, both, 0);
    DistributesIn(a, q, v, w, both, 1);
    DistributesIn(a, q, v, w, both, 2);
    DistributesIn(a, q, v, w, both, 3);
    SameChannels(Plus(Times(a, w), Times(q, both)), Times(Plus(a, Times(q, v)), w));
  }

  lemma SameChannels(p: Quad, q: Quad)
    requires forall c :: 0 <= c < 4 ==> Channel(p, c) == Channel(q, c)
    ensures p == q
  {
    assert Channel(p, 0) == Channel(q, 0) && Channel(p, 1) == Channel(q, 1);
    assert Channel(p, 2) == Channel(q, 2) && Channel(p, 3) == Channel(q, 3);
  }

  lemma DistributesIn(a: Quad, q: Quad, v: real, w: real, both: real, c: nat)
    requires both == v * w
    ensures Channel(Plus(Times(a, w), Times(q, both)), c) == Channel(Times(Plus(a, Times(q, v)), w), c)
  {
    Distributes(Channel(a, c), Channel(q, c), v, w, both);
  }

  lemma Distributes(a: real, q: real, v: real, w: real, both: real)
    requires both == v * w
    ensures a * w + q * both == (a + q * v) * w
  {
  }

  lemma {:induction false} MixConcat(a: seq<real>, p: seq<Quad>, b: seq<real>, q: seq<Quad>)
    requires |a| == |p| && |b| == |q|
    ensures Mix(a + b, p + q) == Plus(Mix(a, p), Mix(b, q))
    decreases |b|
  {
    if b == [] {
      assert a + b == a && p + q == p;
    } else {
      var n := |b| - 1;
      MixConcat(a, p, b[..n], q[..n]);
      assert a + b == (a + b[..n]) + [b[n]] && p + q == (p + q[..n]) + [q[n]];
      MixSnoc(a + b[..n], p + q[..n], b[n], q[n]);
    }
  }

  lemma {:induction false} ConcatLength(cols: seq<seq<Quad>>, n: nat)
    requires forall k :: 0 <= k < |cols| ==> |cols[k]| == n
    ensures |Concat(cols)| == |cols| * n
    decreases |cols|
  {
    if cols != [] {
      ConcatLength(cols[..|cols| - 1], n);
      assert |cols| * n == (|cols| - 1) * n + n;
    }
  }

  /** The rows' average of the columns' averages is a single sum over every pixel of the rectangle. */
  lemma {:induction false} TwoPassesAreOne(wh: seq<real>, wv: seq<real>, cols: seq<seq<Quad>>)
    requires |wh| == |cols| && forall k :: 0 <= k < |cols| ==> |cols[k]| == |wv|
    ensures |Products(wh, wv)| == |Concat(cols)|
    ensures Mix(wh, Columns(wv, cols)) == Mix(Products(wh, wv), Concat(cols))
    decreases |wh|
  {
    ConcatLength(cols, |wv|);
    if wh != [] {
      var n := |wh| - 1;
      TwoPassesAreOne(wh[..n], wv, cols[..n]);
      MixSnoc(wh[..n], Columns(wv, cols[..n]), wh[n], Mix(wv, cols[n]));
      assert wh == wh[..n] + [wh[n]];
      MixConcat(Products(wh[..n], wv), Concat(cols[..n]), Scaled(wv, wh[n]), cols[n]);
      ScaledMix(wv, cols[n], wh[n]);
    }
  }

  lemma ScaledLast(ws: seq<real>, w: real)
    requires ws != []
    ensures var r, n := Scaled(ws, w), |ws| - 1; r[..n] == Scaled(ws[..n], w) && r[n] == ws[n] * w
  {
  }

  lemma TotalStep(total: real, last: real, w: real, whole: real, scaled: real)
    requires scaled == total * w + last * w && whole == total + last
    ensures scaled == whole * w
  {
  }

  lemma {:induction false} ScaledTotal(ws: seq<real>, w: real)
    ensures Total(Scaled(ws, w)) == Total(ws) * w
    decreases |ws|
  {
    hide Total, Scaled;
    var scaled := Scaled(ws, w);
    TotalLast(ws);
    TotalLast(scaled);
    if ws != [] {
      var n := |ws| - 1;
      ScaledLast(ws, w);
      ScaledTotal(ws[..n], w);
      TotalStep(Total(ws[..n]), ws[n], w, Total(ws), Total(scaled));
    }
  }

  lemma {:induction false} ScaledNonnegative(ws: seq<real>, w: real)
    requires Nonnegative(ws) && w >= 0.0
    ensures Nonnegative(Scaled(ws, w))
    decreases |ws|
  {
    if ws != [] {
      ScaledNonnegative(ws[..|ws| - 1], w);
      Between(0.0, ws[|ws| - 1], ws[|ws| - 1], w);
    }
  }

  lemma {:induction false} TotalConcat(a: seq<real>, b: seq<real>)
    ensures Total(a + b) == Total(a) + Total(b)
    decreases |b|
  {
    if b == [] {
      assert a + b == a;
    } else {
      TotalConcat(a, b[..|b| - 1]);
      assert a + b == (a + b[..|b| - 1]) + [b[|b| - 1]];
      TotalSnoc(a + b[..|b| - 1], b[|b| - 1]);
    }
  }

  lemma ProductsLast(wh: seq<real>, wv: seq<real>)
    requires wh != []
    ensures var n := |wh| - 1;
            && Total(wh) == Total(wh[..n]) + wh[n]
            && Products(wh, wv) == Products(wh[..n], wv) + Scaled(wv, wh[n])
  {
  }

  lemma NothingWeighs(wv: seq<real>)
    ensures Total([]) == 0.0 && Products([], wv) == []
  {
  }

  lemma {:induction false} ProductsTotal(wh: seq<real>, wv: seq<real>)
    requires Nonnegative(wh) && Nonnegative(wv)
    ensures Total(Products(wh, wv)) == Total(wh) * Total(wv)
    ensures Nonnegative(Products(wh, wv))
    decreases |wh|
  {
    hide Total, Products, Scaled;
    if wh == [] {
      NothingWeighs(wv);
    } else {
      var n := |wh| - 1;
      ProductsTotal(wh[..n], wv);
      ProductsLast(wh, wv);
      ScaledTotal(wv, wh[n]);
      ScaledNonnegative(wv, wh[n]);
      TotalConcat(Products(wh[..n], wv), Scaled(wv, wh[n]));
      Factor(Total(wh[..n]), wh[n], Total(wv));
    }
  }

  lemma Factor(a: real, b: real, c: real)
    ensures a * c + c * b == (a + b) * c
  {
  }

  lemma ProductsAverage(wh: seq<real>, wv: seq<real>)
    requires Averages(wh) && Averages(wv)
    ensures Averages(Products(wh, wv))
  {
    ProductsTotal(wh, wv);
  }

  // ---------------------------------------------------------------------------------------------
  // Pixels
  // ---------------------------------------------------------------------------------------------

  /** The channels of a 32-bit pixel, from the high byte down. */
  function ByteAt(px: Word, c: nat): Byte {
    if c == 0 then px / 0x100_0000 % 256
    else if c == 1 then px / 0x1_0000 % 256
    else if c == 2 then px / 0x100 % 256
    else px % 256
  }

  function AsQuad(px: Word): Quad {
    Quad(ByteAt(px, 0) as real, ByteAt(px, 1) as real, ByteAt(px, 2) as real, ByteAt(px, 3) as real)
  }

  /** Clamped to a byte and rounded, halves away from zero. */
  function Round(v: real): Byte {
    ((if v < 0.0 then 0.0 else if v > 255.0 then 255.0 else v) + 0.5).Floor
  }

  function Assembled(b0: Byte, b1: Byte, b2: Byte, b3: Byte): Word {
    b0 * 0x100_0000 + b1 * 0x1_0000 + b2 * 0x100 + b3
  }

  function Packed(q: Quad): Word {
    Assembled(Round(q.c0), Round(q.c1), Round(q.c2), Round(q.c3))
  }

  lemma RoundOfByte(b: Byte)
    ensures Round(b as real) == b
  {
  }

  lemma RoundIsBetween(lo: Byte, v: real, hi: Byte)
    requires lo as real <= v <= hi as real
    ensures lo <= Round(v) <= hi
  {
  }

  /** Shifting by two or three bytes is shifting by one byte again and again. */
  lemma Shifts(px: nat)
    ensures px / 0x1_0000 == px / 0x100 / 0x100
    ensures px / 0x100_0000 == px / 0x100 / 0x100 / 0x100
  {
    ShiftTwice(px);
    ShiftThrice(px);
  }

  lemma ShiftTwice(px: nat)
    ensures px / 0x1_0000 == px / 0x100 / 0x100
  {
    var a := px / 0x100;
    assert px == a * 0x100 + px % 0x100 && a == a / 0x100 * 0x100 + a % 0x100;
  }

  lemma ShiftThrice(px: nat)
    ensures px / 0x100_0000 == px / 0x1_0000 / 0x100
  {
    var a := px / 0x1_0000;
    assert px == a * 0x1_0000 + px % 0x1_0000 && a == a / 0x100 * 0x100 + a % 0x100;
  }

  lemma LowByte(high: nat, low: Byte)
    ensures (high * 0x100 + low) / 0x100 == high && (high * 0x100 + low) % 0x100 == low
  {
  }

  lemma AssembledBytes(b0: Byte, b1: Byte, b2: Byte, b3: Byte)
    ensures var px := Assembled(b0, b1, b2, b3);
            ByteAt(px, 0) == b0 && ByteAt(px, 1) == b1 && ByteAt(px, 2) == b2 && ByteAt(px, 3) == b3
  {
    var px := Assembled(b0, b1, b2, b3);
    assert px == ((b0 * 0x100 + b1) * 0x100 + b2) * 0x100 + b3;
    LowByte((b0 * 0x100 + b1) * 0x100 + b2, b3);
    LowByte(b0 * 0x100 + b1, b2);
    LowByte(b0, b1);
    Shifts(px);
  }

  lemma OneByte(n: nat)
    ensures n == n / 0x100 * 0x100 + n % 0x100
  {
  }

  lemma Reassembled(px: Word, a: nat, b: nat, c: nat, b1: Byte, b2: Byte, b3: Byte)
    requires px == a * 0x100 + b3 && a == b * 0x100 + b2 && b == c * 0x100 + b1
    ensures c < 0x100 && Assembled(c, b1, b2, b3) == px
  {
  }

  lemma ShiftedBytes(px: Word)
    ensures var a := px / 0x100;
            var b := a / 0x100;
            ByteAt(px, 3) == px % 0x100 && ByteAt(px, 2) == a % 0x100 && ByteAt(px, 1) == b % 0x100
            && ByteAt(px, 0) == b / 0x100 % 0x100
  {
    Shifts(px);
  }

  lemma BytesAssemble(px: Word)
    ensures Assembled(ByteAt(px, 0), ByteAt(px, 1), ByteAt(px, 2), ByteAt(px, 3)) == px
  {
    hide ByteAt, Assembled;
    var a := px / 0x100;
    var b := a / 0x100;
    OneByte(px);
    OneByte(a);
    OneByte(b);
    ShiftedBytes(px);
    Reassembled(px, a, b, b / 0x100, b % 0x100, a % 0x100, px % 0x100);
  }

  /** Splitting a pixel and packing it again gives it back. */
  lemma PackedPixel(px: Word)
    ensures Packed(AsQuad(px)) == px
  {
    hide ByteAt, Round, Assembled;
    RoundOfByte(ByteAt(px, 0));
    RoundOfByte(ByteAt(px, 1));
    RoundOfByte(ByteAt(px, 2));
    RoundOfByte(ByteAt(px, 3));
    BytesAssemble(px);
  }

  lemma PackedByte(q: Quad, c: nat)
    requires c < 4
    ensures ByteAt(Packed(q), c) == Round(Channel(q, c))
  {
    hide Round, Assembled;
    AssembledBytes(Round(q.c0), Round(q.c1), Round(q.c2), Round(q.c3));
  }

  // ---------------------------------------------------------------------------------------------
  // The two passes
  // ---------------------------------------------------------------------------------------------

  /** Where the pixel in column `x` and row `y` lies in an image `w` wide. */
  function At(x: nat, y: nat, w: nat): nat {
    x + y * w
  }

  lemma AtIsInside(x: nat, y: nat, w: nat, h: nat)
    requires x < w && y < h
    ensures At(x, y, w) < w * h
  {
    assert (y + 1) * w <= h * w;
  }

  lemma RowsApart(x: nat, y: nat, u: nat, v: nat, w: nat)
    requires x < w && y < v
    ensures At(x, y, w) < At(u, v, w)
  {
    var d := v - y - 1;
    assert v == y + 1 + d;
    Expanded(y, d, w);
  }

  lemma Expanded(y: nat, d: nat, w: nat)
    ensures (y + 1 + d) * w == y * w + w + d * w && d * w >= 0
  {
  }

  lemma AtIsUnique(x: nat, y: nat, u: nat, v: nat, w: nat)
    requires x < w && u < w && (x != u || y != v)
    ensures At(x, y, w) != At(u, v, w)
  {
    if y < v {
      RowsApart(x, y, u, v, w);
    } else if v < y {
      RowsApart(u, v, x, y, w);
    }
  }

  predicate IsImage(src: seq<Word>, w: nat, h: nat) {
    w > 0 && h > 0 && |src| == w * h
  }

  /** A column's pixels from row `first` to before row `end`. */
  function ColumnOf(src: seq<Word>, sw: nat, sh: nat, x: nat, first: nat, end: nat): (qs: seq<Quad>)
    requires IsImage(src, sw, sh) && x < sw && first <= end <= sh
    ensures |qs| == end - first
    decreases end
  {
    if first == end then []
    else
      AtIsInside(x, end - 1, sw, sh);
      ColumnOf(src, sw, sh, x, first, end - 1) + [AsQuad(src[At(x, end - 1, sw)])]
  }

  /** The part of column `x` that row `y` of the target draws on. */
  function Window1(src: seq<Word>, sw: nat, sh: nat, nh: nat, x: nat, y: nat): (qs: seq<Quad>)
    requires IsImage(src, sw, sh) && x < sw && y < nh
    ensures |qs| == |Weights(sh, nh, y)|
  {
    WindowIsInside(sh, nh, y);
    ColumnOf(src, sw, sh, x, Left(sh, nh, y), Right(sh, nh, y))
  }

  /** The vertical pass: `sw` by `nh` sums. */
  function Tall(src: seq<Word>, sw: nat, sh: nat, nh: nat, x: nat, y: nat): Quad
    requires IsImage(src, sw, sh) && x < sw && y < nh
  {
    Mix(Weights(sh, nh, y), Window1(src, sw, sh, nh, x, y))
  }

  /** Columns `first` to before `end` of the rectangle row `y` draws on. */
  function Rectangle(src: seq<Word>, sw: nat, sh: nat, nh: nat, first: nat, end: nat, y: nat): (cols: seq<seq<Quad>>)
    requires IsImage(src, sw, sh) && first <= end <= sw && y < nh
    ensures |cols| == end - first
  {
    seq(end - first, k requires 0 <= k < end - first => Window1(src, sw, sh, nh, first + k, y))
  }

  /** Row `y` of the vertical pass, from column `first` to before column `end`. */
  function TallRow(src: seq<Word>, sw: nat, sh: nat, nh: nat, first: nat, end: nat, y: nat): (qs: seq<Quad>)
    requires IsImage(src, sw, sh) && first <= end <= sw && y < nh
    ensures |qs| == end - first
  {
    seq(end - first, k requires 0 <= k < end - first => Tall(src, sw, sh, nh, first + k, y))
  }

  /** The horizontal pass over the vertical one. */
  function Wide(src: seq<Word>, sw: nat, sh: nat, nw: nat, nh: nat, x: nat, y: nat): Quad
    requires IsImage(src, sw, sh) && x < nw && y < nh
  {
    WindowIsInside(sw, nw, x);
    Mix(Weights(sw, nw, x), TallRow(src, sw, sh, nh, Left(sw, nw, x), Right(sw, nw, x), y))
  }

  /** The rectangle of source pixels a target pixel draws on, column after column. */
  function Patch(src: seq<Word>, sw: nat, sh: nat, nw: nat, nh: nat, x: nat, y: nat): seq<Quad>
    requires IsImage(src, sw, sh) && x < nw && y < nh
  {
    WindowIsInside(sw, nw, x);
    Concat(Rectangle(src, sw, sh, nh, Left(sw, nw, x), Right(sw, nw, x), y))
  }

  function PatchWeights(sw: nat, sh: nat, nw: nat, nh: nat, x: nat, y: nat): seq<real>
    requires sw > 0 && sh > 0 && x < nw && y < nh
  {
    Products(Weights(sw, nw, x), Weights(sh, nh, y))
  }

  ghost predicate IsAverage(q: Quad, ws: seq<real>, qs: seq<Quad>) {
    |ws| == |qs| && Averages(ws) && q == Mix(ws, qs)
  }

  /** Each target pixel is one weighted average of the source pixels in its rectangle. */
  lemma PixelIsOneAverage(src: seq<Word>, sw: nat, sh: nat, nw: nat, nh: nat, x: nat, y: nat)
    requires IsImage(src, sw, sh) && x < nw && y < nh
    ensures IsAverage(Wide(src, sw, sh, nw, nh, x, y),
                      PatchWeights(sw, sh, nw, nh, x, y), Patch(src, sw, sh, nw, nh, x, y))
  {
    hide Mix, Products, Concat, Weights, Window1, Averages, Left, Right;
    WindowIsInside(sw, nw, x);
    var wh, wv, left := Weights(sw, nw, x), Weights(sh, nh, y), Left(sw, nw, x);
    var cols := Rectangle(src, sw, sh, nh, left, Right(sw, nw, x), y);
    WeightsAverage(sw, nw, x);
    WeightsAverage(sh, nh, y);
    ProductsAverage(wh, wv);
    forall k | 0 <= k < |cols|
      ensures |cols[k]| == |wv|
    {
      assert cols[k] == Window1(src, sw, sh, nh, left + k, y);
    }
    TwoPassesAreOne(wh, wv, cols);
    var row := TallRow(src, sw, sh, nh, left, Right(sw, nw, x), y);
    forall k | 0 <= k < |row|
      ensures row[k] == Columns(wv, cols)[k]
    {
      assert row[k] == Tall(src, sw, sh, nh, left + k, y);
      assert cols[k] == Window1(src, sw, sh, nh, left + k, y);
    }
    assert Columns(wv, cols) == row;
  }

  ghost predicate SourceWithin(src: seq<Word>, c: nat, lo: Byte, hi: Byte) {
    forall k :: 0 <= k < |src| ==> lo <= ByteAt(src[k], c) <= hi
  }

  lemma QuadByte(px: Word, c: nat)
    requires c < 4
    ensures Channel(AsQuad(px), c) == ByteAt(px, c) as real
  {
  }

  lemma {:induction false} ColumnWithin(src: seq<Word>, sw: nat, sh: nat, x: nat, first: nat, end: nat, c: nat, lo: Byte, hi: Byte)
    requires IsImage(src, sw, sh) && x < sw && first <= end <= sh && c < 4 && SourceWithin(src, c, lo, hi)
    ensures ChannelWithin(ColumnOf(src, sw, sh, x, first, end), c, lo as real, hi as real)
    decreases end
  {
    if first < end {
      hide ByteAt, AsQuad, Channel, At;
      ColumnWithin(src, sw, sh, x, first, end - 1, c, lo, hi);
      AtIsInside(x, end - 1, sw, sh);
      QuadByte(src[At(x, end - 1, sw)], c);
    }
  }

  lemma TallIsBetween(src: seq<Word>, sw: nat, sh: nat, nh: nat, x: nat, y: nat, c: nat, lo: Byte, hi: Byte)
    requires IsImage(src, sw, sh) && x < sw && y < nh && c < 4 && SourceWithin(src, c, lo, hi)
    ensures lo as real <= Channel(Tall(src, sw, sh, nh, x, y), c) <= hi as real
  {
    hide Mix, Weights, Left, Right, ColumnOf, SourceWithin, Averages, ChannelWithin, Channel;
    WindowIsInside(sh, nh, y);
    WeightsAverage(sh, nh, y);
    ColumnWithin(src, sw, sh, x, Left(sh, nh, y), Right(sh, nh, y), c, lo, hi);
    AverageIsBetween(Weights(sh, nh, y), Window1(src, sw, sh, nh, x, y), c, lo as real, hi as real);
  }

  /** No channel of the result leaves the range it has in the source. */
  lemma PixelIsBetween(src: seq<Word>, sw: nat, sh: nat, nw: nat, nh: nat, x: nat, y: nat, c: nat, lo: Byte, hi: Byte)
    requires IsImage(src, sw, sh) && x < nw && y < nh && c < 4 && SourceWithin(src, c, lo, hi)
    ensures lo <= ByteAt(Packed(Wide(src, sw, sh, nw, nh, x, y)), c) <= hi
  {
    hide Mix, Weights, Left, Right, Tall, SourceWithin, Averages, Channel, Packed, ByteAt, Round;
    WindowIsInside(sw, nw, x);
    WeightsAverage(sw, nw, x);
    var row := TallRow(src, sw, sh, nh, Left(sw, nw, x), Right(sw, nw, x), y);
    forall k | 0 <= k < |row|
      ensures lo as real <= Channel(row[k], c) <= hi as real
    {
      TallIsBetween(src, sw, sh, nh, Left(sw, nw, x) + k, y, c, lo, hi);
    }
    var q := Wide(src, sw, sh, nw, nh, x, y);
    AverageIsBetween(Weights(sw, nw, x), row, c, lo as real, hi as real);
    RoundIsBetween(lo, Channel(q, c), hi);
    PackedByte(q, c);
  }

  // ---------------------------------------------------------------------------------------------
  // Scaling to the same size changes nothing
  // ---------------------------------------------------------------------------------------------

  lemma SameSizeCenter(n: nat, o: nat)
    requires n > 0
    ensures Center(n, n, o) == o as real + 0.5 && Support(n, n) == 1.0
  {
    assert n as real / n as real == 1.0;
  }

  lemma SameSizeRaw(n: nat, o: nat, i: int)
    requires n > 0 && o < n
    ensures Raw(n, n, o, i) == if i == o then 1.0 else 0.0
  {
    hide Center, Support;
    SameSizeCenter(n, o);
    assert (i as real - o as real) / 1.0 == (i - o) as real;
  }

  lemma SameSizeWindow(n: nat, o: nat)
    requires n > 0 && o < n
    ensures 0 <= Left(n, n, o) <= o < Right(n, n, o) <= n
  {
    WindowIsInside(n, n, o);
    MiddleWeighs(n, n, o);
    SameSizeCenter(n, o);
  }

  /** All of the weight on one sample. */
  ghost predicate Single(ws: seq<real>, at: nat) {
    at < |ws| && forall k :: 0 <= k < |ws| ==> ws[k] == if k == at then 1.0 else 0.0
  }

  ghost predicate AllZero(ws: seq<real>) {
    forall k :: 0 <= k < |ws| ==> ws[k] == 0.0
  }

  lemma {:induction false} ZeroMix(ws: seq<real>, qs: seq<Quad>)
    requires |ws| == |qs| && AllZero(ws)
    ensures Mix(ws, qs) == BLACK && Total(ws) == 0.0
    decreases |ws|
  {
    if ws != [] {
      ZeroMix(ws[..|ws| - 1], qs[..|ws| - 1]);
    }
  }

  lemma {:induction false} SingleMix(ws: seq<real>, qs: seq<Quad>, at: nat)
    requires |ws| == |qs| && Single(ws, at)
    ensures Mix(ws, qs) == qs[at] && Total(ws) == 1.0
    decreases |ws|
  {
    var n := |ws| - 1;
    if at == n {
      ZeroMix(ws[..n], qs[..n]);
    } else {
      SingleMix(ws[..n], qs[..n], at);
    }
  }

  /** All of the weight is on the sample at the same place. */
  ghost predicate Focused(ws: seq<real>, left: int, o: nat) {
    left <= o && Single(ws, o - left)
  }

  lemma SameSizeWeights(n: nat, o: nat)
    requires n > 0 && o < n
    ensures Focused(Weights(n, n, o), Left(n, n, o), o)
  {
    hide Raw, Left, Right, Total;
    SameSizeWindow(n, o);
    var raws := Raws(n, n, o, Right(n, n, o) - Left(n, n, o));
    forall k | 0 <= k < |raws|
      ensures raws[k] == if k == o - Left(n, n, o) then 1.0 else 0.0
    {
      SameSizeRaw(n, o, Left(n, n, o) + k);
    }
    SingleMix(raws, seq(|raws|, _ => BLACK), o - Left(n, n, o));
  }

  lemma {:induction false} ColumnAt(src: seq<Word>, sw: nat, sh: nat, x: nat, first: nat, end: nat, k: nat)
    requires IsImage(src, sw, sh) && x < sw && first <= k < end <= sh
    ensures At(x, k, sw) < |src| && ColumnOf(src, sw, sh, x, first, end)[k - first] == AsQuad(src[At(x, k, sw)])
    decreases end
  {
    hide AsQuad;
    if k < end - 1 {
      ColumnAt(src, sw, sh, x, first, end - 1, k);
    } else {
      AtIsInside(x, k, sw, sh);
    }
  }

  lemma SameSizeTall(src: seq<Word>, sw: nat, sh: nat, x: nat, y: nat)
    requires IsImage(src, sw, sh) && x < sw && y < sh
    ensures At(x, y, sw) < |src| && Tall(src, sw, sh, sh, x, y) == AsQuad(src[At(x, y, sw)])
  {
    hide AsQuad, Weights, Left, Right, Mix, At, IsImage;
    SameSizeWindow(sh, y);
    SameSizeWeights(sh, y);
    SingleMix(Weights(sh, sh, y), Window1(src, sw, sh, sh, x, y), y - Left(sh, sh, y));
    ColumnAt(src, sw, sh, x, Left(sh, sh, y), Right(sh, sh, y), y);
  }

  /** A resize to the same size is the identity. */
  lemma SameSizeIsIdentity(src: seq<Word>, sw: nat, sh: nat, x: nat, y: nat)
    requires IsImage(src, sw, sh) && x < sw && y < sh
    ensures At(x, y, sw) < |src| && Packed(Wide(src, sw, sh, sw, sh, x, y)) == src[At(x, y, sw)]
  {
    hide AsQuad, Weights, Left, Right, Mix, At, IsImage, Tall, Packed;
    SameSizeWindow(sw, x);
    SameSizeWeights(sw, x);
    var row := TallRow(src, sw, sh, sh, Left(sw, sw, x), Right(sw, sw, x), y);
    SingleMix(Weights(sw, sw, x), row, x - Left(sw, sw, x));
    SameSizeTall(src, sw, sh, x, y);
    PackedPixel(src[At(x, y, sw)]);
  }

  // ---------------------------------------------------------------------------------------------
  // The passes as loops
  // ---------------------------------------------------------------------------------------------

  /** One sample more, in each channel. */
  function Accumulate(acc: Quad, value: Quad, weight: real): Quad {
    Plus(acc, Times(value, weight))
  }

  method SumColumn(src: seq<Word>, sw: nat, sh: nat, x: nat, left: nat, right: nat, ws: seq<real>) returns (sum: Quad)
    requires IsImage(src, sw, sh) && x < sw && left <= right <= sh && |ws| == right - left
    ensures sum == Mix(ws, ColumnOf(src, sw, sh, x, left, right))
  {
    hide At, IsImage, AsQuad, Mix, Plus, Times;
    sum := BLACK;
    var i := left;
    NothingMixed();
    assert ws[..0] == [];
    while i < right
      invariant left <= i <= right
      invariant sum == Mix(ws[..i - left], ColumnOf(src, sw, sh, x, left, i))
    {
      AtIsInside(x, i, sw, sh);
      ImageSize(src, sw, sh);
      var px, w := AsQuad(src[At(x, i, sw)]), ws[i - left];
      MixSnoc(ws[..i - left], ColumnOf(src, sw, sh, x, left, i), w, px);
      assert ws[..i + 1 - left] == ws[..i - left] + [w];
      sum := Accumulate(sum, px, w);
      i := i + 1;
    }
    assert ws[..i - left] == ws;
  }

  lemma NothingMixed()
    ensures Mix([], []) == BLACK
  {
  }

  lemma ImageSize(src: seq<Word>, w: nat, h: nat)
    requires IsImage(src, w, h)
    ensures w > 0 && h > 0 && |src| == w * h
  {
  }

  /** Columns of the source scaled to the target's height. */
  method Vertical(src: seq<Word>, sw: nat, sh: nat, nh: nat) returns (tmp: array<Quad>)
    requires IsImage(src, sw, sh)
    ensures fresh(tmp) && tmp.Length == sw * nh
    ensures forall x, y :: 0 <= x < sw && 0 <= y < nh ==>
              At(x, y, sw) < sw * nh && tmp[At(x, y, sw)] == Tall(src, sw, sh, nh, x, y)
  {
    hide At, IsImage, Tall, Left, Right, Weights;
    ImageSize(src, sw, sh);
    AllInside(sw, nh);
    tmp := new Quad[sw * nh](_ => BLACK);
    var y := 0;
    while y < nh
      invariant 0 <= y <= nh
      invariant forall u, v :: 0 <= u < sw && 0 <= v < y ==> tmp[At(u, v, sw)] == Tall(src, sw, sh, nh, u, v)
    {
      var left, right, ws := Weigh(sh, nh, y);
      var x := 0;
      while x < sw
        invariant 0 <= x <= sw
        invariant forall u, v :: 0 <= u < sw && 0 <= v < y ==> tmp[At(u, v, sw)] == Tall(src, sw, sh, nh, u, v)
        invariant forall u :: 0 <= u < x ==> tmp[At(u, y, sw)] == Tall(src, sw, sh, nh, u, y)
      {
        var sum := SumColumn(src, sw, sh, x, left, right, ws);
        TallIs(src, sw, sh, nh, x, y);
        Elsewhere(x, y, sw, nh);
        tmp[At(x, y, sw)] := sum;
        x := x + 1;
      }
      y := y + 1;
    }
  }

  lemma AllInside(w: nat, h: nat)
    ensures forall x, y :: 0 <= x < w && 0 <= y < h ==> At(x, y, w) < w * h
  {
    forall x: nat, y: nat | x < w && y < h
      ensures At(x, y, w) < w * h
    {
      AtIsInside(x, y, w, h);
    }
  }

  /** No other pixel shares the place of this one. */
  lemma Elsewhere(x: nat, y: nat, w: nat, h: nat)
    requires x < w && y < h
    ensures forall u, v :: 0 <= u < w && 0 <= v < h && (u != x || v != y) ==> At(u, v, w) != At(x, y, w)
  {
    forall u: nat, v: nat | u < w && v < h && (u != x || v != y)
      ensures At(u, v, w) != At(x, y, w)
    {
      AtIsUnique(x, y, u, v, w);
    }
  }

  lemma TallIs(src: seq<Word>, sw: nat, sh: nat, nh: nat, x: nat, y: nat)
    requires IsImage(src, sw, sh) && x < sw && y < nh
    ensures 0 <= Left(sh, nh, y) <= Right(sh, nh, y) <= sh
    ensures Tall(src, sw, sh, nh, x, y)
            == Mix(Weights(sh, nh, y), ColumnOf(src, sw, sh, x, Left(sh, nh, y), Right(sh, nh, y)))
  {
    hide Left, Right, Mix, ColumnOf;
    WindowIsInside(sh, nh, y);
  }

  method SumRow(tmp: array<Quad>, sw: nat, y: nat, left: nat, right: nat, ws: seq<real>, ghost row: seq<Quad>)
    returns (sum: Quad)
    requires left <= right && |ws| == |row| == right - left
    requires forall k :: left <= k < right ==> At(k, y, sw) < tmp.Length && tmp[At(k, y, sw)] == row[k - left]
    ensures sum == Mix(ws, row)
  {
    hide At, Mix, Plus, Times;
    sum := BLACK;
    var i := left;
    NothingMixed();
    assert ws[..0] == [] && row[..0] == [];
    while i < right
      invariant left <= i <= right
      invariant sum == Mix(ws[..i - left], row[..i - left])
    {
      var px, w := tmp[At(i, y, sw)], ws[i - left];
      MixSnoc(ws[..i - left], row[..i - left], w, px);
      assert ws[..i + 1 - left] == ws[..i - left] + [w];
      assert row[..i + 1 - left] == row[..i - left] + [px];
      sum := Accumulate(sum, px, w);
      i := i + 1;
    }
    assert ws[..i - left] == ws && row[..i - left] == row;
  }

  /** The whole resize: `dst` gets the target's pixels, column by column. */
  method ResizeTriangleToGrid(src: seq<Word>, sw: nat, sh: nat, nw: nat, nh: nat) returns (dst: array<Word>)
    requires IsImage(src, sw, sh)
    ensures fresh(dst) && dst.Length == nw * nh
    ensures forall x, y :: 0 <= x < nw && 0 <= y < nh ==>
              At(x, y, nw) < nw * nh && dst[At(x, y, nw)] == Packed(Wide(src, sw, sh, nw, nh, x, y))
  {
    hide At, IsImage, Tall, Wide, Packed, Left, Right, Weights, Mix;
    ImageSize(src, sw, sh);
    AllInside(nw, nh);
    var tmp := Vertical(src, sw, sh, nh);
    dst := new Word[nw * nh](_ => 0);
    var x := 0;
    while x < nw
      modifies dst
      invariant 0 <= x <= nw
      invariant forall u, v :: 0 <= u < x && 0 <= v < nh ==>
                  dst[At(u, v, nw)] == Packed(Wide(src, sw, sh, nw, nh, u, v))
    {
      var left, right, ws := Weigh(sw, nw, x);
      var y := 0;
      while y < nh
        modifies dst
        invariant 0 <= y <= nh
        invariant forall u, v :: 0 <= u < x && 0 <= v < nh ==>
                    dst[At(u, v, nw)] == Packed(Wide(src, sw, sh, nw, nh, u, v))
        invariant forall v :: 0 <= v < y ==> dst[At(x, v, nw)] == Packed(Wide(src, sw, sh, nw, nh, x, v))
      {
        WideIs(src, sw, sh, nw, nh, x, y);
        ghost var row := TallRow(src, sw, sh, nh, left, right, y);
        var sum := SumRow(tmp, sw, y, left, right, ws, row);
        Elsewhere(x, y, nw, nh);
        dst[At(x, y, nw)] := Packed(sum);
        y := y + 1;
      }
      x := x + 1;
    }
  }

  lemma WideIs(src: seq<Word>, sw: nat, sh: nat, nw: nat, nh: nat, x: nat, y: nat)
    requires IsImage(src, sw, sh) && x < nw && y < nh
    ensures 0 <= Left(sw, nw, x) <= Right(sw, nw, x) <= sw
    ensures Wide(src, sw, sh, nw, nh, x, y)
            == Mix(Weights(sw, nw, x), TallRow(src, sw, sh, nh, Left(sw, nw, x), Right(sw, nw, x), y))
  {
    hide Left, Right, Mix, Tall;
    WindowIsInside(sw, nw, x);
  }
}
