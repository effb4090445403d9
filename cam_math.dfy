/**
 * The arithmetic of Grad-CAM once the gradients are known, shared by
 * gradcam_utils.py (GradCAM.generate_heatmap and _generate_explanation_text)
 * and by the inline copy in brain_ct_improved.py:
 *
 *  - pooling the gradients per channel (the mean over the spatial axes),
 *  - weighting each activation channel in place by its pooled gradient,
 *  - reducing the channels of each cell (a sum in one file, a mean in the
 *    other), ReLU, and dividing by the maximum when it is positive,
 *  - the "hot" cells at or above 70% of the maximum, their truncated
 *    centroid, and the split of a coordinate into thirds.
 *
 * Tensors are rows x columns x channels; the batch of one image the model is
 * called with is already dropped (conv_outputs[0]). Values are reals, so
 * float rounding is not modelled.
 */
module CamMath {
  import opened Wrappers

  type Grid = seq<seq<real>>
  type Tensor = seq<seq<seq<real>>>

  predicate IsGrid(g: Grid, h: nat, w: nat)
  {
    |g| == h && forall i :: 0 <= i < h ==> |g[i]| == w
  }

  predicate IsTensor(t: Tensor, h: nat, w: nat, c: nat)
  {
    |t| == h && forall i :: 0 <= i < h ==> |t[i]| == w && forall j :: 0 <= j < w ==> |t[i][j]| == c
  }

  function Sum(s: seq<real>): real
  {
    if s == [] then 0.0 else Sum(s[..|s| - 1]) + s[|s| - 1]
  }

  /** The weighted sum the Grad-CAM paper writes for one cell. */
  function Dot(p: seq<real>, v: seq<real>): real
    requires |p| == |v|
  {
    if p == [] then 0.0 else Dot(p[..|p| - 1], v[..|v| - 1]) + p[|p| - 1] * v[|v| - 1]
  }

  /** A sum of equal terms is the term times their number. */
  lemma {:induction false} SumConstant(s: seq<real>, x: real)
    requires forall k :: 0 <= k < |s| ==> s[k] == x
    ensures Sum(s) == |s| as real * x
  {
    if s != [] {
      SumConstant(s[..|s| - 1], x);
    }
  }

  /** tf.reduce_mean(grads, axis=(0, 1, 2)): for each channel, the mean of the
      gradient over every cell. An empty map has no mean; it is given 0 here,
      and the heatmap of an empty map is an error anyway. */
  function ChannelTotal(grads: Tensor, h: nat, w: nat, c: nat, k: nat): real
    requires IsTensor(grads, h, w, c) && k < c
  {
    Sum(seq(h, i requires 0 <= i < h => Sum(seq(w, j requires 0 <= j < w => grads[i][j][k]))))
  }

  function PooledGrads(grads: Tensor, h: nat, w: nat, c: nat): (pooled: seq<real>)
    requires IsTensor(grads, h, w, c)
    ensures |pooled| == c
  {
    seq(c, k requires 0 <= k < c =>
      if h * w == 0 then 0.0 else ChannelTotal(grads, h, w, c, k) / ((h * w) as real))
  }

  /** A channel whose gradient is the same everywhere totals that value once
      per cell. */
  lemma ChannelTotalUniform(grads: Tensor, h: nat, w: nat, c: nat, k: nat, g: real)
    requires IsTensor(grads, h, w, c) && k < c
    requires forall i, j :: 0 <= i < h && 0 <= j < w ==> grads[i][j][k] == g
    ensures ChannelTotal(grads, h, w, c, k) == (h * w) as real * g
  {
    var rows := seq(h, i requires 0 <= i < h => Sum(seq(w, j requires 0 <= j < w => grads[i][j][k])));
    assert Sum(rows) == h as real * (w as real * g) by {
      forall i | 0 <= i < h
        ensures rows[i] == w as real * g
      {
        SumConstant(seq(w, j requires 0 <= j < w => grads[i][j][k]), g);
      }
      SumConstant(rows, w as real * g);
    }
    assert (h * w) as real == h as real * w as real;
  }

  /** A channel whose gradient is the same everywhere pools to that value. */
  lemma PooledUniform(grads: Tensor, h: nat, w: nat, c: nat, k: nat, g: real)
    requires IsTensor(grads, h, w, c) && k < c && h * w > 0
    requires forall i, j :: 0 <= i < h && 0 <= j < w ==> grads[i][j][k] == g
    ensures PooledGrads(grads, h, w, c)[k] == g
  {
    ChannelTotalUniform(grads, h, w, c, k, g);
    var n := (h * w) as real;
    assert n > 0.0;
    assert PooledGrads(grads, h, w, c)[k] == (n * g) / n;
  }

  /** How a cell's channels are reduced: np.sum in gradcam_utils.py, np.mean
      in brain_ct_improved.py. */
  datatype Reduction = ChannelSum | ChannelMean

  /** One cell's activations after `conv_outputs[:, :, i] *= pooled_grads[i]`. */
  function Weigh(v: seq<real>, pooled: seq<real>): (r: seq<real>)
    requires |v| == |pooled|
    ensures |r| == |v| && forall k :: 0 <= k < |v| ==> r[k] == v[k] * pooled[k]
  {
    seq(|v|, k requires 0 <= k < |v| => v[k] * pooled[k])
  }

  function Reduce(r: Reduction, v: seq<real>): real
    requires r == ChannelMean ==> |v| > 0
  {
    match r
    case ChannelSum => Sum(v)
    case ChannelMean => Sum(v) / (|v| as real)
  }

  /** The summed weighted channels of a cell are the dot product of the
      pooled gradients with the cell's activations. */
  lemma {:induction false} WeighedSumIsDot(v: seq<real>, pooled: seq<real>)
    requires |v| == |pooled|
    ensures Sum(Weigh(v, pooled)) == Dot(pooled, v)
  {
    if v != [] {
      var n := |v|;
      var front, shorter := Weigh(v, pooled)[..n - 1], Weigh(v[..n - 1], pooled[..n - 1]);
      forall k | 0 <= k < n - 1
        ensures front[k] == shorter[k]
      {
        assert v[..n - 1][k] == v[k] && pooled[..n - 1][k] == pooled[k];
      }
      assert front == shorter;
      WeighedSumIsDot(v[..n - 1], pooled[..n - 1]);
    }
  }

  /** The map before ReLU: each cell's weighted channels, reduced. */
  function RawMap(a: Tensor, h: nat, w: nat, pooled: seq<real>, r: Reduction): (g: Grid)
    requires IsTensor(a, h, w, |pooled|)
    requires r == ChannelMean ==> |pooled| > 0
    ensures IsGrid(g, h, w)
  {
    seq(h, i requires 0 <= i < h =>
      seq(w, j requires 0 <= j < w => Reduce(r, Weigh(a[i][j], pooled))))
  }

  /** With the sum, each cell is the sum over channels c of pooled[c] * A[c]. */
  lemma CamCellIsDot(a: Tensor, h: nat, w: nat, pooled: seq<real>, i: nat, j: nat)
    requires IsTensor(a, h, w, |pooled|) && i < h && j < w
    ensures RawMap(a, h, w, pooled, ChannelSum)[i][j] == Dot(pooled, a[i][j])
  {
    WeighedSumIsDot(a[i][j], pooled);
  }

  /** np.maximum(x, 0) */
  function Relu(x: real): real
  {
    if x > 0.0 then x else 0.0
  }

  function Relued(g: Grid, h: nat, w: nat): (r: Grid)
    requires IsGrid(g, h, w)
    ensures IsGrid(r, h, w)
  {
    seq(h, i requires 0 <= i < h => seq(w, j requires 0 <= j < w => Relu(g[i][j])))
  }

  function RowMax(row: seq<real>): (m: real)
    requires |row| > 0
    ensures forall j :: 0 <= j < |row| ==> row[j] <= m
    ensures exists j :: 0 <= j < |row| && row[j] == m
  {
    if |row| == 1 then row[0]
    else
      var init := RowMax(row[..|row| - 1]);
      assert forall j :: 0 <= j < |row| - 1 ==> row[..|row| - 1][j] == row[j];
      if row[|row| - 1] > init then row[|row| - 1] else init
  }

  /** heatmap.max() of a map with at least one cell: the largest value, and
      one the map holds. */
  function GridMax(g: Grid, h: nat, w: nat): (m: real)
    requires IsGrid(g, h, w) && h > 0 && w > 0
    ensures forall i, j :: 0 <= i < h && 0 <= j < w ==> g[i][j] <= m
    ensures exists i, j :: 0 <= i < h && 0 <= j < w && g[i][j] == m
  {
    var last := RowMax(g[h - 1]);
    if h == 1 then last
    else
      var init := GridMax(g[..h - 1], h - 1, w);
      assert forall i :: 0 <= i < h - 1 ==> g[..h - 1][i] == g[i];
      if last > init then last else init
  }

  /** A value the map holds and no cell exceeds is its maximum. */
  lemma GridMaxUnique(g: Grid, h: nat, w: nat, m: real)
    requires IsGrid(g, h, w) && h > 0 && w > 0
    requires forall i, j :: 0 <= i < h && 0 <= j < w ==> g[i][j] <= m
    requires exists i, j :: 0 <= i < h && 0 <= j < w && g[i][j] == m
    ensures GridMax(g, h, w) == m
  {
  }

  /** `if heatmap.max() > 0: heatmap /= heatmap.max()` */
  function Normalized(g: Grid, h: nat, w: nat): (r: Grid)
    requires IsGrid(g, h, w) && h > 0 && w > 0
    ensures IsGrid(r, h, w)
  {
    var m := GridMax(g, h, w);
    if m > 0.0 then seq(h, i requires 0 <= i < h => seq(w, j requires 0 <= j < w => g[i][j] / m))
    else g
  }

  /** The Grad-CAM heatmap of activations `a` and pooled gradients `pooled`. */
  function Heatmap(a: Tensor, h: nat, w: nat, pooled: seq<real>, r: Reduction): (g: Grid)
    requires IsTensor(a, h, w, |pooled|) && h > 0 && w > 0
    requires r == ChannelMean ==> |pooled| > 0
    ensures IsGrid(g, h, w)
  {
    Normalized(Relued(RawMap(a, h, w, pooled, r), h, w), h, w)
  }

  lemma RatioInUnitRange(x: real, m: real)
    requires m > 0.0 && 0.0 <= x <= m
    ensures 0.0 <= x / m <= 1.0
    ensures x == m ==> x / m == 1.0
  {
  }

  /** Dividing a rectified map by its maximum when that is positive leaves
      every value in [0, 1] and the maximum at 1; an all-zero map stays all
      zero. */
  lemma NormalizedInUnitRange(g: Grid, h: nat, w: nat)
    requires IsGrid(g, h, w) && h > 0 && w > 0
    requires forall i, j :: 0 <= i < h && 0 <= j < w ==> g[i][j] >= 0.0
    ensures forall i, j :: 0 <= i < h && 0 <= j < w ==> 0.0 <= Normalized(g, h, w)[i][j] <= 1.0
    ensures (exists i, j :: 0 <= i < h && 0 <= j < w && g[i][j] > 0.0) ==>
      exists i, j :: 0 <= i < h && 0 <= j < w && Normalized(g, h, w)[i][j] == 1.0
    ensures (forall i, j :: 0 <= i < h && 0 <= j < w ==> g[i][j] == 0.0) ==> Normalized(g, h, w) == g
  {
    var m := GridMax(g, h, w);
    var n := Normalized(g, h, w);
    var i0, j0 :| 0 <= i0 < h && 0 <= j0 < w && g[i0][j0] == m;
    if m > 0.0 {
      forall i, j | 0 <= i < h && 0 <= j < w
        ensures 0.0 <= n[i][j] <= 1.0
      {
        assert n[i][j] == g[i][j] / m;
        RatioInUnitRange(g[i][j], m);
      }
      assert n[i0][j0] == g[i0][j0] / m;
      RatioInUnitRange(g[i0][j0], m);
    } else {
      forall i, j | 0 <= i < h && 0 <= j < w
        ensures 0.0 <= n[i][j] <= 1.0
      {
        assert g[i][j] <= m;
      }
    }
  }

  /** Every heatmap value lies in [0, 1]. When some cell's reduced weighted
      activation is positive the maximum becomes exactly 1; otherwise the map
      is all zero and nothing was divided. */
  lemma HeatmapInUnitRange(a: Tensor, h: nat, w: nat, pooled: seq<real>, r: Reduction)
    requires IsTensor(a, h, w, |pooled|) && h > 0 && w > 0
    requires r == ChannelMean ==> |pooled| > 0
    ensures forall i, j :: 0 <= i < h && 0 <= j < w ==> 0.0 <= Heatmap(a, h, w, pooled, r)[i][j] <= 1.0
    ensures (exists i, j :: 0 <= i < h && 0 <= j < w && RawMap(a, h, w, pooled, r)[i][j] > 0.0) ==>
      exists i, j :: 0 <= i < h && 0 <= j < w && Heatmap(a, h, w, pooled, r)[i][j] == 1.0
    ensures (forall i, j :: 0 <= i < h && 0 <= j < w ==> RawMap(a, h, w, pooled, r)[i][j] <= 0.0) ==>
      forall i, j :: 0 <= i < h && 0 <= j < w ==> Heatmap(a, h, w, pooled, r)[i][j] == 0.0
  {
    var raw := RawMap(a, h, w, pooled, r);
    var rl := Relued(raw, h, w);
    assert Heatmap(a, h, w, pooled, r) == Normalized(rl, h, w);
    NormalizedInUnitRange(rl, h, w);
    if exists i, j :: 0 <= i < h && 0 <= j < w && raw[i][j] > 0.0 {
      var i, j :| 0 <= i < h && 0 <= j < w && raw[i][j] > 0.0;
      assert rl[i][j] > 0.0;
    }
    if forall i, j :: 0 <= i < h && 0 <= j < w ==> raw[i][j] <= 0.0 {
      forall i, j | 0 <= i < h && 0 <= j < w
        ensures rl[i][j] == 0.0
      {
      }
    }
  }

  /** The mean of the channels is their sum divided by the channel count, and
      dividing by the maximum cancels that factor: once normalised, the two
      files' heatmaps coincide. */
  lemma MeanAndSumAgree(a: Tensor, h: nat, w: nat, pooled: seq<real>)
    requires IsTensor(a, h, w, |pooled|) && h > 0 && w > 0 && |pooled| > 0
    ensures Heatmap(a, h, w, pooled, ChannelMean) == Heatmap(a, h, w, pooled, ChannelSum)
  {
    var c := |pooled| as real;
    var rs := Relued(RawMap(a, h, w, pooled, ChannelSum), h, w);
    var rm := Relued(RawMap(a, h, w, pooled, ChannelMean), h, w);
    forall i, j | 0 <= i < h && 0 <= j < w
      ensures rm[i][j] == rs[i][j] / c
    {
      var x := Sum(Weigh(a[i][j], pooled));
      assert rm[i][j] == Relu(x / c) && rs[i][j] == Relu(x);
      ReluScale(x, c);
    }
    assert forall i, j :: 0 <= i < h && 0 <= j < w ==> rs[i][j] >= 0.0;
    ScaledMapsNormalizeAlike(rs, rm, h, w, c);
  }

  /** Dividing every cell by a positive constant divides the maximum by it. */
  lemma GridMaxScaled(g: Grid, k: Grid, h: nat, w: nat, c: real)
    requires IsGrid(g, h, w) && IsGrid(k, h, w) && h > 0 && w > 0 && c > 0.0
    requires forall i, j :: 0 <= i < h && 0 <= j < w ==> k[i][j] == g[i][j] / c
    ensures GridMax(k, h, w) == GridMax(g, h, w) / c
  {
    var m := GridMax(g, h, w);
    var i0, j0 :| 0 <= i0 < h && 0 <= j0 < w && g[i0][j0] == m;
    assert k[i0][j0] == m / c;
    forall i, j | 0 <= i < h && 0 <= j < w
      ensures k[i][j] <= m / c
    {
      DivideMonotone(g[i][j], m, c);
    }
    GridMaxUnique(k, h, w, m / c);
  }

  lemma ScaledPositiveMapsNormalizeAlike(g: Grid, k: Grid, h: nat, w: nat, c: real)
    requires IsGrid(g, h, w) && IsGrid(k, h, w) && h > 0 && w > 0 && c > 0.0
    requires forall i, j :: 0 <= i < h && 0 <= j < w ==> k[i][j] == g[i][j] / c
    requires GridMax(g, h, w) > 0.0
    ensures Normalized(k, h, w) == Normalized(g, h, w)
  {
    var m := GridMax(g, h, w);
    GridMaxScaled(g, k, h, w, c);
    CancelFactor(0.0, m, c);
    var nk := Normalized(k, h, w);
    var ng := Normalized(g, h, w);
    forall i, j | 0 <= i < h && 0 <= j < w
      ensures nk[i][j] == ng[i][j]
    {
      assert nk[i][j] == k[i][j] / (m / c);
      assert ng[i][j] == g[i][j] / m;
      CancelFactor(g[i][j], m, c);
    }
    GridExtensional(nk, ng, h, w);
  }

  /** A non-negative map whose maximum is not positive is all zeros, so
      dividing it changes nothing. */
  lemma ScaledZeroMapUnchanged(g: Grid, k: Grid, h: nat, w: nat, c: real)
    requires IsGrid(g, h, w) && IsGrid(k, h, w) && h > 0 && w > 0 && c > 0.0
    requires forall i, j :: 0 <= i < h && 0 <= j < w ==> g[i][j] >= 0.0
    requires forall i, j :: 0 <= i < h && 0 <= j < w ==> k[i][j] == g[i][j] / c
    requires GridMax(g, h, w) <= 0.0
    ensures k == g
  {
    var m := GridMax(g, h, w);
    forall i, j | 0 <= i < h && 0 <= j < w
      ensures g[i][j] == 0.0
    {
      assert g[i][j] <= m;
    }
    GridExtensional(k, g, h, w);
  }

  /** A rectified map divided cell by cell by a positive constant normalises
      to the same map. */
  lemma ScaledMapsNormalizeAlike(g: Grid, k: Grid, h: nat, w: nat, c: real)
    requires IsGrid(g, h, w) && IsGrid(k, h, w) && h > 0 && w > 0 && c > 0.0
    requires forall i, j :: 0 <= i < h && 0 <= j < w ==> g[i][j] >= 0.0
    requires forall i, j :: 0 <= i < h && 0 <= j < w ==> k[i][j] == g[i][j] / c
    ensures Normalized(k, h, w) == Normalized(g, h, w)
  {
    if GridMax(g, h, w) > 0.0 {
      ScaledPositiveMapsNormalizeAlike(g, k, h, w, c);
    } else {
      ScaledZeroMapUnchanged(g, k, h, w, c);
    }
  }

  lemma ReluScale(x: real, c: real)
    requires c > 0.0
    ensures Relu(x / c) == Relu(x) / c
  {
  }

  lemma DivideMonotone(x: real, y: real, c: real)
    requires c > 0.0 && x <= y
    ensures x / c <= y / c
  {
  }

  lemma CancelFactor(x: real, m: real, c: real)
    requires c > 0.0 && m > 0.0
    ensures m / c > 0.0
    ensures (x / c) / (m / c) == x / m
  {
  }

  /** Two maps of one shape that agree cell by cell are equal. */
  lemma GridExtensional(g: Grid, k: Grid, h: nat, w: nat)
    requires IsGrid(g, h, w) && IsGrid(k, h, w)
    requires forall i, j :: 0 <= i < h && 0 <= j < w ==> g[i][j] == k[i][j]
    ensures g == k
  {
    forall i | 0 <= i < h
      ensures g[i] == k[i]
    {
    }
  }

  /** The activations of a conv output array as a value. */
  function TensorOf(conv: array3<real>): (t: Tensor)
    reads conv
    ensures IsTensor(t, conv.Length0, conv.Length1, conv.Length2)
  {
    seq(conv.Length0, i requires 0 <= i < conv.Length0 reads conv =>
      seq(conv.Length1, j requires 0 <= j < conv.Length1 reads conv =>
        seq(conv.Length2, k requires 0 <= k < conv.Length2 reads conv => conv[i, j, k])))
  }

  /** `for i in range(len(pooled_grads)): conv_outputs[:, :, i] *=
      pooled_grads[i]`: each channel of every cell is scaled in place by its
      pooled gradient. */
  method WeighChannels(conv: array3<real>, pooled: seq<real>)
    requires conv.Length2 == |pooled|
    modifies conv
    ensures forall i, j, k :: 0 <= i < conv.Length0 && 0 <= j < conv.Length1 && 0 <= k < conv.Length2 ==>
      conv[i, j, k] == old(conv[i, j, k]) * pooled[k]
  {
    for k := 0 to |pooled|
      invariant forall i, j, l :: 0 <= i < conv.Length0 && 0 <= j < conv.Length1 && 0 <= l < k ==>
        conv[i, j, l] == old(conv[i, j, l]) * pooled[l]
      invariant forall i, j, l :: 0 <= i < conv.Length0 && 0 <= j < conv.Length1 && k <= l < conv.Length2 ==>
        conv[i, j, l] == old(conv[i, j, l])
    {
      forall i, j | 0 <= i < conv.Length0 && 0 <= j < conv.Length1 {
        conv[i, j, k] := conv[i, j, k] * pooled[k];
      }
    }
  }

  /** The channels of cell (i, j) of a conv output array. */
  function CellOf(conv: array3<real>, i: nat, j: nat): (v: seq<real>)
    requires i < conv.Length0 && j < conv.Length1
    reads conv
    ensures |v| == conv.Length2
  {
    seq(conv.Length2, k requires 0 <= k < conv.Length2 reads conv => conv[i, j, k])
  }

  /** A heatmap array as a value. */
  function GridOf(heat: array2<real>): (g: Grid)
    reads heat
    ensures IsGrid(g, heat.Length0, heat.Length1)
  {
    seq(heat.Length0, i requires 0 <= i < heat.Length0 reads heat =>
      seq(heat.Length1, j requires 0 <= j < heat.Length1 reads heat => heat[i, j]))
  }

  /** np.maximum(np.sum(conv, axis=-1), 0), or with np.mean: a new map. */
  method RectifiedMap(conv: array3<real>, r: Reduction) returns (heat: array2<real>)
    requires r == ChannelMean ==> conv.Length2 > 0
    ensures fresh(heat) && heat.Length0 == conv.Length0 && heat.Length1 == conv.Length1
    ensures forall i, j :: 0 <= i < conv.Length0 && 0 <= j < conv.Length1 ==>
      heat[i, j] == Relu(Reduce(r, CellOf(conv, i, j)))
  {
    heat := new real[conv.Length0, conv.Length1];
    forall i, j | 0 <= i < conv.Length0 && 0 <= j < conv.Length1 {
      heat[i, j] := Relu(Reduce(r, CellOf(conv, i, j)));
    }
  }

  /** `if heatmap.max() > 0: heatmap /= heatmap.max()`, in place. */
  method DivideByMax(heat: array2<real>)
    requires heat.Length0 > 0 && heat.Length1 > 0
    modifies heat
    ensures GridOf(heat) == Normalized(old(GridOf(heat)), heat.Length0, heat.Length1)
  {
    ghost var g := GridOf(heat);
    var m := GridMax(GridOf(heat), heat.Length0, heat.Length1);
    if m > 0.0 {
      forall i, j | 0 <= i < heat.Length0 && 0 <= j < heat.Length1 {
        heat[i, j] := heat[i, j] / m;
      }
    }
    GridExtensional(GridOf(heat), Normalized(g, heat.Length0, heat.Length1), heat.Length0, heat.Length1);
  }

  /** After the channels were weighted in place, the rectified map of the
      array is the rectified map of the original activations. */
  lemma RectifiedIsRelued(conv: array3<real>, a: Tensor, pooled: seq<real>, heat: array2<real>, r: Reduction)
    requires IsTensor(a, conv.Length0, conv.Length1, conv.Length2) && |pooled| == conv.Length2
    requires r == ChannelMean ==> conv.Length2 > 0
    requires heat.Length0 == conv.Length0 && heat.Length1 == conv.Length1
    requires forall i, j, k :: 0 <= i < conv.Length0 && 0 <= j < conv.Length1 && 0 <= k < conv.Length2 ==>
      conv[i, j, k] == a[i][j][k] * pooled[k]
    requires forall i, j :: 0 <= i < conv.Length0 && 0 <= j < conv.Length1 ==>
      heat[i, j] == Relu(Reduce(r, CellOf(conv, i, j)))
    ensures GridOf(heat) == Relued(RawMap(a, conv.Length0, conv.Length1, pooled, r), conv.Length0, conv.Length1)
  {
    var h, w, c := conv.Length0, conv.Length1, conv.Length2;
    var rl := Relued(RawMap(a, h, w, pooled, r), h, w);
    forall i, j | 0 <= i < h && 0 <= j < w
      ensures heat[i, j] == rl[i][j]
    {
      forall k | 0 <= k < c
        ensures CellOf(conv, i, j)[k] == Weigh(a[i][j], pooled)[k]
      {
      }
      assert CellOf(conv, i, j) == Weigh(a[i][j], pooled);
    }
    GridExtensional(GridOf(heat), rl, h, w);
  }

  /** The post-gradient part of generate_heatmap: `conv` holds the conv layer
      outputs and `grads` their gradients. The channels are weighted in place;
      the reduced map is then rectified and divided in place by its maximum
      when that is positive. heatmap.max() of a map without cells raises,
      which is the Failure here. */
  method GenerateHeatmap(conv: array3<real>, grads: Tensor, r: Reduction) returns (res: Result<array2<real>, string>)
    requires IsTensor(grads, conv.Length0, conv.Length1, conv.Length2)
    requires r == ChannelMean ==> conv.Length2 > 0
    modifies conv
    ensures res.Success? <==> conv.Length0 > 0 && conv.Length1 > 0
    ensures res.Success? ==>
      && fresh(res.value)
      && res.value.Length0 == conv.Length0 && res.value.Length1 == conv.Length1
      && GridOf(res.value) == Heatmap(old(TensorOf(conv)), conv.Length0, conv.Length1,
                                      PooledGrads(grads, conv.Length0, conv.Length1, conv.Length2), r)
  {
    var h, w, c := conv.Length0, conv.Length1, conv.Length2;
    var pooled := PooledGrads(grads, h, w, c);
    ghost var a := TensorOf(conv);
    WeighChannels(conv, pooled);
    if h == 0 || w == 0 {
      return Failure("zero-size array to reduction operation maximum which has no identity");
    }
    var heat := RectifiedMap(conv, r);
    RectifiedIsRelued(conv, a, pooled, heat, r);
    DivideByMax(heat);
    return Success(heat);
  }

  /** A cell of the map: (row, column). */
  type Cell = (nat, nat)

  /** The cells of one row at or above `t`, left to right. */
  function HotInRow(row: seq<real>, y: nat, t: real): (cs: seq<Cell>)
    ensures forall k :: 0 <= k < |cs| ==> cs[k].0 == y && cs[k].1 < |row| && row[cs[k].1] >= t
  {
    if row == [] then []
    else
      var init := HotInRow(row[..|row| - 1], y, t);
      assert forall x :: 0 <= x < |row| - 1 ==> row[..|row| - 1][x] == row[x];
      if row[|row| - 1] >= t then init + [(y, |row| - 1)] else init
  }

  /** np.where(heatmap >= t): the cells at or above `t` in row-major order.
      Every listed cell is inside the map and hot; HotCellsComplete shows
      that every hot cell is listed. */
  function HotCells(g: Grid, t: real): (cs: seq<Cell>)
    ensures forall k :: 0 <= k < |cs| ==> cs[k].0 < |g| && cs[k].1 < |g[cs[k].0]| && g[cs[k].0][cs[k].1] >= t
  {
    if g == [] then []
    else
      var init := HotCells(g[..|g| - 1], t);
      assert forall y :: 0 <= y < |g| - 1 ==> g[..|g| - 1][y] == g[y];
      init + HotInRow(g[|g| - 1], |g| - 1, t)
  }

  lemma {:induction false} HotInRowComplete(row: seq<real>, y: nat, t: real, x: nat)
    requires x < |row| && row[x] >= t
    ensures (y, x) in HotInRow(row, y, t)
  {
    if x < |row| - 1 {
      assert row[..|row| - 1][x] == row[x];
      HotInRowComplete(row[..|row| - 1], y, t, x);
    }
  }

  /** Every cell at or above `t` is among the hot cells. */
  lemma {:induction false} HotCellsComplete(g: Grid, t: real, y: nat, x: nat)
    requires y < |g| && x < |g[y]| && g[y][x] >= t
    ensures (y, x) in HotCells(g, t)
  {
    if y == |g| - 1 {
      HotInRowComplete(g[y], y, t, x);
    } else {
      assert g[..|g| - 1][y] == g[y];
      HotCellsComplete(g[..|g| - 1], t, y, x);
    }
  }

  function Rows(cs: seq<Cell>): (r: seq<real>)
    ensures |r| == |cs|
  {
    seq(|cs|, k requires 0 <= k < |cs| => cs[k].0 as real)
  }

  function Cols(cs: seq<Cell>): (r: seq<real>)
    ensures |r| == |cs|
  {
    seq(|cs|, k requires 0 <= k < |cs| => cs[k].1 as real)
  }

  /** A sum of terms below `hi` and at least 0 is bounded by their number
      times those bounds. */
  lemma {:induction false} SumBetween(s: seq<real>, hi: real)
    requires forall k :: 0 <= k < |s| ==> 0.0 <= s[k] <= hi
    ensures 0.0 <= Sum(s) <= |s| as real * hi
  {
    if s != [] {
      SumBetween(s[..|s| - 1], hi);
    }
  }

  /** int(np.mean(coords)) for non-negative coordinates: the mean truncated,
      which is its floor. */
  function TruncatedMean(s: seq<real>): int
    requires |s| > 0
  {
    (Sum(s) / (|s| as real)).Floor
  }

  lemma TruncatedMeanInside(s: seq<real>, n: nat)
    requires |s| > 0 && n > 0
    requires forall k :: 0 <= k < |s| ==> 0.0 <= s[k] <= (n - 1) as real
    ensures 0 <= TruncatedMean(s) < n
  {
    SumBetween(s, (n - 1) as real);
    var mean := Sum(s) / (|s| as real);
    assert 0.0 <= mean <= (n - 1) as real;
  }

  /** A sum of terms between `lo` and `hi` lies between their number times
      those bounds. */
  lemma {:induction false} SumBounds(s: seq<real>, lo: real, hi: real)
    requires forall k :: 0 <= k < |s| ==> lo <= s[k] <= hi
    ensures |s| as real * lo <= Sum(s) <= |s| as real * hi
  {
    if s != [] {
      SumBounds(s[..|s| - 1], lo, hi);
    }
  }

  /** The truncated mean of terms between two whole numbers lies between
      them too. */
  lemma TruncatedMeanBetween(s: seq<real>, lo: int, hi: int)
    requires |s| > 0
    requires forall k :: 0 <= k < |s| ==> lo as real <= s[k] <= hi as real
    ensures lo <= TruncatedMean(s) <= hi
  {
    SumBounds(s, lo as real, hi as real);
    var mean := Sum(s) / (|s| as real);
    assert lo as real <= mean <= hi as real;
  }

  /** The position of a least and of a greatest term. */
  function ArgMin(s: seq<real>): (k: nat)
    requires |s| > 0
    ensures k < |s| && forall j :: 0 <= j < |s| ==> s[k] <= s[j]
  {
    if |s| == 1 then 0
    else
      var k := ArgMin(s[..|s| - 1]);
      assert forall j :: 0 <= j < |s| - 1 ==> s[..|s| - 1][j] == s[j];
      if s[|s| - 1] < s[k] then |s| - 1 else k
  }

  function ArgMax(s: seq<real>): (k: nat)
    requires |s| > 0
    ensures k < |s| && forall j :: 0 <= j < |s| ==> s[j] <= s[k]
  {
    if |s| == 1 then 0
    else
      var k := ArgMax(s[..|s| - 1]);
      assert forall j :: 0 <= j < |s| - 1 ==> s[..|s| - 1][j] == s[j];
      if s[|s| - 1] > s[k] then |s| - 1 else k
  }

  /** Cells that all lie in one column third have their truncated mean
      column in that third, and likewise for rows: each third is a range of
      whole numbers, and the truncated mean lies between the least and the
      greatest coordinate. */
  lemma CentroidInThird(cs: seq<Cell>, h: nat, w: nat, lr: Horizontal, tb: Vertical)
    requires |cs| > 0
    requires forall k :: 0 <= k < |cs| ==> ColumnOf(cs[k].1, w) == lr && RowOf(cs[k].0, h) == tb
    ensures CentroidOf(cs).Some?
    ensures ColumnOf(CentroidOf(cs).value.1, w) == lr && RowOf(CentroidOf(cs).value.0, h) == tb
  {
    var cols, rows := Cols(cs), Rows(cs);
    var a, b := ArgMin(cols), ArgMax(cols);
    TruncatedMeanBetween(cols, cs[a].1, cs[b].1);
    assert ColumnOf(cs[a].1, w) == lr && ColumnOf(cs[b].1, w) == lr;
    var c, d := ArgMin(rows), ArgMax(rows);
    TruncatedMeanBetween(rows, cs[c].0, cs[d].0);
    assert RowOf(cs[c].0, h) == tb && RowOf(cs[d].0, h) == tb;
  }

  /** The centroid of the cells at or above 70% of the maximum, as
      (center_y, center_x); None when no cell is that hot, where the source
      falls back to "전체 영역". */
  function HotCentroid(g: Grid, h: nat, w: nat): (c: Option<(int, int)>)
    requires IsGrid(g, h, w) && h > 0 && w > 0
  {
    CentroidOf(HotCells(g, 0.7 * GridMax(g, h, w)))
  }

  /** (int(np.mean(y_coords)), int(np.mean(x_coords))) when there are cells. */
  function CentroidOf(cs: seq<Cell>): Option<(int, int)>
  {
    if |cs| > 0 then Some((TruncatedMean(Rows(cs)), TruncatedMean(Cols(cs)))) else None
  }

  /** A rectified map (every value at least 0, as every heatmap is) always has
      a hot cell: its maximum is one. So the fallback never happens, and the
      truncated centroid lies inside the map. */
  lemma HotCentroidInside(g: Grid, h: nat, w: nat)
    requires IsGrid(g, h, w) && h > 0 && w > 0
    requires forall i, j :: 0 <= i < h && 0 <= j < w ==> g[i][j] >= 0.0
    ensures HotCentroid(g, h, w).Some?
    ensures 0 <= HotCentroid(g, h, w).value.0 < h && 0 <= HotCentroid(g, h, w).value.1 < w
  {
    var t := 0.7 * GridMax(g, h, w);
    assert |HotCells(g, t)| > 0 by {
      HotCellsNonEmpty(g, h, w);
    }
    HotCellsCentroidInside(g, h, w, t);
  }

  /** The same for any threshold that some cell reaches. */
  lemma HotCellsCentroidInside(g: Grid, h: nat, w: nat, t: real)
    requires IsGrid(g, h, w) && h > 0 && w > 0
    requires |HotCells(g, t)| > 0
    ensures CentroidOf(HotCells(g, t)).Some?
    ensures 0 <= CentroidOf(HotCells(g, t)).value.0 < h && 0 <= CentroidOf(HotCells(g, t)).value.1 < w
  {
    HotCellsInside(g, h, w, t);
    CentroidInside(HotCells(g, t), h, w);
  }

  lemma HotCellsNonEmpty(g: Grid, h: nat, w: nat)
    requires IsGrid(g, h, w) && h > 0 && w > 0
    requires forall i, j :: 0 <= i < h && 0 <= j < w ==> g[i][j] >= 0.0
    ensures |HotCells(g, 0.7 * GridMax(g, h, w))| > 0
  {
    var m := GridMax(g, h, w);
    var i0, j0 :| 0 <= i0 < h && 0 <= j0 < w && g[i0][j0] == m;
    HotCellsComplete(g, 0.7 * m, i0, j0);
  }

  lemma CentroidInside(cs: seq<Cell>, h: nat, w: nat)
    requires |cs| > 0 && h > 0 && w > 0
    requires forall k :: 0 <= k < |cs| ==> 0.0 <= Rows(cs)[k] <= (h - 1) as real
    requires forall k :: 0 <= k < |cs| ==> 0.0 <= Cols(cs)[k] <= (w - 1) as real
    ensures CentroidOf(cs).Some?
    ensures 0 <= CentroidOf(cs).value.0 < h && 0 <= CentroidOf(cs).value.1 < w
  {
    TruncatedMeanInside(Rows(cs), h);
    TruncatedMeanInside(Cols(cs), w);
  }

  /** The hot cells' coordinates lie inside the map. */
  lemma HotCellsInside(g: Grid, h: nat, w: nat, t: real)
    requires IsGrid(g, h, w)
    ensures forall k :: 0 <= k < |HotCells(g, t)| ==> 0.0 <= Rows(HotCells(g, t))[k] <= (h - 1) as real
    ensures forall k :: 0 <= k < |HotCells(g, t)| ==> 0.0 <= Cols(HotCells(g, t))[k] <= (w - 1) as real
  {
    var cs := HotCells(g, t);
    forall k | 0 <= k < |cs|
      ensures 0.0 <= Rows(cs)[k] <= (h - 1) as real && 0.0 <= Cols(cs)[k] <= (w - 1) as real
    {
      assert cs[k].0 < h && cs[k].1 < |g[cs[k].0]|;
    }
  }

  /** Every cell at or above `t` lies in column third `lr` and row third
      `tb`. */
  predicate HeatInThirds(g: Grid, h: nat, w: nat, t: real, lr: Horizontal, tb: Vertical)
    requires IsGrid(g, h, w)
  {
    forall i, j :: 0 <= i < h && 0 <= j < w && g[i][j] >= t ==> ColumnOf(j, w) == lr && RowOf(i, h) == tb
  }

  /** When every cell at or above 70% of the maximum lies in one column third
      and one row third, the hot centroid lies in those thirds: the region
      reported is where the heat is. */
  lemma HotCentroidInThird(g: Grid, h: nat, w: nat, lr: Horizontal, tb: Vertical)
    requires IsGrid(g, h, w) && h > 0 && w > 0
    requires forall i, j :: 0 <= i < h && 0 <= j < w ==> g[i][j] >= 0.0
    requires HeatInThirds(g, h, w, 0.7 * GridMax(g, h, w), lr, tb)
    ensures HotCentroid(g, h, w).Some?
    ensures ColumnOf(HotCentroid(g, h, w).value.1, w) == lr
    ensures RowOf(HotCentroid(g, h, w).value.0, h) == tb
  {
    var t := 0.7 * GridMax(g, h, w);
    assert |HotCells(g, t)| > 0 by {
      HotCellsNonEmpty(g, h, w);
    }
    HotCellsCentroidInThird(g, h, w, t, lr, tb);
  }

  /** The same for any threshold that some cell reaches. */
  lemma HotCellsCentroidInThird(g: Grid, h: nat, w: nat, t: real, lr: Horizontal, tb: Vertical)
    requires IsGrid(g, h, w)
    requires |HotCells(g, t)| > 0
    requires HeatInThirds(g, h, w, t, lr, tb)
    ensures CentroidOf(HotCells(g, t)).Some?
    ensures ColumnOf(CentroidOf(HotCells(g, t)).value.1, w) == lr
    ensures RowOf(CentroidOf(HotCells(g, t)).value.0, h) == tb
  {
    var cs := HotCells(g, t);
    forall k | 0 <= k < |cs|
      ensures ColumnOf(cs[k].1, w) == lr && RowOf(cs[k].0, h) == tb
    {
      assert cs[k].0 < h && cs[k].1 < |g[cs[k].0]|;
    }
    CentroidInThird(cs, h, w, lr, tb);
  }

  /** An all-negative map (one that skipped ReLU) has no hot cell. */
  lemma NegativeMapHasNoHotCell(g: Grid, h: nat, w: nat)
    requires IsGrid(g, h, w) && h > 0 && w > 0
    requires forall i, j :: 0 <= i < h && 0 <= j < w ==> g[i][j] < 0.0
    ensures HotCentroid(g, h, w) == None
  {
  }

  /** The column third of x in a map `width` wide, and the row third of y. */
  datatype Horizontal = Left | Center | Right
  datatype Vertical = Upper | Middle | Lower

  /** `x < w / 3` is left, `x > 2 * (w / 3)` is right, anything else (the
      boundaries included) is the center. */
  function ColumnOf(x: int, width: nat): (lr: Horizontal)
    ensures lr == Left <==> 3 * x < width
    ensures lr == Right <==> 3 * x > 2 * width
    ensures lr == Center <==> width <= 3 * x <= 2 * width
  {
    var third := width as real / 3.0;
    if (x as real) < third then Left
    else if (x as real) > 2.0 * third then Right
    else Center
  }

  function RowOf(y: int, height: nat): (tb: Vertical)
    ensures tb == Upper <==> 3 * y < height
    ensures tb == Lower <==> 3 * y > 2 * height
    ensures tb == Middle <==> height <= 3 * y <= 2 * height
  {
    var third := height as real / 3.0;
    if (y as real) < third then Upper
    else if (y as real) > 2.0 * third then Lower
    else Middle
  }

  /** The words both files use for the thirds. */
  function HorizontalName(lr: Horizontal): string
  {
    match lr
    case Left => "좌측"
    case Center => "중앙"
    case Right => "우측"
  }

  function VerticalName(tb: Vertical): string
  {
    match tb
    case Upper => "상부"
    case Middle => "중간부"
    case Lower => "하부"
  }

  function HorizontalRank(lr: Horizontal): nat
  {
    match lr
    case Left => 0
    case Center => 1
    case Right => 2
  }

  function VerticalRank(tb: Vertical): nat
  {
    match tb
    case Upper => 0
    case Middle => 1
    case Lower => 2
  }

  /** Moving right (down) never moves to a third further left (up). */
  lemma ThirdsMonotone(x1: int, x2: int, size: nat)
    requires x1 <= x2
    ensures HorizontalRank(ColumnOf(x1, size)) <= HorizontalRank(ColumnOf(x2, size))
    ensures VerticalRank(RowOf(x1, size)) <= VerticalRank(RowOf(x2, size))
  {
  }
}
