/**
 * The CT preprocessing rules of CTImagePreprocessor
 * (Streamlit/preprocessing_utils.py): brain-window clipping and 0-255
 * rescaling, min-max normalisation, the channel-layout decision, the size
 * validator, the order in which `preprocess` applies them, and the
 * prediction averaging of test-time augmentation.
 *
 * An image is a numpy array: a dtype, a layout (2-D, or 3-D with a channel
 * count) and rows x columns x samples of real values. The file decoders,
 * cv2.resize, the random augmentations and the network are parameters;
 * their only assumed property is the shape they return.
 */
module Preprocessing {
  import opened Wrappers
  import opened Strings
  import CamMath

  /** Only "is it uint8" matters to the rules. */
  datatype DType = UInt8 | Other

  /** A 2-D array (height, width) or a 3-D one (height, width, count). */
  datatype Layout = Planar | Channels(count: nat)

  function SampleCount(l: Layout): nat
  {
    match l
    case Planar => 1
    case Channels(c) => c
  }

  /** Rows x columns x samples per pixel. */
  type Pixels = seq<seq<seq<real>>>

  datatype Image = Image(dtype: DType, layout: Layout, height: nat, width: nat, pixels: Pixels)

  predicate Shaped(p: Pixels, h: nat, w: nat, c: nat)
  {
    && |p| == h
    && (forall i :: 0 <= i < h ==> |p[i]| == w)
    && (forall i, j :: 0 <= i < h && 0 <= j < w ==> |p[i][j]| == c)
  }

  predicate IsByte(x: real)
  {
    0.0 <= x <= 255.0 && x == x.Floor as real
  }

  predicate AllBytes(p: Pixels)
  {
    forall i, j, k :: 0 <= i < |p| && 0 <= j < |p[i]| && 0 <= k < |p[i][j]| ==> IsByte(p[i][j][k])
  }

  predicate InUnitRange(p: Pixels)
  {
    forall i, j, k :: 0 <= i < |p| && 0 <= j < |p[i]| && 0 <= k < |p[i][j]| ==> 0.0 <= p[i][j][k] <= 1.0
  }

  /** The array's samples fit its shape, and a uint8 array holds bytes. */
  predicate WellFormed(im: Image)
  {
    && Shaped(im.pixels, im.height, im.width, SampleCount(im.layout))
    && (im.dtype == UInt8 ==> AllBytes(im.pixels))
  }

  /** numpy's `size`. */
  function Size(im: Image): nat
  {
    im.height * im.width * SampleCount(im.layout)
  }

  lemma SizeZero(im: Image)
    ensures Size(im) == 0 <==> im.height == 0 || im.width == 0 || SampleCount(im.layout) == 0
  {
    if im.height > 0 && im.width > 0 && SampleCount(im.layout) > 0 {
      assert im.height * im.width > 0;
    }
  }

  /** An element-wise numpy expression. */
  function MapPixels(p: Pixels, f: real -> real): (q: Pixels)
    ensures |q| == |p|
    ensures forall i :: 0 <= i < |p| ==> |q[i]| == |p[i]|
    ensures forall i, j :: 0 <= i < |p| && 0 <= j < |p[i]| ==> |q[i][j]| == |p[i][j]|
    ensures forall i, j, k :: 0 <= i < |p| && 0 <= j < |p[i]| && 0 <= k < |p[i][j]| ==> q[i][j][k] == f(p[i][j][k])
  {
    seq(|p|, i requires 0 <= i < |p| =>
      seq(|p[i]|, j requires 0 <= j < |p[i]| =>
        seq(|p[i][j]|, k requires 0 <= k < |p[i][j]| => f(p[i][j][k]))))
  }

  // ---------------------------------------------------------------------
  // Configuration
  // ---------------------------------------------------------------------

  /** The constructor's settings; `targetSize` is handed to cv2.resize, which
      reads it as (width, height). */
  datatype Config = Config(targetSize: (nat, nat), applyWindowing: bool, windowCenter: int, windowWidth: int)

  const DefaultConfig: Config := Config((224, 224), true, 40, 80)

  /** A window narrower than 2 would divide by zero when rescaling. */
  predicate WindowUsable(cfg: Config)
  {
    cfg.applyWindowing ==> cfg.windowWidth >= 2
  }

  // ---------------------------------------------------------------------
  // Rescaling to bytes
  // ---------------------------------------------------------------------

  lemma UnitRatio(a: real, d: real)
    requires d > 0.0 && 0.0 <= a <= d
    ensures 0.0 <= a / d <= 1.0
    ensures a == d ==> a / d == 1.0
  {
  }

  lemma RatioMonotone(a: real, b: real, d: real)
    requires d > 0.0 && a <= b
    ensures a / d <= b / d
  {
  }

  /** `((v - lo) / (hi - lo) * 255).astype(np.uint8)` for lo <= v <= hi: the
      product lies in [0, 255], where the cast truncates, i.e. takes Floor. */
  function ToByteRange(v: real, lo: real, hi: real): (r: int)
    requires lo < hi && lo <= v <= hi
    ensures 0 <= r <= 255
    ensures v == lo ==> r == 0
    ensures v == hi ==> r == 255
  {
    UnitRatio(v - lo, hi - lo);
    ((v - lo) / (hi - lo) * 255.0).Floor
  }

  lemma ToByteRangeMonotone(v1: real, v2: real, lo: real, hi: real)
    requires lo < hi && lo <= v1 <= v2 <= hi
    ensures ToByteRange(v1, lo, hi) <= ToByteRange(v2, lo, hi)
  {
    RatioMonotone(v1 - lo, v2 - lo, hi - lo);
  }

  // ---------------------------------------------------------------------
  // Brain windowing
  // ---------------------------------------------------------------------

  /** `center - width // 2`; Dafny's `/` by the positive 2 floors like
      Python's `//`. */
  function WindowLow(center: int, width: int): int
  {
    center - width / 2
  }

  function WindowHigh(center: int, width: int): int
  {
    center + width / 2
  }

  /** The window is centred, at most `width` wide and loses at most one unit
      to the floor division. */
  lemma WindowBounds(center: int, width: int)
    requires width >= 0
    ensures WindowLow(center, width) <= center <= WindowHigh(center, width)
    ensures width - 1 <= WindowHigh(center, width) - WindowLow(center, width) <= width
  {
  }

  /** The default brain window is [0, 80]. */
  lemma DefaultWindow()
    ensures WindowLow(DefaultConfig.windowCenter, DefaultConfig.windowWidth) == 0
    ensures WindowHigh(DefaultConfig.windowCenter, DefaultConfig.windowWidth) == 80
  {
  }

  function Clip(v: real, lo: real, hi: real): (r: real)
    requires lo <= hi
    ensures lo <= r <= hi
    ensures lo <= v <= hi ==> r == v
  {
    if v < lo then lo else if v > hi then hi else v
  }

  /** One sample through the window: clip, then rescale to a byte. */
  function WindowSample(center: int, width: int, v: real): (r: int)
    requires width >= 2
    ensures 0 <= r <= 255
  {
    var lo := WindowLow(center, width) as real;
    var hi := WindowHigh(center, width) as real;
    ToByteRange(Clip(v, lo, hi), lo, hi)
  }

  /** Everything at or below the window's floor is black, everything at or
      above its ceiling white, and brighter tissue never gets darker. */
  lemma WindowSampleShape(center: int, width: int, v1: real, v2: real)
    requires width >= 2 && v1 <= v2
    ensures v1 <= WindowLow(center, width) as real ==> WindowSample(center, width, v1) == 0
    ensures v1 >= WindowHigh(center, width) as real ==> WindowSample(center, width, v1) == 255
    ensures WindowSample(center, width, v1) <= WindowSample(center, width, v2)
  {
    var lo := WindowLow(center, width) as real;
    var hi := WindowHigh(center, width) as real;
    ToByteRangeMonotone(Clip(v1, lo, hi), Clip(v2, lo, hi), lo, hi);
  }

  /** With the defaults, the window centre 40 becomes 127 (127.5 truncated). */
  lemma DefaultCenterIs127()
    ensures WindowSample(40, 80, 40.0) == 127
  {
    assert WindowLow(40, 80) == 0 && WindowHigh(40, 80) == 80;
    assert (40.0 - 0.0) / (80.0 - 0.0) * 255.0 == 127.5;
  }

  function AsReal(f: real -> int): real -> real
  {
    v => f(v) as real
  }

  /** apply_brain_windowing: a uint8 array of the same shape. */
  function ApplyBrainWindowing(center: int, width: int, im: Image): (r: Image)
    requires width >= 2 && WellFormed(im)
    ensures WellFormed(r) && r.dtype == UInt8
    ensures r.layout == im.layout && r.height == im.height && r.width == im.width
    ensures forall i, j, k :: 0 <= i < im.height && 0 <= j < im.width && 0 <= k < SampleCount(im.layout) ==>
              r.pixels[i][j][k] == WindowSample(center, width, im.pixels[i][j][k]) as real
  {
    var q := MapPixels(im.pixels, AsReal(v => WindowSample(center, width, v)));
    Image(UInt8, im.layout, im.height, im.width, q)
  }

  // ---------------------------------------------------------------------
  // Min-max normalisation
  // ---------------------------------------------------------------------

  /** All samples in row-major order: what image.min() and image.max() see. */
  function FlattenRow(r: seq<seq<real>>): seq<real>
  {
    if |r| == 0 then [] else FlattenRow(r[..|r| - 1]) + r[|r| - 1]
  }

  function Flatten(p: Pixels): seq<real>
  {
    if |p| == 0 then [] else Flatten(p[..|p| - 1]) + FlattenRow(p[|p| - 1])
  }

  lemma {:induction false} FlattenRowHas(r: seq<seq<real>>, j: nat, k: nat)
    requires j < |r| && k < |r[j]|
    ensures r[j][k] in FlattenRow(r)
  {
    if j < |r| - 1 {
      assert r[..|r| - 1][j] == r[j];
      FlattenRowHas(r[..|r| - 1], j, k);
    } else {
      assert r[j][k] in r[|r| - 1];
    }
  }

  lemma {:induction false} FlattenHas(p: Pixels, i: nat, j: nat, k: nat)
    requires i < |p| && j < |p[i]| && k < |p[i][j]|
    ensures p[i][j][k] in Flatten(p)
  {
    if i < |p| - 1 {
      assert p[..|p| - 1][i] == p[i];
      FlattenHas(p[..|p| - 1], i, j, k);
    } else {
      FlattenRowHas(p[i], j, k);
    }
  }

  lemma {:induction false} FlattenRowFrom(r: seq<seq<real>>, x: real)
    requires x in FlattenRow(r)
    ensures exists j, k :: 0 <= j < |r| && 0 <= k < |r[j]| && r[j][k] == x
  {
    var front := r[..|r| - 1];
    if x in FlattenRow(front) {
      FlattenRowFrom(front, x);
      var j, k :| 0 <= j < |front| && 0 <= k < |front[j]| && front[j][k] == x;
      assert r[j][k] == x;
    } else {
      var k :| 0 <= k < |r[|r| - 1]| && r[|r| - 1][k] == x;
    }
  }

  lemma {:induction false} FlattenFrom(p: Pixels, x: real)
    requires x in Flatten(p)
    ensures exists i, j, k :: 0 <= i < |p| && 0 <= j < |p[i]| && 0 <= k < |p[i][j]| && p[i][j][k] == x
  {
    var front := p[..|p| - 1];
    if x in Flatten(front) {
      FlattenFrom(front, x);
      var i, j, k :| 0 <= i < |front| && 0 <= j < |front[i]| && 0 <= k < |front[i][j]| && front[i][j][k] == x;
      assert p[i][j][k] == x;
    } else {
      FlattenRowFrom(p[|p| - 1], x);
      var j, k :| 0 <= j < |p[|p| - 1]| && 0 <= k < |p[|p| - 1][j]| && p[|p| - 1][j][k] == x;
    }
  }

  function SeqMin(s: seq<real>): (m: real)
    requires |s| > 0
    ensures forall j :: 0 <= j < |s| ==> m <= s[j]
    ensures exists j :: 0 <= j < |s| && s[j] == m
  {
    if |s| == 1 then s[0]
    else
      var init := SeqMin(s[..|s| - 1]);
      assert forall j :: 0 <= j < |s| - 1 ==> s[..|s| - 1][j] == s[j];
      if s[|s| - 1] < init then s[|s| - 1] else init
  }

  /** image.min() and image.max() of a non-empty array: bounds that some
      sample attains. */
  function SampleRange(p: Pixels): (b: (real, real))
    requires |Flatten(p)| > 0
    ensures b.0 <= b.1
    ensures forall i, j, k :: 0 <= i < |p| && 0 <= j < |p[i]| && 0 <= k < |p[i][j]| ==> b.0 <= p[i][j][k] <= b.1
    ensures exists i, j, k :: 0 <= i < |p| && 0 <= j < |p[i]| && 0 <= k < |p[i][j]| && p[i][j][k] == b.0
    ensures exists i, j, k :: 0 <= i < |p| && 0 <= j < |p[i]| && 0 <= k < |p[i][j]| && p[i][j][k] == b.1
  {
    var s := Flatten(p);
    var lo := SeqMin(s);
    var hi := CamMath.RowMax(s);
    forall i, j, k | 0 <= i < |p| && 0 <= j < |p[i]| && 0 <= k < |p[i][j]|
      ensures lo <= p[i][j][k] <= hi
    {
      FlattenHas(p, i, j, k);
    }
    FlattenFrom(p, lo);
    FlattenFrom(p, hi);
    (lo, hi)
  }

  lemma NonEmptyFlatten(im: Image)
    requires WellFormed(im) && Size(im) > 0
    ensures |Flatten(im.pixels)| > 0
  {
    SizeZero(im);
    FlattenHas(im.pixels, 0, 0, 0);
  }

  /** The error numpy raises for min() of an empty array. */
  const EmptyMinMessage: string := "zero-size array to reduction operation minimum which has no identity"

  /** The samples of an array whose values lie in [lo, hi], mapped onto
      [0, 255], or all zero when the range is a single value. */
  function Rescale(p: Pixels, lo: real, hi: real): (q: Pixels)
    requires lo <= hi
    requires forall i, j, k :: 0 <= i < |p| && 0 <= j < |p[i]| && 0 <= k < |p[i][j]| ==> lo <= p[i][j][k] <= hi
    ensures |q| == |p|
    ensures forall i :: 0 <= i < |p| ==> |q[i]| == |p[i]|
    ensures forall i, j :: 0 <= i < |p| && 0 <= j < |p[i]| ==> |q[i][j]| == |p[i][j]|
    ensures forall i, j, k :: 0 <= i < |p| && 0 <= j < |p[i]| && 0 <= k < |p[i][j]| ==>
              q[i][j][k] == if lo < hi then ToByteRange(p[i][j][k], lo, hi) as real else 0.0
    ensures AllBytes(q)
  {
    if lo == hi then MapPixels(p, _ => 0.0)
    else MapPixels(p, AsReal(v => if lo <= v <= hi then ToByteRange(v, lo, hi) else 0))
  }

  /** normalize_ct_image. */
  function NormalizeCt(im: Image): (r: Result<Image, string>)
    requires WellFormed(im)
    ensures r.Failure? <==> im.dtype != UInt8 && Size(im) == 0
    ensures r.Success? ==> WellFormed(r.value) && r.value.dtype == UInt8
    ensures r.Success? ==> r.value.layout == im.layout && r.value.height == im.height && r.value.width == im.width
  {
    if im.dtype == UInt8 then Success(im)
    else if Size(im) == 0 then Failure(EmptyMinMessage)
    else
      NonEmptyFlatten(im);
      var b := SampleRange(im.pixels);
      Success(Image(UInt8, im.layout, im.height, im.width, Rescale(im.pixels, b.0, b.1)))
  }

  predicate SampleIndex(im: Image, i: int, j: int, k: int)
  {
    0 <= i < im.height && 0 <= j < im.width && 0 <= k < SampleCount(im.layout)
  }

  /** A uint8 array is returned as it is. */
  lemma NormalizeKeepsBytes(im: Image)
    requires WellFormed(im) && im.dtype == UInt8
    ensures NormalizeCt(im) == Success(im)
  {
  }

  /** A constant non-uint8 array becomes all zeros. */
  lemma NormalizeConstant(im: Image, c: real)
    requires WellFormed(im) && im.dtype != UInt8 && Size(im) > 0
    requires forall i, j, k :: SampleIndex(im, i, j, k) ==> im.pixels[i][j][k] == c
    ensures forall i, j, k :: SampleIndex(im, i, j, k) ==> NormalizeCt(im).value.pixels[i][j][k] == 0.0
  {
    NonEmptyFlatten(im);
    var b := SampleRange(im.pixels);
    var i0, j0, k0 :| 0 <= i0 < |im.pixels| && 0 <= j0 < |im.pixels[i0]| && 0 <= k0 < |im.pixels[i0][j0]|
                       && im.pixels[i0][j0][k0] == b.0;
    var i1, j1, k1 :| 0 <= i1 < |im.pixels| && 0 <= j1 < |im.pixels[i1]| && 0 <= k1 < |im.pixels[i1][j1]|
                       && im.pixels[i1][j1][k1] == b.1;
    assert b.0 == c && b.1 == c;
  }

  /** Each sample of a non-uint8 array, rescaled between the array's
      minimum and maximum, or zero when those coincide. */
  lemma NormalizeRescales(im: Image, i: int, j: int, k: int)
    requires WellFormed(im) && im.dtype != UInt8 && Size(im) > 0 && SampleIndex(im, i, j, k)
    ensures var b := (NonEmptyFlatten(im); SampleRange(im.pixels));
            && (b.0 < b.1 ==> NormalizeCt(im).value.pixels[i][j][k] == ToByteRange(im.pixels[i][j][k], b.0, b.1) as real)
            && (b.0 == b.1 ==> NormalizeCt(im).value.pixels[i][j][k] == 0.0)
  {
    NonEmptyFlatten(im);
  }

  /** A non-uint8 array with two different samples has a minimum below its
      maximum. */
  lemma NonConstantRange(im: Image, i: int, j: int, k: int)
    requires WellFormed(im) && im.dtype != UInt8 && Size(im) > 0
    requires SampleIndex(im, i, j, k) && im.pixels[i][j][k] != im.pixels[0][0][0]
    ensures var b := (NonEmptyFlatten(im); SampleRange(im.pixels)); b.0 < b.1
  {
    SizeZero(im);
    NonEmptyFlatten(im);
    var b := SampleRange(im.pixels);
    assert b.0 <= im.pixels[0][0][0] <= b.1;
  }

  /** A non-constant non-uint8 array is stretched onto [0, 255]: its
      minimum becomes 0 and its maximum 255. */
  lemma NormalizeStretches(im: Image, i: int, j: int, k: int)
    requires WellFormed(im) && im.dtype != UInt8 && Size(im) > 0
    requires SampleIndex(im, i, j, k) && im.pixels[i][j][k] != im.pixels[0][0][0]
    ensures exists i, j, k :: SampleIndex(im, i, j, k) && NormalizeCt(im).value.pixels[i][j][k] == 0.0
    ensures exists i, j, k :: SampleIndex(im, i, j, k) && NormalizeCt(im).value.pixels[i][j][k] == 255.0
  {
    NonEmptyFlatten(im);
    NonConstantRange(im, i, j, k);
    var p := im.pixels;
    var b := SampleRange(p);
    var q := NormalizeCt(im).value.pixels;
    var i0, j0, k0 :| 0 <= i0 < |p| && 0 <= j0 < |p[i0]| && 0 <= k0 < |p[i0][j0]| && p[i0][j0][k0] == b.0;
    NormalizeRescales(im, i0, j0, k0);
    assert SampleIndex(im, i0, j0, k0) && q[i0][j0][k0] == 0.0;
    var i1, j1, k1 :| 0 <= i1 < |p| && 0 <= j1 < |p[i1]| && 0 <= k1 < |p[i1][j1]| && p[i1][j1][k1] == b.1;
    NormalizeRescales(im, i1, j1, k1);
    assert SampleIndex(im, i1, j1, k1) && q[i1][j1][k1] == 255.0;
  }

  /** Normalisation keeps the order of samples. */
  lemma NormalizeMonotone(im: Image, i1: int, j1: int, k1: int, i2: int, j2: int, k2: int)
    requires WellFormed(im) && im.dtype != UInt8 && Size(im) > 0
    requires SampleIndex(im, i1, j1, k1) && SampleIndex(im, i2, j2, k2)
    requires im.pixels[i1][j1][k1] <= im.pixels[i2][j2][k2]
    ensures NormalizeCt(im).value.pixels[i1][j1][k1] <= NormalizeCt(im).value.pixels[i2][j2][k2]
  {
    NonEmptyFlatten(im);
    NormalizeRescales(im, i1, j1, k1);
    NormalizeRescales(im, i2, j2, k2);
    var b := SampleRange(im.pixels);
    if b.0 < b.1 {
      ToByteRangeMonotone(im.pixels[i1][j1][k1], im.pixels[i2][j2][k2], b.0, b.1);
    }
  }

  // ---------------------------------------------------------------------
  // Channel layout
  // ---------------------------------------------------------------------

  /** One gray sample replicated to R, G and B. */
  function Replicate(p: Pixels, h: nat, w: nat, c: nat): (q: Pixels)
    requires Shaped(p, h, w, c) && c >= 1
    ensures Shaped(q, h, w, 3)
    ensures forall i, j, k :: 0 <= i < h && 0 <= j < w && 0 <= k < 3 ==> q[i][j][k] == p[i][j][0]
  {
    seq(h, i requires 0 <= i < h =>
      seq(w, j requires 0 <= j < w => [p[i][j][0], p[i][j][0], p[i][j][0]]))
  }

  /** The alpha sample dropped. */
  function DropAlpha(p: Pixels, h: nat, w: nat): (q: Pixels)
    requires Shaped(p, h, w, 4)
    ensures Shaped(q, h, w, 3)
    ensures forall i, j, k :: 0 <= i < h && 0 <= j < w && 0 <= k < 3 ==> q[i][j][k] == p[i][j][k]
  {
    seq(h, i requires 0 <= i < h =>
      seq(w, j requires 0 <= j < w => p[i][j][..3]))
  }

  lemma CopiedBytes(p: Pixels, q: Pixels, h: nat, w: nat, c: nat, d: nat, src: (nat, nat, nat) -> nat)
    requires Shaped(p, h, w, c) && Shaped(q, h, w, d)
    requires forall i, j, k :: 0 <= i < h && 0 <= j < w && 0 <= k < d ==> src(i, j, k) < c && q[i][j][k] == p[i][j][src(i, j, k)]
    ensures AllBytes(p) ==> AllBytes(q)
  {
    if AllBytes(p) {
    forall i, j, k | 0 <= i < |q| && 0 <= j < |q[i]| && 0 <= k < |q[i][j]|
      ensures IsByte(q[i][j][k])
    {
      assert q[i][j][k] == p[i][j][src(i, j, k)];
    }
    }
  }

  /** convert_to_rgb: a gray array, 2-D or with one channel, gets three equal
      channels; a 4-channel array loses its fourth; any other array is
      returned as it is, without an error. */
  function ToRgb(im: Image): (r: Image)
    requires WellFormed(im)
    ensures WellFormed(r) && r.dtype == im.dtype && r.height == im.height && r.width == im.width
    ensures SampleCount(im.layout) in {1, 4} ==> r.layout == Channels(3)
    ensures SampleCount(im.layout) == 1 ==>
      forall i, j, k :: 0 <= i < im.height && 0 <= j < im.width && 0 <= k < 3 ==> r.pixels[i][j][k] == im.pixels[i][j][0]
    ensures SampleCount(im.layout) == 4 ==>
      forall i, j, k :: 0 <= i < im.height && 0 <= j < im.width && 0 <= k < 3 ==> r.pixels[i][j][k] == im.pixels[i][j][k]
    ensures SampleCount(im.layout) !in {1, 4} ==> r == im
  {
    var c := SampleCount(im.layout);
    if c == 1 then
      var q := Replicate(im.pixels, im.height, im.width, 1);
      CopiedBytes(im.pixels, q, im.height, im.width, 1, 3, (i, j, k) => 0);
      Image(im.dtype, Channels(3), im.height, im.width, q)
    else if c == 4 then
      var q := DropAlpha(im.pixels, im.height, im.width);
      CopiedBytes(im.pixels, q, im.height, im.width, 4, 3, (i, j, k) => if k < 4 then k else 0);
      Image(im.dtype, Channels(3), im.height, im.width, q)
    else im
  }

  // ---------------------------------------------------------------------
  // Validation
  // ---------------------------------------------------------------------

  datatype Verdict = Verdict(isValid: bool, message: string)

  const EmptyImageMessage: string := "이미지가 비어있습니다."
  const ValidImageMessage: string := "유효한 이미지입니다."

  function ShapeText(h: nat, w: nat): string
  {
    NatToString(h) + "x" + NatToString(w)
  }

  const TooSmallOpening: string := "이미지가 너무 작습니다 ("
  const TooSmallClosing: string := "). 최소 64x64 필요."

  function TooSmallMessage(h: nat, w: nat): string
  {
    TooSmallOpening + ShapeText(h, w) + TooSmallClosing
  }

  function TooLargeMessage(h: nat, w: nat): string
  {
    "이미지가 너무 큽니다 (" + ShapeText(h, w) + "). 최대 4096x4096."
  }

  /** validate_ct_image: accepted exactly when the array is non-empty and
      both sides lie in [64, 4096]; an empty array is reported as empty
      before its sides are looked at, and a side below 64 before one above
      4096. */
  function ValidateCt(im: Image): (v: Verdict)
    ensures v.isValid <==> Size(im) > 0 && 64 <= im.height <= 4096 && 64 <= im.width <= 4096
    ensures v.isValid ==> v.message == ValidImageMessage
    ensures Size(im) == 0 ==> v.message == EmptyImageMessage
    ensures Size(im) > 0 && (im.height < 64 || im.width < 64) ==> v.message == TooSmallMessage(im.height, im.width)
    ensures (Size(im) > 0 && 64 <= im.height && 64 <= im.width && (im.height > 4096 || im.width > 4096))
            ==> v.message == TooLargeMessage(im.height, im.width)
  {
    if Size(im) == 0 then Verdict(false, EmptyImageMessage)
    else if im.height < 64 || im.width < 64 then Verdict(false, TooSmallMessage(im.height, im.width))
    else if im.height > 4096 || im.width > 4096 then Verdict(false, TooLargeMessage(im.height, im.width))
    else Verdict(true, ValidImageMessage)
  }

  /** The middle of a three-part text. */
  lemma MiddleOf(a: string, b: string, c: string)
    ensures (a + b + c)[|a|..|a| + |b|] == b
  {
    assert forall i :: 0 <= i < |b| ==> (a + b + c)[|a| + i] == b[i];
  }

  /** The shape text is the height in decimal, "x", then the width. */
  lemma ShapeTextSides(h: nat, w: nat)
    ensures var s, hs := ShapeText(h, w), NatToString(h);
            && s[..|hs|] == hs && s[|hs|] == 'x' && s[|hs| + 1..] == NatToString(w)
  {
  }

  /** The too-small message spells out the shape it saw right after its
      opening words. */
  lemma TooSmallNamesSides(h: nat, w: nat)
    ensures TooSmallMessage(h, w)[|TooSmallOpening|..|TooSmallOpening| + |ShapeText(h, w)|] == ShapeText(h, w)
  {
    MiddleOf(TooSmallOpening, ShapeText(h, w), TooSmallClosing);
  }

  // ---------------------------------------------------------------------
  // Loading, the pipeline and test-time augmentation
  // ---------------------------------------------------------------------

  /** A decoder: the array a file holds, or the exception it raises. */
  type Decoder = string -> Result<Image, string>

  ghost predicate Decodes(decode: Decoder)
  {
    forall path :: decode(path).Success? ==> WellFormed(decode(path).value)
  }

  /** cv2.resize(image, dsize): dsize is (width, height); the assumed
      property is the shape of the result and that uint8 stays bytes. */
  type Resizer = (Image, nat, nat) -> Image

  ghost predicate Resizes(resize: Resizer)
  {
    forall im, dw, dh :: WellFormed(im) ==>
      var r := resize(im, dw, dh);
      WellFormed(r) && r.dtype == im.dtype && r.layout == im.layout && r.height == dh && r.width == dw
  }

  const LoadFailurePrefix: string := "이미지 로드 실패: "
  const ValidationFailurePrefix: string := "이미지 검증 실패: "

  /** load_image: a ".dcm" path (in any case) is tried with pydicom first;
      if that fails, or for any other path, the generic image reader decides. */
  function LoadImage(readDicom: Decoder, readImage: Decoder, path: string): (r: Result<Image, string>)
    requires Decodes(readDicom) && Decodes(readImage)
    ensures r.Success? ==> WellFormed(r.value)
    ensures r.Failure? <==> !(EndsWithDcm(path) && readDicom(path).Success?) && readImage(path).Failure?
    ensures r.Failure? ==> r.error == LoadFailurePrefix + readImage(path).error
  {
    if EndsWithDcm(path) && readDicom(path).Success? then readDicom(path)
    else match readImage(path)
      case Success(im) => Success(im)
      case Failure(e) => Failure(LoadFailurePrefix + e)
  }

  predicate EndsWithDcm(path: string)
  {
    var s := Lower(path);
    |s| >= 4 && s[|s| - 4..] == ".dcm"
  }

  /** The window-or-normalise step of `preprocess`: windowing exactly when
      it is enabled and the array is not uint8. */
  function Tone(cfg: Config, im: Image): (r: Image)
    requires WindowUsable(cfg) && WellFormed(im) && Size(im) > 0
    ensures WellFormed(r) && r.dtype == UInt8
    ensures r.layout == im.layout && r.height == im.height && r.width == im.width
  {
    if cfg.applyWindowing && im.dtype != UInt8 then ApplyBrainWindowing(cfg.windowCenter, cfg.windowWidth, im)
    else NormalizeCt(im).value
  }

  /** `astype(np.float32) / 255.0` followed by `np.expand_dims(…, axis=0)`. */
  function Batch(p: Pixels): (b: seq<Pixels>)
    ensures |b| == 1
  {
    [MapPixels(p, v => v / 255.0)]
  }

  lemma BatchInUnitRange(p: Pixels)
    requires AllBytes(p)
    ensures InUnitRange(Batch(p)[0])
  {
  }

  /** preprocess(path, return_original=True): the batch of one and the
      untouched loaded array. */
  function Preprocess(cfg: Config, readDicom: Decoder, readImage: Decoder, resize: Resizer, path: string)
    : (r: Result<(seq<Pixels>, Image), string>)
    requires WindowUsable(cfg) && Decodes(readDicom) && Decodes(readImage) && Resizes(resize)
  {
    match LoadImage(readDicom, readImage, path)
    case Failure(e) => Failure(e)
    case Success(image) =>
      var original := image;
      var verdict := ValidateCt(image);
      if !verdict.isValid then Failure(ValidationFailurePrefix + verdict.message)
      else
        var toned := Tone(cfg, image);
        var rgb := ToRgb(toned);
        var resized := resize(rgb, cfg.targetSize.0, cfg.targetSize.1);
        Success((Batch(resized.pixels), original))
  }

  /** What `preprocess` promises: it fails exactly when loading fails or
      the raw loaded array is rejected (whatever later steps would do with
      it); otherwise it yields one image of the target size with values in
      [0, 1], and the loaded array untouched. */
  lemma PreprocessOutcome(cfg: Config, readDicom: Decoder, readImage: Decoder, resize: Resizer, path: string)
    requires WindowUsable(cfg) && Decodes(readDicom) && Decodes(readImage) && Resizes(resize)
    ensures var loaded := LoadImage(readDicom, readImage, path);
            var r := Preprocess(cfg, readDicom, readImage, resize, path);
            && (loaded.Failure? ==> r == Failure(loaded.error))
            && ((loaded.Success? && !ValidateCt(loaded.value).isValid)
                ==> r == Failure(ValidationFailurePrefix + ValidateCt(loaded.value).message))
            && (loaded.Success? && ValidateCt(loaded.value).isValid ==>
                  && r.Success?
                  && r.value.1 == loaded.value
                  && |r.value.0| == 1
                  && |r.value.0[0]| == cfg.targetSize.1
                  && (forall i :: 0 <= i < cfg.targetSize.1 ==> |r.value.0[0][i]| == cfg.targetSize.0)
                  && InUnitRange(r.value.0[0]))
  {
    var loaded := LoadImage(readDicom, readImage, path);
    if loaded.Success? && ValidateCt(loaded.value).isValid {
      var rgb := ToRgb(Tone(cfg, loaded.value));
      var resized := resize(rgb, cfg.targetSize.0, cfg.targetSize.1);
      BatchInUnitRange(resized.pixels);
    }
  }

  /** For a uint8 array the windowing switch makes no difference. */
  lemma BytesIgnoreWindowing(cfg: Config, readDicom: Decoder, readImage: Decoder, resize: Resizer, path: string)
    requires cfg.windowWidth >= 2 && Decodes(readDicom) && Decodes(readImage) && Resizes(resize)
    requires var loaded := LoadImage(readDicom, readImage, path); loaded.Success? && loaded.value.dtype == UInt8
    ensures Preprocess(cfg, readDicom, readImage, resize, path)
            == Preprocess(cfg.(applyWindowing := !cfg.applyWindowing), readDicom, readImage, resize, path)
  {
  }

  /** One augmented copy through the steps `predict_with_tta` applies to
      it: normalisation (never windowing, and no validation), RGB, resize and
      scaling. */
  function AugmentedBatch(cfg: Config, resize: Resizer, augmented: Image): (b: seq<Pixels>)
    requires Resizes(resize) && WellFormed(augmented) && Size(augmented) > 0
    ensures |b| == 1 && InUnitRange(b[0])
  {
    var rgb := ToRgb(NormalizeCt(augmented).value);
    var resized := resize(rgb, cfg.targetSize.0, cfg.targetSize.1);
    BatchInUnitRange(resized.pixels);
    Batch(resized.pixels)
  }

  /** cv2.flip and cv2.warpAffine keep the array's type and shape. */
  ghost predicate KeepsShape(augment: (nat, Image) -> Image)
  {
    forall n, im :: WellFormed(im) ==>
      var a := augment(n, im);
      WellFormed(a) && a.dtype == im.dtype && a.layout == im.layout && a.height == im.height && a.width == im.width
  }

  /** np.mean of a non-empty list. */
  function Mean(s: seq<real>): real
    requires |s| > 0
  {
    CamMath.Sum(s) / |s| as real
  }

  lemma {:induction false} SumBounds(s: seq<real>)
    requires forall i :: 0 <= i < |s| ==> 0.0 <= s[i] <= 1.0
    ensures 0.0 <= CamMath.Sum(s) <= |s| as real
  {
    if s != [] {
      SumBounds(s[..|s| - 1]);
    }
  }

  /** Averaging probabilities gives a probability. */
  lemma MeanInUnitRange(s: seq<real>)
    requires |s| > 0 && forall i :: 0 <= i < |s| ==> 0.0 <= s[i] <= 1.0
    ensures 0.0 <= Mean(s) <= 1.0
  {
    SumBounds(s);
    UnitRatio(CamMath.Sum(s), |s| as real);
  }

  /** predict_with_tta: one prediction of the fully preprocessed image,
      then one per augmented copy for `numAugmentations - 1` rounds, and
      their mean. `augment(i, image)` stands for the i-th round's random
      flip and rotation, `predict` for model.predict(...)[0][0]. */
  method PredictWithTta(cfg: Config, readDicom: Decoder, readImage: Decoder, resize: Resizer,
                        predict: seq<Pixels> -> real, augment: (nat, Image) -> Image,
                        path: string, numAugmentations: int)
    returns (r: Result<real, string>, predictions: seq<real>)
    requires WindowUsable(cfg) && Decodes(readDicom) && Decodes(readImage) && Resizes(resize) && KeepsShape(augment)
    ensures var pre := Preprocess(cfg, readDicom, readImage, resize, path);
            && (r.Failure? <==> pre.Failure?)
            && (r.Failure? ==> r.error == pre.error)
            && (r.Success? ==>
                  && |predictions| == (if numAugmentations > 1 then numAugmentations else 1)
                  && predictions[0] == predict(pre.value.0)
                  && (forall i :: 1 <= i < |predictions| ==>
                        predictions[i] == predict(AugmentedBatch(cfg, resize, augment(i - 1, pre.value.1))))
                  && r.value == Mean(predictions))
  {
    predictions := [];
    var loaded := LoadImage(readDicom, readImage, path);
    if loaded.Failure? {
      return Failure(loaded.error), predictions;
    }
    var image := loaded.value;
    var first := Preprocess(cfg, readDicom, readImage, resize, path);
    if first.Failure? {
      return Failure(first.error), predictions;
    }
    SizeZero(image);
    predictions := predictions + [predict(first.value.0)];
    var rounds := if numAugmentations > 1 then numAugmentations - 1 else 0;
    for i := 0 to rounds
      invariant |predictions| == i + 1
      invariant predictions[0] == predict(first.value.0)
      invariant forall j :: 1 <= j < |predictions| ==>
                  predictions[j] == predict(AugmentedBatch(cfg, resize, augment(j - 1, image)))
    {
      var augmented := augment(i, image);
      SizeZero(augmented);
      predictions := predictions + [predict(AugmentedBatch(cfg, resize, augmented))];
    }
    r := Success(Mean(predictions));
  }
}
