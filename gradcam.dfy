/**
 * The decision logic of gradcam_utils.py's GradCAM class: which layer is
 * explained, the class and confidence of a prediction, the region named
 * after the hot part of the heatmap, the explanation text, and the rules
 * overlay_heatmap applies to the original image before blending.
 *
 * The model itself (its layers' shapes, the prediction and the gradient tape)
 * is an input; the heatmap arithmetic is CamMath's.
 */
module GradCam {
  import opened Wrappers
  import opened CamMath
  import opened Strings

  /** What inspecting a layer's output shape yields: the rank of
      `layer.output_shape` and of `layer.output.shape` when the attribute
      exists (None when hasattr is false), or an exception thrown before
      either test succeeded. */
  datatype Inspection = Raises | Inspected(outputShapeRank: Option<nat>, outputRank: Option<nat>)

  datatype Layer = Layer(name: string, inspection: Inspection)

  /** A layer is taken for a convolution when either probe reports a 4-D
      output (None, H, W, C). */
  predicate IsConvLike(layer: Layer)
  {
    layer.inspection.Inspected?
    && (layer.inspection.outputShapeRank == Some(4) || layer.inspection.outputRank == Some(4))
  }

  const NoConvLayerMessage: string := "모델에서 Convolutional layer를 찾을 수 없습니다."

  /** _find_last_conv_layer: walks the layers from the last one back and
      returns the first 4-D one; layers whose inspection throws are
      skipped. */
  method FindLastConvLayer(layers: seq<Layer>) returns (r: Result<string, string>)
    ensures r.Failure? <==> forall i :: 0 <= i < |layers| ==> !IsConvLike(layers[i])
    ensures r.Failure? ==> r.error == NoConvLayerMessage
    ensures r.Success? ==>
      exists i :: 0 <= i < |layers| && IsConvLike(layers[i]) && layers[i].name == r.value
                  && forall j :: i < j < |layers| ==> !IsConvLike(layers[j])
  {
    var k := |layers|;
    while k > 0
      invariant 0 <= k <= |layers|
      invariant forall j :: k <= j < |layers| ==> !IsConvLike(layers[j])
    {
      k := k - 1;
      var layer := layers[k];
      match layer.inspection
      case Raises =>
      case Inspected(shapeRank, outputRank) =>
        if shapeRank == Some(4) {
          return Success(layer.name);
        } else if outputRank == Some(4) {
          return Success(layer.name);
        }
    }
    return Failure(NoConvLayerMessage);
  }

  datatype Diagnosis = Hemorrhage | Normal

  /** explain_prediction: the sigmoid output at or above the threshold is
      read as hemorrhage. */
  function PredictedClass(prediction: real, threshold: real): (d: Diagnosis)
    ensures d == Hemorrhage <==> prediction >= threshold
  {
    if prediction >= threshold then Hemorrhage else Normal
  }

  /** The confidence: the larger of p and 1 - p, whatever the threshold. */
  function Confidence(prediction: real): (c: real)
    ensures c >= 0.5
    ensures c >= prediction && c >= 1.0 - prediction
    ensures c == prediction || c == 1.0 - prediction
  {
    if prediction >= 0.5 then prediction else 1.0 - prediction
  }

  /** Since the confidence ignores the threshold, with any threshold other
      than 0.5 it can be the probability of the class not predicted: at
      threshold 0.3 a prediction of 0.4 is hemorrhage with confidence 0.6,
      the probability of normal. */
  lemma ConfidenceIgnoresThreshold()
    ensures PredictedClass(0.4, 0.3) == Hemorrhage && Confidence(0.4) == 1.0 - 0.4
  {
  }

  /** At the default threshold the confidence is the probability of the
      predicted class. */
  lemma ConfidenceOfDefaultThreshold(prediction: real)
    ensures PredictedClass(prediction, 0.5) == Hemorrhage ==> Confidence(prediction) == prediction
    ensures PredictedClass(prediction, 0.5) == Normal ==> Confidence(prediction) == 1.0 - prediction
  {
  }

  const WholeArea: string := "전체 영역"

  /** _localize_brain_region's table from the column and row thirds to a
      brain region. */
  const RegionMap: map<(string, string), string> := map[
    ("좌측", "상부") := "좌측 전두엽",
    ("중앙", "상부") := "전두엽 중앙",
    ("우측", "상부") := "우측 전두엽",
    ("좌측", "중간부") := "좌측 측두엽/두정엽",
    ("중앙", "중간부") := "기저핵/시상",
    ("우측", "중간부") := "우측 측두엽/두정엽",
    ("좌측", "하부") := "좌측 후두엽/소뇌",
    ("중앙", "하부") := "뇌간/소뇌",
    ("우측", "하부") := "우측 후두엽/소뇌"]

  /** region_map.get((lr, tb), f"{lr} {tb}") */
  function RegionName(lr: Horizontal, tb: Vertical): string
  {
    var key := (HorizontalName(lr), VerticalName(tb));
    if key in RegionMap then RegionMap[key] else key.0 + " " + key.1
  }

  /** _localize_brain_region(x, y, width, height). */
  function LocalizeBrainRegion(x: int, y: int, width: nat, height: nat): (r: string)
    ensures r in RegionMap.Values && r != WholeArea
  {
    RegionAlwaysMapped(ColumnOf(x, width), RowOf(y, height));
    RegionName(ColumnOf(x, width), RowOf(y, height))
  }

  /** Every pair of thirds is in the table, so the "{lr} {tb}" fallback is
      never used and the region is always one of the nine names. */
  lemma RegionAlwaysMapped(lr: Horizontal, tb: Vertical)
    ensures (HorizontalName(lr), VerticalName(tb)) in RegionMap
    ensures RegionName(lr, tb) in RegionMap.Values
    ensures RegionName(lr, tb) != WholeArea
  {
    var key := (HorizontalName(lr), VerticalName(tb));
    assert RegionMap[key] in RegionMap.Values;
  }

  /** The region of the explanation: the hot cells' centroid, as (x, y), put
      through _localize_brain_region, or "전체 영역" when no cell is hot. */
  function HeatmapRegion(heat: Grid, h: nat, w: nat): (r: string)
    requires IsGrid(heat, h, w) && h > 0 && w > 0
    ensures r == WholeArea <==> HotCentroid(heat, h, w).None?
    ensures r != WholeArea ==> r in RegionMap.Values
  {
    match HotCentroid(heat, h, w)
    case Some((y, x)) => LocalizeBrainRegion(x, y, w, h)
    case None => WholeArea
  }

  /** For a rectified heatmap the region is always one of the nine names. */
  lemma HeatmapRegionNamed(heat: Grid, h: nat, w: nat)
    requires IsGrid(heat, h, w) && h > 0 && w > 0
    requires forall i, j :: 0 <= i < h && 0 <= j < w ==> heat[i][j] >= 0.0
    ensures HeatmapRegion(heat, h, w) in RegionMap.Values
    ensures HeatmapRegion(heat, h, w) != WholeArea
  {
    HotCentroidInside(heat, h, w);
    var c := HotCentroid(heat, h, w).value;
    assert HeatmapRegion(heat, h, w) == RegionName(ColumnOf(c.1, w), RowOf(c.0, h));
    RegionAlwaysMapped(ColumnOf(c.1, w), RowOf(c.0, h));
  }

  /** The region names where the heat is: when every cell at or above 70% of
      the maximum lies in one column third and one row third, the region is
      the anatomical name of those thirds. */
  lemma HotSpotRegion(heat: Grid, h: nat, w: nat, lr: Horizontal, tb: Vertical)
    requires IsGrid(heat, h, w) && h > 0 && w > 0
    requires forall i, j :: 0 <= i < h && 0 <= j < w ==> heat[i][j] >= 0.0
    requires HeatInThirds(heat, h, w, 0.7 * GridMax(heat, h, w), lr, tb)
    ensures HeatmapRegion(heat, h, w) == RegionName(lr, tb)
  {
    HotCentroidInThird(heat, h, w, lr, tb);
  }

  /** The explanation text after .strip(); `percent` formats
      `{confidence*100:.1f}`. The backslash-newlines of the source are line
      continuations, so those sentences run on with a single space. */
  function ExplanationText(d: Diagnosis, confidence: real, region: string, percent: real -> string): string
  {
    match d
    case Hemorrhage =>
      "**진단 결과: 뇌출혈 의심**\n\n- **신뢰도**: " + percent(confidence * 100.0)
      + "%\n- **주요 관심 영역**: " + region
      + "\n- **분석**: 빨간색으로 표시된 부위에서 고밀도 영역이 감지되었습니다. 이는 뇌출혈의 특징적인 패턴과 유사합니다."
      + "\n\n\U{26A0}\U{FE0F} **주의**: 이 결과는 보조 진단 도구로만 사용되어야 하며, 전문의의 최종 판단을 대체할 수 없습니다."
    case Normal =>
      "**진단 결과: 정상**\n\n- **신뢰도**: " + percent(confidence * 100.0)
      + "%\n- **분석**: 뇌출혈을 시사하는 특이 소견이 발견되지 않았습니다."
      + "\n\n\U{2705} **참고**: 정상 소견이지만, 임상 증상이 있다면 전문의 상담을 권장합니다."
  }

  /** _generate_explanation_text for a heatmap. */
  function GenerateExplanationText(heat: Grid, h: nat, w: nat, prediction: real, d: Diagnosis,
                                   percent: real -> string): (r: string)
    requires IsGrid(heat, h, w) && h > 0 && w > 0
    ensures Contains(r, percent(Confidence(prediction) * 100.0))
    ensures d == Hemorrhage ==> Contains(r, HeatmapRegion(heat, h, w))
  {
    var region := HeatmapRegion(heat, h, w);
    ExplanationMentions(Confidence(prediction), region, WholeArea, percent);
    ExplanationText(d, Confidence(prediction), region, percent)
  }

  /** Both texts state the confidence; only the hemorrhage text names the
      region, and the normal text is the same whatever the region. */
  lemma ExplanationMentions(confidence: real, region: string, other: string, percent: real -> string)
    ensures var t := ExplanationText(Hemorrhage, confidence, region, percent);
      Contains(t, percent(confidence * 100.0)) && Contains(t, region)
    ensures Contains(ExplanationText(Normal, confidence, region, percent), percent(confidence * 100.0))
    ensures ExplanationText(Normal, confidence, region, percent) == ExplanationText(Normal, confidence, other, percent)
  {
    var p := percent(confidence * 100.0);
    var head := "**진단 결과: 뇌출혈 의심**\n\n- **신뢰도**: ";
    var t := ExplanationText(Hemorrhage, confidence, region, percent);
    var beforeRegion := head + p + "%\n- **주요 관심 영역**: ";
    assert t[|head|..|head| + |p|] == p;
    assert OccursAt(t, p, |head|);
    assert t[|beforeRegion|..|beforeRegion| + |region|] == region;
    assert OccursAt(t, region, |beforeRegion|);
    var normalHead := "**진단 결과: 정상**\n\n- **신뢰도**: ";
    var n := ExplanationText(Normal, confidence, region, percent);
    assert n[|normalHead|..|normalHead| + |p|] == p;
    assert OccursAt(n, p, |normalHead|);
  }

  /** What explain_prediction returns, without the images. */
  datatype Explained = Explained(prediction: real, predictedClass: Diagnosis, confidence: real,
                                 heatmap: array2<real>, explanation: string)

  /** OpenCV's element depth of the original image. */
  datatype Depth = Depth8U | Depth16U | Depth32F | OtherDepth

  /** The original image as overlay_heatmap sees it: a 2-D gray array, or an
      array with a channel axis of `count` channels. */
  datatype Original = Gray(depth: Depth) | Channelled(count: nat, depth: Depth)

  /** overlay_heatmap raises unless the original ends up with the colour map's
      three channels: cvtColor(GRAY2RGB) takes only 8-bit or 16-bit unsigned
      and 32-bit float gray images (so an int16 DICOM or a float64 gray image
      is refused), and addWeighted refuses a channel count other than 3 (so
      a 4-channel PNG is refused). */
  predicate OverlayAccepts(o: Original)
  {
    match o
    case Gray(d) => d != OtherDepth
    case Channelled(n, _) => n == 3
  }

  const OverlayRefused: string := "cv2.error in overlay_heatmap"

  /** explain_prediction after the model has run: the class, the heatmap of
      the channel sum, and the explanation of that heatmap; the overlay of
      the original is computed before the explanation and may raise. */
  method ExplainPrediction(prediction: real, threshold: real, conv: array3<real>, grads: Tensor,
                           original: Original, percent: real -> string) returns (res: Result<Explained, string>)
    requires IsTensor(grads, conv.Length0, conv.Length1, conv.Length2)
    modifies conv
    ensures res.Success? <==> conv.Length0 > 0 && conv.Length1 > 0 && OverlayAccepts(original)
    ensures conv.Length0 > 0 && conv.Length1 > 0 && !OverlayAccepts(original) ==> res == Failure(OverlayRefused)
    ensures res.Success? ==>
      && res.value.prediction == prediction
      && res.value.predictedClass == PredictedClass(prediction, threshold)
      && res.value.confidence == Confidence(prediction)
      && fresh(res.value.heatmap)
      && var h, w := conv.Length0, conv.Length1;
         res.value.heatmap.Length0 == h && res.value.heatmap.Length1 == w
         && var pooled := PooledGrads(grads, h, w, conv.Length2);
            GridOf(res.value.heatmap) == Heatmap(old(TensorOf(conv)), h, w, pooled, ChannelSum)
            && res.value.explanation
               == GenerateExplanationText(GridOf(res.value.heatmap), h, w, prediction,
                                          PredictedClass(prediction, threshold), percent)
  {
    var d := PredictedClass(prediction, threshold);
    var heat := GenerateHeatmap(conv, grads, ChannelSum);
    if heat.Failure? {
      return Failure(heat.error);
    }
    if !OverlayAccepts(original) {
      return Failure(OverlayRefused);
    }
    var h, w := conv.Length0, conv.Length1;
    var text := GenerateExplanationText(GridOf(heat.value), h, w, prediction, d, percent);
    return Success(Explained(prediction, d, Confidence(prediction), heat.value, text));
  }

  /** The two overlay failures: a 4-channel PNG and a 2-D int16 DICOM. */
  lemma OverlayRefusals()
    ensures !OverlayAccepts(Channelled(4, Depth8U)) && !OverlayAccepts(Gray(OtherDepth))
    ensures OverlayAccepts(Gray(Depth8U)) && OverlayAccepts(Channelled(3, OtherDepth))
  {
  }

  /** How overlay_heatmap turns a non-uint8 original into uint8: images whose
      maximum is at most 1.0 are scaled by 255 first, others are cast as
      they are. */
  datatype Scaling = KeepBytes | ScaleThenCast | CastOnly

  function OriginalScaling(isUint8: bool, maxValue: real): (s: Scaling)
    ensures s == KeepBytes <==> isUint8
    ensures s == ScaleThenCast <==> !isUint8 && maxValue <= 1.0
  {
    if isUint8 then KeepBytes else if maxValue <= 1.0 then ScaleThenCast else CastOnly
  }

  /** astype(np.uint8) of one value: truncation toward zero inside 0..255.
      numpy leaves a float outside that range undefined (the result depends
      on the platform); the model wraps it modulo 256, and the contract
      promises only the in-range case. */
  function CastToByte(x: real): (b: int)
    ensures 0 <= b < 256
    ensures 0.0 <= x < 256.0 ==> b == x.Floor
  {
    var t := if x >= 0.0 then x.Floor else -((-x).Floor);
    t % 256
  }

  function MaxOf(px: seq<real>): (m: real)
    requires |px| > 0
    ensures forall k :: 0 <= k < |px| ==> px[k] <= m
    ensures exists k :: 0 <= k < |px| && px[k] == m
  {
    RowMax(px)
  }

  /** The original's samples after the dtype rule; original_rgb.max() of an
      empty float image raises, which is None here. */
  function OriginalAsBytes(px: seq<real>, isUint8: bool): (r: Option<seq<int>>)
    ensures r.None? <==> !isUint8 && |px| == 0
    ensures r.Some? ==> |r.value| == |px|
  {
    if isUint8 then Some(seq(|px|, k requires 0 <= k < |px| => px[k].Floor))
    else if |px| == 0 then None
    else if MaxOf(px) <= 1.0 then Some(seq(|px|, k requires 0 <= k < |px| => CastToByte(px[k] * 255.0)))
    else Some(seq(|px|, k requires 0 <= k < |px| => CastToByte(px[k])))
  }

  /** A float image in [0, 1] is spread over the byte range: 0 stays 0, 1
      becomes 255, and every sample keeps its order. */
  lemma UnitImageSpread(px: seq<real>, i: nat, j: nat)
    requires |px| > 0 && forall k :: 0 <= k < |px| ==> 0.0 <= px[k] <= 1.0
    requires i < |px| && j < |px|
    ensures var r := OriginalAsBytes(px, false).value;
      (px[i] == 0.0 ==> r[i] == 0) && (px[i] == 1.0 ==> r[i] == 255)
      && (px[i] <= px[j] ==> r[i] <= r[j])
  {
    var m := MaxOf(px);
    assert m <= 1.0;
    assert 0.0 <= px[i] * 255.0 <= 255.0 && 0.0 <= px[j] * 255.0 <= 255.0;
    if px[i] <= px[j] {
      assert px[i] * 255.0 <= px[j] * 255.0;
    }
  }

  /** cv2.addWeighted's weights for the original and the colored heatmap. */
  function BlendWeights(alpha: real): (w: (real, real))
    ensures w.0 + w.1 == 1.0 && w.1 == alpha
  {
    (1.0 - alpha, alpha)
  }

  /** One blended sample, before addWeighted's rounding and saturation. */
  function Blend(original: real, colored: real, alpha: real): real
  {
    var w := BlendWeights(alpha);
    original * w.0 + colored * w.1
  }

  /** With 0 <= alpha <= 1 the blend lies between its two samples, so two
      byte values blend to a value in the byte range without saturating. */
  lemma BlendBetween(original: real, colored: real, alpha: real)
    requires 0.0 <= alpha <= 1.0
    ensures original <= colored ==> original <= Blend(original, colored, alpha) <= colored
    ensures colored <= original ==> colored <= Blend(original, colored, alpha) <= original
  {
    BlendForm(original, colored, alpha);
    var d := colored - original;
    assert Blend(original, colored, alpha) == original + alpha * d;
    if d >= 0.0 {
      FractionOf(alpha, d);
    } else {
      FractionOf(alpha, -d);
      assert alpha * (-d) == -(alpha * d);
    }
  }

  lemma BlendForm(o: real, c: real, a: real)
    ensures o * (1.0 - a) + c * a == o + a * (c - o)
  {
  }

  lemma FractionOf(a: real, d: real)
    requires 0.0 <= a <= 1.0 && d >= 0.0
    ensures 0.0 <= a * d <= d
  {
  }
}
