/**
 * The inline decision logic of the improved Streamlit app
 * (brain_ct_improved.py): the label and confidence read from the sigmoid
 * output, the confidence band and the two displayed percentages, and the
 * Grad-CAM branch that runs only for a hemorrhage label (its own layer
 * search, a channel-mean heatmap and "<column> <row>" region text).
 *
 * The model's layers, output and gradient tape are inputs; image decoding,
 * resizing, colour maps and rendering are not part of this model.
 */
module ImprovedApp {
  import opened Wrappers
  import opened Strings
  import opened CamMath
  import GradCam

  /** The fixed threshold of the app. */
  const Threshold: real := 0.5

  datatype Label = Hemorrhage | Normal

  /** Class index 0 is hemorrhage and 1 normal, so an output at or above the
      threshold reads as normal. */
  function LabelOf(prediction: real): (l: Label)
    ensures l == Normal <==> prediction >= Threshold
  {
    if prediction >= Threshold then Normal else Hemorrhage
  }

  /** The probability of the chosen label. */
  function ConfidenceOf(prediction: real): (c: real)
    ensures c >= 0.5
    ensures LabelOf(prediction) == Normal ==> c == prediction
    ensures LabelOf(prediction) == Hemorrhage ==> c == 1.0 - prediction
  {
    if prediction >= Threshold then prediction else 1.0 - prediction
  }

  /** The two files read the same output in opposite ways: for every output,
      gradcam_utils.py says hemorrhage exactly when this app says normal,
      while both report the same confidence. */
  lemma LabelsDisagree(prediction: real)
    ensures GradCam.PredictedClass(prediction, 0.5) == GradCam.Hemorrhage <==> LabelOf(prediction) == Normal
    ensures GradCam.Confidence(prediction) == ConfidenceOf(prediction)
  {
  }

  /** An output of 0.7: hemorrhage for gradcam_utils.py, normal here. */
  lemma SevenTenthsDisagree()
    ensures GradCam.PredictedClass(0.7, 0.5) == GradCam.Hemorrhage && LabelOf(0.7) == Normal
  {
    LabelsDisagree(0.7);
  }

  datatype Band = High | Medium | Low

  /** The confidence band shown with the result. */
  function BandOf(confidence: real): (b: Band)
    ensures b == High <==> confidence >= 0.8
    ensures b == Medium <==> 0.6 <= confidence < 0.8
    ensures b == Low <==> confidence < 0.6
  {
    if confidence >= 0.8 then High
    else if confidence >= 0.6 then Medium
    else Low
  }

  function BandRank(b: Band): nat
  {
    match b
    case Low => 0
    case Medium => 1
    case High => 2
  }

  /** A higher confidence never gets a lower band. */
  lemma BandMonotone(c1: real, c2: real)
    requires c1 <= c2
    ensures BandRank(BandOf(c1)) <= BandRank(BandOf(c2))
  {
  }

  /** The displayed "hemorrhage" and "normal" percentages. */
  function Percentages(prediction: real): (p: (real, real))
    ensures p.0 + p.1 == 100.0
    ensures LabelOf(prediction) == Hemorrhage ==> p.0 == ConfidenceOf(prediction) * 100.0
    ensures LabelOf(prediction) == Normal ==> p.1 == ConfidenceOf(prediction) * 100.0
  {
    ((1.0 - prediction) * 100.0, prediction * 100.0)
  }

  /** Grad-CAM is computed only for a hemorrhage label. */
  predicate RunsGradCam(prediction: real)
  {
    LabelOf(prediction) == Hemorrhage
  }

  /** The scalar whose gradient is taken: 1 - output for hemorrhage. */
  function TargetScore(l: Label, output: real): real
  {
    if l == Hemorrhage then 1.0 - output else output
  }

  /** Whenever Grad-CAM runs, it explains 1 - p, which is the confidence of
      the hemorrhage label. */
  lemma TargetIsHemorrhageProbability(prediction: real)
    requires RunsGradCam(prediction)
    ensures TargetScore(LabelOf(prediction), prediction) == 1.0 - prediction == ConfidenceOf(prediction)
  {
  }

  /** The layer search: the last layer whose lower-cased name contains
      "conv", by a reverse loop with `break`. */
  method FindConvLayer(names: seq<string>) returns (found: Option<string>)
    ensures found.None? <==> forall i :: 0 <= i < |names| ==> !Contains(Strings.Lower(names[i]), "conv")
    ensures found.Some? ==>
      exists i :: 0 <= i < |names| && names[i] == found.value && Contains(Strings.Lower(names[i]), "conv")
                  && forall j :: i < j < |names| ==> !Contains(Strings.Lower(names[j]), "conv")
  {
    var k := |names|;
    while k > 0 && !Contains(Strings.Lower(names[k - 1]), "conv")
      invariant 0 <= k <= |names|
      invariant forall j :: k <= j < |names| ==> !Contains(Strings.Lower(names[j]), "conv")
    {
      k := k - 1;
    }
    if k == 0 {
      found := None;
    } else {
      found := Some(names[k - 1]);
    }
  }

  const WholeArea: string := "전체 영역"

  /** The region text: the two thirds' names, or "전체 영역" without a hot
      cell. */
  function RegionText(heat: Grid, h: nat, w: nat): (r: string)
    requires IsGrid(heat, h, w) && h > 0 && w > 0
    ensures HotCentroid(heat, h, w).None? ==> r == WholeArea
    ensures HotCentroid(heat, h, w).Some? ==>
      exists lr: Horizontal, tb: Vertical :: r == HorizontalName(lr) + " " + VerticalName(tb)
  {
    match HotCentroid(heat, h, w)
    case Some((y, x)) =>
      var lr, tb := ColumnOf(x, w), RowOf(y, h);
      HorizontalName(lr) + " " + VerticalName(tb)
    case None => WholeArea
  }

  /** The region text names where the heat is: when every cell at or above
      70% of the maximum lies in one column third and one row third, the text
      names those thirds. */
  lemma HotSpotRegionText(heat: Grid, h: nat, w: nat, lr: Horizontal, tb: Vertical)
    requires IsGrid(heat, h, w) && h > 0 && w > 0
    requires forall i, j :: 0 <= i < h && 0 <= j < w ==> heat[i][j] >= 0.0
    requires HeatInThirds(heat, h, w, 0.7 * GridMax(heat, h, w), lr, tb)
    ensures RegionText(heat, h, w) == HorizontalName(lr) + " " + VerticalName(tb)
  {
    HotCentroidInThird(heat, h, w, lr, tb);
  }

  /** For the same pair of thirds, this app shows the raw "<column> <row>"
      text where gradcam_utils.py shows an anatomical name. */
  lemma RegionTextDiffersFromAnatomicalName(lr: Horizontal, tb: Vertical)
    ensures HorizontalName(lr) + " " + VerticalName(tb) != GradCam.RegionName(lr, tb)
  {
    var ours := HorizontalName(lr) + " " + VerticalName(tb);
    var theirs := GradCam.RegionName(lr, tb);
    GradCam.RegionAlwaysMapped(lr, tb);
    match lr
    case Left => {
      match tb
      case Upper => assert |ours| != |theirs|;
      case Middle => assert ours[3] != theirs[3];
      case Lower => assert ours[3] != theirs[3];
    }
    case Center =>
      assert ours[0] != theirs[0];
    case Right => {
      match tb
      case Upper => assert |ours| != |theirs|;
      case Middle => assert ours[3] != theirs[3];
      case Lower => assert ours[3] != theirs[3];
    }
  }

  const ExplanationHead: string := "**\U{26A0}\U{FE0F} 뇌출혈 의심 소견**\n\n- **주요 관심 영역**: "
  const ExplanationTail: string :=
    "\n- **분석**: 빨간색으로 표시된 부위에서 이상 소견이 감지되었습니다.\n\n"
    + "\U{26A0}\U{FE0F} **주의**: 이 결과는 보조 진단 도구이며, 전문의 판단이 필요합니다."

  /** The explanation of the hemorrhage branch: it names the region right
      after its heading. */
  function HemorrhageExplanation(region: string): (r: string)
    ensures OccursAt(r, region, |ExplanationHead|) && Contains(r, region)
  {
    var r := ExplanationHead + region + ExplanationTail;
    assert r[|ExplanationHead|..|ExplanationHead| + |region|] == region;
    assert OccursAt(r, region, |ExplanationHead|);
    r
  }

  /** How the Grad-CAM step ends: skipped for a normal label, disabled after
      a caught error, or shown with its region and explanation. */
  datatype GradCamOutcome =
    | Skipped
    | Disabled(reason: string)
    | Shown(layer: string, heatmap: array2<real>, region: string, explanation: string)

  const NoConvLayerMessage: string := "Conv layer를 찾을 수 없습니다"

  /** The Grad-CAM branch of the analysis. `conv` and `grads` are the chosen
      layer's output and the gradient of the target score. Any error is
      caught and turns Grad-CAM off; it never aborts the analysis. */
  method GradCamStep(prediction: real, names: seq<string>, conv: array3<real>, grads: Tensor)
    returns (outcome: GradCamOutcome)
    requires IsTensor(grads, conv.Length0, conv.Length1, conv.Length2) && conv.Length2 > 0
    modifies conv
    ensures !RunsGradCam(prediction) <==> outcome == Skipped
    ensures (RunsGradCam(prediction) && forall i :: 0 <= i < |names| ==> !Contains(Strings.Lower(names[i]), "conv"))
            ==> outcome == Disabled(NoConvLayerMessage)
    ensures outcome.Shown? ==>
      && RunsGradCam(prediction)
      && (exists i :: 0 <= i < |names| && names[i] == outcome.layer && Contains(Strings.Lower(names[i]), "conv")
                      && forall j :: i < j < |names| ==> !Contains(Strings.Lower(names[j]), "conv"))
      && conv.Length0 > 0 && conv.Length1 > 0
      && fresh(outcome.heatmap)
      && outcome.heatmap.Length0 == conv.Length0 && outcome.heatmap.Length1 == conv.Length1
      && GridOf(outcome.heatmap)
         == Heatmap(old(TensorOf(conv)), conv.Length0, conv.Length1,
                    PooledGrads(grads, conv.Length0, conv.Length1, conv.Length2), ChannelMean)
      && outcome.region == RegionText(GridOf(outcome.heatmap), conv.Length0, conv.Length1)
      && outcome.explanation == HemorrhageExplanation(outcome.region)
    ensures (&& RunsGradCam(prediction) && conv.Length0 > 0 && conv.Length1 > 0
             && exists i :: 0 <= i < |names| && Contains(Strings.Lower(names[i]), "conv"))
            ==> outcome.Shown?
  {
    if !RunsGradCam(prediction) {
      return Skipped;
    }
    var layer := FindConvLayer(names);
    if layer.None? {
      return Disabled(NoConvLayerMessage);
    }
    var heat := GenerateHeatmap(conv, grads, ChannelMean);
    if heat.Failure? {
      return Disabled(heat.error);
    }
    var region := RegionText(GridOf(heat.value), conv.Length0, conv.Length1);
    return Shown(layer.value, heat.value, region, HemorrhageExplanation(region));
  }

  /** A shown Grad-CAM names a column and a row third: its heatmap is
      rectified, so the "전체 영역" fallback never happens. */
  lemma ShownRegionNamesThirds(a: Tensor, h: nat, w: nat, pooled: seq<real>)
    requires IsTensor(a, h, w, |pooled|) && h > 0 && w > 0 && |pooled| > 0
    ensures exists lr: Horizontal, tb: Vertical ::
      RegionText(Heatmap(a, h, w, pooled, ChannelMean), h, w) == HorizontalName(lr) + " " + VerticalName(tb)
  {
    var g := Heatmap(a, h, w, pooled, ChannelMean);
    HeatmapInUnitRange(a, h, w, pooled, ChannelMean);
    HotCentroidInside(g, h, w);
    var c := HotCentroid(g, h, w).value;
    assert RegionText(g, h, w) == HorizontalName(ColumnOf(c.1, w)) + " " + VerticalName(RowOf(c.0, h));
  }
}
