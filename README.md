# Brain-hemorrhage CT assistant: a verified model of its decision logic

This project models, in Dafny, the logic of a brain-CT hemorrhage assistant that decides outcomes:

- **CT preprocessing.** The brain window, min-max normalisation, the channel-layout rule, the size validator, the order of the pipeline, and the averaging of test-time augmentation (TTA).
- **Grad-CAM arithmetic after the gradient.** Pooled channel weights, the weighted channel reduction, ReLU, and division by the maximum.
- **Explanation rules.** The hot-region centroid, the 3 × 3 region classifier, the last-convolution-layer search, and the label, confidence, band and percentage rules. These exist in two versions: the library `gradcam_utils.py` and the inline copy in `brain_ct_improved.py`.
- **Markdown-to-PDF.** `clean_text` and the line loop of `generate_pdf.py`.
- **Authentication.**
  - the Streamlit session state machine (`auth_utils.py`);
  - the signup form validator, including its e-mail pattern;
  - the backend user registry (`AuthService.java`);
  - Bearer-token extraction in the JWT filter.
- **History page.** Record lookup, result badges and the volume comparison of the "my page" screen.

Numerical libraries, networks, decoders and the server are inputs to the model:

- activation and gradient tensors;
- the sigmoid output;
- decoders and the resizer, as functions with shape-only promises;
- the password matcher and token provider, as functions;
- HTTP replies, as values.

All arithmetic is exact (`real`). No claim is made about floating-point bit patterns.

**Modules.** There is one module per concern: `Wrappers`, `Strings`, `Preprocessing`, `CamMath`, `GradCam`, `ImprovedApp`, `MarkdownPdf`, `SignupForm`, `AuthSession`, `AuthService`, `JwtFilter` and `MyPage`.

- Code that mutates state keeps that form:
  - the session, the security context, the filter chain and the user table are classes whose methods are stated against pure functions of the old state;
  - the in-place channel scaling and the in-place division by the maximum work on Dafny arrays;
  - loops stay loops (the layer searches, the table build, clean_text, the PDF line loop and TTA).
- Pure rules are functions, with lemmas relating them.

**Behaviours the model makes explicit:**

- `gradcam_utils.py` and `brain_ct_improved.py` read the same sigmoid output in opposite ways: one says hemorrhage at p ≥ 0.5, the other says normal. They also reduce channels differently (sum versus mean). The model shows the channel reduction makes no difference once the map is normalised.
- In both files the "전체 영역" (whole-area) fallback is unreachable for a non-empty heatmap.
- The JWT filter's prefix test is case-sensitive.
- A whitespace-only username passes the signup emptiness check.
- An e-mail followed by one newline is accepted by the pattern.
- An unterminated fenced code block is silently dropped from the PDF.
- A table row without a closing `|` loses its last cell in the PDF.
- Confidence bands are 0.8 and 0.6 (`brain_ct_improved.py:612-620`).
- Channel counts other than 1, 3 and 4 pass through RGB conversion unchanged (`preprocessing_utils.py:124-136`).
- Windowing is chosen by dtype: it applies to non-uint8 arrays when enabled (`preprocessing_utils.py:198-203`).
- TTA predictions are made one by one in a loop (`preprocessing_utils.py:282-316`).
- The serving path in `brain_ct_improved.py` has its own 128-pixel preprocessing (`brain_ct_improved.py:455-469`).
- `clean_text` leaves curly quotes unchanged (`generate_pdf.py:49-52`). Lines 49-50 map the ASCII `"` to itself. On lines 51-52 the first `'''` opens a triple-quoted string that the second closes, so that entry's key is the 15-character text `: "'",` followed by a line break and eight spaces, and it maps to `'`. Such text in a document is replaced, and cleaning is not idempotent: `QuoteKeyReassembled` exhibits a text whose cleaning creates the key again.
- The Grad-CAM explanation of `gradcam_utils.py` fails when the overlay of the original image raises: for a 4-channel original, and for a 2-D original whose element type `cvtColor` does not take.

## Model

| member | source | states |
|---|---|---|
| Preprocessing.ToByteRange | Streamlit/preprocessing_utils.py:86 | the rescale onto bytes: the result is in [0, 255], the low bound maps to 0 and the high bound to 255 |
| Preprocessing.ToByteRangeMonotone | Streamlit/preprocessing_utils.py:86 | the byte rescale never reverses the order of two samples |
| Preprocessing.WindowBounds | Streamlit/preprocessing_utils.py:79-80 | the window center ∓ width // 2 contains its centre and is the configured width wide, less at most the one unit floor division loses |
| Preprocessing.DefaultWindow | Streamlit/preprocessing_utils.py:27-28 | the default brain window (center 40, width 80) is [0, 80] |
| Preprocessing.Clip | Streamlit/preprocessing_utils.py:83 | np.clip: the result lies in the window and equals the sample when the sample is already inside it |
| Preprocessing.WindowSample | Streamlit/preprocessing_utils.py:83-86 | a windowed sample is a byte value in [0, 255] |
| Preprocessing.WindowSampleShape | Streamlit/preprocessing_utils.py:79-86 | samples at or below the low bound become 0, samples at or above the high bound become 255, and the map is monotone |
| Preprocessing.DefaultCenterIs127 | Streamlit/preprocessing_utils.py:79-86 | with the default window the centre value 40 maps to 127 (127.5 truncated) |
| Preprocessing.ApplyBrainWindowing | Streamlit/preprocessing_utils.py:68-88 | the windowed image is uint8 with the input's shape, and every sample is the windowed input sample |
| Preprocessing.MapPixels | Streamlit/preprocessing_utils.py:86 | an element-wise numpy expression keeps the shape and applies the function to each sample |
| Preprocessing.SampleRange | Streamlit/preprocessing_utils.py:104-105 | image.min() and image.max() bound every sample, and both are attained |
| Preprocessing.NormalizeCt | Streamlit/preprocessing_utils.py:90-112 | fails exactly for an empty non-uint8 array (numpy's min of nothing); otherwise returns a uint8 image of the same shape |
| Preprocessing.NormalizeKeepsBytes | Streamlit/preprocessing_utils.py:101-102 | a uint8 image is returned unchanged |
| Preprocessing.NormalizeConstant | Streamlit/preprocessing_utils.py:108-109 | a constant non-uint8 image becomes all zeros |
| Preprocessing.Rescale | Streamlit/preprocessing_utils.py:108-111 | keeps the shape, yields bytes, maps each sample in [lo, hi] onto [0, 255] by its distance from lo, or to 0 when lo equals hi |
| Preprocessing.NormalizeRescales | Streamlit/preprocessing_utils.py:104-111 | each sample of a non-uint8 image is mapped onto [0, 255] by the image's own minimum and maximum, or to 0 when they coincide |
| Preprocessing.NonConstantRange | Streamlit/preprocessing_utils.py:104-108 | two different samples make the minimum strictly below the maximum |
| Preprocessing.NormalizeStretches | Streamlit/preprocessing_utils.py:111 | a non-constant image's normalisation contains a 0 (at its minimum) and a 255 (at its maximum) |
| Preprocessing.NormalizeMonotone | Streamlit/preprocessing_utils.py:111 | normalisation keeps the order of any two samples |
| Preprocessing.Replicate | Streamlit/preprocessing_utils.py:124-130 | a gray sample row becomes three equal channels |
| Preprocessing.DropAlpha | Streamlit/preprocessing_utils.py:131-133 | a four-channel sample keeps its first three channels, in order |
| Preprocessing.ToRgb | Streamlit/preprocessing_utils.py:114-136 | gray or one-channel input gets three identical channels; four-channel input loses its alpha; any other layout is returned unchanged with no error |
| Preprocessing.ValidateCt | Streamlit/preprocessing_utils.py:151-173 | valid exactly when the array is non-empty and both sides lie in [64, 4096]; otherwise the first failing rule's message (empty, then too small, then too large) |
| Preprocessing.TooSmallNamesSides | Streamlit/preprocessing_utils.py:167 | the too-small message spells out the shape it saw right after its opening words |
| Preprocessing.ShapeTextSides | Streamlit/preprocessing_utils.py:167 | the shape text is the height in decimal, "x", then the width in decimal |
| Strings.SplitJoin | generate_pdf.py:154 | str.split loses nothing: joining the parts with the separator gives back the line |
| Strings.JoinSplit | generate_pdf.py:154 | splitting a join of separator-free parts gives back exactly those parts |
| Strings.NatToStringRoundTrip | Streamlit/preprocessing_utils.py:167 | the decimal text of a side length reads back as that length |
| Strings.NatToString | Streamlit/preprocessing_utils.py:167 | a non-negative integer is formatted as non-empty decimal digits with no leading zero |
| Preprocessing.LoadImage | Streamlit/preprocessing_utils.py:41-66 | a ".dcm" path (any case) is read as DICOM first; loading fails only when the generic reader fails too, with the "이미지 로드 실패: " prefix |
| Preprocessing.Tone | Streamlit/preprocessing_utils.py:198-203 | the tone step (windowing when enabled for a non-uint8 array, normalisation otherwise) always yields a uint8 image of the input's shape |
| Preprocessing.Batch | Streamlit/preprocessing_utils.py:212-215 | a batch of exactly one image |
| Preprocessing.BatchInUnitRange | Streamlit/preprocessing_utils.py:212 | bytes divided by 255 lie in [0, 1] |
| Preprocessing.PreprocessOutcome | Streamlit/preprocessing_utils.py:175-219 | a load failure propagates; the raw loaded image is validated before any transform and a rejection carries the "이미지 검증 실패: " prefix; otherwise one target-sized image in [0, 1] and the untouched original |
| Preprocessing.Preprocess | Streamlit/preprocessing_utils.py:175-219 | load, validate the raw image, then window, normalise, convert and resize in the source's order; its outcome is stated by PreprocessOutcome |
| Preprocessing.BytesIgnoreWindowing | Streamlit/preprocessing_utils.py:198-203 | for a uint8 source the windowing switch does not change the result |
| Preprocessing.AugmentedBatch | Streamlit/preprocessing_utils.py:301-310 | an augmented copy skips validation and windowing and still yields one image in [0, 1] |
| Preprocessing.MeanInUnitRange | Streamlit/preprocessing_utils.py:316 | the mean of probabilities is a probability |
| Preprocessing.PredictWithTta | Streamlit/preprocessing_utils.py:262-316 | fails exactly when the first preprocess fails; otherwise averages max(1, n) predictions, the first from the full pipeline and the rest from augmented copies of the original |
| CamMath.PooledGrads | Streamlit/gradcam_utils.py:102 | one pooled weight per channel |
| CamMath.PooledUniform | Streamlit/gradcam_utils.py:102 | a channel whose gradient is the same everywhere pools to that value, so the pooling is a mean |
| CamMath.Weigh | Streamlit/gradcam_utils.py:109-110 | each channel of a cell is scaled by its own pooled weight |
| CamMath.WeighedSumIsDot | Streamlit/gradcam_utils.py:109-113 | the summed weighted channels of a cell are the dot product of the weights and the activations |
| CamMath.RawMap | Streamlit/gradcam_utils.py:113 | the pre-ReLU map has the spatial shape of the activations |
| CamMath.CamCellIsDot | Streamlit/gradcam_utils.py:102-113 | each cell is Σ_c pooled[c] · A[i, j, c] |
| CamMath.Relued | Streamlit/gradcam_utils.py:116 | ReLU keeps the shape |
| CamMath.GridMax | Streamlit/gradcam_utils.py:119 | heatmap.max(): no cell exceeds it and some cell holds it |
| CamMath.GridMaxUnique | Streamlit/gradcam_utils.py:119 | a held value that no cell exceeds is the maximum |
| CamMath.NormalizedInUnitRange | Streamlit/gradcam_utils.py:116-122 | after ReLU and division by a positive maximum every value is in [0, 1] and the maximum becomes 1; an all-zero map is returned as is |
| CamMath.HeatmapInUnitRange | Streamlit/gradcam_utils.py:102-122 | every heatmap value is in [0, 1]; the maximum is 1 when some reduced cell is positive, and the map is all zero otherwise |
| CamMath.MeanAndSumAgree | Streamlit/brain_ct_improved.py:522-525 | the channel mean of the improved app and the channel sum of gradcam_utils.py give the same normalised heatmap |
| CamMath.GridMaxScaled | Streamlit/brain_ct_improved.py:522-524 | dividing a map by the channel count divides its maximum by the same count |
| CamMath.ScaledMapsNormalizeAlike | Streamlit/brain_ct_improved.py:522-525 | a rectified map and its positive rescaling normalise to the same heatmap |
| CamMath.WeighChannels | Streamlit/gradcam_utils.py:109-110 | the in-place loop leaves every activation multiplied by its channel's pooled weight |
| CamMath.RectifiedMap | Streamlit/gradcam_utils.py:113-116 | a fresh map whose cells are the rectified channel reductions |
| CamMath.DivideByMax | Streamlit/gradcam_utils.py:119-120 | the in-place division leaves the array equal to the normalised map of its old contents |
| CamMath.GenerateHeatmap | Streamlit/gradcam_utils.py:102-122 | succeeds exactly for a non-empty spatial grid and then holds the Grad-CAM heatmap of the old activations and pooled gradients |
| CamMath.HotCells | Streamlit/gradcam_utils.py:238-239 | np.where(heatmap >= t): every listed cell is inside the map and at or above t |
| CamMath.HotCellsComplete | Streamlit/gradcam_utils.py:238-239 | every cell at or above t is listed |
| CamMath.HotCellsNonEmpty | Streamlit/gradcam_utils.py:234-239 | a rectified non-empty map always has a cell at or above 70 % of its maximum |
| CamMath.TruncatedMeanInside | Streamlit/gradcam_utils.py:242-243 | int(np.mean) of coordinates inside [0, n - 1] lies inside [0, n) |
| CamMath.CentroidInside | Streamlit/gradcam_utils.py:242-243 | the centroid of non-empty in-range cells lies inside the map |
| CamMath.HotCentroidInside | Streamlit/gradcam_utils.py:234-249 | a rectified map always has a hot centroid, inside the map, so the whole-area fallback is never taken |
| CamMath.TruncatedMeanBetween | Streamlit/gradcam_utils.py:242-243 | int(np.mean) of coordinates between two whole numbers stays between them |
| CamMath.CentroidInThird | Streamlit/gradcam_utils.py:241-247 | cells that all lie in one column third and one row third have their truncated centroid in those thirds |
| CamMath.HotCentroidInThird | Streamlit/gradcam_utils.py:233-247 | when every cell at or above 0.7 × the maximum lies in one column third and one row third, the hot centroid exists and lies in those thirds |
| CamMath.HotCentroid | Streamlit/gradcam_utils.py:234-243 | the truncated mean row and column of the cells at or above 0.7 × the maximum, or none without such a cell; HotCentroidInside states that a rectified map always has one, inside the map |
| CamMath.Heatmap | Streamlit/gradcam_utils.py:102-122 | a grid of the activations' shape; HeatmapInUnitRange states it lies in [0, 1], reaches 1 unless it is all zero, and MeanAndSumAgree that the channel reduction does not change it |
| CamMath.NegativeMapHasNoHotCell | Streamlit/gradcam_utils.py:234-249 | an all-negative map, which ReLU rules out, has no hot cell and would need the fallback |
| CamMath.ColumnOf | Streamlit/gradcam_utils.py:293-302 | left exactly when x < w / 3, right exactly when x > 2w / 3, center otherwise, with the boundaries going to center |
| CamMath.RowOf | Streamlit/gradcam_utils.py:294-310 | the same three-way split for rows: upper, lower, middle |
| CamMath.ThirdsMonotone | Streamlit/gradcam_utils.py:293-310 | moving right or down never moves to a third further left or up |
| GradCam.FindLastConvLayer | Streamlit/gradcam_utils.py:48-60 | the last layer in model order whose probed output is 4-D; layers whose probe throws are skipped; fails with the message exactly when none qualifies |
| GradCam.PredictedClass | Streamlit/gradcam_utils.py:195 | hemorrhage exactly when the output is at or above the threshold |
| GradCam.Confidence | Streamlit/gradcam_utils.py:211 | the larger of p and 1 − p, hence at least 0.5 |
| GradCam.ConfidenceIgnoresThreshold | Streamlit/gradcam_utils.py:195-211 | with another threshold, a hemorrhage call can be reported with the normal probability as its confidence |
| GradCam.ConfidenceOfDefaultThreshold | Streamlit/gradcam_utils.py:195-211 | at threshold 0.5 the confidence is the probability of the predicted class |
| GradCam.RegionAlwaysMapped | Streamlit/gradcam_utils.py:313-325 | every pair of thirds is in the table, so the "{lr} {tb}" fallback never happens and no name is the whole area |
| GradCam.LocalizeBrainRegion | Streamlit/gradcam_utils.py:279-325 | every centre point, whatever its coordinates, gets one of the nine anatomical names, never the whole-area text |
| GradCam.HeatmapRegionNamed | Streamlit/gradcam_utils.py:231-249 | the region of a rectified heatmap is always one of the nine anatomical names |
| GradCam.HeatmapRegion | Streamlit/gradcam_utils.py:233-249 | the whole-area text exactly when no cell is at or above 0.7 × the maximum; otherwise one of the nine anatomical names |
| GradCam.HotSpotRegion | Streamlit/gradcam_utils.py:233-249 | when every hot cell lies in one pair of thirds, the reported region is the anatomical name of that pair |
| GradCam.ExplanationMentions | Streamlit/gradcam_utils.py:252-275 | the hemorrhage text names the confidence and the region; the normal text names the confidence and does not depend on the region |
| GradCam.ExplanationText | Streamlit/gradcam_utils.py:252-277 | the stripped hemorrhage or normal text; ExplanationMentions states what each names |
| GradCam.GenerateExplanationText | Streamlit/gradcam_utils.py:218-277 | the text always states the confidence as a percentage, and for a hemorrhage it names the heatmap's region |
| GradCam.ExplainPrediction | Streamlit/gradcam_utils.py:190-215 | returns the class, the confidence, the heatmap of the activations and its explanation; fails exactly for an empty spatial grid or an original the overlay refuses, the latter with the overlay failure |
| GradCam.OverlayRefusals | Streamlit/gradcam_utils.py:155-169 | a 4-channel original and a 2-D original of another depth than 8U, 16U and 32F are refused; a uint8 gray and any 3-channel original are accepted |
| GradCam.OriginalScaling | Streamlit/gradcam_utils.py:161-166 | uint8 originals are kept; float originals with maximum ≤ 1 are scaled by 255 before the cast; other floats are cast directly |
| GradCam.CastToByte | Streamlit/gradcam_utils.py:164-166 | the uint8 cast yields a byte and truncates values already in [0, 256) |
| GradCam.OriginalAsBytes | Streamlit/gradcam_utils.py:161-166 | fails only for an empty float original (numpy's max of nothing); otherwise one byte per sample |
| GradCam.UnitImageSpread | Streamlit/gradcam_utils.py:163-164 | a float image in [0, 1] is spread over the byte range: 0 stays 0 and 1 becomes 255 |
| GradCam.BlendWeights | Streamlit/gradcam_utils.py:169 | the overlay weights are (1 − alpha, alpha) and sum to 1 |
| GradCam.BlendBetween | Streamlit/gradcam_utils.py:169 | with alpha in [0, 1] the blended sample lies between the original and the coloured sample |
| ImprovedApp.LabelOf | Streamlit/brain_ct_improved.py:476-477 | normal exactly when p ≥ 0.5 |
| ImprovedApp.ConfidenceOf | Streamlit/brain_ct_improved.py:478 | the probability of the chosen label, hence at least 0.5 |
| ImprovedApp.LabelsDisagree | Streamlit/brain_ct_improved.py:477 | for every output, gradcam_utils.py says hemorrhage exactly when this app says normal, with the same confidence |
| ImprovedApp.SevenTenthsDisagree | Streamlit/brain_ct_improved.py:477 | an output of 0.7 is hemorrhage in one file and normal in the other |
| ImprovedApp.BandOf | Streamlit/brain_ct_improved.py:612-620 | high exactly at c ≥ 0.8, medium exactly at 0.6 ≤ c < 0.8, low exactly below 0.6 |
| ImprovedApp.BandMonotone | Streamlit/brain_ct_improved.py:612-620 | a higher confidence never gets a lower band |
| ImprovedApp.Percentages | Streamlit/brain_ct_improved.py:635-636 | the two percentages sum to 100, and the chosen label's one is its confidence × 100 |
| ImprovedApp.TargetIsHemorrhageProbability | Streamlit/brain_ct_improved.py:481-509 | whenever Grad-CAM runs, the explained scalar is 1 − p, the hemorrhage confidence |
| ImprovedApp.TargetScore | Streamlit/brain_ct_improved.py:506-510 | 1 − output for the hemorrhage label and the output otherwise; TargetIsHemorrhageProbability states that it is the hemorrhage confidence whenever Grad-CAM runs |
| ImprovedApp.FindConvLayer | Streamlit/brain_ct_improved.py:488-495 | none exactly when no lower-cased name contains "conv"; otherwise the last such name |
| ImprovedApp.RegionTextDiffersFromAnatomicalName | Streamlit/brain_ct_improved.py:548-562 | for the same thirds, this app's "<column> <row>" text never equals gradcam_utils.py's anatomical name |
| ImprovedApp.RegionText | Streamlit/brain_ct_improved.py:536-564 | the whole-area text exactly when no cell is hot; otherwise a column third's name, a space and a row third's name |
| ImprovedApp.HotSpotRegionText | Streamlit/brain_ct_improved.py:536-564 | when every hot cell lies in one pair of thirds, the region text names that column third and row third |
| ImprovedApp.HemorrhageExplanation | Streamlit/brain_ct_improved.py:566-572 | the hemorrhage text names the region, right after its heading |
| ImprovedApp.GradCamStep | Streamlit/brain_ct_improved.py:481-588 | skipped exactly for a normal label; with no conv layer, Grad-CAM is disabled with the message and the analysis is not aborted; when shown, the layer is the last one whose lower-cased name contains "conv", with the channel-mean heatmap of the old activations, its region text and the hemorrhage explanation; shown whenever it runs with a conv layer and a non-empty map |
| ImprovedApp.ShownRegionNamesThirds | Streamlit/brain_ct_improved.py:536-564 | a shown heatmap always names a column and a row third, never the whole area |
| MarkdownPdf.TableWellFormed | generate_pdf.py:14-63 | every one-character key other than the ASCII quote is non-ASCII and every substitute is ASCII, both before and after the quote lines |
| MarkdownPdf.Lookup | generate_pdf.py:14-63 | the substitute of a tabled symbol, and nothing for any other character |
| MarkdownPdf.ReplaceExtends | generate_pdf.py:64-65 | one more str.replace extends the substitution by one table entry, since no key occurs in an earlier substitute |
| MarkdownPdf.ReplaceStr | generate_pdf.py:65 | Python's `str.replace`: text without the pattern is unchanged, and every character of the result comes from the text or the replacement |
| MarkdownPdf.ReplaceStrSingle | generate_pdf.py:65 | with a one-character pattern, `str.replace` is the character replacement |
| MarkdownPdf.ReplaceCharSelf | generate_pdf.py:49-50 | the entry mapping the ASCII `"` to itself changes nothing |
| MarkdownPdf.CleanStep | generate_pdf.py:64-65 | each pass of the loop over the dictionary's items, in insertion order, takes the text one entry further: the symbols, the `"` entry, the three-line quote key, then the brackets |
| MarkdownPdf.ReplaceAll | generate_pdf.py:64-65 | the loop over a dictionary's items applies `str.replace` item by item, in order |
| MarkdownPdf.ReplaceAllUpTo | generate_pdf.py:64-65 | the first k passes over the dictionary as written reach the k-th stage of Clean; all its keys are non-empty |
| MarkdownPdf.CleanText | generate_pdf.py:13-66 | the replace loop over the dictionary as written computes Clean: the symbols substituted, then the quote key of lines 51-52 replaced, then the brackets substituted |
| MarkdownPdf.CleanTextSpec | generate_pdf.py:13-66 | no tabled symbol survives; ASCII text is changed only where the quote key occurs; a result without the quote key is cleaned to itself |
| MarkdownPdf.CleanOfAscii | generate_pdf.py:49-52 | on ASCII text, cleaning is exactly the replacement of the quote key |
| MarkdownPdf.ReplaceReassembles | generate_pdf.py:65 | replacing a pattern can create it anew from the text around an occurrence |
| MarkdownPdf.QuoteKeyReassembled | generate_pdf.py:51-52 | cleaning the quote key with its first three characters before it and its last eleven after it yields the quote key, and cleaning again yields a single quote, so clean_text is not idempotent |
| MarkdownPdf.CurlyQuotesKept | generate_pdf.py:49-52 | curly quotes pass through clean_text unchanged, while the table with curly-quote keys would remove them |
| MarkdownPdf.Substitute | generate_pdf.py:13-66 | every character replaced by its table image at once; SubstituteRemovesKeys, SubstituteKeepsOthers, SubstituteAppend and SubstituteIdempotent state its properties |
| MarkdownPdf.SubstituteIdempotent | generate_pdf.py:13-66 | substitution is idempotent for a table with ASCII substitutes |
| MarkdownPdf.SubstituteRemovesKeys | generate_pdf.py:64-65 | no key of the table survives |
| MarkdownPdf.SubstituteKeepsOthers | generate_pdf.py:64-65 | text without keys is left unchanged |
| MarkdownPdf.SubstituteKeepsAbsent | generate_pdf.py:64-65 | a non-ASCII character absent from the text is absent after a substitution with ASCII substitutes |
| MarkdownPdf.SubstituteAppend | generate_pdf.py:64-65 | substitution works character by character: it distributes over concatenation |
| MarkdownPdf.StripPairsDelimited | generate_pdf.py:171-173 | a delimited word loses its two delimiters |
| MarkdownPdf.StripPairsNoDelimiter | generate_pdf.py:171-173 | text without the delimiter passes through unchanged |
| MarkdownPdf.StripPairs | generate_pdf.py:171-173 | never longer than its input; StripPairsDelimited and StripPairsNoDelimiter state what it removes and keeps |
| MarkdownPdf.StripMarkup | generate_pdf.py:171-173 | bold, then italics, then code pairs removed; MarkupRemoved states the result for marked-up words |
| MarkdownPdf.MarkupRemoved | generate_pdf.py:171-173 | bold, italic and code words are shown without their markup |
| MarkdownPdf.ItalicHasNoBold | generate_pdf.py:171-172 | an italic word holds no bold delimiter, so the bold pass leaves it for the italic pass |
| MarkdownPdf.Truncate | generate_pdf.py:158 | cell[:30]: a prefix of at most 30 characters, the whole cell when it fits |
| MarkdownPdf.TableLine | generate_pdf.py:150-159 | a row of truncated cells exactly when some cell has content other than dashes and white space |
| MarkdownPdf.RowFromParts | generate_pdf.py:154-158 | one cell per interior part, each stripped and truncated |
| MarkdownPdf.TableRowCells | generate_pdf.py:154-158 | a shown table line has one cell per gap between pipes |
| MarkdownPdf.TableCells | generate_pdf.py:154 | the stripped texts between consecutive pipes; ClosedRowCells and OpenRowCells state which cells a row yields |
| MarkdownPdf.ClosedRowCells | generate_pdf.py:154 | a row with a pipe before, between and after its cells yields exactly those cells, stripped |
| MarkdownPdf.OpenRowCells | generate_pdf.py:154 | a row without its closing pipe yields its stripped cells except the last |
| MarkdownPdf.SeparatorRowHidden | generate_pdf.py:154-155 | a closed row shows nothing if and only if every cell, stripped, is only dashes and white space |
| MarkdownPdf.DashesAreSeparator | generate_pdf.py:155 | "---" holds no pipe and is a separator cell, so a closed row of such cells is hidden |
| MarkdownPdf.OpenRowLosesLastCell | generate_pdf.py:154-159 | a row without a closing pipe shows what the closed row without its last cell shows, so an open two-cell row shows only its first cell |
| MarkdownPdf.HeadingLevels | generate_pdf.py:124-174 | one to four hashes give a heading of that level without the prefix; five fall through to plain text |
| MarkdownPdf.BulletLines | generate_pdf.py:160-164 | "- " and "* " lines become an indented "  * " bullet |
| MarkdownPdf.RuleAndBlankLines | generate_pdf.py:165-167 | "---" only adds space, and a blank line adds nothing |
| MarkdownPdf.Classify | generate_pdf.py:124-174 | headings, table line, bullet, rule and paragraph in the loop's order; HeadingLevels, BulletLines and RuleAndBlankLines state its cases |
| MarkdownPdf.Step | generate_pdf.py:105-174 | an iteration only appends to the output and keeps the buffer empty outside a code block |
| MarkdownPdf.RunFrom | generate_pdf.py:105-174 | running the loop only appends to the output and keeps the buffer empty outside a code block |
| MarkdownPdf.RunFromAppend | generate_pdf.py:105 | the loop over two chunks of lines is the loop over the first, continued by the second |
| MarkdownPdf.RunInCode | generate_pdf.py:120-122 | inside a code block, non-fence lines are only buffered, verbatim and in order |
| MarkdownPdf.CodeBlockVerbatim | generate_pdf.py:106-122 | a fenced block is emitted once, at its closing fence, holding exactly its lines; the fences are never emitted |
| MarkdownPdf.UnterminatedBlockDropped | generate_pdf.py:102-122 | a block whose closing fence never comes adds nothing to the output |
| MarkdownPdf.RenderLines | generate_pdf.py:102-174 | the loop emits what the step-by-step reference run emits |
| MarkdownPdf.Convert | generate_pdf.py:97-178 | the whole document is cleaned as written, split on newlines and run through the line loop |
| SignupForm.EmailOkIsPattern | Streamlit/pages/signup.py:259-260 | the hand-written matcher accepts exactly what the e-mail pattern (with re.match and $) accepts |
| SignupForm.EmailOk | Streamlit/pages/signup.py:259-260 | the matcher, allowing one final newline as $ does; EmailOkIsPattern states that it accepts exactly what the pattern accepts |
| SignupForm.EmailBodyOkIsPattern | Streamlit/pages/signup.py:259 | the matcher accepts exactly the strings the pattern's body describes |
| SignupForm.MatcherSound | Streamlit/pages/signup.py:259 | what the matcher accepts splits into a local part, "@", a domain, "." and at least two letters |
| SignupForm.MatcherComplete | Streamlit/pages/signup.py:259 | every such split is accepted by the matcher |
| SignupForm.LastIndexOf | Streamlit/pages/signup.py:259 | the last occurrence of a character, or none when it is absent |
| SignupForm.TrailingNewlineAccepted | Streamlit/pages/signup.py:260 | an accepted address followed by one newline is still accepted |
| SignupForm.UsernameCheck | Streamlit/pages/signup.py:236-239 | accepted exactly when 4 ≤ length ≤ 20; the "missing" error exactly for the empty string |
| SignupForm.PasswordCheck | Streamlit/pages/signup.py:241-244 | accepted exactly when length ≥ 6; "missing" exactly for the empty string |
| SignupForm.ConfirmCheck | Streamlit/pages/signup.py:246-249 | accepted exactly when it is non-empty and equals the password |
| SignupForm.NameCheck | Streamlit/pages/signup.py:251-254 | accepted exactly when length ≥ 2, with no upper bound |
| SignupForm.EmailCheck | Streamlit/pages/signup.py:256-261 | accepted exactly when the pattern matches; "missing" exactly for the empty string |
| SignupForm.Checks | Streamlit/pages/signup.py:234-261 | five checks in field order, each reporting only its own field |
| SignupForm.CollectMembers | Streamlit/pages/signup.py:234-261 | an error is listed exactly when some check reports it |
| SignupForm.CollectEmpty | Streamlit/pages/signup.py:264 | the list is empty exactly when every check passes |
| SignupForm.CollectOrdered | Streamlit/pages/signup.py:234-261 | at most one error per field, in field order |
| SignupForm.ErrorsSpec | Streamlit/pages/signup.py:234-261 | no errors exactly for an acceptable form; at most one error per field, in field order |
| SignupForm.Errors | Streamlit/pages/signup.py:234-261 | the checks' errors collected in field order; ErrorsSpec states when it is empty and its order |
| SignupForm.Validate | Streamlit/pages/signup.py:234-261 | the append sequence builds exactly the specified error list |
| SignupForm.Submit | Streamlit/pages/signup.py:263-270 | the signup call is made exactly when the form is acceptable, with its four fields |
| SignupForm.HintsAgreeWithErrors | Streamlit/pages/signup.py:196-225 | the live mismatch hint and e-mail warning agree with the submit-time errors |
| SignupForm.MatchHint | Streamlit/pages/signup.py:197-201 | shown once both password fields hold text, telling whether they agree; HintsAgreeWithErrors relates it to the submit-time errors |
| SignupForm.EmailWarning | Streamlit/pages/signup.py:222-225 | shown for a non-empty e-mail the pattern refuses; HintsAgreeWithErrors states it shows exactly when submitting reports a malformed e-mail |
| SignupForm.BlankUsernameAccepted | Streamlit/pages/signup.py:236 | white space is not emptiness: four spaces pass the username check |
| SignupForm.AddressAccepted | Streamlit/pages/signup.py:259-260 | an ordinary address passes, with or without a final newline |
| SignupForm.SecondAtRefused | Streamlit/pages/signup.py:259-260 | an address with two "@" is refused |
| AuthSession.InitIdempotentAndPreserving | Streamlit/auth_utils.py:59-89 | init_session fills every missing key, never overwrites a present one (so never logs anybody out) and is idempotent |
| AuthSession.Init | Streamlit/auth_utils.py:59-89 | fills each missing key with its default; InitIdempotentAndPreserving states its properties |
| AuthSession.IsLoggedIn | Streamlit/auth_utils.py:92-110 | the flag is set and a token is stored; FreshSessionLoggedOut and LogoutLogsOut state when it is false |
| AuthSession.UserName | Streamlit/auth_utils.py:113-128 | the stored user's name, or none without user information; FreshSessionLoggedOut and LogoutLogsOut state when it is none |
| AuthSession.Username | Streamlit/auth_utils.py:131-141 | the stored user's username, or none without user information; LoginOutcome states it is the reply's username after a successful login, FreshSessionLoggedOut and LogoutLogsOut that it is none |
| AuthSession.StoredToken | Streamlit/auth_utils.py:144-156 | `session_state.get('jwt_token')`: the stored token, or none when the key is missing; LoginOutcome states it is the reply's token after a successful login, FreshSessionLoggedOut and LogoutLogsOut that it is none, ValidateOutcome that no request is sent without it |
| AuthSession.CurrentPage | Streamlit/auth_utils.py:405-412 | the stored page, defaulting to the login page; FreshSessionLoggedOut and LogoutLogsOut state that it is the login page there |
| AuthSession.FreshSessionLoggedOut | Streamlit/auth_utils.py:59-156 | a fresh session is logged out, knows no user, holds no token and shows the login page |
| AuthSession.LoginOutcome | Streamlit/auth_utils.py:162-229 | only a successful reply changes the session: it stores the reply's token, username, name and the flag; the current page is never touched; errors leave the session unchanged and report failure |
| AuthSession.LoginEffect | Streamlit/auth_utils.py:162-229 | the new session and the reply of login; LoginOutcome states them |
| AuthSession.LogoutLogsOut | Streamlit/auth_utils.py:232-246 | after logout nobody is logged in, no user or token is stored and the login page is current |
| AuthSession.LogoutEffect | Streamlit/auth_utils.py:232-246 | every key set to its logged-out value; LogoutLogsOut states the result |
| AuthSession.ValidateOutcome | Streamlit/auth_utils.py:307-354 | with no token (missing, None or empty) it fails without calling the server; an unsuccessful reply logs out; a success or an exception leaves the session as is |
| AuthSession.ValidateEffect | Streamlit/auth_utils.py:307-354 | the new session, the reply and the header sent by validate_token; ValidateOutcome states them |
| AuthSession.SignupCall | Streamlit/auth_utils.py:249-304 | signup returns the server's reply or a failure, and takes no session |
| AuthSession.Session.constructor | Streamlit/auth_utils.py:59 | a new browser session holds no keys |
| AuthSession.Session.InitSession | Streamlit/auth_utils.py:59-89 | the new state is init_session of the old |
| AuthSession.Session.Login | Streamlit/auth_utils.py:162-229 | the new state and the reply are login's effect on the old state |
| AuthSession.Session.Logout | Streamlit/auth_utils.py:232-246 | the new state is logout's effect |
| AuthSession.Session.ValidateToken | Streamlit/auth_utils.py:307-354 | the new state, the reply and the token sent are validate_token's effect |
| AuthSession.Session.GoToSignup | Streamlit/auth_utils.py:381-390 | only the current page changes, to signup |
| AuthSession.Session.GoToLogin | Streamlit/auth_utils.py:393-402 | only the current page changes, to login |
| AuthService.SignupKeepsUnique | backend/src/main/java/com/brain/hemorrhage/service/AuthService.java:82-115 | a duplicate username fails first with its message and leaves the table alone; a new username with a taken e-mail fails likewise; a success adds exactly one user with the request's fields and the encoded password; usernames and e-mails stay unique |
| AuthService.SignupOutcome | backend/src/main/java/com/brain/hemorrhage/service/AuthService.java:82-115 | the reply and the new table of signup; SignupKeepsUnique states them |
| AuthService.LoginSucceedsIffKnownAndMatching | backend/src/main/java/com/brain/hemorrhage/service/AuthService.java:132-162 | succeeds exactly for a known user whose password matches, with a token for that user; an unknown user and a wrong password get the same failure |
| AuthService.LoginReply | backend/src/main/java/com/brain/hemorrhage/service/AuthService.java:132-162 | the reply of login; LoginSucceedsIffKnownAndMatching states when it succeeds and what it carries |
| AuthService.ValidateReply | backend/src/main/java/com/brain/hemorrhage/service/AuthService.java:173-195 | succeeds exactly when the token is valid and its subject is a user, with that user's username and name and no token; otherwise the invalid-token failure |
| AuthService.Service.constructor | backend/src/main/java/com/brain/hemorrhage/service/AuthService.java:53-65 | an empty table with the given collaborators |
| AuthService.Service.Signup | backend/src/main/java/com/brain/hemorrhage/service/AuthService.java:82-115 | the reply and the new table are signup's outcome on the old table, and uniqueness is kept |
| AuthService.Service.Login | backend/src/main/java/com/brain/hemorrhage/service/AuthService.java:132-162 | read-only: succeeds exactly for a known user with a matching password |
| AuthService.Service.ValidateToken | backend/src/main/java/com/brain/hemorrhage/service/AuthService.java:173-195 | succeeds exactly when the token is valid and its subject is a user, replying with that user's username and name |
| JwtFilter.ExtractToken | backend/src/main/java/com/brain/hemorrhage/security/JwtAuthenticationFilter.java:139-149 | a token exactly when the header has text and starts with "Bearer " (case-sensitive), and the header is the prefix followed by the token |
| JwtFilter.HasText | backend/src/main/java/com/brain/hemorrhage/security/JwtAuthenticationFilter.java:144 | StringUtils.hasText: present and holding a non-white-space character; BlankBearerNotAuthenticated states that white space alone fails it |
| JwtFilter.ExtractAfterPrefix | backend/src/main/java/com/brain/hemorrhage/security/JwtAuthenticationFilter.java:144-145 | round trip: whatever follows "Bearer " is returned unchanged |
| JwtFilter.LowerCaseSchemeRefused | backend/src/main/java/com/brain/hemorrhage/security/JwtAuthenticationFilter.java:144 | a lower-case "bearer" scheme yields no token |
| JwtFilter.AuthenticatedOnlyWithValidToken | backend/src/main/java/com/brain/hemorrhage/security/JwtAuthenticationFilter.java:85-111 | authentication is set exactly for an extracted token with text that validates and whose subject parses, with that subject as principal and no authorities |
| JwtFilter.Authenticate | backend/src/main/java/com/brain/hemorrhage/security/JwtAuthenticationFilter.java:85-111 | what the filter installs; AuthenticatedOnlyWithValidToken states when and what |
| JwtFilter.BlankBearerNotAuthenticated | backend/src/main/java/com/brain/hemorrhage/security/JwtAuthenticationFilter.java:88-145 | "Bearer " followed only by white space authenticates nobody |
| JwtFilter.DoFilterInternal | backend/src/main/java/com/brain/hemorrhage/security/JwtAuthenticationFilter.java:77-125 | the chain is called exactly once on every path; the context gets the authentication when there is one and is left alone otherwise |
| JwtFilter.SecurityContext.constructor | backend/src/main/java/com/brain/hemorrhage/security/JwtAuthenticationFilter.java:111 | a context starts without authentication |
| JwtFilter.FilterChain.constructor | backend/src/main/java/com/brain/hemorrhage/security/JwtAuthenticationFilter.java:124 | a chain starts uncalled |
| MyPage.PatientOptionsLastWins | Streamlit/pages/mypage.py:237 | a label is offered exactly when some patient has it, and it selects the last such patient |
| MyPage.PatientOptions | Streamlit/pages/mypage.py:237 | the dict comprehension over the patients; PatientOptionsLastWins states which labels it offers and which patient each selects |
| MyPage.BadgeOf | Streamlit/pages/mypage.py:301 | the red badge exactly for the result "hemorrhage" |
| MyPage.BuildTable | Streamlit/pages/mypage.py:299-308 | one row per record, in record order |
| MyPage.RowOf | Streamlit/pages/mypage.py:299-308 | one record's row: its date, the red badge exactly for "hemorrhage", its probability × 100 rounded to a whole percent, its volume and its location; BuildTable states the table is these rows in order |
| MyPage.RoundHalfEven | Streamlit/pages/mypage.py:305 | the `.0f` format: within one half of the value, and even on a tie |
| MyPage.PercentShownInRange | Streamlit/pages/mypage.py:305 | a probability in [0, 1] is shown as a whole percentage from 0 to 100 |
| MyPage.FindRecord | Streamlit/pages/mypage.py:344-345 | the first record in list order with the selected date, or none exactly when no record has it |
| MyPage.Compare | Streamlit/pages/mypage.py:395-411 | the change is current − previous; the percent is change / previous × 100 for a positive baseline and 0 otherwise; improved, worse or stable exactly as the volume falls, rises or stays |
| MyPage.CompareWithItself | Streamlit/pages/mypage.py:395-411 | a scan compared with itself shows no change |
| MyPage.CompareSwapped | Streamlit/pages/mypage.py:395-411 | swapping the scans negates the change and swaps improved and worse |
| MyPage.History | Streamlit/pages/mypage.py:256-439 | no records gives the "no records" view, one record the table only, two or more the table plus a comparison exactly when both selected dates find a record |
| MyPage.SelectedDatesAlwaysCompared | Streamlit/pages/mypage.py:325-347 | dates offered by the selectors always find their records, so the comparison is shown |

## Left out

- GradCam.ExplainPrediction: the overlay image is not computed. Only whether `overlay_heatmap` raises is modelled: for a 4-channel original at `addWeighted`, and for a 2-D original of any depth but 8U, 16U and 32F (an int16 DICOM, int32 or float64) at `cvtColor`. The failure text stands for the OpenCV exception.
- Preprocessing.NormalizeCt: an integer array's max − min is assumed to fit its own dtype. The source subtracts in that dtype, so for example an int16 image holding -20000, 0 and 20000 wraps around there; the model subtracts in unbounded reals. Only uint8 and "any other dtype" are distinguished.
- Preprocessing.NormalizeRescales: holds only when max − min fits the array's dtype (see NormalizeCt); a wrapped int16 difference would map samples elsewhere.
- Preprocessing.NormalizeStretches: holds only when max − min fits the array's dtype (see NormalizeCt).
- Preprocessing.NormalizeMonotone: holds only when max − min fits the array's dtype (see NormalizeCt); with wrap-around the order need not be kept.
- TensorFlow and Keras are not modelled: model loading, the forward pass, the gradient tape and `preprocess_input`. The sigmoid output, the layer output shapes, the activations and the gradients are inputs.
- OpenCV, PIL and pydicom are not modelled. Decoding is a function that returns an image or an error. `cv2.resize` is a function that promises only the target shape and the dtype. `applyColorMap` and `cvtColor` are not modelled beyond which originals the overlay refuses (`GradCam.OverlayAccepts`). `addWeighted` is modelled before its rounding and saturation.
- Preprocessing.ToByteRange: exact real arithmetic is used, so a float-rounding error that lands just below an integer before the truncating cast is not modelled.
- Preprocessing.ApplyBrainWindowing: a window width below 2 would divide by zero in the source; the model requires width ≥ 2.
- CamMath.Heatmap: a channel mean over zero channels is NaN in numpy; the model requires at least one channel.
- The random flip and rotation of TTA are not modelled; they are a parameter that promises to keep the shape.
- Only the three AuthResponse fields passed by the call at `AuthService.java:162` are modelled. AuthResponse.java defines no three-argument `loginSuccess`.
- Bean Validation annotations on the request classes are enforced by a library that is not part of this model.
- Password encoding (BCrypt) and the JWT provider (signature, clock, subject parsing) are not modelled; they are functions the service and the filter are given.
- HTTP calls in `auth_utils.py` are not modelled; each call's parsed reply or exception is an input. `check_server_health` is not modelled.
- Streamlit rendering, page switching, CSS, `time.sleep` and temporary files are not modelled. The FPDF layout is not modelled either: fonts, cells and page breaks.
- The improved app's serving preprocessing (`brain_ct_improved.py:455-469`) is not modelled. It is a fixed chain of library calls: read, colour conversion, a 128-pixel resize and `preprocess_input`.
- The overlay of the improved app (`brain_ct_improved.py:534`) is not modelled; it is an `addWeighted` with fixed weights 0.6 and 0.4. `gradcam_alpha` is not used by that code.
- The normal-label explanation of the improved app (`brain_ct_improved.py:573-578`) is unreachable, because Grad-CAM runs only for a hemorrhage label. Only the hemorrhage text is modelled.
- The `GradCAM` constructor's choice between a named layer and the search (`gradcam_utils.py:35-36`) is not modelled; only the search is.
- The configured target size is given to `cv2.resize` as (width, height), so the model's batch is target[1] rows by target[0] columns. The source's docstring calls the pair (height, width).
- MarkdownPdf.CleanText: models the dictionary as written, so curly quotes are kept. The curly-quote replacement that `generate_pdf.py:49-52` evidently intends is not part of the model's cleaning; its table (`IntendedTable`) appears only in `CurlyQuotesKept`.
- MyPage.RowOf: the product p × 100 is exact, so a double whose binary value falls just on the other side of a half is not modelled; the "%" and "cc" text formatting is not modelled.
- JwtFilter.DoFilterInternal: a correctly signed token without a subject makes `getSubject()` return null (`JwtTokenProvider.java:126-133`), and the filter would then install an authentication with a null principal (`JwtAuthenticationFilter.java:91-110`). The model's subject is a string or None for a parse failure, so it cannot express that case. The service issues only tokens that have a subject.
- `Model_code/` and `Streamlit/brain_ct.py` are not part of this model. The controller, configuration classes, entity and repository are not part of it either; the user table is a map.
