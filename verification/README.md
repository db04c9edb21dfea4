# Classroom-mode gesture, pose and face-rotation classifiers in Dafny

This project models the decision logic of the classroom-mode camera hooks of
a Vue 3 / MediaPipe application, and proves properties of that logic:

- **The rule-based hand-gesture classifier** (`HandDetector` in
  `use-mediapipe-detector-mode.ts`). Its parts:
  - It picks a hand from a holistic detection, right hand first.
  - It checks that the hand has all 21 landmarks and that at least three of
    its five fingertips are visible.
  - It extracts a feature record (per-finger curvature and extension,
    fingertip distances, hand spread, palm width).
  - A first-match-wins cascade of eight gesture rules (heart, victory, fist,
    thumbs-up, thumbs-down, pointing, OK, open palm) picks the result, or
    nothing.
- **The body-pose classifier** (`detectPose`). It reports RIGHT_HAND_UP,
  LEFT_HAND_UP or NORMAL from the y-coordinates of the shoulders, elbows and
  wrists. The right arm is tested first.
- **The face-rotation classifier** (`detectFaceRotation`). It reports
  RIGHT_ROTATE, LEFT_ROTATE or NONE_ROTATE by thresholding the x-offsets of the
  two temples (landmarks 127 and 356) and the nose tip (landmark 1). A missing
  or empty mesh gives NONE_FACE.
- **The copies of the last two** in the combined mode
  (`use-mediapipe-mode.ts`). These are proved to agree with the originals on
  every input.

Modules, one per component:

| module | file | models |
|---|---|---|
| `Wrappers` | wrappers.dfy | `Option` (absent array entries, `undefined` arguments) |
| `JsNumber` | js_number.dfy | JavaScript numbers that can become NaN or infinite: `/`, `Math.min`, `Math.max`, `Math.abs`, `Math.sign`, IEEE comparisons |
| `Geometry` | geometry.dfy | landmarks, `getDistance`, `Math.sqrt`/`Math.atan2` as parameters, translations |
| `HandFeatures` | hand_features.dfy | `getFingerCurvature`, `getFingerExtension`, `getGestureFeatures` |
| `HandRules` | hand_rules.dfy | `isVictoryGesture`, `isHeartGesture`, `isThumbDown`, the six inline rules (fist, thumbs-up, thumbs-down, pointing, OK, open palm), `recognizeByFeatures` |
| `HandDetector` | hand_detector.dfy | `isLandmarkVisible`, `detect`, `recognizeGesture` |
| `BodyPose` | body_pose.dfy | `BODY_POSE_TYPE`, `BODY_POSE_KEY_POINT_INDEX`, `detectPose` |
| `FaceMesh` | face_mesh.dfy | `ROTATE_DIRECTION`, `_KEY_POINT_INDEX`, `detectFaceRotation` |
| `CombinedMode` | combined_mode.dfy | the duplicated `detectPose` and `detectFaceRotation` |

## Modelling decisions

- **Coordinates and distances** are `real`.
- **Ratios as JavaScript numbers.** The two ratios that divide by a distance
  (curvature and extension) are JavaScript numbers (`JsNumber.Num`: a finite
  real, +Infinity, -Infinity or NaN). So a zero divisor behaves as in the
  source:
  - `x / 0` is ±Infinity, and `0 / 0` is NaN;
  - every comparison with NaN is false;
  - `Math.max(0, Math.min(1, NaN))` is NaN.

  No operation needs a "divisor is positive" precondition.
- **`Math.sqrt` and `Math.atan2`** are fields of a `Numerics` record that is
  passed in. The only fact assumed about `sqrt` is that it never returns a
  negative number; nothing is assumed about `atan2`. `Math.PI` is the exact
  decimal value of the double.
- **Vue `ref` writes** are the functions' return values. A call that throws
  before writing is the `ThrewTypeError` outcome.
- **Optional chaining and truthiness** follow JavaScript:
  - `landmarks[i]?.y` of a missing entry is `undefined`, and a `<` comparison
    with `undefined` is false;
  - any array, even an empty one, is truthy, so `right || left` keeps a
    present right hand however short it is.
- **Division-free partners for the thresholds.** These lemmas restate each
  feature threshold without the division, for all inputs:
  - `ExtensionAbove` and `ExtensionBelow`: the extension exceeds (or is below)
    c exactly when the tip's distance from the wrist exceeds (or is below) c
    times the MCP's distance.
  - `CurvatureAbove`: the curvature exceeds k exactly when the joint path is
    longer than (1 + k) times the chord.
- **The cascade's reference semantics.** `FirstMatch` evaluates an ordered
  rule table first-match-wins. `CascadeIsFirstMatch` proves that the nested
  `if` chain of `recognizeByFeatures` equals that table.

## Behaviour worth knowing

- **Face rotation throws on a short mesh.** `detectFaceRotation` reads
  `landmarks[1].x` and `landmarks[356].x` without optional chaining. On a
  non-empty mesh of at most 356 landmarks, it throws a TypeError and leaves
  the reported direction unchanged. So a non-empty mesh is guaranteed to yield
  one of RIGHT, LEFT or NONE only when it has 357 or more landmarks.
  Both hooks set `refineLandmarks: true`, so MediaPipe returns a 478-point
  mesh and real frames always qualify. The model
  keeps the exception (`FaceMesh.DetectFaceRotation`,
  `FaceMesh.CompleteMeshTurns`).
- **BOTH_HANDS_UP is never produced.** It is declared in both pose enums, but
  no branch of `detectPose` returns it. With both arms up the result is
  RIGHT_HAND_UP.
- **Two thresholds, 0.5 and 0.6.** `HandDetector` declares `threshold = 0.6`
  with a comment calling it the visibility threshold, but `isLandmarkVisible`
  compares with a hard-coded 0.5, and the model uses 0.5 there. The field is
  read only by the holistic hook, which shows a result only when its
  confidence exceeds it. Every result of `detect` has confidence 0.8 or more,
  so that filter never discards one (`HandDetector.ReportedAboveThreshold`).
- **Heart uses `thumbTip.y < wrist.y`, not a geometric "above".** As
  everywhere in the file, "above" means a smaller image y.

## Model

| member | source | states |
|---|---|---|
| `JsNumber.Divide` | src/hooks/use-mediapipe-detector-mode.ts:52 | JavaScript division: finite exactly when the divisor is non-zero; NaN exactly for 0/0; ±Infinity by the sign of a non-zero dividend over zero |
| `JsNumber.DivideAbove` | src/hooks/use-mediapipe-detector-mode.ts:63 | for a non-negative divisor, the quotient exceeds c exactly when the dividend exceeds c times the divisor (infinite and NaN quotients included) |
| `JsNumber.DivideBelow` | src/hooks/use-mediapipe-detector-mode.ts:63 | for a non-negative divisor, the quotient is below c exactly when the dividend is below c times the divisor |
| `JsNumber.ClampUnit` | src/hooks/use-mediapipe-detector-mode.ts:52 | `Math.max(0, Math.min(1, n))`: NaN exactly when n is NaN; otherwise in [0, 1]; the identity on [0, 1]; 1 for n >= 1 or +Infinity; 0 for n <= 0 or -Infinity |
| `JsNumber.ClampIsMaxOfMin` | src/hooks/use-mediapipe-detector-mode.ts:52 | the case-wise clamp equals the composition of the NaN-propagating `Math.min` and `Math.max` |
| `JsNumber.ClampAbove` | src/hooks/use-mediapipe-detector-mode.ts:52 | for 0 <= k < 1, the clamped value exceeds k exactly when the unclamped one does |
| `JsNumber.Abs` | src/hooks/use-mediapipe-detector-mode.ts:130 | `Math.abs`: non-negative and equal to x or -x |
| `JsNumber.Sign` | src/hooks/use-mediapipe-detector-mode.ts:156 | `Math.sign`: one of -1, 0, 1, positive exactly for positive x and zero exactly for zero |
| `Geometry.Distance` | src/hooks/use-mediapipe-detector-mode.ts:22-26 | the distance between two landmarks is never negative |
| `Geometry.DistanceShift` | src/hooks/use-mediapipe-detector-mode.ts:22-26 | moving both points by the same offset leaves their distance unchanged |
| `Geometry.DistanceSymmetric` | src/hooks/use-mediapipe-detector-mode.ts:22-26 | the distance from a to b equals the distance from b to a |
| `HandDetector.IsLandmarkVisible` | src/hooks/use-mediapipe-detector-mode.ts:16-19 | visible exactly when the landmark is absent, has no visibility score, or has a score above 0.5; a present score of at most 0.5 is invisible |
| `HandFeatures.FingerCurvature` | src/hooks/use-mediapipe-detector-mode.ts:41-54 | the curvature is NaN or lies in [0, 1]; it is NaN exactly when both the chord and the joint path are zero |
| `HandFeatures.CurvatureClamp` | src/hooks/use-mediapipe-detector-mode.ts:47-53 | with a non-zero chord the curvature is finite; it is exactly 1 when the excess path is at least the chord, exactly 0 when there is no excess, and otherwise times the chord gives the excess; a zero chord with a non-zero path gives 1 |
| `HandFeatures.CurvatureAbove` | src/hooks/use-mediapipe-detector-mode.ts:41-54 | for 0 <= k < 1, the curvature exceeds k exactly when the joint path is longer than (1 + k) times the MCP-to-tip chord |
| `HandFeatures.FingerExtension` | src/hooks/use-mediapipe-detector-mode.ts:57-64 | the extension is never -Infinity; a finite value is non-negative; it is NaN exactly when both the tip's and the MCP's distances from the wrist are zero |
| `HandFeatures.ExtensionAbove` | src/hooks/use-mediapipe-detector-mode.ts:57-64 | for c >= 0, the extension exceeds c exactly when the tip is more than c times as far from the wrist as the MCP |
| `HandFeatures.ExtensionBelow` | src/hooks/use-mediapipe-detector-mode.ts:57-64 | for c >= 0, the extension is below c exactly when the tip is less than c times as far from the wrist as the MCP |
| `HandFeatures.GestureFeatures` | src/hooks/use-mediapipe-detector-mode.ts:200-228 | every curvature of the record is NaN or in [0, 1]; every extension is NaN, +Infinity or non-negative; every distance is non-negative |
| `HandFeatures.FeaturesShift` | src/hooks/use-mediapipe-detector-mode.ts:200-228 | translating the whole hand leaves the entire feature record unchanged |
| `HandRules.IsVictoryGesture` | src/hooks/use-mediapipe-detector-mode.ts:67-108 | victory requires the index and middle tips above the wrist, a hand spread below 0.18 and an index-middle gap above 0.03 |
| `HandRules.ThumbIndexAngle` | src/hooks/use-mediapipe-detector-mode.ts:128-130 | the absolute bearing difference of the thumb and index tips is non-negative |
| `HandRules.IsHeartGesture` | src/hooks/use-mediapipe-detector-mode.ts:111-197 | heart requires the thumb and index tips above the wrist, closer than 0.2, at a bearing difference strictly between pi/18 and 5pi/6, with a hand spread below 0.5 |
| `HandRules.HeartCongruence` | src/hooks/use-mediapipe-detector-mode.ts:111-197 | the heart rule depends on the raw landmarks only through the tips' distance, bearing difference and offsets from the wrist |
| `HandRules.IsThumbDown` | src/hooks/use-mediapipe-detector-mode.ts:339-361 | thumb-down holds exactly when the thumb tip is below both the IP and MCP joints and the thumb's extension exceeds 1.1 |
| `HandRules.Report` | src/hooks/use-mediapipe-detector-mode.ts:234-333 | every reported record has type 'hand'; its confidence is 0.9 exactly for heart, victory, fist, thumbs-up and thumbs-down, 0.85 exactly for pointing and OK, and 0.8 exactly for open palm |
| `HandRules.ReportInjective` | src/hooks/use-mediapipe-detector-mode.ts:234-333 | two gestures with equal result records are the same gesture |
| `HandRules.FirstMatch` | src/hooks/use-mediapipe-detector-mode.ts:231-336 | a first-match table yields nothing exactly when no rule holds, and otherwise an entry whose rule holds with every earlier rule failing |
| `HandRules.FirstMatchAt` | src/hooks/use-mediapipe-detector-mode.ts:231-336 | in a table without repeats, entry k is the result exactly when its rule holds and all earlier rules fail |
| `HandRules.FirstMatchRank` | src/hooks/use-mediapipe-detector-mode.ts:231-336 | over the priority order, gesture g is the result exactly when g's rule holds and every rule ranked before g fails |
| `HandRules.FirstMatchUnrolled` | src/hooks/use-mediapipe-detector-mode.ts:231-336 | the priority table evaluated first-match-wins is the fixed eight-step nested cascade |
| `HandRules.Classify` | src/hooks/use-mediapipe-detector-mode.ts:231-336 | heart wins whenever it holds; victory is reported exactly when heart fails and victory holds; heart and victory imply their tips above the wrist; fist implies spread < 0.12; open palm implies spread > 0.16; thumbs-up implies no thumb-down; thumbs-down implies thumb-down |
| `HandRules.RecognizeByFeatures` | src/hooks/use-mediapipe-detector-mode.ts:231-336 | a non-null result has type 'hand' and confidence 0.9, 0.85 or 0.8; a heart hand always yields the heart record |
| `HandRules.CascadeIsFirstMatch` | src/hooks/use-mediapipe-detector-mode.ts:231-336 | the nested cascade equals the priority table evaluated first-match-wins |
| `HandRules.PriorityOrder` | src/hooks/use-mediapipe-detector-mode.ts:231-336 | gesture g is reported exactly when g's rule holds and the rule of every gesture ranked before g fails |
| `HandRules.NothingRecognized` | src/hooks/use-mediapipe-detector-mode.ts:231-336 | the cascade yields no gesture, and `recognizeByFeatures` returns null, exactly when none of the eight rules holds |
| `HandRules.CascadeCongruence` | src/hooks/use-mediapipe-detector-mode.ts:231-336 | with equal features, two skeletons that agree on the heart, victory and thumb-down checks get the same result |
| `HandRules.ThumbsExclusive` | src/hooks/use-mediapipe-detector-mode.ts:267-292 | the thumbs-up and thumbs-down rules never both hold |
| `HandDetector.VisibleTips` | src/hooks/use-mediapipe-detector-mode.ts:374-375 | the filtered list is no longer than the tip list and contains exactly the listed tips that are visible |
| `HandDetector.VisibleCount` | src/hooks/use-mediapipe-detector-mode.ts:374-377 | over distinct tips, the filtered list's length is the number of visible tips |
| `HandDetector.ChosenHand` | src/hooks/use-mediapipe-detector-mode.ts:368 | a present right hand is chosen, even an empty one; otherwise the left hand (or none) |
| `HandDetector.RecognizeGesture` | src/hooks/use-mediapipe-detector-mode.ts:384-411 | the result is the first-match evaluation of the priority table on the hand's own features; a non-null result has type 'hand' and a listed confidence |
| `HandDetector.Detect` | src/hooks/use-mediapipe-detector-mode.ts:363-382 | null with no hands, and null for a present right hand shorter than 21 even when a left hand exists; a non-null result passed every gate and has type 'hand'; once the gates pass the result is `recognizeGesture` of the chosen hand |
| `HandDetector.RightHandPriority` | src/hooks/use-mediapipe-detector-mode.ts:364-371 | with a right hand present, replacing the left hand by anything leaves the result unchanged |
| `HandDetector.OccludedHandDeclined` | src/hooks/use-mediapipe-detector-mode.ts:374-379 | fewer than three visible fingertips give null whatever the geometry |
| `HandDetector.VisibleHandClassified` | src/hooks/use-mediapipe-detector-mode.ts:374-381 | a complete hand with three or more visible fingertips is classified by `recognizeGesture` |
| `HandDetector.RulesShift` | src/hooks/use-mediapipe-detector-mode.ts:67-197 | the heart, victory and thumb-down checks are unchanged when the hand is translated |
| `HandDetector.RecognizeShift` | src/hooks/use-mediapipe-detector-mode.ts:384-411 | translating a hand does not change its recognised gesture |
| `HandDetector.DetectShift` | src/hooks/use-mediapipe-detector-mode.ts:363-382 | translating every landmark of the frame does not change the detection |
| `HandDetector.FistGeometry` | src/hooks/use-mediapipe-detector-mode.ts:253-257 | the fist rule holds exactly when each non-thumb finger's joint path exceeds 1.6 times its chord and the thumb-pinky span is below 0.12 |
| `HandDetector.OpenPalmGeometry` | src/hooks/use-mediapipe-detector-mode.ts:322-327 | the open-palm rule holds exactly when each non-thumb tip is more than 1.2 times (the thumb tip 1.1 times) as far from the wrist as its MCP and the span exceeds 0.16 |
| `HandDetector.ThumbsUpGeometry` | src/hooks/use-mediapipe-detector-mode.ts:267-271 | the thumbs-up rule holds exactly when there is no thumb-down, the thumb tip is more than 1.3 times as far from the wrist as the thumb MCP, and each non-thumb finger's joint path exceeds 1.5 times its chord |
| `HandDetector.ThumbsDownGeometry` | src/hooks/use-mediapipe-detector-mode.ts:281-285 | the thumbs-down rule holds exactly when the thumb tip is below its IP and MCP joints, more than 1.1 times as far from the wrist as the thumb MCP, and each non-thumb finger's joint path exceeds 1.5 times its chord |
| `HandDetector.PointingGeometry` | src/hooks/use-mediapipe-detector-mode.ts:295-299 | the pointing rule holds exactly when the index tip is more than 1.3 times as far from the wrist as its MCP, the middle, ring and pinky joint paths exceed 1.5 times their chords, and the thumb's exceeds 1.3 times its chord |
| `HandDetector.OkSignGeometry` | src/hooks/use-mediapipe-detector-mode.ts:309-312 | the OK rule holds exactly when the thumb and index tips are closer than 0.04 and the middle, ring and pinky tips are each more than 1.1 times as far from the wrist as their MCPs |
| `HandDetector.ReportedAboveThreshold` | src/hooks/use-mediapipe-detector-mode.ts:8 | every result `detect` returns has a confidence above the declared 0.6 threshold |
| `BodyPose.YAt` | src/hooks/use-mediapipe-pose.ts:131-134 | `landmarks[i]?.y` is defined exactly for indices inside the list, and then is that landmark's y |
| `BodyPose.ArmUp` | src/hooks/use-mediapipe-pose.ts:130-141 | an arm is up exactly when wrist, elbow and shoulder all exist and wrist and elbow are both above the shoulder |
| `BodyPose.DetectPose` | src/hooks/use-mediapipe-pose.ts:128-153 | RIGHT_HAND_UP exactly when 16 and 14 are above 12; LEFT_HAND_UP exactly when the right arm is not up and 15 and 13 are above 11; NORMAL exactly when neither arm is up; never BOTH_HANDS_UP |
| `BodyPose.BothArmsUpIsRight` | src/hooks/use-mediapipe-pose.ts:143-148 | with both arms up the result is RIGHT_HAND_UP |
| `BodyPose.MissingPointsNotUp` | src/hooks/use-mediapipe-pose.ts:128-141 | a list without index 16 never reports the right arm; one without index 15 is NORMAL |
| `BodyPose.EmptyIsNormal` | src/hooks/use-mediapipe-pose.ts:128-152 | an omitted or empty landmark list is NORMAL |
| `BodyPose.DetectPoseLocal` | src/hooks/use-mediapipe-pose.ts:128-141 | for skeletons of equal length, only the y-coordinates of landmarks 11 to 16 matter |
| `BodyPose.DetectPoseShift` | src/hooks/use-mediapipe-pose.ts:128-153 | translating the skeleton does not change the pose |
| `FaceMesh.DetectFaceRotation` | src/hooks/use-mediapipe-face-mesh.ts:127-151 | NONE_FACE exactly for a missing or empty mesh; a TypeError exactly for a non-empty mesh of at most 356 points; otherwise RIGHT exactly when (L + R) - 2N > 0.2, LEFT exactly when it is < -0.2, and NONE exactly on [-0.2, 0.2], boundaries included |
| `FaceMesh.CompleteMeshTurns` | src/hooks/use-mediapipe-face-mesh.ts:133-150 | a mesh holding index 356 always returns one of RIGHT, LEFT or NONE |
| `FaceMesh.MirrorSwapsTurn` | src/hooks/use-mediapipe-face-mesh.ts:133-150 | flipping the image horizontally (x to 1 - x) swaps RIGHT and LEFT and keeps every other outcome |
| `FaceMesh.FaceShift` | src/hooks/use-mediapipe-face-mesh.ts:133-150 | translating the mesh does not change the outcome |
| `FaceMesh.FaceLocal` | src/hooks/use-mediapipe-face-mesh.ts:133-150 | for meshes of equal length, only the x-coordinates of landmarks 127, 1 and 356 matter |
| `CombinedMode.DetectPose` | src/hooks/use-mediapipe-mode.ts:173-198 | agrees with the pose hook's `detectPose` on every input; RIGHT_HAND_UP exactly when 16 and 14 are above 12; never BOTH_HANDS_UP |
| `CombinedMode.DetectFaceRotation` | src/hooks/use-mediapipe-mode.ts:242-266 | agrees with the face-mesh hook's `detectFaceRotation` on every input; NONE_FACE exactly for a missing or empty mesh; a complete mesh yields a direction |

## Left out

- Camera start-up, `getUserMedia`, MediaPipe model construction, options and
  the `send`/`onResults` wiring: browser and foreign-library I/O.
- Canvas drawing (`drawConnectors`, `drawLandmarks`, clearing and transforms):
  output only.
- lodash `throttle` (200 ms): timing, not logic. The unthrottled functions are
  modelled.
- Vue `ref` reactivity: each write to `.value` is the function's result.
- The `debugMode` logging branches, `getTypeName`, the `name` field and the
  unused `getAngle`: no effect on any result. The `threshold` field appears
  only as the constant of `HandDetector.ReportedAboveThreshold`; the holistic
  hook that compares against it is not part of this model.
- IEEE-754 rounding: arithmetic is exact over the reals. Only NaN and the
  infinities from the two divisions are modelled.
- The real behaviour of `Math.sqrt` and `Math.atan2`: they are uninterpreted,
  apart from `sqrt` being non-negative.
- The `z` coordinate of landmarks: never read.
- A landmark whose `visibility` is `null` rather than a number or absent: the
  detector never produces one, so visibility is an optional real.
- Inputs that are not arrays of landmark objects: the `any`-typed parameters
  are modelled as optional lists of landmarks.
- HandFeatures.GestureFeatures: requires a 21-point hand. On a shorter array
  the source throws a TypeError reading `.x` of a missing landmark. `detect`,
  the only caller, never passes one.
- HandDetector.RecognizeGesture: requires a 21-point hand, for the same reason
  as `GestureFeatures`.
- HandRules.IsVictoryGesture: requires a 21-point hand, for the same reason.
  It also states only the implications its callers rely on; the full rule is
  its body.
- HandRules.IsHeartGesture: requires a 21-point hand, for the same reason.
  It also states only the implications its callers rely on; the full rule is
  its body.
- The application shell: build configuration, routing, the Pinia counter
  store and bootstrap code are not part of this model.
