/** The feature extractor of the hand-gesture classifier: per-finger
    curvature and extension, fingertip distances, hand spread and palm
    width, all recomputed from one 21-point hand skeleton. */
module HandFeatures {
  import opened JsNumber
  import opened Geometry

  /** Indices of MediaPipe's 21-point hand skeleton. */
  const Wrist: nat := 0
  const ThumbMcp: nat := 2
  const ThumbIp: nat := 3
  const ThumbTip: nat := 4
  const IndexMcp: nat := 5
  const IndexPip: nat := 6
  const IndexTip: nat := 8
  const MiddleMcp: nat := 9
  const MiddlePip: nat := 10
  const MiddleTip: nat := 12
  const RingMcp: nat := 13
  const RingPip: nat := 14
  const RingTip: nat := 16
  const PinkyMcp: nat := 17
  const PinkyPip: nat := 18
  const PinkyTip: nat := 20

  /** The number of landmarks in a hand skeleton. */
  const HandSize: nat := 21

  /** The length of the joint path MCP -> PIP -> tip. */
  function JointPath(m: Numerics, lms: seq<Landmark>, tip: nat, pip: nat, mcp: nat): real
    requires tip < |lms| && pip < |lms| && mcp < |lms|
  {
    Distance(m, lms[mcp], lms[pip]) + Distance(m, lms[pip], lms[tip])
  }

  /** How bent a finger is: the joint path's excess over the MCP-to-tip chord,
      as a fraction of the chord, clamped to [0, 1]. A zero chord makes the
      ratio +Infinity (clamped to 1) or, when the path is zero too, NaN. */
  function FingerCurvature(m: Numerics, lms: seq<Landmark>, tip: nat, pip: nat, mcp: nat): (c: Num)
    requires tip < |lms| && pip < |lms| && mcp < |lms|
    ensures c.NaN? || (c.Finite? && 0.0 <= c.v <= 1.0)
    ensures c.NaN? <==> Distance(m, lms[mcp], lms[tip]) == 0.0 && JointPath(m, lms, tip, pip, mcp) == 0.0
  {
    var straightDistance := Distance(m, lms[mcp], lms[tip]);
    var actualDistance := JointPath(m, lms, tip, pip, mcp);
    ClampUnit(Divide(actualDistance - straightDistance, straightDistance))
  }

  /** The clamping of a curvature, spelled out: with a non-zero chord the
      value is the excess ratio cut to [0, 1]; with a zero chord and a
      non-zero path it is 1. */
  lemma CurvatureClamp(m: Numerics, lms: seq<Landmark>, tip: nat, pip: nat, mcp: nat)
    requires tip < |lms| && pip < |lms| && mcp < |lms|
    ensures var c := FingerCurvature(m, lms, tip, pip, mcp);
            var chord := Distance(m, lms[mcp], lms[tip]);
            var excess := JointPath(m, lms, tip, pip, mcp) - chord;
            && (chord > 0.0 ==> c.Finite?)
            && (chord > 0.0 && excess >= chord ==> c == Finite(1.0))
            && (chord > 0.0 && excess <= 0.0 ==> c == Finite(0.0))
            && (chord > 0.0 && 0.0 <= excess <= chord ==> c.v * chord == excess)
            && (chord == 0.0 && excess > 0.0 ==> c == Finite(1.0))
  {
    var chord := Distance(m, lms[mcp], lms[tip]);
    var excess := JointPath(m, lms, tip, pip, mcp) - chord;
    if chord > 0.0 {
      DivideBelow(excess, chord, 1.0);
      DivideAbove(excess, chord, 0.0);
      var q := excess / chord;
      assert q * chord == excess;
    }
  }

  /** How far the tip reaches: tip-to-wrist distance over MCP-to-wrist
      distance. Both distances are non-negative, so the ratio is never
      negative and never -Infinity. */
  function FingerExtension(m: Numerics, lms: seq<Landmark>, tip: nat, mcp: nat): (e: Num)
    requires Wrist < |lms| && tip < |lms| && mcp < |lms|
    ensures !e.NegInf?
    ensures e.Finite? ==> 0.0 <= e.v
    ensures e.NaN? <==> Distance(m, lms[tip], lms[Wrist]) == 0.0 && Distance(m, lms[mcp], lms[Wrist]) == 0.0
  {
    var tipDistance := Distance(m, lms[tip], lms[Wrist]);
    var mcpDistance := Distance(m, lms[mcp], lms[Wrist]);
    Divide(tipDistance, mcpDistance)
  }

  /** Division-free reading of an extension threshold: for any c >= 0 the
      extension exceeds c exactly when the tip is more than c times as far
      from the wrist as the MCP joint (the infinite and NaN ratios included). */
  lemma ExtensionAbove(m: Numerics, lms: seq<Landmark>, tip: nat, mcp: nat, c: real)
    requires Wrist < |lms| && tip < |lms| && mcp < |lms|
    requires 0.0 <= c
    ensures Gt(FingerExtension(m, lms, tip, mcp), c)
        <==> Distance(m, lms[tip], lms[Wrist]) > c * Distance(m, lms[mcp], lms[Wrist])
  {
    DivideAbove(Distance(m, lms[tip], lms[Wrist]), Distance(m, lms[mcp], lms[Wrist]), c);
  }


  /** Division-free reading of an upper extension threshold: for any c >= 0
      the extension is below c exactly when the tip is less than c times as
      far from the wrist as the MCP joint. */
  lemma ExtensionBelow(m: Numerics, lms: seq<Landmark>, tip: nat, mcp: nat, c: real)
    requires Wrist < |lms| && tip < |lms| && mcp < |lms|
    requires 0.0 <= c
    ensures Lt(FingerExtension(m, lms, tip, mcp), c)
        <==> Distance(m, lms[tip], lms[Wrist]) < c * Distance(m, lms[mcp], lms[Wrist])
  {
    DivideBelow(Distance(m, lms[tip], lms[Wrist]), Distance(m, lms[mcp], lms[Wrist]), c);
  }


  /** Division-free reading of a curvature threshold: for 0 <= k < 1 the
      curvature exceeds k exactly when the joint path is longer than
      (1 + k) times the MCP-to-tip chord. */
  lemma CurvatureAbove(m: Numerics, lms: seq<Landmark>, tip: nat, pip: nat, mcp: nat, k: real)
    requires tip < |lms| && pip < |lms| && mcp < |lms|
    requires 0.0 <= k < 1.0
    ensures Gt(FingerCurvature(m, lms, tip, pip, mcp), k)
        <==> JointPath(m, lms, tip, pip, mcp) > (1.0 + k) * Distance(m, lms[mcp], lms[tip])
  {
    var s := Distance(m, lms[mcp], lms[tip]);
    var a := JointPath(m, lms, tip, pip, mcp);
    ClampAbove(Divide(a - s, s), k);
    DivideAbove(a - s, s, k);
  }


  /** The feature record of one hand. Curvatures and extensions are
      JavaScript numbers (they can be NaN or infinite); distances are finite. */
  datatype FeatureVector = FeatureVector(
    thumbCurvature: Num,
    indexCurvature: Num,
    middleCurvature: Num,
    ringCurvature: Num,
    pinkyCurvature: Num,
    thumbExtension: Num,
    indexExtension: Num,
    middleExtension: Num,
    ringExtension: Num,
    pinkyExtension: Num,
    thumbIndexDistance: real,
    indexMiddleDistance: real,
    middleRingDistance: real,
    ringPinkyDistance: real,
    handSpread: real,
    palmWidth: real)

  /** A curvature: NaN or a value in [0, 1]. */
  predicate CurvatureRange(c: Num) {
    c.NaN? || (c.Finite? && 0.0 <= c.v <= 1.0)
  }

  /** An extension: NaN, +Infinity or a non-negative finite ratio. */
  predicate ExtensionRange(e: Num) {
    e.NaN? || e.PosInf? || (e.Finite? && 0.0 <= e.v)
  }

  /** Extracts the feature record of a hand skeleton. */
  function GestureFeatures(m: Numerics, lms: seq<Landmark>): (f: FeatureVector)
    requires |lms| >= HandSize
    ensures CurvatureRange(f.thumbCurvature) && CurvatureRange(f.indexCurvature)
    ensures CurvatureRange(f.middleCurvature) && CurvatureRange(f.ringCurvature)
    ensures CurvatureRange(f.pinkyCurvature)
    ensures ExtensionRange(f.thumbExtension) && ExtensionRange(f.indexExtension)
    ensures ExtensionRange(f.middleExtension) && ExtensionRange(f.ringExtension)
    ensures ExtensionRange(f.pinkyExtension)
    ensures 0.0 <= f.thumbIndexDistance && 0.0 <= f.indexMiddleDistance
    ensures 0.0 <= f.middleRingDistance && 0.0 <= f.ringPinkyDistance
    ensures 0.0 <= f.handSpread && 0.0 <= f.palmWidth
  {
    FeatureVector(
      thumbCurvature := FingerCurvature(m, lms, ThumbTip, ThumbIp, ThumbMcp),
      indexCurvature := FingerCurvature(m, lms, IndexTip, IndexPip, IndexMcp),
      middleCurvature := FingerCurvature(m, lms, MiddleTip, MiddlePip, MiddleMcp),
      ringCurvature := FingerCurvature(m, lms, RingTip, RingPip, RingMcp),
      pinkyCurvature := FingerCurvature(m, lms, PinkyTip, PinkyPip, PinkyMcp),
      thumbExtension := FingerExtension(m, lms, ThumbTip, ThumbMcp),
      indexExtension := FingerExtension(m, lms, IndexTip, IndexMcp),
      middleExtension := FingerExtension(m, lms, MiddleTip, MiddleMcp),
      ringExtension := FingerExtension(m, lms, RingTip, RingMcp),
      pinkyExtension := FingerExtension(m, lms, PinkyTip, PinkyMcp),
      thumbIndexDistance := Distance(m, lms[ThumbTip], lms[IndexTip]),
      indexMiddleDistance := Distance(m, lms[IndexTip], lms[MiddleTip]),
      middleRingDistance := Distance(m, lms[MiddleTip], lms[RingTip]),
      ringPinkyDistance := Distance(m, lms[RingTip], lms[PinkyTip]),
      handSpread := Distance(m, lms[ThumbTip], lms[PinkyTip]),
      palmWidth := Distance(m, lms[IndexMcp], lms[PinkyMcp]))
  }

  /** The feature record of a hand is unchanged when the whole hand is moved
      within the image: every feature depends only on differences of points. */
  lemma {:induction false} FeaturesShift(m: Numerics, lms: seq<Landmark>, dx: real, dy: real)
    requires |lms| >= HandSize
    ensures GestureFeatures(m, ShiftAll(lms, dx, dy)) == GestureFeatures(m, lms)
  {
    var moved := ShiftAll(lms, dx, dy);
    PairShift(m, lms, dx, dy, ThumbTip, IndexTip);
    PairShift(m, lms, dx, dy, IndexTip, MiddleTip);
    PairShift(m, lms, dx, dy, MiddleTip, RingTip);
    PairShift(m, lms, dx, dy, RingTip, PinkyTip);
    PairShift(m, lms, dx, dy, ThumbTip, PinkyTip);
    PairShift(m, lms, dx, dy, IndexMcp, PinkyMcp);
    FingerShift(m, lms, dx, dy, ThumbTip, ThumbIp, ThumbMcp);
    FingerShift(m, lms, dx, dy, IndexTip, IndexPip, IndexMcp);
    FingerShift(m, lms, dx, dy, MiddleTip, MiddlePip, MiddleMcp);
    FingerShift(m, lms, dx, dy, RingTip, RingPip, RingMcp);
    FingerShift(m, lms, dx, dy, PinkyTip, PinkyPip, PinkyMcp);
  }

  lemma PairShift(m: Numerics, lms: seq<Landmark>, dx: real, dy: real, i: nat, j: nat)
    requires i < |lms| && j < |lms|
    ensures Distance(m, ShiftAll(lms, dx, dy)[i], ShiftAll(lms, dx, dy)[j]) == Distance(m, lms[i], lms[j])
  {
    DistanceShift(m, lms[i], lms[j], dx, dy);
  }

  lemma FingerShift(m: Numerics, lms: seq<Landmark>, dx: real, dy: real, tip: nat, pip: nat, mcp: nat)
    requires Wrist < |lms| && tip < |lms| && pip < |lms| && mcp < |lms|
    ensures FingerCurvature(m, ShiftAll(lms, dx, dy), tip, pip, mcp) == FingerCurvature(m, lms, tip, pip, mcp)
    ensures FingerExtension(m, ShiftAll(lms, dx, dy), tip, mcp) == FingerExtension(m, lms, tip, mcp)
  {
    PairShift(m, lms, dx, dy, mcp, tip);
    PairShift(m, lms, dx, dy, mcp, pip);
    PairShift(m, lms, dx, dy, pip, tip);
    PairShift(m, lms, dx, dy, tip, Wrist);
    PairShift(m, lms, dx, dy, mcp, Wrist);
  }

}
