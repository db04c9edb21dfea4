/** The entry point of the hand-gesture classifier: choose a hand, check
    that it is complete and that enough fingertips are visible, then run the
    feature extractor and the rule cascade. */
module HandDetector {
  import opened Wrappers
  import opened JsNumber
  import opened Geometry
  import opened HandFeatures
  import opened HandRules

  /** A landmark counts as visible above this visibility score. */
  const VisibilityThreshold: real := 0.5

  /** `isLandmarkVisible`: an absent landmark, or one without a visibility
      score, counts as visible; otherwise the score must exceed 0.5. */
  function IsLandmarkVisible(l: Option<Landmark>): (v: bool)
    ensures v <==> l.None? || l.value.visibility.None? || l.value.visibility.value > VisibilityThreshold
    ensures l.Some? && l.value.visibility.Some? && l.value.visibility.value <= 0.5 ==> !v
  {
    match l
    case None => true
    case Some(lm) =>
      match lm.visibility
      case None => true
      case Some(score) => score > VisibilityThreshold
  }

  /** The five fingertips whose visibility gates recognition. */
  const FingerTips: seq<nat> := [ThumbTip, IndexTip, MiddleTip, RingTip, PinkyTip]

  /** The fewest visible fingertips a hand needs to be classified. */
  const MinVisibleTips: nat := 3

  /** `tips.filter(i => isLandmarkVisible(hand[i]))`, order kept. */
  function VisibleTips(hand: seq<Landmark>, tips: seq<nat>): (r: seq<nat>)
    ensures |r| <= |tips|
    ensures forall i :: i in r <==> i in tips && IsLandmarkVisible(At(hand, i))
    decreases |tips|
  {
    if |tips| == 0 then []
    else
      var rest := VisibleTips(hand, tips[1..]);
      if IsLandmarkVisible(At(hand, tips[0])) then [tips[0]] + rest else rest
  }

  /** The set of visible indices among `tips`. */
  function VisibleSet(hand: seq<Landmark>, tips: seq<nat>): set<nat> {
    set i | i in tips && IsLandmarkVisible(At(hand, i))
  }

  predicate Distinct(s: seq<nat>) {
    forall i, j :: 0 <= i < j < |s| ==> s[i] != s[j]
  }

  /** Filtering a list of distinct indices keeps one entry per visible index,
      so its length is the number of visible indices. */
  lemma {:induction false} VisibleCount(hand: seq<Landmark>, tips: seq<nat>)
    requires Distinct(tips)
    ensures |VisibleTips(hand, tips)| == |VisibleSet(hand, tips)|
    decreases |tips|
  {
    if |tips| > 0 {
      DistinctTail(tips);
      VisibleCount(hand, tips[1..]);
      VisibleSetCons(hand, tips);
    }
  }

  /** The tail of a repeat-free list is repeat-free and misses the head. */
  lemma DistinctTail(tips: seq<nat>)
    requires |tips| > 0 && Distinct(tips)
    ensures Distinct(tips[1..]) && tips[0] !in tips[1..]
  {
    var rest := tips[1..];
    forall i, j | 0 <= i < j < |rest| ensures rest[i] != rest[j] {
      assert rest[i] == tips[i + 1] && rest[j] == tips[j + 1];
    }
    forall i | 0 <= i < |rest| ensures rest[i] != tips[0] {
      assert rest[i] == tips[i + 1];
    }
  }

  /** The visible set of a list splits into its head (when visible) and the
      visible set of its tail, disjointly when the head does not recur. */
  lemma VisibleSetCons(hand: seq<Landmark>, tips: seq<nat>)
    requires |tips| > 0 && tips[0] !in tips[1..]
    ensures var head := if IsLandmarkVisible(At(hand, tips[0])) then {tips[0]} else {};
            && VisibleSet(hand, tips) == head + VisibleSet(hand, tips[1..])
            && head !! VisibleSet(hand, tips[1..])
  {
    assert forall i :: i in tips <==> i == tips[0] || i in tips[1..];
  }

  /** The detector's per-frame output: either hand may be missing. */
  datatype HolisticResults = HolisticResults(
    leftHandLandmarks: Option<seq<Landmark>>,
    rightHandLandmarks: Option<seq<Landmark>>)

  /** `rightHandLandmarks || leftHandLandmarks`: any array is truthy, so a
      present right hand is chosen even when it is empty. */
  function ChosenHand(results: HolisticResults): (h: Option<seq<Landmark>>)
    ensures results.rightHandLandmarks.Some? ==> h == results.rightHandLandmarks
    ensures results.rightHandLandmarks.None? ==> h == results.leftHandLandmarks
  {
    match results.rightHandLandmarks
    case Some(_) => results.rightHandLandmarks
    case None => results.leftHandLandmarks
  }

  /** `recognizeGesture`: extract the features, then run the cascade. */
  function RecognizeGesture(m: Numerics, hand: seq<Landmark>): (r: Option<GestureResult>)
    requires |hand| >= HandSize
    ensures r == ReportOf(FirstMatch(Priority, RulesOf(m, GestureFeatures(m, hand), hand)))
    ensures r.Some? ==> r.value.kind == HandKind && r.value.confidence in {0.9, 0.85, 0.8}
  {
    var features := GestureFeatures(m, hand);
    CascadeIsFirstMatch(m, features, hand);
    RecognizeByFeatures(m, features, hand)
  }

  /** `detect`: classify the chosen hand, or decline with None. */
  function Detect(m: Numerics, results: HolisticResults): (g: Option<GestureResult>)
    ensures results.leftHandLandmarks.None? && results.rightHandLandmarks.None? ==> g.None?
    ensures results.rightHandLandmarks.Some? && |results.rightHandLandmarks.value| < HandSize ==> g.None?
    ensures g.Some? ==> g.value.kind == HandKind && g.value.confidence in {0.9, 0.85, 0.8}
    ensures g.Some? ==> ChosenHand(results).Some?
                        && |ChosenHand(results).value| >= HandSize
                        && |VisibleTips(ChosenHand(results).value, FingerTips)| >= MinVisibleTips
    ensures ChosenHand(results).Some? && |ChosenHand(results).value| >= HandSize
            && |VisibleTips(ChosenHand(results).value, FingerTips)| >= MinVisibleTips
            ==> g == RecognizeGesture(m, ChosenHand(results).value)
  {
    if results.leftHandLandmarks.None? && results.rightHandLandmarks.None? then None
    else
      var handLandmarks := ChosenHand(results).value;
      if |handLandmarks| < HandSize then None
      else
        var visibleTips := VisibleTips(handLandmarks, FingerTips);
        if |visibleTips| < MinVisibleTips then None
        else RecognizeGesture(m, handLandmarks)
  }

  /** Right-hand priority: when a right hand is present the left hand, whatever
      it holds, has no influence on the result. */
  lemma RightHandPriority(m: Numerics, results: HolisticResults, otherLeft: Option<seq<Landmark>>)
    requires results.rightHandLandmarks.Some?
    ensures Detect(m, results) == Detect(m, results.(leftHandLandmarks := otherLeft))
  {
  }

  /** Visibility gate: a hand with at most two visible fingertips is never
      classified, whatever its geometry. */
  lemma {:induction false} OccludedHandDeclined(m: Numerics, results: HolisticResults)
    requires ChosenHand(results).Some?
    requires |VisibleSet(ChosenHand(results).value, FingerTips)| < MinVisibleTips
    ensures Detect(m, results).None?
  {
    VisibleCount(ChosenHand(results).value, FingerTips);
    FewTipsDeclined(m, results);
  }

  /** The visibility gate read off `Detect`'s contract: a chosen hand whose
      filtered tip list is shorter than three is declined. */
  lemma FewTipsDeclined(m: Numerics, results: HolisticResults)
    requires ChosenHand(results).Some?
    requires |VisibleTips(ChosenHand(results).value, FingerTips)| < MinVisibleTips
    ensures Detect(m, results).None?
  {
  }

  /** The confidence the detector's caller requires of a result before
      showing it (the `threshold` field). */
  const Threshold: real := 0.6

  /** Every result `detect` returns clears the caller's confidence filter, so
      the filter never discards a recognised gesture. */
  lemma ReportedAboveThreshold(m: Numerics, results: HolisticResults)
    ensures Detect(m, results).Some? ==> Detect(m, results).value.confidence > Threshold
  {
  }

  /** Visibility gate, the other way round: a complete hand with three or
      more visible fingertips is handed to the cascade unchanged. */
  lemma {:induction false} VisibleHandClassified(m: Numerics, results: HolisticResults)
    requires ChosenHand(results).Some? && |ChosenHand(results).value| >= HandSize
    requires |VisibleSet(ChosenHand(results).value, FingerTips)| >= MinVisibleTips
    ensures Detect(m, results) == RecognizeGesture(m, ChosenHand(results).value)
  {
    VisibleCount(ChosenHand(results).value, FingerTips);
  }

  /** The whole landmark set of a frame moved by (dx, dy). */
  function ShiftResults(results: HolisticResults, dx: real, dy: real): HolisticResults {
    HolisticResults(
      match results.leftHandLandmarks
      case None => None
      case Some(h) => Some(ShiftAll(h, dx, dy)),
      match results.rightHandLandmarks
      case None => None
      case Some(h) => Some(ShiftAll(h, dx, dy)))
  }

  /** Every gesture rule compares differences of points only, so moving the
      hand within the image does not change which rules hold. */
  lemma {:induction false} RulesShift(m: Numerics, hand: seq<Landmark>, f: FeatureVector, dx: real, dy: real)
    requires |hand| >= HandSize
    ensures IsHeartGesture(m, ShiftAll(hand, dx, dy), f) == IsHeartGesture(m, hand, f)
    ensures IsVictoryGesture(ShiftAll(hand, dx, dy), f) == IsVictoryGesture(hand, f)
    ensures IsThumbDown(m, ShiftAll(hand, dx, dy)) == IsThumbDown(m, hand)
  {
    HeartShift(m, hand, f, dx, dy);
    VictoryShift(hand, f, dx, dy);
    ThumbDownShift(m, hand, dx, dy);
  }

  lemma HeartShift(m: Numerics, hand: seq<Landmark>, f: FeatureVector, dx: real, dy: real)
    requires |hand| >= HandSize
    ensures IsHeartGesture(m, ShiftAll(hand, dx, dy), f) == IsHeartGesture(m, hand, f)
  {
    var moved := ShiftAll(hand, dx, dy);
    HeartParts(m, hand, dx, dy);
    HeartCongruence(m, moved, hand, f);
  }

  lemma HeartParts(m: Numerics, hand: seq<Landmark>, dx: real, dy: real)
    requires |hand| >= HandSize
    ensures var moved := ShiftAll(hand, dx, dy);
      && Distance(m, moved[ThumbTip], moved[IndexTip]) == Distance(m, hand[ThumbTip], hand[IndexTip])
      && ThumbIndexAngle(m, moved) == ThumbIndexAngle(m, hand)
      && moved[ThumbTip].y - moved[Wrist].y == hand[ThumbTip].y - hand[Wrist].y
      && moved[IndexTip].y - moved[Wrist].y == hand[IndexTip].y - hand[Wrist].y
      && moved[ThumbTip].x - moved[Wrist].x == hand[ThumbTip].x - hand[Wrist].x
      && moved[IndexTip].x - moved[Wrist].x == hand[IndexTip].x - hand[Wrist].x
  {
    PairShift(m, hand, dx, dy, ThumbTip, IndexTip);
    BearingShift(m, hand, dx, dy, ThumbTip);
    BearingShift(m, hand, dx, dy, IndexTip);
  }

  lemma BearingShift(m: Numerics, hand: seq<Landmark>, dx: real, dy: real, i: nat)
    requires Wrist < |hand| && i < |hand|
    ensures var moved := ShiftAll(hand, dx, dy);
      && moved[i].y - moved[Wrist].y == hand[i].y - hand[Wrist].y
      && moved[i].x - moved[Wrist].x == hand[i].x - hand[Wrist].x
      && Bearing(m, moved, i) == Bearing(m, hand, i)
  {
    var moved := ShiftAll(hand, dx, dy);
    assert moved[i].y - moved[Wrist].y == hand[i].y - hand[Wrist].y;
    assert moved[i].x - moved[Wrist].x == hand[i].x - hand[Wrist].x;
  }

  lemma VictoryShift(hand: seq<Landmark>, f: FeatureVector, dx: real, dy: real)
    requires |hand| >= HandSize
    ensures IsVictoryGesture(ShiftAll(hand, dx, dy), f) == IsVictoryGesture(hand, f)
  {
    var moved := ShiftAll(hand, dx, dy);
    assert moved[IndexTip].y - moved[Wrist].y == hand[IndexTip].y - hand[Wrist].y;
    assert moved[MiddleTip].y - moved[Wrist].y == hand[MiddleTip].y - hand[Wrist].y;
  }

  lemma ThumbDownShift(m: Numerics, hand: seq<Landmark>, dx: real, dy: real)
    requires |hand| >= HandSize
    ensures IsThumbDown(m, ShiftAll(hand, dx, dy)) == IsThumbDown(m, hand)
  {
    var moved := ShiftAll(hand, dx, dy);
    PairShift(m, hand, dx, dy, ThumbTip, Wrist);
    PairShift(m, hand, dx, dy, ThumbMcp, Wrist);
    assert moved[ThumbTip].y - moved[ThumbIp].y == hand[ThumbTip].y - hand[ThumbIp].y;
    assert moved[ThumbTip].y - moved[ThumbMcp].y == hand[ThumbTip].y - hand[ThumbMcp].y;
  }

  /** Translation invariance of the classifier on one hand. */
  lemma {:induction false} RecognizeShift(m: Numerics, hand: seq<Landmark>, dx: real, dy: real)
    requires |hand| >= HandSize
    ensures RecognizeGesture(m, ShiftAll(hand, dx, dy)) == RecognizeGesture(m, hand)
  {
    FeaturesShift(m, hand, dx, dy);
    var f := GestureFeatures(m, hand);
    RulesShift(m, hand, f, dx, dy);
    CascadeCongruence(m, f, ShiftAll(hand, dx, dy), hand);
  }

  /** Translation invariance of `detect`: moving every landmark of the frame
      by the same offset never changes the result. */
  lemma {:induction false} DetectShift(m: Numerics, results: HolisticResults, dx: real, dy: real)
    ensures Detect(m, ShiftResults(results, dx, dy)) == Detect(m, results)
  {
    var moved := ShiftResults(results, dx, dy);
    if ChosenHand(results).Some? {
      var hand := ChosenHand(results).value;
      assert ChosenHand(moved) == Some(ShiftAll(hand, dx, dy));
      assert VisibleTips(ShiftAll(hand, dx, dy), FingerTips) == VisibleTips(hand, FingerTips) by {
        TipsShift(hand, FingerTips, dx, dy);
      }
      if |hand| >= HandSize {
        RecognizeShift(m, hand, dx, dy);
      }
    }
  }

  /** Moving a hand leaves every landmark's visibility alone. */
  lemma {:induction false} TipsShift(hand: seq<Landmark>, tips: seq<nat>, dx: real, dy: real)
    ensures VisibleTips(ShiftAll(hand, dx, dy), tips) == VisibleTips(hand, tips)
    decreases |tips|
  {
    if |tips| > 0 {
      TipsShift(hand, tips[1..], dx, dy);
      assert IsLandmarkVisible(At(ShiftAll(hand, dx, dy), tips[0])) == IsLandmarkVisible(At(hand, tips[0]));
    }
  }

  /** Fist in geometric terms: the four non-thumb fingers each have a joint
      path more than 1.6 times their MCP-to-tip chord, and the thumb and
      pinky tips are closer than 0.12. */
  lemma {:induction false} FistGeometry(m: Numerics, hand: seq<Landmark>)
    requires |hand| >= HandSize
    ensures IsFist(GestureFeatures(m, hand))
        <==> (JointPath(m, hand, IndexTip, IndexPip, IndexMcp) > 1.6 * Distance(m, hand[IndexMcp], hand[IndexTip])
          && JointPath(m, hand, MiddleTip, MiddlePip, MiddleMcp) > 1.6 * Distance(m, hand[MiddleMcp], hand[MiddleTip])
          && JointPath(m, hand, RingTip, RingPip, RingMcp) > 1.6 * Distance(m, hand[RingMcp], hand[RingTip])
          && JointPath(m, hand, PinkyTip, PinkyPip, PinkyMcp) > 1.6 * Distance(m, hand[PinkyMcp], hand[PinkyTip])
          && Distance(m, hand[ThumbTip], hand[PinkyTip]) < 0.12)
  {
    FistFingers(m, hand);
  }

  lemma FistFingers(m: Numerics, hand: seq<Landmark>)
    requires |hand| >= HandSize
    ensures var f := GestureFeatures(m, hand);
            && (Gt(f.indexCurvature, 0.6) <==> JointPath(m, hand, IndexTip, IndexPip, IndexMcp) > 1.6 * Distance(m, hand[IndexMcp], hand[IndexTip]))
            && (Gt(f.middleCurvature, 0.6) <==> JointPath(m, hand, MiddleTip, MiddlePip, MiddleMcp) > 1.6 * Distance(m, hand[MiddleMcp], hand[MiddleTip]))
            && (Gt(f.ringCurvature, 0.6) <==> JointPath(m, hand, RingTip, RingPip, RingMcp) > 1.6 * Distance(m, hand[RingMcp], hand[RingTip]))
            && (Gt(f.pinkyCurvature, 0.6) <==> JointPath(m, hand, PinkyTip, PinkyPip, PinkyMcp) > 1.6 * Distance(m, hand[PinkyMcp], hand[PinkyTip]))
  {
    BentFinger(m, hand, IndexTip, IndexPip, IndexMcp);
    BentFinger(m, hand, MiddleTip, MiddlePip, MiddleMcp);
    BentFinger(m, hand, RingTip, RingPip, RingMcp);
    BentFinger(m, hand, PinkyTip, PinkyPip, PinkyMcp);
  }

  /** `CurvatureAbove` at the fist threshold 0.6. */
  lemma BentFinger(m: Numerics, hand: seq<Landmark>, tip: nat, pip: nat, mcp: nat)
    requires tip < |hand| && pip < |hand| && mcp < |hand|
    ensures Gt(FingerCurvature(m, hand, tip, pip, mcp), 0.6)
        <==> JointPath(m, hand, tip, pip, mcp) > 1.6 * Distance(m, hand[mcp], hand[tip])
  {
    CurvatureAbove(m, hand, tip, pip, mcp, 0.6);
  }

  /** Open palm in geometric terms: each non-thumb fingertip is more than 1.2
      times as far from the wrist as its MCP joint, the thumb tip more than 1.1
      times, and the thumb and pinky tips are further apart than 0.16. */
  lemma {:induction false} OpenPalmGeometry(m: Numerics, hand: seq<Landmark>)
    requires |hand| >= HandSize
    ensures IsOpenPalm(GestureFeatures(m, hand))
        <==> (Distance(m, hand[IndexTip], hand[Wrist]) > 1.2 * Distance(m, hand[IndexMcp], hand[Wrist])
          && Distance(m, hand[MiddleTip], hand[Wrist]) > 1.2 * Distance(m, hand[MiddleMcp], hand[Wrist])
          && Distance(m, hand[RingTip], hand[Wrist]) > 1.2 * Distance(m, hand[RingMcp], hand[Wrist])
          && Distance(m, hand[PinkyTip], hand[Wrist]) > 1.2 * Distance(m, hand[PinkyMcp], hand[Wrist])
          && Distance(m, hand[ThumbTip], hand[Wrist]) > 1.1 * Distance(m, hand[ThumbMcp], hand[Wrist])
          && Distance(m, hand[ThumbTip], hand[PinkyTip]) > 0.16)
  {
    OpenPalmFingers(m, hand);
  }

  lemma OpenPalmFingers(m: Numerics, hand: seq<Landmark>)
    requires |hand| >= HandSize
    ensures var f := GestureFeatures(m, hand);
            && (Gt(f.thumbExtension, 1.1) <==> Distance(m, hand[ThumbTip], hand[Wrist]) > 1.1 * Distance(m, hand[ThumbMcp], hand[Wrist]))
            && (Gt(f.indexExtension, 1.2) <==> Distance(m, hand[IndexTip], hand[Wrist]) > 1.2 * Distance(m, hand[IndexMcp], hand[Wrist]))
            && (Gt(f.middleExtension, 1.2) <==> Distance(m, hand[MiddleTip], hand[Wrist]) > 1.2 * Distance(m, hand[MiddleMcp], hand[Wrist]))
            && (Gt(f.ringExtension, 1.2) <==> Distance(m, hand[RingTip], hand[Wrist]) > 1.2 * Distance(m, hand[RingMcp], hand[Wrist]))
            && (Gt(f.pinkyExtension, 1.2) <==> Distance(m, hand[PinkyTip], hand[Wrist]) > 1.2 * Distance(m, hand[PinkyMcp], hand[Wrist]))
  {
    ExtendedThumb(m, hand);
    ExtendedFinger(m, hand, IndexTip, IndexMcp);
    ExtendedFinger(m, hand, MiddleTip, MiddleMcp);
    ExtendedFinger(m, hand, RingTip, RingMcp);
    ExtendedFinger(m, hand, PinkyTip, PinkyMcp);
  }

  /** `ExtensionAbove` at the open-palm threshold 1.2. */
  lemma ExtendedFinger(m: Numerics, hand: seq<Landmark>, tip: nat, mcp: nat)
    requires Wrist < |hand| && tip < |hand| && mcp < |hand|
    ensures Gt(FingerExtension(m, hand, tip, mcp), 1.2)
        <==> Distance(m, hand[tip], hand[Wrist]) > 1.2 * Distance(m, hand[mcp], hand[Wrist])
  {
    ExtensionAbove(m, hand, tip, mcp, 1.2);
  }

  /** `ExtensionAbove` for the thumb at the open-palm threshold 1.1. */
  lemma ExtendedThumb(m: Numerics, hand: seq<Landmark>)
    requires |hand| >= HandSize
    ensures Gt(FingerExtension(m, hand, ThumbTip, ThumbMcp), 1.1)
        <==> Distance(m, hand[ThumbTip], hand[Wrist]) > 1.1 * Distance(m, hand[ThumbMcp], hand[Wrist])
  {
    ExtensionAbove(m, hand, ThumbTip, ThumbMcp, 1.1);
  }

  /** A finger is curled past `ratio` when its joint path is more than
      `ratio` times its MCP-to-tip chord. */
  predicate Curled(m: Numerics, hand: seq<Landmark>, tip: nat, pip: nat, mcp: nat, ratio: real)
    requires tip < |hand| && pip < |hand| && mcp < |hand|
  {
    JointPath(m, hand, tip, pip, mcp) > ratio * Distance(m, hand[mcp], hand[tip])
  }

  /** A finger reaches past `ratio` when its tip is more than `ratio` times as
      far from the wrist as its MCP joint. */
  predicate Reaches(m: Numerics, hand: seq<Landmark>, tip: nat, mcp: nat, ratio: real)
    requires Wrist < |hand| && tip < |hand| && mcp < |hand|
  {
    Distance(m, hand[tip], hand[Wrist]) > ratio * Distance(m, hand[mcp], hand[Wrist])
  }

  /** The four non-thumb fingers all curled past 1.5, the reading of a
      curvature above 0.5. */
  predicate FourFingersCurled(m: Numerics, hand: seq<Landmark>)
    requires |hand| >= HandSize
  {
    && Curled(m, hand, IndexTip, IndexPip, IndexMcp, 1.5)
    && Curled(m, hand, MiddleTip, MiddlePip, MiddleMcp, 1.5)
    && Curled(m, hand, RingTip, RingPip, RingMcp, 1.5)
    && Curled(m, hand, PinkyTip, PinkyPip, PinkyMcp, 1.5)
  }

  /** Thumbs-up in geometric terms: no thumb-down, the thumb tip more than
      1.3 times as far from the wrist as the thumb MCP, and the other four
      fingers curled. */
  lemma {:induction false} ThumbsUpGeometry(m: Numerics, hand: seq<Landmark>)
    requires |hand| >= HandSize
    ensures IsThumbsUp(m, hand, GestureFeatures(m, hand))
        <==> (!IsThumbDown(m, hand) && Reaches(m, hand, ThumbTip, ThumbMcp, 1.3) && FourFingersCurled(m, hand))
  {
    HalfBentFingers(m, hand);
    ReachingFinger(m, hand, ThumbTip, ThumbMcp, 1.3);
  }

  /** Thumbs-down in geometric terms: the thumb tip below its IP and MCP
      joints and more than 1.1 times as far from the wrist as the thumb MCP,
      with the other four fingers curled. */
  lemma {:induction false} ThumbsDownGeometry(m: Numerics, hand: seq<Landmark>)
    requires |hand| >= HandSize
    ensures IsThumbsDown(m, hand, GestureFeatures(m, hand))
        <==> (&& hand[ThumbTip].y > hand[ThumbIp].y && hand[ThumbTip].y > hand[ThumbMcp].y
              && Reaches(m, hand, ThumbTip, ThumbMcp, 1.1) && FourFingersCurled(m, hand))
  {
    HalfBentFingers(m, hand);
    ReachingFinger(m, hand, ThumbTip, ThumbMcp, 1.1);
  }

  /** Pointing in geometric terms: the index tip more than 1.3 times as far
      from the wrist as the index MCP, the middle, ring and pinky fingers
      curled past 1.5 and the thumb past 1.3. */
  lemma {:induction false} PointingGeometry(m: Numerics, hand: seq<Landmark>)
    requires |hand| >= HandSize
    ensures IsPointing(GestureFeatures(m, hand))
        <==> (&& Reaches(m, hand, IndexTip, IndexMcp, 1.3)
              && Curled(m, hand, MiddleTip, MiddlePip, MiddleMcp, 1.5)
              && Curled(m, hand, RingTip, RingPip, RingMcp, 1.5)
              && Curled(m, hand, PinkyTip, PinkyPip, PinkyMcp, 1.5)
              && Curled(m, hand, ThumbTip, ThumbIp, ThumbMcp, 1.3))
  {
    HalfBentFingers(m, hand);
    ReachingFinger(m, hand, IndexTip, IndexMcp, 1.3);
    BentThumb(m, hand);
  }

  /** OK sign in geometric terms: thumb and index tips closer than 0.04, and
      the middle, ring and pinky tips each more than 1.1 times as far from
      the wrist as their MCP joints. */
  lemma {:induction false} OkSignGeometry(m: Numerics, hand: seq<Landmark>)
    requires |hand| >= HandSize
    ensures IsOkSign(GestureFeatures(m, hand))
        <==> (&& Distance(m, hand[ThumbTip], hand[IndexTip]) < 0.04
              && Reaches(m, hand, MiddleTip, MiddleMcp, 1.1)
              && Reaches(m, hand, RingTip, RingMcp, 1.1)
              && Reaches(m, hand, PinkyTip, PinkyMcp, 1.1))
  {
    ReachingFinger(m, hand, MiddleTip, MiddleMcp, 1.1);
    ReachingFinger(m, hand, RingTip, RingMcp, 1.1);
    ReachingFinger(m, hand, PinkyTip, PinkyMcp, 1.1);
  }

  /** `CurvatureAbove` at 0.5 for the four non-thumb fingers. */
  lemma HalfBentFingers(m: Numerics, hand: seq<Landmark>)
    requires |hand| >= HandSize
    ensures var f := GestureFeatures(m, hand);
            && (Gt(f.indexCurvature, 0.5) <==> Curled(m, hand, IndexTip, IndexPip, IndexMcp, 1.5))
            && (Gt(f.middleCurvature, 0.5) <==> Curled(m, hand, MiddleTip, MiddlePip, MiddleMcp, 1.5))
            && (Gt(f.ringCurvature, 0.5) <==> Curled(m, hand, RingTip, RingPip, RingMcp, 1.5))
            && (Gt(f.pinkyCurvature, 0.5) <==> Curled(m, hand, PinkyTip, PinkyPip, PinkyMcp, 1.5))
  {
    HalfBent(m, hand, IndexTip, IndexPip, IndexMcp);
    HalfBent(m, hand, MiddleTip, MiddlePip, MiddleMcp);
    HalfBent(m, hand, RingTip, RingPip, RingMcp);
    HalfBent(m, hand, PinkyTip, PinkyPip, PinkyMcp);
  }

  /** `CurvatureAbove` at 0.5. */
  lemma HalfBent(m: Numerics, hand: seq<Landmark>, tip: nat, pip: nat, mcp: nat)
    requires tip < |hand| && pip < |hand| && mcp < |hand|
    ensures Gt(FingerCurvature(m, hand, tip, pip, mcp), 0.5) <==> Curled(m, hand, tip, pip, mcp, 1.5)
  {
    CurvatureAbove(m, hand, tip, pip, mcp, 0.5);
  }

  /** `CurvatureAbove` for the thumb at the pointing threshold 0.3. */
  lemma BentThumb(m: Numerics, hand: seq<Landmark>)
    requires |hand| >= HandSize
    ensures Gt(FingerCurvature(m, hand, ThumbTip, ThumbIp, ThumbMcp), 0.3)
        <==> Curled(m, hand, ThumbTip, ThumbIp, ThumbMcp, 1.3)
  {
    CurvatureAbove(m, hand, ThumbTip, ThumbIp, ThumbMcp, 0.3);
  }

  /** `ExtensionAbove` stated through `Reaches`. */
  lemma ReachingFinger(m: Numerics, hand: seq<Landmark>, tip: nat, mcp: nat, ratio: real)
    requires Wrist < |hand| && tip < |hand| && mcp < |hand|
    requires 0.0 <= ratio
    ensures Gt(FingerExtension(m, hand, tip, mcp), ratio) <==> Reaches(m, hand, tip, mcp, ratio)
  {
    ExtensionAbove(m, hand, tip, mcp, ratio);
  }
}
