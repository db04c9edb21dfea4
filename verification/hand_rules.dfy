/** The rule evaluator of the hand-gesture classifier: one predicate per
    gesture and the first-match-wins cascade that orders them. */
module HandRules {
  import opened Wrappers
  import opened JsNumber
  import opened Geometry
  import opened HandFeatures

  /** The eight gestures the classifier can report. */
  datatype Gesture = Heart | Victory | Fist | ThumbsUp | ThumbsDown | Pointing | OkSign | OpenPalm {

    /** The display name the classifier reports. */
    function Name(): string {
      match this
      case Heart => "\U{6BD4}\U{5FC3}"
      case Victory => "\U{80DC}\U{5229}\U{624B}\U{52BF}"
      case Fist => "\U{62F3}\U{5934}"
      case ThumbsUp => "\U{70B9}\U{8D5E}"
      case ThumbsDown => "\U{70B9}\U{8E29}"
      case Pointing => "\U{6307}\U{5411}"
      case OkSign => "OK\U{624B}\U{52BF}"
      case OpenPalm => "\U{638C}\U{5F00}\U{624B}\U{52BF}"
    }

    function Emoji(): string {
      match this
      case Heart => "\U{1F496}"
      case Victory => "\U{270C}\U{FE0F}"
      case Fist => "\U{270A}"
      case ThumbsUp => "\U{1F44D}"
      case ThumbsDown => "\U{1F44E}"
      case Pointing => "\U{1F449}"
      case OkSign => "\U{1F44C}"
      case OpenPalm => "\U{270B}"
    }

    /** The fixed confidence of the gesture; it does not depend on how
        far the features clear their thresholds. */
    function Confidence(): real {
      match this
      case Pointing => 0.85
      case OkSign => 0.85
      case OpenPalm => 0.8
      case _ => 0.9
    }
  }

  /** The record the classifier returns; `kind` is the source's `type` field. */
  datatype GestureResult = GestureResult(name: string, emoji: string, confidence: real, kind: string)

  /** The category every hand gesture carries. */
  const HandKind: string := "hand"

  /** The result record of a gesture. */
  function Report(g: Gesture): (r: GestureResult)
    ensures r.kind == HandKind
    ensures r.confidence in {0.9, 0.85, 0.8}
    ensures 0.0 < r.confidence <= 1.0
    ensures r.confidence == 0.9 <==> g in {Heart, Victory, Fist, ThumbsUp, ThumbsDown}
    ensures r.confidence == 0.85 <==> g in {Pointing, OkSign}
    ensures r.confidence == 0.8 <==> g == OpenPalm
  {
    GestureResult(g.Name(), g.Emoji(), g.Confidence(), HandKind)
  }

  /** Distinct gestures are reported under distinct names, so a result
      record identifies its gesture. */
  lemma ReportInjective(g: Gesture, h: Gesture)
    ensures Report(g) == Report(h) ==> g == h
  {
  }

  /** Victory: index and middle finger extended, ring and pinky bent, the two
      raised tips apart and above the wrist, and the hand not spread open. */
  predicate IsVictoryGesture(lms: seq<Landmark>, f: FeatureVector)
    requires |lms| >= HandSize
    ensures IsVictoryGesture(lms, f) ==> lms[IndexTip].y < lms[Wrist].y && lms[MiddleTip].y < lms[Wrist].y
    ensures IsVictoryGesture(lms, f) ==> f.handSpread < 0.18 && f.indexMiddleDistance > 0.03
  {
    var indexExtended := Gt(f.indexExtension, 1.1);
    var middleExtended := Gt(f.middleExtension, 1.1);
    var ringBent := Gt(f.ringCurvature, 0.3);
    var pinkyBent := Gt(f.pinkyCurvature, 0.3);
    var fingersSeparated := f.indexMiddleDistance > 0.03;
    var fingersUp := lms[IndexTip].y < lms[Wrist].y && lms[MiddleTip].y < lms[Wrist].y;
    var notOpenPalm := f.handSpread < 0.18;
    indexExtended && middleExtended && ringBent && pinkyBent && fingersSeparated && fingersUp && notOpenPalm
  }

  /** The bearing of a point seen from the wrist, `Math.atan2(dy, dx)`. */
  function Bearing(m: Numerics, lms: seq<Landmark>, i: nat): real
    requires Wrist < |lms| && i < |lms|
  {
    m.atan2(lms[i].y - lms[Wrist].y, lms[i].x - lms[Wrist].x)
  }

  /** The absolute difference of the thumb-tip and index-tip bearings. */
  function ThumbIndexAngle(m: Numerics, lms: seq<Landmark>): (a: real)
    requires |lms| >= HandSize
    ensures 0.0 <= a
  {
    Abs(Bearing(m, lms, ThumbTip) - Bearing(m, lms, IndexTip))
  }

  /** Heart (the finger heart): thumb and index extended with their tips close
      together and crossing above the wrist, the other three fingers partly
      bent and not overly extended, the hand not spread wide. */
  predicate IsHeartGesture(m: Numerics, lms: seq<Landmark>, f: FeatureVector)
    requires |lms| >= HandSize
    ensures IsHeartGesture(m, lms, f) ==> lms[ThumbTip].y < lms[Wrist].y && lms[IndexTip].y < lms[Wrist].y
    ensures IsHeartGesture(m, lms, f) ==> Distance(m, lms[ThumbTip], lms[IndexTip]) < 0.20
    ensures IsHeartGesture(m, lms, f) ==> Pi / 18.0 < ThumbIndexAngle(m, lms) < Pi * 5.0 / 6.0
    ensures IsHeartGesture(m, lms, f) ==> f.handSpread < 0.50
  {
    var thumbTip := lms[ThumbTip];
    var indexTip := lms[IndexTip];
    var wrist := lms[Wrist];
    var thumbExtended := Gt(f.thumbExtension, 1.2);
    var indexExtended := Gt(f.indexExtension, 1.2);
    var tipsClose := Distance(m, thumbTip, indexTip) < 0.20;
    var angleDiff := ThumbIndexAngle(m, lms);
    var validCrossAngle := angleDiff > Pi / 18.0 && angleDiff < Pi * 5.0 / 6.0;
    var tipsAboveWrist := thumbTip.y < wrist.y && indexTip.y < wrist.y;
    var middlePartialBent := Gt(f.middleCurvature, 0.2);
    var ringPartialBent := Gt(f.ringCurvature, 0.2);
    var pinkyPartialBent := Gt(f.pinkyCurvature, 0.15);
    var middleNotTooExtended := Lt(f.middleExtension, 2.0);
    var ringNotTooExtended := Lt(f.ringExtension, 2.0);
    var pinkyNotTooExtended := Lt(f.pinkyExtension, 2.3);
    var thumbRelativeX := thumbTip.x - wrist.x;
    var indexRelativeX := indexTip.x - wrist.x;
    var crossingSides := Sign(thumbRelativeX) != Sign(indexRelativeX)
      || Abs(thumbRelativeX - indexRelativeX) > 0.01
      || angleDiff > Pi / 9.0;
    var notOpenPalm := f.handSpread < 0.50;
    thumbExtended && indexExtended && tipsClose && validCrossAngle
      && tipsAboveWrist && middlePartialBent && ringPartialBent && pinkyPartialBent
      && middleNotTooExtended && ringNotTooExtended && pinkyNotTooExtended
      && crossingSides && notOpenPalm
  }

  /** The heart rule reads the raw landmarks only through the thumb-to-index
      distance, the bearing difference, the tips' heights relative to the
      wrist and their horizontal offsets from the wrist. */
  lemma HeartCongruence(m: Numerics, a: seq<Landmark>, b: seq<Landmark>, f: FeatureVector)
    requires |a| >= HandSize && |b| >= HandSize
    requires Distance(m, a[ThumbTip], a[IndexTip]) == Distance(m, b[ThumbTip], b[IndexTip])
    requires ThumbIndexAngle(m, a) == ThumbIndexAngle(m, b)
    requires a[ThumbTip].y - a[Wrist].y == b[ThumbTip].y - b[Wrist].y
    requires a[IndexTip].y - a[Wrist].y == b[IndexTip].y - b[Wrist].y
    requires a[ThumbTip].x - a[Wrist].x == b[ThumbTip].x - b[Wrist].x
    requires a[IndexTip].x - a[Wrist].x == b[IndexTip].x - b[Wrist].x
    ensures IsHeartGesture(m, a, f) == IsHeartGesture(m, b, f)
  {
  }

  /** Thumb pointing down: the thumb tip lies below both of its own joints on
      screen and reaches more than 1.1 times as far from the wrist as the
      thumb MCP. Read through the thumb's extension feature, that is an
      extension above 1.1. */
  predicate IsThumbDown(m: Numerics, lms: seq<Landmark>)
    requires |lms| >= HandSize
    ensures IsThumbDown(m, lms)
        <==> (lms[ThumbTip].y > lms[ThumbIp].y && lms[ThumbTip].y > lms[ThumbMcp].y
              && Gt(FingerExtension(m, lms, ThumbTip, ThumbMcp), 1.1))
  {
    var thumbTip := lms[ThumbTip];
    var thumbIp := lms[ThumbIp];
    var thumbMcp := lms[ThumbMcp];
    var wrist := lms[Wrist];
    var tipBelowJoint := thumbTip.y > thumbIp.y && thumbTip.y > thumbMcp.y;
    var thumbDistance := Distance(m, thumbTip, wrist);
    var mcpDistance := Distance(m, thumbMcp, wrist);
    // The source compares distances; the ensures reads the same comparison
    // through the thumb's extension feature, which this lemma relates.
    ExtensionAbove(m, lms, ThumbTip, ThumbMcp, 1.1);
    var isExtended := thumbDistance > mcpDistance * 1.1;
    tipBelowJoint && isExtended
  }

  /** The four non-thumb fingers all bent past `k`. */
  predicate FourFingersBent(f: FeatureVector, k: real) {
    Gt(f.indexCurvature, k) && Gt(f.middleCurvature, k)
      && Gt(f.ringCurvature, k) && Gt(f.pinkyCurvature, k)
  }

  /** Fist: every non-thumb finger strongly bent and the hand closed. */
  predicate IsFist(f: FeatureVector) {
    FourFingersBent(f, 0.6) && f.handSpread < 0.12
  }

  /** Thumbs-up: not a thumb-down, thumb extended, other fingers bent. */
  predicate IsThumbsUp(m: Numerics, lms: seq<Landmark>, f: FeatureVector)
    requires |lms| >= HandSize
  {
    !IsThumbDown(m, lms) && Gt(f.thumbExtension, 1.3) && FourFingersBent(f, 0.5)
  }

  /** Thumbs-down: a thumb-down with the other fingers bent. */
  predicate IsThumbsDown(m: Numerics, lms: seq<Landmark>, f: FeatureVector)
    requires |lms| >= HandSize
  {
    IsThumbDown(m, lms) && FourFingersBent(f, 0.5)
  }

  /** Pointing: index extended, middle, ring and pinky bent, thumb bent a little. */
  predicate IsPointing(f: FeatureVector) {
    Gt(f.indexExtension, 1.3) && Gt(f.middleCurvature, 0.5) && Gt(f.ringCurvature, 0.5)
      && Gt(f.pinkyCurvature, 0.5) && Gt(f.thumbCurvature, 0.3)
  }

  /** OK sign: thumb and index tips touching, the other three fingers extended. */
  predicate IsOkSign(f: FeatureVector) {
    f.thumbIndexDistance < 0.04 && Gt(f.middleExtension, 1.1)
      && Gt(f.ringExtension, 1.1) && Gt(f.pinkyExtension, 1.1)
  }

  /** Open palm: every finger extended and the hand spread open. */
  predicate IsOpenPalm(f: FeatureVector) {
    Gt(f.indexExtension, 1.2) && Gt(f.middleExtension, 1.2) && Gt(f.ringExtension, 1.2)
      && Gt(f.pinkyExtension, 1.2) && Gt(f.thumbExtension, 1.1) && f.handSpread > 0.16
  }

  /** The rule of one gesture, taken on its own. */
  predicate Matches(m: Numerics, f: FeatureVector, lms: seq<Landmark>, g: Gesture)
    requires |lms| >= HandSize
  {
    match g
    case Heart => IsHeartGesture(m, lms, f)
    case Victory => IsVictoryGesture(lms, f)
    case Fist => IsFist(f)
    case ThumbsUp => IsThumbsUp(m, lms, f)
    case ThumbsDown => IsThumbsDown(m, lms, f)
    case Pointing => IsPointing(f)
    case OkSign => IsOkSign(f)
    case OpenPalm => IsOpenPalm(f)
  }

  /** The rules in the order the cascade tries them. */
  const Priority: seq<Gesture> := [Heart, Victory, Fist, ThumbsUp, ThumbsDown, Pointing, OkSign, OpenPalm]

  /** The position of a gesture in the priority order. */
  function Rank(g: Gesture): (k: nat)
    ensures k < |Priority| && Priority[k] == g
  {
    match g
    case Heart => 0
    case Victory => 1
    case Fist => 2
    case ThumbsUp => 3
    case ThumbsDown => 4
    case Pointing => 5
    case OkSign => 6
    case OpenPalm => 7
  }

  /** The reference semantics of an ordered rule table: the first gesture of
      `gs` whose rule holds, or None when no rule holds. */
  function FirstMatch(gs: seq<Gesture>, holds: Gesture -> bool): (r: Option<Gesture>)
    ensures r.None? <==> forall i :: 0 <= i < |gs| ==> !holds(gs[i])
    ensures r.Some? ==> exists k :: 0 <= k < |gs| && gs[k] == r.value && holds(gs[k])
                                    && forall j :: 0 <= j < k ==> !holds(gs[j])
    decreases |gs|
  {
    if |gs| == 0 then None
    else if holds(gs[0]) then Some(gs[0])
    else
      var r := FirstMatch(gs[1..], holds);
      assert r.Some? ==> exists k :: 0 <= k < |gs| && gs[k] == r.value && holds(gs[k])
                                    && forall j :: 0 <= j < k ==> !holds(gs[j]) by {
        if r.Some? {
          var k :| 0 <= k < |gs[1..]| && gs[1..][k] == r.value && holds(gs[1..][k])
                   && forall j :: 0 <= j < k ==> !holds(gs[1..][j]);
          assert gs[k + 1] == r.value;
          forall j | 0 <= j < k + 1 ensures !holds(gs[j]) {
            if j > 0 {
              assert gs[j] == gs[1..][j - 1];
            }
          }
        }
      }
      assert r.None? ==> forall i :: 0 <= i < |gs| ==> !holds(gs[i]) by {
        if r.None? {
          forall i | 0 <= i < |gs| ensures !holds(gs[i]) {
            if i > 0 {
              assert gs[i] == gs[1..][i - 1];
            }
          }
        }
      }
      r
  }

  /** Rank is the inverse of indexing the priority order, so no gesture
      appears in it twice. */
  lemma RankOfPriority(i: nat)
    requires i < |Priority|
    ensures Rank(Priority[i]) == i
  {
  }

  /** In a table without repeated gestures, the first match is the entry at
      position k exactly when k's rule holds and every earlier rule fails. */
  lemma {:induction false} FirstMatchAt(gs: seq<Gesture>, holds: Gesture -> bool, k: nat)
    requires k < |gs|
    requires forall i, j :: 0 <= i < j < |gs| ==> gs[i] != gs[j]
    ensures FirstMatch(gs, holds) == Some(gs[k])
        <==> holds(gs[k]) && forall j :: 0 <= j < k ==> !holds(gs[j])
  {
    var r := FirstMatch(gs, holds);
    if r == Some(gs[k]) {
      var k' :| 0 <= k' < |gs| && gs[k'] == r.value && holds(gs[k'])
                && forall j :: 0 <= j < k' ==> !holds(gs[j]);
      assert k' == k;
    }
    if holds(gs[k]) && forall j :: 0 <= j < k ==> !holds(gs[j]) {
      assert r.Some?;
      var k' :| 0 <= k' < |gs| && gs[k'] == r.value && holds(gs[k'])
                && forall j :: 0 <= j < k' ==> !holds(gs[j]);
      assert !(k' < k);
      assert !(k < k');
    }
  }

  /** Over the priority order, the first match is the gesture of the given
      rank whose rule holds while every rule ranked before it fails. */
  lemma {:induction false} FirstMatchRank(holds: Gesture -> bool, g: Gesture)
    ensures FirstMatch(Priority, holds) == Some(g)
        <==> holds(g) && forall j :: 0 <= j < Rank(g) ==> !holds(Priority[j])
  {
    forall i, j | 0 <= i < j < |Priority| ensures Priority[i] != Priority[j] {
      RankOfPriority(i);
      RankOfPriority(j);
    }
    FirstMatchAt(Priority, holds, Rank(g));
  }

  /** The fixed nested cascade of the eight rules, in the source's priority
      order. */
  function Cascade(holds: Gesture -> bool): Option<Gesture> {
    if holds(Heart) then Some(Heart)
    else if holds(Victory) then Some(Victory)
    else if holds(Fist) then Some(Fist)
    else if holds(ThumbsUp) then Some(ThumbsUp)
    else if holds(ThumbsDown) then Some(ThumbsDown)
    else if holds(Pointing) then Some(Pointing)
    else if holds(OkSign) then Some(OkSign)
    else if holds(OpenPalm) then Some(OpenPalm)
    else None
  }

  /** The ordered table, evaluated first-match-wins, is the nested cascade. */
  lemma {:induction false} FirstMatchUnrolled(holds: Gesture -> bool)
    ensures FirstMatch(Priority, holds) == Cascade(holds)
  {
    var p := Priority;
    assert p[1..] == [Victory, Fist, ThumbsUp, ThumbsDown, Pointing, OkSign, OpenPalm];
    assert p[1..][1..] == [Fist, ThumbsUp, ThumbsDown, Pointing, OkSign, OpenPalm];
    assert p[1..][1..][1..] == [ThumbsUp, ThumbsDown, Pointing, OkSign, OpenPalm];
    assert p[1..][1..][1..][1..] == [ThumbsDown, Pointing, OkSign, OpenPalm];
    assert p[1..][1..][1..][1..][1..] == [Pointing, OkSign, OpenPalm];
    assert p[1..][1..][1..][1..][1..][1..] == [OkSign, OpenPalm];
    assert p[1..][1..][1..][1..][1..][1..][1..] == [OpenPalm];
    assert p[1..][1..][1..][1..][1..][1..][1..][1..] == [];
  }

  /** The hand's cascade is the nested cascade over its rule table. */
  lemma ClassifyIsCascade(m: Numerics, f: FeatureVector, lms: seq<Landmark>)
    requires |lms| >= HandSize
    ensures Classify(m, f, lms) == Cascade(RulesOf(m, f, lms))
  {
    var holds := RulesOf(m, f, lms);
    assert holds(Heart) == IsHeartGesture(m, lms, f);
    assert holds(Victory) == IsVictoryGesture(lms, f);
    assert holds(Fist) == IsFist(f);
    assert holds(ThumbsUp) == IsThumbsUp(m, lms, f);
    assert holds(ThumbsDown) == IsThumbsDown(m, lms, f);
    assert holds(Pointing) == IsPointing(f);
    assert holds(OkSign) == IsOkSign(f);
    assert holds(OpenPalm) == IsOpenPalm(f);
  }

  /** The cascade of `recognizeByFeatures`: the gesture of the first rule,
      in priority order, that holds. */
  function Classify(m: Numerics, f: FeatureVector, lms: seq<Landmark>): (r: Option<Gesture>)
    requires |lms| >= HandSize
    ensures IsHeartGesture(m, lms, f) ==> r == Some(Heart)
    ensures r == Some(Victory) <==> !IsHeartGesture(m, lms, f) && IsVictoryGesture(lms, f)
    ensures r == Some(Heart) ==> lms[ThumbTip].y < lms[Wrist].y && lms[IndexTip].y < lms[Wrist].y
    ensures r == Some(Victory) ==> lms[IndexTip].y < lms[Wrist].y && lms[MiddleTip].y < lms[Wrist].y
    ensures r == Some(Fist) ==> f.handSpread < 0.12
    ensures r == Some(ThumbsUp) ==> !IsThumbDown(m, lms)
    ensures r == Some(ThumbsDown) ==> IsThumbDown(m, lms)
    ensures r == Some(OpenPalm) ==> f.handSpread > 0.16
  {
    if IsHeartGesture(m, lms, f) then Some(Heart)
    else if IsVictoryGesture(lms, f) then Some(Victory)
    else if IsFist(f) then Some(Fist)
    else if IsThumbsUp(m, lms, f) then Some(ThumbsUp)
    else if IsThumbsDown(m, lms, f) then Some(ThumbsDown)
    else if IsPointing(f) then Some(Pointing)
    else if IsOkSign(f) then Some(OkSign)
    else if IsOpenPalm(f) then Some(OpenPalm)
    else None
  }

  /** `recognizeByFeatures`: the result record of the cascade's gesture. */
  function RecognizeByFeatures(m: Numerics, f: FeatureVector, lms: seq<Landmark>): (r: Option<GestureResult>)
    requires |lms| >= HandSize
    ensures r.Some? ==> r.value.kind == HandKind && r.value.confidence in {0.9, 0.85, 0.8}
    ensures IsHeartGesture(m, lms, f) ==> r == Some(Report(Heart))
  {
    ReportOf(Classify(m, f, lms))
  }

  /** The result record of an optional gesture. */
  function ReportOf(g: Option<Gesture>): Option<GestureResult> {
    match g
    case None => None
    case Some(h) => Some(Report(h))
  }

  /** The rule table of one hand: which gesture rules its features satisfy. */
  function RulesOf(m: Numerics, f: FeatureVector, lms: seq<Landmark>): Gesture -> bool
    requires |lms| >= HandSize
  {
    g => Matches(m, f, lms, g)
  }

  /** The nested cascade is the ordered rule table evaluated first-match-wins. */
  lemma {:induction false} CascadeIsFirstMatch(m: Numerics, f: FeatureVector, lms: seq<Landmark>)
    requires |lms| >= HandSize
    ensures Classify(m, f, lms) == FirstMatch(Priority, RulesOf(m, f, lms))
  {
    ClassifyIsCascade(m, f, lms);
    FirstMatchUnrolled(RulesOf(m, f, lms));
  }

  /** Priority: the cascade reports gesture g exactly when g's rule holds and
      the rule of every gesture ranked before g fails. */
  lemma {:induction false} PriorityOrder(m: Numerics, f: FeatureVector, lms: seq<Landmark>, g: Gesture)
    requires |lms| >= HandSize
    ensures RecognizeByFeatures(m, f, lms) == Some(Report(g))
        <==> Matches(m, f, lms, g) && forall j :: 0 <= j < Rank(g) ==> !Matches(m, f, lms, Priority[j])
  {
    var holds := RulesOf(m, f, lms);
    CascadeIsFirstMatch(m, f, lms);
    FirstMatchRank(holds, g);
    var r := Classify(m, f, lms);
    if r.Some? {
      ReportInjective(r.value, g);
    }
  }

  /** Null is returned exactly when no rule holds. */
  lemma {:induction false} NothingRecognized(m: Numerics, f: FeatureVector, lms: seq<Landmark>)
    requires |lms| >= HandSize
    ensures Classify(m, f, lms).None? <==> forall g: Gesture :: !Matches(m, f, lms, g)
    ensures RecognizeByFeatures(m, f, lms).None? <==> forall g: Gesture :: !Matches(m, f, lms, g)
  {
    var holds := RulesOf(m, f, lms);
    CascadeIsFirstMatch(m, f, lms);
    if exists g: Gesture :: Matches(m, f, lms, g) {
      var g: Gesture :| Matches(m, f, lms, g);
      assert holds(Priority[Rank(g)]);
    }
  }

  /** The cascade reads the raw landmarks only through the heart, victory
      and thumb-down checks: two skeletons on which those agree get the
      same result from the same features. */
  lemma CascadeCongruence(m: Numerics, f: FeatureVector, lms: seq<Landmark>, lms': seq<Landmark>)
    requires |lms| >= HandSize && |lms'| >= HandSize
    requires IsHeartGesture(m, lms, f) == IsHeartGesture(m, lms', f)
    requires IsVictoryGesture(lms, f) == IsVictoryGesture(lms', f)
    requires IsThumbDown(m, lms) == IsThumbDown(m, lms')
    ensures Classify(m, f, lms) == Classify(m, f, lms')
  {
  }

  /** Thumbs-up and thumbs-down never both describe a hand. */
  lemma ThumbsExclusive(m: Numerics, f: FeatureVector, lms: seq<Landmark>)
    requires |lms| >= HandSize
    ensures !(IsThumbsUp(m, lms, f) && IsThumbsDown(m, lms, f))
  {
  }
}
