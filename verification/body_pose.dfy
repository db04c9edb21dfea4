/** The classroom-mode body-pose classifier: which arm, if any, is raised,
    read from the y-coordinates of the shoulders, elbows and wrists of a
    33-point pose skeleton (y grows downwards in image coordinates). */
module BodyPose {
  import opened Wrappers
  import opened Geometry

  /** The pose reported for a frame, with the string value of each case. */
  datatype PoseType = RightHandUp | LeftHandUp | BothHandsUp | Normal
  {
    function Value(): string {
      match this
      case RightHandUp => "right_hand_up"
      case LeftHandUp => "left_hand_up"
      case BothHandsUp => "both_hands_up"
      case Normal => "normal"
    }
  }

  /** Indices of the pose skeleton that the classifier reads. */
  const Nose: nat := 0
  const LeftShoulder: nat := 11
  const RightShoulder: nat := 12
  const LeftElbow: nat := 13
  const RightElbow: nat := 14
  const LeftWrist: nat := 15
  const RightWrist: nat := 16

  /** The six points the classifier reads. */
  const ArmPoints: seq<nat> := [LeftShoulder, RightShoulder, LeftElbow, RightElbow, LeftWrist, RightWrist]

  /** `landmarks[i]?.y`: None stands for `undefined` past the end. */
  function YAt(lms: seq<Landmark>, i: nat): (y: Option<real>)
    ensures y.Some? <==> i < |lms|
    ensures y.Some? ==> y.value == lms[i].y
  {
    match At(lms, i)
    case None => None
    case Some(l) => Some(l.y)
  }

  /** JavaScript `<` on two values that may be `undefined`: a comparison with
      `undefined` converts it to NaN and is therefore false. */
  predicate JsLess(a: Option<real>, b: Option<real>) {
    match (a, b)
    case (Some(x), Some(y)) => x < y
    case _ => false
  }

  /** The independent reading of "this arm is up": all three points exist
      and both the wrist and the elbow lie above the shoulder. */
  predicate Raised(lms: seq<Landmark>, wrist: nat, elbow: nat, shoulder: nat) {
    && wrist < |lms| && elbow < |lms| && shoulder < |lms|
    && lms[wrist].y < lms[shoulder].y
    && lms[elbow].y < lms[shoulder].y
  }

  /** `wrist?.y < shoulder?.y && elbow?.y < shoulder?.y`: an arm is up when
      the wrist and the elbow are above the shoulder; a missing point makes
      the arm not up. */
  function ArmUp(lms: seq<Landmark>, wrist: nat, elbow: nat, shoulder: nat): (up: bool)
    ensures up <==> Raised(lms, wrist, elbow, shoulder)
  {
    JsLess(YAt(lms, wrist), YAt(lms, shoulder)) && JsLess(YAt(lms, elbow), YAt(lms, shoulder))
  }

  /** The landmark list the classifier reads: an omitted argument defaults to
      the empty list. */
  function PoseLandmarks(landmarks: Option<seq<Landmark>>): seq<Landmark> {
    landmarks.GetOr([])
  }

  /** `detectPose`: the right arm is tested first, then the left arm. */
  function DetectPose(landmarks: Option<seq<Landmark>>): (p: PoseType)
    ensures p == RightHandUp <==> Raised(PoseLandmarks(landmarks), RightWrist, RightElbow, RightShoulder)
    ensures p == LeftHandUp
        <==> (!Raised(PoseLandmarks(landmarks), RightWrist, RightElbow, RightShoulder)
              && Raised(PoseLandmarks(landmarks), LeftWrist, LeftElbow, LeftShoulder))
    ensures p == Normal
        <==> (!Raised(PoseLandmarks(landmarks), RightWrist, RightElbow, RightShoulder)
              && !Raised(PoseLandmarks(landmarks), LeftWrist, LeftElbow, LeftShoulder))
    ensures p != BothHandsUp
  {
    var lms := PoseLandmarks(landmarks);
    var isRightHandUp := ArmUp(lms, RightWrist, RightElbow, RightShoulder);
    var isLeftHandUp := ArmUp(lms, LeftWrist, LeftElbow, LeftShoulder);
    if isRightHandUp then RightHandUp
    else if isLeftHandUp then LeftHandUp
    else Normal
  }

  /** Right has priority: with both arms up the right arm is reported. */
  lemma BothArmsUpIsRight(lms: seq<Landmark>)
    requires Raised(lms, RightWrist, RightElbow, RightShoulder)
    requires Raised(lms, LeftWrist, LeftElbow, LeftShoulder)
    ensures DetectPose(Some(lms)) == RightHandUp
  {
  }

  /** A skeleton too short to hold the right wrist (index 16) never has its
      right arm up; one too short for the left wrist (index 15) is NORMAL. */
  lemma MissingPointsNotUp(lms: seq<Landmark>)
    ensures |lms| <= RightWrist ==> DetectPose(Some(lms)) != RightHandUp
    ensures |lms| <= LeftWrist ==> DetectPose(Some(lms)) == Normal
  {
  }

  /** No landmarks, whether omitted or empty, means NORMAL. */
  lemma EmptyIsNormal()
    ensures DetectPose(None) == Normal
    ensures DetectPose(Some([])) == Normal
  {
  }

  /** Only the y-coordinates of the six arm points matter: two skeletons that
      agree on them are classified alike. */
  lemma {:induction false} DetectPoseLocal(a: seq<Landmark>, b: seq<Landmark>)
    requires |a| == |b|
    requires forall k :: 0 <= k < |ArmPoints| && ArmPoints[k] < |a| ==> a[ArmPoints[k]].y == b[ArmPoints[k]].y
    ensures DetectPose(Some(a)) == DetectPose(Some(b))
  {
    assert ArmPoints[0] == LeftShoulder && ArmPoints[1] == RightShoulder && ArmPoints[2] == LeftElbow;
    assert ArmPoints[3] == RightElbow && ArmPoints[4] == LeftWrist && ArmPoints[5] == RightWrist;
    assert Raised(a, RightWrist, RightElbow, RightShoulder) == Raised(b, RightWrist, RightElbow, RightShoulder);
    assert Raised(a, LeftWrist, LeftElbow, LeftShoulder) == Raised(b, LeftWrist, LeftElbow, LeftShoulder);
  }

  /** Moving the whole skeleton within the image does not change the pose. */
  lemma {:induction false} DetectPoseShift(lms: seq<Landmark>, dx: real, dy: real)
    ensures DetectPose(Some(ShiftAll(lms, dx, dy))) == DetectPose(Some(lms))
  {
    var moved := ShiftAll(lms, dx, dy);
    if |lms| > RightWrist {
      assert moved[RightWrist].y - moved[RightShoulder].y == lms[RightWrist].y - lms[RightShoulder].y;
      assert moved[RightElbow].y - moved[RightShoulder].y == lms[RightElbow].y - lms[RightShoulder].y;
    }
    if |lms| > LeftWrist {
      assert moved[LeftWrist].y - moved[LeftShoulder].y == lms[LeftWrist].y - lms[LeftShoulder].y;
      assert moved[LeftElbow].y - moved[LeftShoulder].y == lms[LeftElbow].y - lms[LeftShoulder].y;
    }
  }
}
