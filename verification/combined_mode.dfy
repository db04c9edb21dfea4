/** The combined classroom mode runs the pose and face-mesh pipelines side
    by side and carries its own copies of the two classifiers. Its enums
    (`BODY_POSE_TYPE`, `ROTATE_DIRECTION`, `BODY_POSE_KEY_POINT_INDEX`,
    `FACE_KEY_POINT_INDEX`) repeat the values of the single-purpose files,
    so the datatypes and index constants of those modules are reused here;
    the two functions are written out again and proved to agree. */
module CombinedMode {
  import opened Wrappers
  import opened Geometry
  import BodyPose
  import FaceMesh

  /** `detectPose` of the combined mode. */
  function DetectPose(landmarks: Option<seq<Landmark>>): (p: BodyPose.PoseType)
    ensures p == BodyPose.DetectPose(landmarks)
    ensures p == BodyPose.RightHandUp
        <==> (BodyPose.RightWrist < |landmarks.GetOr([])|
              && landmarks.value[BodyPose.RightWrist].y < landmarks.value[BodyPose.RightShoulder].y
              && landmarks.value[BodyPose.RightElbow].y < landmarks.value[BodyPose.RightShoulder].y)
    ensures p != BodyPose.BothHandsUp
  {
    var lms := landmarks.GetOr([]);
    var isRightHandUp :=
      BodyPose.JsLess(BodyPose.YAt(lms, BodyPose.RightWrist), BodyPose.YAt(lms, BodyPose.RightShoulder))
      && BodyPose.JsLess(BodyPose.YAt(lms, BodyPose.RightElbow), BodyPose.YAt(lms, BodyPose.RightShoulder));
    var isLeftHandUp :=
      BodyPose.JsLess(BodyPose.YAt(lms, BodyPose.LeftWrist), BodyPose.YAt(lms, BodyPose.LeftShoulder))
      && BodyPose.JsLess(BodyPose.YAt(lms, BodyPose.LeftElbow), BodyPose.YAt(lms, BodyPose.LeftShoulder));
    if isRightHandUp then BodyPose.RightHandUp
    else if isLeftHandUp then BodyPose.LeftHandUp
    else BodyPose.Normal
  }

  /** `detectFaceRotation` of the combined mode. */
  function DetectFaceRotation(landmarks: Option<seq<Landmark>>): (c: FaceMesh.Completion)
    ensures c == FaceMesh.DetectFaceRotation(landmarks)
    ensures c == FaceMesh.Returned(FaceMesh.NotFindFace) <==> landmarks.None? || |landmarks.value| == 0
    ensures landmarks.Some? && FaceMesh.RightSide < |landmarks.value| ==> c.Returned? && c.direction != FaceMesh.NotFindFace
  {
    if landmarks.None? || |landmarks.value| == 0 then FaceMesh.Returned(FaceMesh.NotFindFace)
    else
      var lms := landmarks.value;
      if |lms| <= FaceMesh.NoseTip || |lms| <= FaceMesh.RightSide then FaceMesh.ThrewTypeError
      else
        var leftDist := lms[FaceMesh.LeftSide].x - lms[FaceMesh.NoseTip].x;
        var rightDist := lms[FaceMesh.NoseTip].x - lms[FaceMesh.RightSide].x;
        var distDiff := leftDist - rightDist;
        if distDiff > FaceMesh.RotationThreshold then FaceMesh.Returned(FaceMesh.RightRotate)
        else if distDiff < -FaceMesh.RotationThreshold then FaceMesh.Returned(FaceMesh.LeftRotate)
        else FaceMesh.Returned(FaceMesh.NoneRotate)
  }
}
