/** The classroom-mode face-rotation classifier: a three-way threshold on
    how far the nose tip sits between the two temples of a 478-point face
    mesh (468 points plus the iris points `refineLandmarks` adds), plus a
    "no face" outcome. */
module FaceMesh {
  import opened Wrappers
  import opened Geometry

  /** The rotation reported for a frame, with the string value of each case. */
  datatype RotateDirection = RightRotate | LeftRotate | NoneRotate | NotFindFace
  {
    function Value(): string {
      match this
      case RightRotate => "RIGHT_ROTATE"
      case LeftRotate => "LEFT_ROTATE"
      case NoneRotate => "NONE_ROTATE"
      case NotFindFace => "NONE_FACE"
    }
  }

  /** Indices of the face mesh that the classifier reads. */
  const LeftSide: nat := 127
  const RightSide: nat := 356
  const NoseTip: nat := 1

  /** How far the temples' balance must move before a turn is reported. */
  const RotationThreshold: real := 0.2

  /** How a call ends: with a direction written to the reactive state, or
      with a TypeError from reading `.x` of a missing landmark (the state is
      then left as it was). */
  datatype Completion = Returned(direction: RotateDirection) | ThrewTypeError

  /** The independent reading of the turn: twice the offset of the nose tip
      from the midpoint of the two temples, (L + R) - 2N. */
  function Turn(lms: seq<Landmark>): real
    requires RightSide < |lms|
  {
    lms[LeftSide].x + lms[RightSide].x - 2.0 * lms[NoseTip].x
  }

  /** `detectFaceRotation`. A missing or empty list means no face. The nose
      tip and the right temple are read without optional chaining, so a list
      too short to hold index 356 throws; only the left temple is read with
      `?.` (a missing one gives NaN, but the right temple's read throws before
      that NaN is used). */
  function DetectFaceRotation(landmarks: Option<seq<Landmark>>): (c: Completion)
    ensures c == Returned(NotFindFace) <==> landmarks.None? || |landmarks.value| == 0
    ensures c.ThrewTypeError? <==> landmarks.Some? && 0 < |landmarks.value| <= RightSide
    ensures c == Returned(RightRotate)
        <==> (landmarks.Some? && RightSide < |landmarks.value| && Turn(landmarks.value) > 0.2)
    ensures c == Returned(LeftRotate)
        <==> (landmarks.Some? && RightSide < |landmarks.value| && Turn(landmarks.value) < -0.2)
    ensures c == Returned(NoneRotate)
        <==> (landmarks.Some? && RightSide < |landmarks.value| && -0.2 <= Turn(landmarks.value) <= 0.2)
  {
    if landmarks.None? || |landmarks.value| == 0 then Returned(NotFindFace)
    else
      var lms := landmarks.value;
      if |lms| <= NoseTip || |lms| <= RightSide then ThrewTypeError
      else
        var leftDist := lms[LeftSide].x - lms[NoseTip].x;
        var rightDist := lms[NoseTip].x - lms[RightSide].x;
        var distDiff := leftDist - rightDist;
        if distDiff > RotationThreshold then Returned(RightRotate)
        else if distDiff < -RotationThreshold then Returned(LeftRotate)
        else Returned(NoneRotate)
  }

  /** A complete mesh (all of indices 1, 127 and 356 present) always yields a
      direction, never the no-face value and never an exception. */
  lemma {:induction false} CompleteMeshTurns(lms: seq<Landmark>)
    requires RightSide < |lms|
    ensures DetectFaceRotation(Some(lms)).Returned?
    ensures DetectFaceRotation(Some(lms)).direction in {RightRotate, LeftRotate, NoneRotate}
  {
    var c := DetectFaceRotation(Some(lms));
    if Turn(lms) > 0.2 {
      assert c == Returned(RightRotate);
    } else if Turn(lms) < -0.2 {
      assert c == Returned(LeftRotate);
    } else {
      assert c == Returned(NoneRotate);
    }
  }

  /** The mesh flipped horizontally: every x becomes 1 - x. */
  function Mirror(lms: seq<Landmark>): (r: seq<Landmark>)
    ensures |r| == |lms|
    ensures forall i :: 0 <= i < |lms| ==> r[i] == lms[i].(x := 1.0 - lms[i].x)
  {
    seq(|lms|, i requires 0 <= i < |lms| => lms[i].(x := 1.0 - lms[i].x))
  }

  /** The direction seen in the mirror image. */
  function Mirrored(d: RotateDirection): RotateDirection {
    match d
    case RightRotate => LeftRotate
    case LeftRotate => RightRotate
    case NoneRotate => NoneRotate
    case NotFindFace => NotFindFace
  }

  /** Flipping the image horizontally swaps right and left turns and keeps
      every other outcome. */
  lemma {:induction false} MirrorSwapsTurn(lms: seq<Landmark>)
    ensures DetectFaceRotation(Some(Mirror(lms)))
         == match DetectFaceRotation(Some(lms))
            case Returned(d) => Returned(Mirrored(d))
            case ThrewTypeError => ThrewTypeError
  {
    if RightSide < |lms| {
      assert Turn(Mirror(lms)) == -Turn(lms);
    }
  }

  /** Moving the mesh within the image does not change the direction. */
  lemma {:induction false} FaceShift(lms: seq<Landmark>, dx: real, dy: real)
    ensures DetectFaceRotation(Some(ShiftAll(lms, dx, dy))) == DetectFaceRotation(Some(lms))
  {
    if RightSide < |lms| {
      assert Turn(ShiftAll(lms, dx, dy)) == Turn(lms);
    }
  }

  /** Only the length of the list and the x-coordinates of landmarks 127, 1
      and 356 matter. */
  lemma {:induction false} FaceLocal(a: seq<Landmark>, b: seq<Landmark>)
    requires |a| == |b|
    requires RightSide < |a| ==> a[LeftSide].x == b[LeftSide].x && a[NoseTip].x == b[NoseTip].x
                                 && a[RightSide].x == b[RightSide].x
    ensures DetectFaceRotation(Some(a)) == DetectFaceRotation(Some(b))
  {
    if RightSide < |a| {
      assert Turn(a) == Turn(b);
    }
  }
}
