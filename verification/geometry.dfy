/** Points in MediaPipe's normalised image space and the transcendental
    functions the classifiers call, which the model leaves uninterpreted. */
module Geometry {
  import opened Wrappers

  /** A detected keypoint. `z` is never read and is not modelled;
      `visibility` is absent for detectors that do not report it. */
  datatype Landmark = Landmark(x: real, y: real, visibility: Option<real>)

  /** An uninterpreted stand-in for `Math.sqrt`, whose one known property
      is that it never returns a negative value. */
  type SqrtFn = f: real -> real | forall t: real :: 0.0 <= f(t)
    witness (t: real) => 0.0

  /** The host's `Math.sqrt` and `Math.atan2(y, x)`. */
  datatype Numerics = Numerics(sqrt: SqrtFn, atan2: (real, real) -> real)

  /** `Math.PI`, the double nearest to pi, written out exactly. */
  const Pi: real := 3.141592653589793115997963468544185161590576171875

  function Square(r: real): real {
    r * r
  }

  /** Planar Euclidean distance; `z` and visibility play no part. */
  function Distance(m: Numerics, a: Landmark, b: Landmark): (d: real)
    ensures 0.0 <= d
  {
    m.sqrt(Square(a.x - b.x) + Square(a.y - b.y))
  }

  /** `lms[i]`, or undefined when `i` is out of range. */
  function At(lms: seq<Landmark>, i: nat): (r: Option<Landmark>)
    ensures r.Some? <==> i < |lms|
    ensures r.Some? ==> r.value == lms[i]
  {
    if i < |lms| then Some(lms[i]) else None
  }

  /** The landmark moved by (dx, dy). */
  function Shift(l: Landmark, dx: real, dy: real): Landmark {
    l.(x := l.x + dx, y := l.y + dy)
  }

  /** Every landmark of `lms` moved by (dx, dy). */
  function ShiftAll(lms: seq<Landmark>, dx: real, dy: real): (r: seq<Landmark>)
    ensures |r| == |lms|
    ensures forall i :: 0 <= i < |lms| ==> r[i] == Shift(lms[i], dx, dy)
  {
    seq(|lms|, i requires 0 <= i < |lms| => Shift(lms[i], dx, dy))
  }

  /** Distance depends only on the difference of the two points, so moving
      both by the same offset leaves it unchanged. */
  lemma DistanceShift(m: Numerics, a: Landmark, b: Landmark, dx: real, dy: real)
    ensures Distance(m, Shift(a, dx, dy), Shift(b, dx, dy)) == Distance(m, a, b)
  {
    var a', b' := Shift(a, dx, dy), Shift(b, dx, dy);
    assert a'.x - b'.x == a.x - b.x && a'.y - b'.y == a.y - b.y;
  }

  /** Distance is symmetric. */
  lemma DistanceSymmetric(m: Numerics, a: Landmark, b: Landmark)
    ensures Distance(m, a, b) == Distance(m, b, a)
  {
    assert Square(a.x - b.x) == Square(b.x - a.x);
    assert Square(a.y - b.y) == Square(b.y - a.y);
  }
}
