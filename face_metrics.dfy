/**
  Face metrics from MediaPipe face-mesh landmarks: the landmark and metric
  records, `clamp_unit`, the Euler-angle decomposition of the facial
  transformation matrix and `compute_face_metrics`.

  Floating-point primitives (`sqrt`, `arctan2`, `degrees`, `round(x, n)` and
  `f"{x:.nf}"`) are not computed here: a `Numerics` value supplies them, so every
  statement below holds whatever those primitives return, and the few facts that
  need one of their laws (`sqrt(x) >= 0`, `round(0.0, n) == 0.0`) take it as a
  hypothesis.
*/
module FaceMetrics {
  import opened Wrappers

  // MediaPipe face-mesh indices of the points the metrics use.
  const NoseTip: nat := 1
  const EyeLOuter: nat := 33
  const EyeROuter: nat := 263
  const MouthLCorner: nat := 61
  const MouthRCorner: nat := 291
  const EyeLInner: nat := 133
  const EyeRInner: nat := 362
  const ChinTip: nat := 152
  const OvalL: nat := 234
  const OvalR: nat := 454
  const ForeheadTop: nat := 10

  /** The largest index read: a face needs more landmarks than this. */
  const MaxIndex: nat := 454

  /** A Python float as far as finiteness matters. */
  datatype Float = Finite(value: real) | NaN | Infinity(negative: bool)

  /** `SimpleLandmark`: normalised coordinates plus visibility and presence. */
  datatype Landmark = Landmark(x: real, y: real, z: real, visibility: real, presence: real)

  /** `SimpleLandmark(x, y, z)` with the default visibility and presence of 1.0. */
  function Point(x: real, y: real, z: real): (lm: Landmark)
    ensures lm.visibility == 1.0 && lm.presence == 1.0
  {
    Landmark(x, y, z, 1.0, 1.0)
  }

  /** The floating-point primitives the metrics are built from. */
  datatype Numerics = Numerics(
    sqrt: real -> real,
    atan2: (real, real) -> real,
    degrees: real -> real,
    round: (real, int) -> real,
    format: (real, int) -> string)

  ghost predicate SqrtNonNegative(n: Numerics)
  {
    forall x :: n.sqrt(x) >= 0.0
  }

  ghost predicate RoundKeepsZero(n: Numerics)
  {
    forall d :: n.round(0.0, d) == 0.0
  }

  // ---------------------------------------------------------------------------
  // clamp_unit
  // ---------------------------------------------------------------------------

  function Min(a: real, b: real): real { if a <= b then a else b }

  function Max(a: real, b: real): real { if a >= b then a else b }

  /** `clamp_unit`: non-finite values count as fully confident. */
  function ClampUnit(v: Float): (r: real)
    ensures 0.0 <= r <= 1.0
    ensures !v.Finite? ==> r == 1.0
    ensures v.Finite? && 0.0 <= v.value <= 1.0 ==> r == v.value
    ensures v.Finite? && v.value < 0.0 ==> r == 0.0
    ensures v.Finite? && v.value > 1.0 ==> r == 1.0
  {
    if !v.Finite? then 1.0 else Max(0.0, Min(1.0, v.value))
  }

  lemma ClampUnitIdempotent(v: Float)
    ensures ClampUnit(Finite(ClampUnit(v))) == ClampUnit(v)
  {
  }

  /** Clamping is monotone on finite values. */
  lemma ClampUnitMonotone(a: real, b: real)
    requires a <= b
    ensures ClampUnit(Finite(a)) <= ClampUnit(Finite(b))
  {
  }

  // ---------------------------------------------------------------------------
  // Pose from the facial transformation matrix
  // ---------------------------------------------------------------------------

  datatype Pose = Pose(pitch: real, yaw: real, roll: real)

  const SingularThreshold: real := 0.000001

  /** `rmat[i, j]` of the top-left 3x3 block of the row-major 4x4 matrix. */
  function R(m: seq<real>, i: nat, j: nat): real
    requires |m| == 16 && i < 3 && j < 3
  {
    m[4 * i + j]
  }

  function Sy(n: Numerics, m: seq<real>): real
    requires |m| == 16
  {
    n.sqrt(R(m, 0, 0) * R(m, 0, 0) + R(m, 1, 0) * R(m, 1, 0))
  }

  predicate Singular(n: Numerics, m: seq<real>)
    requires |m| == 16
  {
    Sy(n, m) < SingularThreshold
  }

  /** `get_euler_angles`: roll is exactly 0 in the singular case, and yaw is the
      same expression of `rmat[2, 0]` and `sy` whichever case applies; pitch is
      read from the last row, or from the middle row when the matrix is singular. */
  function EulerAngles(n: Numerics, m: seq<real>): (p: Pose)
    requires |m| == 16
    ensures !Singular(n, m) ==> p.pitch == n.degrees(n.atan2(R(m, 2, 1), R(m, 2, 2)))
    ensures Singular(n, m) ==> p.pitch == n.degrees(n.atan2(-R(m, 1, 2), R(m, 1, 1)))
    ensures p.yaw == n.degrees(n.atan2(-R(m, 2, 0), Sy(n, m)))
    ensures Singular(n, m) ==> p.roll == 0.0
    ensures !Singular(n, m) ==> p.roll == n.degrees(n.atan2(R(m, 1, 0), R(m, 0, 0)))
  {
    if !Singular(n, m) then
      Pose(n.degrees(n.atan2(R(m, 2, 1), R(m, 2, 2))),
           n.degrees(n.atan2(-R(m, 2, 0), Sy(n, m))),
           n.degrees(n.atan2(R(m, 1, 0), R(m, 0, 0))))
    else
      Pose(n.degrees(n.atan2(-R(m, 1, 2), R(m, 1, 1))),
           n.degrees(n.atan2(-R(m, 2, 0), Sy(n, m))),
           0.0)
  }

  /** The pose is read from the rotation block only: the translation column and
      the bottom row of the 4x4 matrix never matter. */
  lemma EulerAnglesUseRotationBlock(n: Numerics, m: seq<real>, m': seq<real>)
    requires |m| == 16 && |m'| == 16
    requires forall i, j :: 0 <= i < 3 && 0 <= j < 3 ==> R(m, i, j) == R(m', i, j)
    ensures EulerAngles(n, m) == EulerAngles(n, m')
  {
    assert R(m, 0, 0) == R(m', 0, 0) && R(m, 1, 0) == R(m', 1, 0) && R(m, 2, 0) == R(m', 2, 0);
    assert R(m, 2, 1) == R(m', 2, 1) && R(m, 2, 2) == R(m', 2, 2);
    assert R(m, 1, 1) == R(m', 1, 1) && R(m, 1, 2) == R(m', 1, 2);
    var a := R(m, 0, 0) * R(m, 0, 0) + R(m, 1, 0) * R(m, 1, 0);
    var b := R(m', 0, 0) * R(m', 0, 0) + R(m', 1, 0) * R(m', 1, 0);
    assert a == b;
    assert n.sqrt(a) == n.sqrt(b);
    assert Sy(n, m) == n.sqrt(a);
    assert Sy(n, m) == Sy(n, m');
  }

  /** A well-formed `matrix_data`: absent, or the 16 floats of a 4x4 matrix. */
  predicate MatrixShape(matrix: Option<seq<real>>)
  {
    matrix.Some? ==> |matrix.value| == 16
  }

  /** Step 1 of `compute_face_metrics`: the zero pose without a matrix. */
  function PoseOf(n: Numerics, matrix: Option<seq<real>>): (p: Pose)
    requires MatrixShape(matrix)
    ensures matrix.None? ==> p == Pose(0.0, 0.0, 0.0)
    ensures matrix.Some? ==> p == EulerAngles(n, matrix.value)
  {
    match matrix
    case None => Pose(0.0, 0.0, 0.0)
    case Some(m) => EulerAngles(n, m)
  }

  // ---------------------------------------------------------------------------
  // Extremes and sums of coordinates
  // ---------------------------------------------------------------------------

  function Xs(lms: seq<Landmark>): (r: seq<real>)
    ensures |r| == |lms| && forall i :: 0 <= i < |lms| ==> r[i] == lms[i].x
  {
    seq(|lms|, i requires 0 <= i < |lms| => lms[i].x)
  }

  function Ys(lms: seq<Landmark>): (r: seq<real>)
    ensures |r| == |lms| && forall i :: 0 <= i < |lms| ==> r[i] == lms[i].y
  {
    seq(|lms|, i requires 0 <= i < |lms| => lms[i].y)
  }

  /** `max(xs)`: an element of `xs` that no element exceeds. */
  function MaxOf(xs: seq<real>): (r: real)
    requires |xs| > 0
    ensures forall i :: 0 <= i < |xs| ==> xs[i] <= r
    ensures exists i :: 0 <= i < |xs| && xs[i] == r
  {
    if |xs| == 1 then xs[0]
    else
      var t := MaxOf(xs[1..]);
      assert forall i :: 1 <= i < |xs| ==> xs[i] == xs[1..][i - 1];
      Max(xs[0], t)
  }

  /** `min(xs)`: an element of `xs` that exceeds no element. */
  function MinOf(xs: seq<real>): (r: real)
    requires |xs| > 0
    ensures forall i :: 0 <= i < |xs| ==> r <= xs[i]
    ensures exists i :: 0 <= i < |xs| && xs[i] == r
  {
    if |xs| == 1 then xs[0]
    else
      var t := MinOf(xs[1..]);
      assert forall i :: 1 <= i < |xs| ==> xs[i] == xs[1..][i - 1];
      Min(xs[0], t)
  }

  /** The maximum is determined by being an upper bound that is attained. */
  lemma MaxOfUnique(xs: seq<real>, v: real)
    requires |xs| > 0
    requires forall i :: 0 <= i < |xs| ==> xs[i] <= v
    requires exists i :: 0 <= i < |xs| && xs[i] == v
    ensures MaxOf(xs) == v
  {
    var i :| 0 <= i < |xs| && xs[i] == v;
    var j :| 0 <= j < |xs| && xs[j] == MaxOf(xs);
    assert xs[i] <= MaxOf(xs) && xs[j] <= v;
  }

  lemma MinOfUnique(xs: seq<real>, v: real)
    requires |xs| > 0
    requires forall i :: 0 <= i < |xs| ==> v <= xs[i]
    requires exists i :: 0 <= i < |xs| && xs[i] == v
    ensures MinOf(xs) == v
  {
    var i :| 0 <= i < |xs| && xs[i] == v;
    var j :| 0 <= j < |xs| && xs[j] == MinOf(xs);
    assert MinOf(xs) <= xs[i] && v <= xs[j];
  }

  function Sum(xs: seq<real>): real
  {
    if |xs| == 0 then 0.0 else xs[0] + Sum(xs[1..])
  }

  /** Values in [0, 1] sum to between 0 and their count. */
  lemma {:induction false} SumOfUnitValues(xs: seq<real>)
    requires forall i :: 0 <= i < |xs| ==> 0.0 <= xs[i] <= 1.0
    ensures 0.0 <= Sum(xs) <= |xs| as real
  {
    if |xs| > 0 {
      assert forall i :: 0 <= i < |xs[1..]| ==> xs[1..][i] == xs[i + 1];
      SumOfUnitValues(xs[1..]);
    }
  }

  /** Values all equal to 1 sum to their count. */
  lemma {:induction false} SumOfOnes(xs: seq<real>)
    ensures (forall i :: 0 <= i < |xs| ==> xs[i] == 1.0) ==> Sum(xs) == |xs| as real
  {
    if |xs| > 0 {
      assert forall i :: 0 <= i < |xs[1..]| ==> xs[1..][i] == xs[i + 1];
      SumOfOnes(xs[1..]);
    }
  }

  // ---------------------------------------------------------------------------
  // Landmark confidence
  // ---------------------------------------------------------------------------

  /** The seven points whose visibility and presence make up the confidence. */
  function ConfidencePoints(lms: seq<Landmark>): (r: seq<Landmark>)
    requires |lms| > MaxIndex
    ensures |r| == 7
  {
    [lms[EyeLOuter], lms[EyeROuter], lms[EyeLInner], lms[EyeRInner],
     lms[NoseTip], lms[MouthLCorner], lms[MouthRCorner]]
  }

  function PointConfidence(lm: Landmark): (r: real)
    ensures 0.0 <= r <= 1.0
  {
    (ClampUnit(Finite(lm.visibility)) + ClampUnit(Finite(lm.presence))) * 0.5
  }

  function ConfidenceValues(points: seq<Landmark>): (r: seq<real>)
    ensures |r| == |points|
    ensures forall i :: 0 <= i < |points| ==> r[i] == PointConfidence(points[i])
  {
    seq(|points|, i requires 0 <= i < |points| => PointConfidence(points[i]))
  }

  /** The unrounded `landmark_confidence`: the mean of the seven point confidences.
      It lies in [0, 1], and is exactly 1 when those points carry the default
      visibility and presence of 1.0. */
  function LandmarkConfidence(lms: seq<Landmark>): (r: real)
    requires |lms| > MaxIndex
    ensures 0.0 <= r <= 1.0
    ensures (forall i :: 0 <= i < 7 ==>
               ConfidencePoints(lms)[i].visibility == 1.0 && ConfidencePoints(lms)[i].presence == 1.0)
            ==> r == 1.0
  {
    var values := ConfidenceValues(ConfidencePoints(lms));
    SumOfUnitValues(values);
    SumOfOnes(values);
    Sum(values) / 7.0
  }

  // ---------------------------------------------------------------------------
  // Distances
  // ---------------------------------------------------------------------------

  function Sq(a: real): real { a * a }

  /** 2D distance between two landmarks. */
  function Dist(n: Numerics, a: Landmark, b: Landmark): real
  {
    n.sqrt(Sq(b.x - a.x) + Sq(b.y - a.y))
  }

  /** 3D distance between two landmarks: `face_scale` between the outer eye corners. */
  function Dist3(n: Numerics, a: Landmark, b: Landmark): real
  {
    n.sqrt(Sq(b.x - a.x) + Sq(b.y - a.y) + Sq(b.z - a.z))
  }

  /** Distance between the midpoint of the eye corners and that of the mouth corners. */
  function EyeMouthDist(n: Numerics, eyeL: Landmark, eyeR: Landmark, mouthL: Landmark, mouthR: Landmark): real
  {
    var midEye := Point((eyeL.x + eyeR.x) * 0.5, (eyeL.y + eyeR.y) * 0.5, 0.0);
    var midMouth := Point((mouthL.x + mouthR.x) * 0.5, (mouthL.y + mouthR.y) * 0.5, 0.0);
    Dist(n, midEye, midMouth)
  }

  /** The unrounded scale and distance measurements of steps 3 and 4. */
  datatype Measures = Measures(
    faceScale: real, iodistOuter: real, iodistInner: real, iodistBlend: real,
    eyeMouthDist: real, ovalWidth: real, noseEyeDist: real, faceHeight: real,
    srcScalePx: real, faceWidth: real)

  /** The landmarks the measurements are taken between. */
  datatype KeyPoints = KeyPoints(
    eyeL: Landmark, eyeR: Landmark, eyeLi: Landmark, eyeRi: Landmark,
    mouthL: Landmark, mouthR: Landmark, nose: Landmark, chin: Landmark,
    forehead: Landmark, ovalL: Landmark, ovalR: Landmark)

  function KeyPointsOf(lms: seq<Landmark>): KeyPoints
    requires |lms| > MaxIndex
  {
    KeyPoints(lms[EyeLOuter], lms[EyeROuter], lms[EyeLInner], lms[EyeRInner],
              lms[MouthLCorner], lms[MouthRCorner], lms[NoseTip], lms[ChinTip],
              lms[ForeheadTop], lms[OvalL], lms[OvalR])
  }

  /** The distances between the key points, with the blended interocular
      distance and the source scale mixed from them, and the given width. */
  function Distances(n: Numerics, k: KeyPoints, faceWidth: real): (r: Measures)
    ensures r.iodistBlend == 0.6 * r.iodistInner + 0.4 * r.iodistOuter
    ensures r.srcScalePx == 0.55 * r.iodistBlend + 0.30 * r.ovalWidth + 0.15 * r.faceHeight
    ensures r.faceWidth == faceWidth
    ensures SqrtNonNegative(n) ==>
              r.faceScale >= 0.0 && r.iodistOuter >= 0.0 && r.iodistInner >= 0.0
              && r.iodistBlend >= 0.0 && r.eyeMouthDist >= 0.0 && r.ovalWidth >= 0.0
              && r.noseEyeDist >= 0.0 && r.faceHeight >= 0.0 && r.srcScalePx >= 0.0
  {
    var fscale := Dist3(n, k.eyeL, k.eyeR);
    var outer := Dist(n, k.eyeL, k.eyeR);
    var inner := Dist(n, k.eyeLi, k.eyeRi);
    var blend := 0.6 * inner + 0.4 * outer;
    var eyeMouth := EyeMouthDist(n, k.eyeL, k.eyeR, k.mouthL, k.mouthR);
    var oval := Dist(n, k.ovalL, k.ovalR);
    var nedist := Dist(n, k.eyeL, k.nose);
    var height := Dist(n, k.chin, k.forehead);
    var src := 0.55 * blend + 0.30 * oval + 0.15 * height;
    Measures(fscale, outer, inner, blend, eyeMouth, oval, nedist, height, src, faceWidth)
  }

  /** Steps 3 and 4 of `compute_face_metrics`, unrounded; the face width is the
      horizontal extent of all landmarks. */
  function MeasuresOf(n: Numerics, lms: seq<Landmark>): (r: Measures)
    requires |lms| > MaxIndex
    ensures r == Distances(n, KeyPointsOf(lms), r.faceWidth)
    ensures r.faceWidth == MaxOf(Xs(lms)) - MinOf(Xs(lms)) && r.faceWidth >= 0.0
  {
    var width := MaxOf(Xs(lms)) - MinOf(Xs(lms));
    assert Xs(lms)[0] <= MaxOf(Xs(lms)) && MinOf(Xs(lms)) <= Xs(lms)[0];
    Distances(n, KeyPointsOf(lms), width)
  }

  // ---------------------------------------------------------------------------
  // The metric records
  // ---------------------------------------------------------------------------

  /** The rounded geometry and pose fields both `FaceMetrics` records share. */
  datatype Geometry = Geometry(
    pitch: real, yaw: real, roll: real,
    centerX: real, centerY: real, faceWidth: real, faceScale: real, interocularDist: real,
    noseX: real, noseY: real, eyeLX: real, eyeLY: real, eyeRX: real, eyeRY: real,
    mouthLX: real, mouthLY: real, mouthRX: real, mouthRY: real,
    eyeLiX: real, eyeLiY: real, eyeRiX: real, eyeRiY: real,
    iodistInner: real, iodistBlend: real, eyeMouthDist: real,
    chinX: real, chinY: real, ovalLX: real, ovalLY: real, ovalRX: real, ovalRY: real,
    ovalWidth: real, foreheadX: real, foreheadY: real, faceHeight: real,
    srcScalePx: real, noseEyeDist: real)

  /** `FaceMetrics` of face_metrics.py. */
  datatype FaceMetrics = FaceMetrics(geometry: Geometry, landmarkConfidence: real, score: real)

  /** The geometry part of `compute_face_metrics`: every field is the rounded
      pose angle, coordinate or measurement it is named after; the centre is the
      outer left eye. */
  function ComputeGeometry(n: Numerics, lms: seq<Landmark>, matrix: Option<seq<real>>): (g: Geometry)
    requires |lms| > MaxIndex && MatrixShape(matrix)
    ensures g.centerX == g.eyeLX && g.centerY == g.eyeLY
    ensures g.eyeLX == n.round(lms[EyeLOuter].x, 4) && g.eyeLY == n.round(lms[EyeLOuter].y, 4)
    ensures var p := PoseOf(n, matrix);
            g.pitch == n.round(p.pitch, 2) && g.yaw == n.round(p.yaw, 2) && g.roll == n.round(p.roll, 2)
    ensures matrix.None? && RoundKeepsZero(n) ==> g.pitch == 0.0 && g.yaw == 0.0 && g.roll == 0.0
    ensures g.faceWidth == n.round(MeasuresOf(n, lms).faceWidth, 4)
    ensures g.iodistBlend == n.round(MeasuresOf(n, lms).iodistBlend, 6)
    ensures g.srcScalePx == n.round(MeasuresOf(n, lms).srcScalePx, 6)
  {
    var p := PoseOf(n, matrix);
    var ms := MeasuresOf(n, lms);
    var nose, eyeL, eyeR := lms[NoseTip], lms[EyeLOuter], lms[EyeROuter];
    var mouthL, mouthR := lms[MouthLCorner], lms[MouthRCorner];
    var eyeLi, eyeRi := lms[EyeLInner], lms[EyeRInner];
    var chin, ovalL, ovalR, forehead := lms[ChinTip], lms[OvalL], lms[OvalR], lms[ForeheadTop];
    Geometry(
      n.round(p.pitch, 2), n.round(p.yaw, 2), n.round(p.roll, 2),
      n.round(eyeL.x, 4), n.round(eyeL.y, 4), n.round(ms.faceWidth, 4),
      n.round(ms.faceScale, 6), n.round(ms.iodistOuter, 6),
      n.round(nose.x, 4), n.round(nose.y, 4), n.round(eyeL.x, 4), n.round(eyeL.y, 4),
      n.round(eyeR.x, 4), n.round(eyeR.y, 4),
      n.round(mouthL.x, 4), n.round(mouthL.y, 4), n.round(mouthR.x, 4), n.round(mouthR.y, 4),
      n.round(eyeLi.x, 4), n.round(eyeLi.y, 4), n.round(eyeRi.x, 4), n.round(eyeRi.y, 4),
      n.round(ms.iodistInner, 6), n.round(ms.iodistBlend, 6), n.round(ms.eyeMouthDist, 6),
      n.round(chin.x, 4), n.round(chin.y, 4), n.round(ovalL.x, 4), n.round(ovalL.y, 4),
      n.round(ovalR.x, 4), n.round(ovalR.y, 4),
      n.round(ms.ovalWidth, 6), n.round(forehead.x, 4), n.round(forehead.y, 4),
      n.round(ms.faceHeight, 6), n.round(ms.srcScalePx, 6), n.round(ms.noseEyeDist, 6))
  }

  /** `compute_face_metrics` of face_metrics.py: the shared geometry plus the
      rounded landmark confidence and detection score. */
  function ComputeFaceMetrics(n: Numerics, lms: seq<Landmark>, matrix: Option<seq<real>>, score: real): (r: FaceMetrics)
    requires |lms| > MaxIndex && MatrixShape(matrix)
    ensures r.geometry == ComputeGeometry(n, lms, matrix)
    ensures r.landmarkConfidence == n.round(LandmarkConfidence(lms), 3)
    ensures r.score == n.round(score, 3)
  {
    FaceMetrics(ComputeGeometry(n, lms, matrix), n.round(LandmarkConfidence(lms), 3), n.round(score, 3))
  }
}
