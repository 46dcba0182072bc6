/**
  The landmark post-processing and bookkeeping helpers of the current
  analyze-faces script: confidence normalisation, landmark averaging, mirroring,
  the required-tag check, the missing-metadata report reader and the
  unusable-image report payload.
*/
module AnalyzeFaces {
  import opened Text
  import opened Wrappers
  import opened Ordering
  import opened Paths
  import opened FaceMetrics
  import opened XmpIo

  const SupportedImageExtensions: set<string> := {".jpg", ".jpeg", ".png", ".webp", ".gif"}

  const MinLandmarkConfidence: real := 0.75

  /** `p.suffix.lower() in SUPPORTED_IMAGE_EXTENSIONS`. */
  predicate IsSupportedImage(p: string)
  {
    Lower(Suffix(p)) in SupportedImageExtensions
  }

  // ---------------------------------------------------------------------------
  // to_landmark_confidence
  // ---------------------------------------------------------------------------

  /** A MediaPipe attribute value: a Python number (int or float), or anything else. */
  datatype Value = Number(f: Float) | NotNumber

  /** `to_landmark_confidence`: numbers are clamped into [0, 1]; non-numbers and
      non-finite numbers count as fully confident. */
  function ToLandmarkConfidence(v: Value): (r: real)
    ensures 0.0 <= r <= 1.0
    ensures v.NotNumber? || !v.f.Finite? ==> r == 1.0
    ensures v.Number? && v.f.Finite? && 0.0 <= v.f.value <= 1.0 ==> r == v.f.value
  {
    if v.Number? && v.f.Finite? then Max(0.0, Min(1.0, v.f.value)) else 1.0
  }

  /** The normalisation agrees with `clamp_unit` on numbers. */
  lemma ToLandmarkConfidenceIsClamp(v: Value)
    ensures v.Number? ==> ToLandmarkConfidence(v) == ClampUnit(v.f)
    ensures ToLandmarkConfidence(Number(Finite(ToLandmarkConfidence(v)))) == ToLandmarkConfidence(v)
  {
  }

  // ---------------------------------------------------------------------------
  // average_landmarks
  // ---------------------------------------------------------------------------

  function Midpoint(p: Landmark, s: Landmark): Landmark
  {
    Landmark((p.x + s.x) * 0.5, (p.y + s.y) * 0.5, (p.z + s.z) * 0.5,
             (p.visibility + s.visibility) * 0.5, (p.presence + s.presence) * 0.5)
  }

  /** What `average_landmarks` returns: `primary` itself when the lengths differ,
      otherwise the point-by-point midpoints. */
  function Averaged(primary: seq<Landmark>, secondary: seq<Landmark>): (r: seq<Landmark>)
    ensures |r| == |primary|
  {
    if |primary| != |secondary| then primary
    else seq(|primary|, i requires 0 <= i < |primary| => Midpoint(primary[i], secondary[i]))
  }

  method AverageLandmarks(primary: seq<Landmark>, secondary: seq<Landmark>) returns (averaged: seq<Landmark>)
    ensures averaged == Averaged(primary, secondary)
  {
    if |primary| != |secondary| {
      return primary;
    }
    averaged := [];
    for idx := 0 to |primary|
      invariant |averaged| == idx
      invariant forall j :: 0 <= j < idx ==> averaged[j] == Midpoint(primary[j], secondary[j])
    {
      var p, s := primary[idx], secondary[idx];
      averaged := averaged + [Landmark((p.x + s.x) * 0.5, (p.y + s.y) * 0.5, (p.z + s.z) * 0.5,
                                       (p.visibility + s.visibility) * 0.5, (p.presence + s.presence) * 0.5)];
    }
  }

  /** Averaging a detection with itself changes nothing. */
  lemma AveragedSelf(lms: seq<Landmark>)
    ensures Averaged(lms, lms) == lms
  {
  }

  /** The order of the two detections does not matter when the lengths agree. */
  lemma AveragedSymmetric(a: seq<Landmark>, b: seq<Landmark>)
    requires |a| == |b|
    ensures Averaged(a, b) == Averaged(b, a)
  {
  }

  /** Each averaged coordinate lies between the two inputs' coordinates. */
  lemma AveragedBetween(a: seq<Landmark>, b: seq<Landmark>, i: int)
    requires |a| == |b| && 0 <= i < |a|
    ensures var m := Averaged(a, b)[i];
            Min(a[i].x, b[i].x) <= m.x <= Max(a[i].x, b[i].x)
            && Min(a[i].y, b[i].y) <= m.y <= Max(a[i].y, b[i].y)
            && Min(a[i].z, b[i].z) <= m.z <= Max(a[i].z, b[i].z)
            && Min(a[i].visibility, b[i].visibility) <= m.visibility <= Max(a[i].visibility, b[i].visibility)
            && Min(a[i].presence, b[i].presence) <= m.presence <= Max(a[i].presence, b[i].presence)
  {
  }

  // ---------------------------------------------------------------------------
  // has_required_pose_xmp
  // ---------------------------------------------------------------------------

  const RequiredTags: seq<Tag> :=
    [RbX, RbY, RbW, RbH, AcxPitch, AcxYaw, AcxRoll, AcxCenterX, AcxCenterY, AcxFaceWidth, AcxNose, AcxEyeL, AcxEyeR,
     AcxEyeInnerL, AcxEyeInnerR, AcxMouthL, AcxMouthR, AcxChin, AcxOvalL, AcxOvalR, AcxForehead, AcxNoseEyeDist, AcxFaceScale,
     AcxFaceHeight, AcxSrcScalePx, AcxInterocularDist, AcxInterocularInner, AcxInterocularBlend, AcxEyeMouthDist,
     AcxOvalWidth, AcxLandmarkConfidence]

  /** `has_required_pose_xmp`: the file can be read and its bytes contain every
      required opening tag. */
  predicate HasRequiredPoseXmp(files: map<string, seq<byte>>, path: string)
  {
    path in files && forall t :: t in RequiredTags ==> Contains(files[path], Utf8(OpenTag(t)))
  }

  /** Every tag the tag check requires is one `generate_xmp` emits. */
  lemma RequiredTagsAreEmitted()
    ensures forall t :: t in RequiredTags ==> t in XmpTags
  {
  }

  /** Writing XMP text that carries every tag `generate_xmp` emits into an
      existing file makes the file pass the tag check. */
  lemma WrittenTagsPassCheck(files: map<string, seq<byte>>, path: string, xmp: string)
    requires path in files
    requires CarriesXmpTags(xmp)
    ensures HasRequiredPoseXmp(XmpWritten(files, path, xmp), path)
  {
    RequiredTagsAreEmitted();
    forall t | t in RequiredTags
      ensures Contains(XmpWritten(files, path, xmp)[path], Utf8(OpenTag(t)))
    {
      XmpWrittenCarriesText(files, path, xmp, OpenTag(t));
    }
  }

  /** Writing generated XMP into an existing file makes it pass the tag check, so a
      processed image is not selected again by `--only-missing`. */
  lemma WrittenXmpPassesCheck(files: map<string, seq<byte>>, path: string, n: Numerics,
                              m: FaceMetrics, name: string, lms: seq<Landmark>)
    requires path in files && |lms| > 0
    ensures HasRequiredPoseXmp(XmpWritten(files, path, GenerateXmp(n, m, name, lms)), path)
  {
    GenerateXmpCarriesTags(n, m, name, lms);
    WrittenTagsPassCheck(files, path, GenerateXmp(n, m, name, lms));
  }

  // ---------------------------------------------------------------------------
  // build_mirrored_landmarks
  // ---------------------------------------------------------------------------

  const SwapPairs: seq<(nat, nat)> :=
    [(EyeLOuter, EyeROuter), (EyeLInner, EyeRInner), (MouthLCorner, MouthRCorner), (OvalL, OvalR)]

  /** The index whose point takes index `i`'s place in the mirrored face. */
  function Counterpart(i: nat): (c: nat)
    ensures c == i || (i <= MaxIndex && c <= MaxIndex)
  {
    if i == EyeLOuter then EyeROuter else if i == EyeROuter then EyeLOuter
    else if i == EyeLInner then EyeRInner else if i == EyeRInner then EyeLInner
    else if i == MouthLCorner then MouthRCorner else if i == MouthRCorner then MouthLCorner
    else if i == OvalL then OvalR else if i == OvalR then OvalL
    else i
  }

  lemma CounterpartInvolution(i: nat)
    ensures Counterpart(Counterpart(i)) == i
  {
  }

  function Swap(p: (nat, nat), i: nat): nat
  {
    if i == p.0 then p.1 else if i == p.1 then p.0 else i
  }

  /** The counterpart after only the first `k` swaps. */
  function CounterpartAfter(k: nat, i: nat): (c: nat)
    requires k <= |SwapPairs|
    ensures c == i || (i <= MaxIndex && c <= MaxIndex)
  {
    if k == 0 then i
    else
      assert SwapPairs[k - 1].0 <= MaxIndex && SwapPairs[k - 1].1 <= MaxIndex;
      CounterpartAfter(k - 1, Swap(SwapPairs[k - 1], i))
  }

  lemma CounterpartAfterAllSwaps(i: nat)
    ensures CounterpartAfter(|SwapPairs|, i) == Counterpart(i)
  {
    var a := Swap(SwapPairs[3], i);
    var b := Swap(SwapPairs[2], a);
    var c := Swap(SwapPairs[1], b);
    assert CounterpartAfter(4, i) == CounterpartAfter(3, a);
    assert CounterpartAfter(3, a) == CounterpartAfter(2, b);
    assert CounterpartAfter(2, b) == CounterpartAfter(1, c);
    assert CounterpartAfter(1, c) == Swap(SwapPairs[0], c);
  }

  function Flip(lm: Landmark): Landmark
  {
    lm.(x := 1.0 - lm.x)
  }

  /** The mirrored face: every point reflected by x -> 1 - x, and each left/right
      pair exchanged, with y, z, visibility and presence kept. */
  function Mirrored(lms: seq<Landmark>): (r: seq<Landmark>)
    requires |lms| > MaxIndex
    ensures |r| == |lms|
    ensures forall i :: 0 <= i < |lms| ==> r[i] == Flip(lms[Counterpart(i)])
  {
    seq(|lms|, i requires 0 <= i < |lms| => Flip(lms[Counterpart(i)]))
  }

  /** Mirroring twice gives the original face back. */
  lemma MirroredInvolution(lms: seq<Landmark>)
    requires |lms| > MaxIndex
    ensures Mirrored(Mirrored(lms)) == lms
  {
    forall i | 0 <= i < |lms| ensures Mirrored(Mirrored(lms))[i] == lms[i] {
      CounterpartInvolution(i);
    }
  }

  /** `build_mirrored_landmarks`: reflect every point into a new list, then swap the
      four left/right pairs in place. */
  method BuildMirroredLandmarks(landmarks: seq<Landmark>) returns (r: seq<Landmark>)
    requires |landmarks| > MaxIndex
    ensures r == Mirrored(landmarks)
  {
    var mirrored := new Landmark[|landmarks|](i requires 0 <= i < |landmarks| => Flip(landmarks[i]));
    for k := 0 to |SwapPairs|
      invariant forall i :: 0 <= i < mirrored.Length ==> mirrored[i] == Flip(landmarks[CounterpartAfter(k, i)])
    {
      var (left, right) := SwapPairs[k];
      ghost var before := mirrored[..];
      mirrored[left], mirrored[right] := mirrored[right], mirrored[left];
      forall i | 0 <= i < mirrored.Length ensures mirrored[i] == Flip(landmarks[CounterpartAfter(k + 1, i)]) {
        assert mirrored[i] == before[Swap((left, right), i)];
      }
    }
    forall i | 0 <= i < mirrored.Length ensures mirrored[i] == Mirrored(landmarks)[i] {
      CounterpartAfterAllSwaps(i);
    }
    r := mirrored[..];
  }

  // ---------------------------------------------------------------------------
  // Metrics of the mirrored face
  // ---------------------------------------------------------------------------

  lemma SqNeg(d: real)
    ensures Sq(-d) == Sq(d)
  {
  }

  lemma DistSymmetric(n: Numerics, a: Landmark, b: Landmark)
    ensures Dist(n, a, b) == Dist(n, b, a)
  {
    SqNeg(b.x - a.x);
    SqNeg(b.y - a.y);
    assert Sq(a.x - b.x) + Sq(a.y - b.y) == Sq(b.x - a.x) + Sq(b.y - a.y);
  }

  lemma DistFlip(n: Numerics, a: Landmark, b: Landmark)
    ensures Dist(n, Flip(a), Flip(b)) == Dist(n, a, b)
  {
    SqNeg(b.x - a.x);
    assert (1.0 - b.x) - (1.0 - a.x) == -(b.x - a.x);
    assert Sq(Flip(b).x - Flip(a).x) + Sq(Flip(b).y - Flip(a).y) == Sq(b.x - a.x) + Sq(b.y - a.y);
  }

  /** The mirrored x coordinates are the reflected originals, permuted. */
  lemma MirroredXs(lms: seq<Landmark>, i: int)
    requires |lms| > MaxIndex && 0 <= i < |lms|
    ensures Counterpart(i) < |lms|
    ensures Xs(Mirrored(lms))[i] == 1.0 - Xs(lms)[Counterpart(i)]
  {
  }

  /** A mirrored face has the same extent. */
  lemma MirroredWidth(lms: seq<Landmark>)
    requires |lms| > MaxIndex
    ensures MaxOf(Xs(Mirrored(lms))) == 1.0 - MinOf(Xs(lms))
    ensures MinOf(Xs(Mirrored(lms))) == 1.0 - MaxOf(Xs(lms))
  {
    var xs, ms := Xs(lms), Xs(Mirrored(lms));
    var lo, hi := MinOf(xs), MaxOf(xs);
    forall i | 0 <= i < |ms| ensures 1.0 - hi <= ms[i] <= 1.0 - lo {
      MirroredXs(lms, i);
    }
    var j :| 0 <= j < |xs| && xs[j] == lo;
    var k :| 0 <= k < |xs| && xs[k] == hi;
    CounterpartInvolution(j);
    CounterpartInvolution(k);
    MirroredXs(lms, Counterpart(j));
    MirroredXs(lms, Counterpart(k));
    MaxOfUnique(ms, 1.0 - lo);
    MinOfUnique(ms, 1.0 - hi);
  }

  function Sum7(a: real, b: real, c: real, d: real, e: real, f: real, g: real): real
  {
    a + b + c + d + e + f + g
  }

  lemma SumCons(x: real, s: seq<real>)
    ensures Sum([x] + s) == x + Sum(s)
  {
    assert ([x] + s)[1..] == s;
  }

  lemma SumOfSeven(a: real, b: real, c: real, d: real, e: real, f: real, g: real)
    ensures Sum([a, b, c, d, e, f, g]) == Sum7(a, b, c, d, e, f, g)
  {
    SumCons(g, []);
    SumCons(f, [g]);
    SumCons(e, [f, g]);
    SumCons(d, [e, f, g]);
    SumCons(c, [d, e, f, g]);
    SumCons(b, [c, d, e, f, g]);
    SumCons(a, [b, c, d, e, f, g]);
    assert [a] + [b, c, d, e, f, g] == [a, b, c, d, e, f, g];
    assert [b] + [c, d, e, f, g] == [b, c, d, e, f, g];
    assert [c] + [d, e, f, g] == [c, d, e, f, g];
    assert [d] + [e, f, g] == [d, e, f, g];
    assert [e] + [f, g] == [e, f, g];
    assert [f] + [g] == [f, g];
    assert [g] + [] == [g];
  }

  /** Mirroring moves the seven confidence points among themselves, so the
      landmark confidence is unchanged. */
  lemma MirroredConfidence(lms: seq<Landmark>)
    requires |lms| > MaxIndex
    ensures LandmarkConfidence(Mirrored(lms)) == LandmarkConfidence(lms)
  {
    var m := Mirrored(lms);
    var p := ConfidencePoints(lms);
    var q := ConfidencePoints(m);
    assert q == [Flip(p[1]), Flip(p[0]), Flip(p[3]), Flip(p[2]), Flip(p[4]), Flip(p[6]), Flip(p[5])];
    var v := ConfidenceValues(p);
    var w := ConfidenceValues(q);
    assert forall i :: 0 <= i < 7 ==> PointConfidence(Flip(p[i])) == v[i];
    assert w == [v[1], v[0], v[3], v[2], v[4], v[6], v[5]];
    assert v == [v[0], v[1], v[2], v[3], v[4], v[5], v[6]];
    SumOfSeven(v[0], v[1], v[2], v[3], v[4], v[5], v[6]);
    SumOfSeven(v[1], v[0], v[3], v[2], v[4], v[6], v[5]);
    assert Sum(w) == Sum(v);
  }

  /** The key points of the mirrored face: each reflected, left and right exchanged. */
  function MirrorKeys(k: KeyPoints): KeyPoints
  {
    KeyPoints(Flip(k.eyeR), Flip(k.eyeL), Flip(k.eyeRi), Flip(k.eyeLi),
              Flip(k.mouthR), Flip(k.mouthL), Flip(k.nose), Flip(k.chin),
              Flip(k.forehead), Flip(k.ovalR), Flip(k.ovalL))
  }

  lemma MirroredKeyPoints(lms: seq<Landmark>)
    requires |lms| > MaxIndex
    ensures KeyPointsOf(Mirrored(lms)) == MirrorKeys(KeyPointsOf(lms))
  {
  }

  lemma Dist3Flip(n: Numerics, a: Landmark, b: Landmark)
    ensures Dist3(n, Flip(b), Flip(a)) == Dist3(n, a, b)
  {
    var dx, dy, dz := b.x - a.x, b.y - a.y, b.z - a.z;
    assert Flip(a).x - Flip(b).x == dx;
    assert a.y - b.y == -dy && a.z - b.z == -dz;
    SqNeg(dy);
    SqNeg(dz);
  }

  lemma EyeMouthDistFlip(n: Numerics, eL: Landmark, eR: Landmark, mL: Landmark, mR: Landmark)
    ensures EyeMouthDist(n, Flip(eR), Flip(eL), Flip(mR), Flip(mL)) == EyeMouthDist(n, eL, eR, mL, mR)
  {
    var midEye := Point((eL.x + eR.x) * 0.5, (eL.y + eR.y) * 0.5, 0.0);
    var midMouth := Point((mL.x + mR.x) * 0.5, (mL.y + mR.y) * 0.5, 0.0);
    assert Point((Flip(eR).x + Flip(eL).x) * 0.5, (eR.y + eL.y) * 0.5, 0.0) == Flip(midEye);
    assert Point((Flip(mR).x + Flip(mL).x) * 0.5, (mR.y + mL.y) * 0.5, 0.0) == Flip(midMouth);
    DistFlip(n, midEye, midMouth);
  }

  /** Every distance between mirrored key points equals the original one, except
      that the nose-to-eye distance is now measured to the other eye. */
  lemma MirroredDistances(n: Numerics, k: KeyPoints, width: real)
    ensures var o, m := Distances(n, k, width), Distances(n, MirrorKeys(k), width);
            m.faceScale == o.faceScale && m.iodistOuter == o.iodistOuter
            && m.iodistInner == o.iodistInner && m.iodistBlend == o.iodistBlend
            && m.eyeMouthDist == o.eyeMouthDist && m.ovalWidth == o.ovalWidth
            && m.faceHeight == o.faceHeight && m.srcScalePx == o.srcScalePx
            && m.noseEyeDist == Dist(n, k.eyeR, k.nose)
  {
    Dist3Flip(n, k.eyeL, k.eyeR);
    DistFlip(n, k.eyeR, k.eyeL);
    DistSymmetric(n, k.eyeR, k.eyeL);
    DistFlip(n, k.eyeRi, k.eyeLi);
    DistSymmetric(n, k.eyeRi, k.eyeLi);
    EyeMouthDistFlip(n, k.eyeL, k.eyeR, k.mouthL, k.mouthR);
    DistFlip(n, k.ovalR, k.ovalL);
    DistSymmetric(n, k.ovalR, k.ovalL);
    DistFlip(n, k.chin, k.forehead);
    DistFlip(n, k.eyeR, k.nose);
  }

  /** Every measurement of the mirrored face equals the original one, except that
      the nose-to-eye distance is now measured to the other eye. */
  lemma MirroredMeasures(n: Numerics, lms: seq<Landmark>)
    requires |lms| > MaxIndex
    ensures var o, m := MeasuresOf(n, lms), MeasuresOf(n, Mirrored(lms));
            m.faceScale == o.faceScale && m.iodistOuter == o.iodistOuter
            && m.iodistInner == o.iodistInner && m.iodistBlend == o.iodistBlend
            && m.eyeMouthDist == o.eyeMouthDist && m.ovalWidth == o.ovalWidth
            && m.faceHeight == o.faceHeight && m.srcScalePx == o.srcScalePx
            && m.faceWidth == o.faceWidth
            && m.noseEyeDist == Dist(n, lms[EyeROuter], lms[NoseTip])
  {
    var k, o := KeyPointsOf(lms), MeasuresOf(n, lms);
    MirroredMeasuresAsDistances(n, lms);
    MirroredDistances(n, k, o.faceWidth);
    assert k.eyeR == lms[EyeROuter] && k.nose == lms[NoseTip];
  }

  /** The mirrored face is measured on the mirrored key points, at the original width. */
  lemma MirroredMeasuresAsDistances(n: Numerics, lms: seq<Landmark>)
    requires |lms| > MaxIndex
    ensures MeasuresOf(n, Mirrored(lms)) == Distances(n, MirrorKeys(KeyPointsOf(lms)), MeasuresOf(n, lms).faceWidth)
    ensures MeasuresOf(n, Mirrored(lms)).faceWidth == MeasuresOf(n, lms).faceWidth
  {
    MirroredKeyPoints(lms);
    MirroredFaceWidth(n, lms);
  }

  lemma MirroredFaceWidth(n: Numerics, lms: seq<Landmark>)
    requires |lms| > MaxIndex
    ensures MeasuresOf(n, Mirrored(lms)).faceWidth == MeasuresOf(n, lms).faceWidth
  {
    MirroredWidth(lms);
  }

  // ---------------------------------------------------------------------------
  // build_mirrored_metrics
  // ---------------------------------------------------------------------------

  /** `build_mirrored_metrics`: the mirrored face's metrics, recomputed without a
      matrix, with the original pitch and the negated original yaw and roll. */
  function BuildMirroredMetrics(n: Numerics, original: FaceMetrics, mirroredLandmarks: seq<Landmark>)
    : (r: FaceMetrics)
    requires |mirroredLandmarks| > MaxIndex
    ensures r.geometry.pitch == original.geometry.pitch
    ensures r.geometry.yaw == n.round(-original.geometry.yaw, 2)
    ensures r.geometry.roll == n.round(-original.geometry.roll, 2)
    ensures var recomputed := ComputeFaceMetrics(n, mirroredLandmarks, None, original.score);
            r.geometry == recomputed.geometry.(pitch := r.geometry.pitch, yaw := r.geometry.yaw, roll := r.geometry.roll)
            && r.landmarkConfidence == recomputed.landmarkConfidence && r.score == recomputed.score
  {
    var mirrored := ComputeFaceMetrics(n, mirroredLandmarks, None, original.score);
    mirrored.(geometry := mirrored.geometry.(
      pitch := original.geometry.pitch,
      yaw := n.round(-original.geometry.yaw, 2),
      roll := n.round(-original.geometry.roll, 2)))
  }

  /** The metrics written for the mirrored copy agree with the original face on
      every distance and on the confidence; the centre moves to the reflected
      right eye. */
  lemma MirroredMetricsAgree(n: Numerics, lms: seq<Landmark>, matrix: Option<seq<real>>, score: real,
                             o: FaceMetrics, m: FaceMetrics)
    requires |lms| > MaxIndex && MatrixShape(matrix)
    requires o == ComputeFaceMetrics(n, lms, matrix, score) && m == BuildMirroredMetrics(n, o, Mirrored(lms))
    ensures m.geometry.faceWidth == o.geometry.faceWidth && m.geometry.faceScale == o.geometry.faceScale
    ensures m.geometry.interocularDist == o.geometry.interocularDist
    ensures m.geometry.iodistInner == o.geometry.iodistInner && m.geometry.iodistBlend == o.geometry.iodistBlend
    ensures m.geometry.eyeMouthDist == o.geometry.eyeMouthDist && m.geometry.ovalWidth == o.geometry.ovalWidth
    ensures m.geometry.faceHeight == o.geometry.faceHeight && m.geometry.srcScalePx == o.geometry.srcScalePx
    ensures m.landmarkConfidence == o.landmarkConfidence
    ensures m.geometry.centerX == n.round(1.0 - lms[EyeROuter].x, 4) && m.geometry.centerY == n.round(lms[EyeROuter].y, 4)
  {
    var mirrored := Mirrored(lms);
    var r := ComputeFaceMetrics(n, mirrored, None, o.score);
    assert m.geometry == r.geometry.(pitch := m.geometry.pitch, yaw := m.geometry.yaw, roll := m.geometry.roll);
    assert m.landmarkConfidence == r.landmarkConfidence;
    GeometryOfMeasures(n, lms, matrix);
    GeometryOfMeasures(n, mirrored, None);
    MirroredMeasures(n, lms);
    MirroredConfidence(lms);
    MirroredCentre(n, lms, r.geometry);
  }

  /** The mirrored face's centre is its left eye, the reflected right eye. */
  lemma MirroredCentre(n: Numerics, lms: seq<Landmark>, g: Geometry)
    requires |lms| > MaxIndex && g == ComputeGeometry(n, Mirrored(lms), None)
    ensures g.centerX == n.round(1.0 - lms[EyeROuter].x, 4) && g.centerY == n.round(lms[EyeROuter].y, 4)
  {
    var eye := Mirrored(lms)[EyeLOuter];
    assert eye == Flip(lms[EyeROuter]);
    assert eye.x == 1.0 - lms[EyeROuter].x && eye.y == lms[EyeROuter].y;
  }

  /** The measured fields of the geometry, each the rounded measurement. */
  lemma GeometryOfMeasures(n: Numerics, lms: seq<Landmark>, matrix: Option<seq<real>>)
    requires |lms| > MaxIndex && MatrixShape(matrix)
    ensures var g, ms := ComputeGeometry(n, lms, matrix), MeasuresOf(n, lms);
            g.faceWidth == n.round(ms.faceWidth, 4) && g.faceScale == n.round(ms.faceScale, 6)
            && g.interocularDist == n.round(ms.iodistOuter, 6) && g.iodistInner == n.round(ms.iodistInner, 6)
            && g.iodistBlend == n.round(ms.iodistBlend, 6) && g.eyeMouthDist == n.round(ms.eyeMouthDist, 6)
            && g.ovalWidth == n.round(ms.ovalWidth, 6) && g.faceHeight == n.round(ms.faceHeight, 6)
            && g.srcScalePx == n.round(ms.srcScalePx, 6)
  {
  }

  // ---------------------------------------------------------------------------
  // load_missing_report_paths
  // ---------------------------------------------------------------------------

  /** A parsed JSON document. */
  datatype Json =
    | JNull
    | JBool(b: bool)
    | JNumber(r: real)
    | JString(s: string)
    | JArray(items: seq<Json>)
    | JObject(fields: map<string, Json>)

  /** The directory tree the report entries are looked up in. */
  datatype Disk = Disk(
    present: string -> bool,
    isFile: string -> bool,
    rglob: (string, string) -> seq<string>)

  /** The first entry of `xs` satisfying `p`. */
  function FirstWhere(xs: seq<string>, p: string -> bool): (r: Option<string>)
    ensures r.Some? ==> r.value in xs && p(r.value)
    ensures r.Some? ==> exists i :: 0 <= i < |xs| && xs[i] == r.value && forall j :: 0 <= j < i ==> !p(xs[j])
    ensures r.None? ==> forall i :: 0 <= i < |xs| ==> !p(xs[i])
  {
    if |xs| == 0 then None else if p(xs[0]) then Some(xs[0]) else FirstWhere(xs[1..], p)
  }

  /** The image an entry of the report resolves to: `in_dir / file`, then
      `in_dir.parent / file`, then the first supported file of the sorted
      recursive search for its name; entries that are not objects, have no
      non-blank string `file`, resolve to nothing or to a `_mirror` image give
      nothing. */
  function Resolve(disk: Disk, inPath: string, entry: Json): (r: Option<string>)
    ensures r.Some? ==> IsSupportedImage(r.value) && !IsMirrorStem(r.value)
  {
    if !entry.JObject? || "file" !in entry.fields || !entry.fields["file"].JString? then None
    else
      var fileValue := entry.fields["file"].s;
      if Strip(fileValue) == "" then None
      else
        var candidates := [Join(inPath, fileValue), Join(Parent(inPath), fileValue)];
        var direct := FirstWhere(candidates, c => disk.present(c) && IsSupportedImage(c));
        var chosen :=
          if direct.Some? then direct
          else FirstWhere(SortDedup(disk.rglob(inPath, Name(fileValue)), true),
                          c => disk.isFile(c) && IsSupportedImage(c));
        if chosen.None? || IsMirrorStem(chosen.value) then None else chosen
  }

  /** `payload.get("missing")` when it is a list, else no entries. */
  function MissingEntries(payload: Json): seq<Json>
  {
    if payload.JObject? && "missing" in payload.fields && payload.fields["missing"].JArray?
    then payload.fields["missing"].items
    else []
  }

  /** What each entry resolves to, in order. */
  function Resolved(disk: Disk, inPath: string, entries: seq<Json>): (r: seq<Option<string>>)
    ensures |r| == |entries|
    ensures forall j :: 0 <= j < |entries| ==> r[j] == Resolve(disk, inPath, entries[j])
  {
    seq(|entries|, j requires 0 <= j < |entries| => Resolve(disk, inPath, entries[j]))
  }

  /** The images among some resolutions. */
  function Images(found: seq<Option<string>>): (r: set<string>)
    ensures forall p :: p in r <==> Some(p) in found
  {
    set j | 0 <= j < |found| && found[j].Some? :: found[j].value
  }

  lemma ImagesSnoc(found: seq<Option<string>>, x: Option<string>)
    ensures Images(found + [x]) == Images(found) + (if x.Some? then {x.value} else {})
  {
    assert forall y :: y in found + [x] ==> y in found || y == x by {
      forall y | y in found + [x] ensures y in found || y == x {
      }
    }
  }

  /** The images among some resolutions, in order, repeats kept. */
  function Somes(found: seq<Option<string>>): (r: seq<string>)
    ensures forall p :: p in r <==> Some(p) in found
    ensures |r| <= |found|
  {
    if |found| == 0 then []
    else
      assert forall p :: Some(p) in found <==> found[0] == Some(p) || Some(p) in found[1..];
      (if found[0].Some? then [found[0].value] else []) + Somes(found[1..])
  }

  /** The list `load_missing_report_paths` returns for a report that is absent
      or a JSON object: the images its entries resolve to, sorted, each once. */
  function ReportedPaths(disk: Disk, inPath: string, report: Option<Json>): (r: seq<string>)
    ensures StrictlySorted(r, true)
    ensures report.Some? ==>
              forall p :: p in r <==> Some(p) in Resolved(disk, inPath, MissingEntries(report.value))
  {
    if report.None? then []
    else SortDedup(Somes(Resolved(disk, inPath, MissingEntries(report.value))), true)
  }

  /** No resolved entry is a `_mirror` image or an unsupported file. */
  lemma ResolvedAreSupported(disk: Disk, inPath: string, entries: seq<Json>, p: string)
    requires Some(p) in Resolved(disk, inPath, entries)
    ensures IsSupportedImage(p) && !IsMirrorStem(p)
  {
  }

  /** The loop of `load_missing_report_paths` over the resolved entries: each
      image once, in the order first met, kept only if not yet `seen`. */
  method CollectImages(found: seq<Option<string>>) returns (resolved: seq<string>)
    ensures forall a, b :: 0 <= a < b < |resolved| ==> resolved[a] != resolved[b]
    ensures forall p :: p in resolved <==> Some(p) in found
    ensures |resolved| <= |found|
  {
    resolved := [];
    var seen: set<string> := {};
    for i := 0 to |found|
      invariant seen == set p | p in resolved
      invariant forall a, b :: 0 <= a < b < |resolved| ==> resolved[a] != resolved[b]
      invariant seen == Images(found[..i])
      invariant |resolved| <= i
    {
      var chosen := found[i];
      assert found[..i + 1] == found[..i] + [chosen];
      ImagesSnoc(found[..i], chosen);
      if chosen.Some? && chosen.value !in seen {
        seen := seen + {chosen.value};
        resolved := resolved + [chosen.value];
      }
    }
    assert found[..|found|] == found;
  }

  /** `load_missing_report_paths`. `report` is the parsed report, None when it could
      not be read or parsed. A document that is not a JSON object makes
      `payload.get` raise; that is the None result. Otherwise the result is sorted
      (path order), duplicate-free, and holds exactly the images some entry
      resolves to. */
  method LoadMissingReportPaths(disk: Disk, inPath: string, report: Option<Json>) returns (r: Option<seq<string>>)
    ensures report.None? ==> r == Some([])
    ensures r.None? <==> report.Some? && !report.value.JObject?
    ensures r.Some? && report.Some? ==>
              var entries := MissingEntries(report.value);
              StrictlySorted(r.value, true)
              && |r.value| <= |entries|
              && (forall p :: p in r.value <==> Some(p) in Resolved(disk, inPath, entries))
    ensures r.Some? ==> r.value == ReportedPaths(disk, inPath, report)
  {
    if report.None? {
      return Some([]);
    }
    var payload := report.value;
    if !payload.JObject? {
      return None;
    }
    var entries := MissingEntries(payload);
    var found := Resolved(disk, inPath, entries);
    var resolved := CollectImages(found);
    SortDedupLengthOfDistinct(resolved, true);
    SortDedupSameElements(resolved, Somes(found), true);
    r := Some(SortDedup(resolved, true));
  }

  // ---------------------------------------------------------------------------
  // write_unusable_report: the payload
  // ---------------------------------------------------------------------------

  datatype UnusablePayload = UnusablePayload(
    inputDir: string,
    totalImagesProcessed: int,
    noFaceCount: int,
    lowConfidenceCount: int,
    deletionCandidateCount: int,
    deletionCandidates: seq<string>,
    noFaceOrDetectionError: seq<string>,
    lowLandmarkConfidence: seq<string>,
    errorTypes: map<string, nat>)

  function Relativised(relative: string -> string, paths: seq<string>): (r: seq<string>)
    ensures |r| == |paths| && forall i :: 0 <= i < |paths| ==> r[i] == relative(paths[i])
  {
    seq(|paths|, i requires 0 <= i < |paths| => relative(paths[i]))
  }

  /** The payload `write_unusable_report` serialises. `relative` stands for
      `to_report_relative_path` against the input root. Both categories are the
      sorted set of their relativised paths, the deletion candidates the sorted
      union of the two, and every count is the length of its list. */
  function UnusableReport(relative: string -> string, inputDir: string, totalImages: int,
                          noFace: seq<string>, lowConfidence: seq<string>,
                          errorTypes: map<string, nat>): (p: UnusablePayload)
    ensures StrictlySorted(p.noFaceOrDetectionError, false)
    ensures StrictlySorted(p.lowLandmarkConfidence, false)
    ensures StrictlySorted(p.deletionCandidates, false)
    ensures forall x :: x in p.noFaceOrDetectionError <==> x in Relativised(relative, noFace)
    ensures forall x :: x in p.lowLandmarkConfidence <==> x in Relativised(relative, lowConfidence)
    ensures forall x :: x in p.deletionCandidates <==>
                          x in p.noFaceOrDetectionError || x in p.lowLandmarkConfidence
    ensures p.noFaceCount == |p.noFaceOrDetectionError| <= |noFace|
    ensures p.lowConfidenceCount == |p.lowLandmarkConfidence| <= |lowConfidence|
    ensures p.deletionCandidateCount == |p.deletionCandidates|
    ensures p.deletionCandidateCount <= p.noFaceCount + p.lowConfidenceCount
    ensures p.totalImagesProcessed == totalImages && p.errorTypes == errorTypes && p.inputDir == inputDir
  {
    var noFacePaths := SortDedup(Relativised(relative, noFace), false);
    var lowPaths := SortDedup(Relativised(relative, lowConfidence), false);
    var candidates := SortDedup(noFacePaths + lowPaths, false);
    UnusablePayload(inputDir, totalImages, |noFacePaths|, |lowPaths|, |candidates|, candidates,
                    noFacePaths, lowPaths, errorTypes)
  }

  /** The deletion candidates are the sorted set of all reported paths, whatever
      the intermediate sorting. */
  lemma DeletionCandidatesAreUnion(relative: string -> string, inputDir: string, totalImages: int,
                                   noFace: seq<string>, lowConfidence: seq<string>,
                                   errorTypes: map<string, nat>)
    ensures UnusableReport(relative, inputDir, totalImages, noFace, lowConfidence, errorTypes).deletionCandidates
            == SortDedup(Relativised(relative, noFace + lowConfidence), false)
  {
    var p := UnusableReport(relative, inputDir, totalImages, noFace, lowConfidence, errorTypes);
    var all := Relativised(relative, noFace + lowConfidence);
    assert all == Relativised(relative, noFace) + Relativised(relative, lowConfidence);
    SortDedupSameElements(p.noFaceOrDetectionError + p.lowLandmarkConfidence, all, false);
  }
}
