/**
  The per-image pipeline and the main loop of the current analyze-faces script:
  the `DetectionReport` bookkeeping of `process_image`, the files it writes, the
  selection of the images to process and the processing loop with its limit.

  MediaPipe, OpenCV and the disk are oracles: an `ImageInput` says whether the
  image could be read, what each detection pass returned or raised, and which
  encodings and writes succeeded with which bytes.
*/
module AnalyzeFacesRun {
  import opened Text
  import opened Wrappers
  import opened Ordering
  import opened Paths
  import opened Files
  import opened FaceMetrics
  import opened XmpIo
  import opened AnalyzeFaces

  // ---------------------------------------------------------------------------
  // DetectionReport
  // ---------------------------------------------------------------------------

  /** The fields of a `DetectionReport`, as a value. */
  datatype ReportState = ReportState(
    totalImages: nat,
    mediapipeNoFace: seq<string>,
    noFace: seq<string>,
    missingMatrix: seq<string>,
    mediapipeErrors: seq<string>,
    lowConfidence: seq<string>,
    errorTypes: map<string, nat>)

  const EmptyReport: ReportState := ReportState(0, [], [], [], [], [], map[])

  /** `DetectionReport`: the outcome tallies of one run. */
  class DetectionReport {
    var totalImages: nat
    var mediapipeNoFace: seq<string>
    var noFace: seq<string>
    var missingMatrix: seq<string>
    var mediapipeErrors: seq<string>
    var lowConfidence: seq<string>
    var errorTypes: map<string, nat>

    constructor()
      ensures State() == EmptyReport
    {
      totalImages := 0;
      mediapipeNoFace := [];
      noFace := [];
      missingMatrix := [];
      mediapipeErrors := [];
      lowConfidence := [];
      errorTypes := map[];
    }

    function State(): ReportState
      reads this
    {
      ReportState(totalImages, mediapipeNoFace, noFace, missingMatrix, mediapipeErrors,
                  lowConfidence, errorTypes)
    }
  }

  /** `d[key] = d.get(key, 0) + 1`. */
  function Bump(m: map<string, nat>, key: string): map<string, nat>
  {
    m[key := (if key in m then m[key] else 0) + 1]
  }

  /** The sum of the error counts. */
  ghost function ErrorTotal(m: map<string, nat>): nat
    decreases m.Keys
  {
    if m == map[] then 0
    else
      var k :| k in m;
      m[k] + ErrorTotal(m - {k})
  }

  lemma {:induction false} ErrorTotalRemove(m: map<string, nat>, k: string)
    requires k in m
    ensures ErrorTotal(m) == m[k] + ErrorTotal(m - {k})
    decreases m.Keys
  {
    var j :| j in m && ErrorTotal(m) == m[j] + ErrorTotal(m - {j});
    if j != k {
      ErrorTotalRemove(m - {j}, k);
      ErrorTotalRemove(m - {k}, j);
      assert m - {j} - {k} == m - {k} - {j};
    }
  }

  /** Bumping one key adds exactly one to the total. */
  lemma BumpAddsOne(m: map<string, nat>, key: string)
    ensures ErrorTotal(Bump(m, key)) == ErrorTotal(m) + 1
  {
    var b := Bump(m, key);
    ErrorTotalRemove(b, key);
    if key in m {
      ErrorTotalRemove(m, key);
      assert b - {key} == m - {key};
    } else {
      assert b - {key} == m;
    }
  }

  /** What each image contributes: every list entry belongs to one image, error
      counts add up to the MediaPipe error list, and the no-face list holds the
      three MediaPipe lists. */
  ghost predicate Consistent(s: ReportState)
  {
    |s.noFace| + |s.lowConfidence| <= s.totalImages
    && |s.mediapipeNoFace| + |s.missingMatrix| + |s.mediapipeErrors| <= |s.noFace|
    && ErrorTotal(s.errorTypes) == |s.mediapipeErrors|
  }

  // ---------------------------------------------------------------------------
  // The oracle inputs of one image
  // ---------------------------------------------------------------------------

  /** A MediaPipe landmark as returned, with whatever visibility and presence it carries. */
  datatype RawLandmark = RawLandmark(x: real, y: real, z: real, visibility: Value, presence: Value)

  /** A `FaceLandmarkerResult`: the face meshes and the 4x4 transformation matrices. */
  datatype Detection = Detection(faces: seq<seq<RawLandmark>>, matrices: seq<seq<real>>)

  /** One detection pass: it raised (the exception's class name) or returned. */
  datatype Pass = Raised(errorName: string) | Returned(result: Detection)

  datatype ImageInput = ImageInput(
    readable: bool,                     // cv2.imread succeeded
    detection: Pass,                    // the pass on the image itself
    upscaled: Pass,                     // the pass on the 2x upscaled image
    webp: Option<seq<byte>>,            // the WebP encoding, None when encoding failed
    mirrorSource: Option<seq<byte>>,    // the mirrored source, None when it was not written
    mirrorWebp: Option<seq<byte>>)      // the mirrored WebP, None when encoding failed

  /** Both faces and matrices are present. */
  predicate Usable(d: Detection)
  {
    |d.faces| > 0 && |d.matrices| > 0
  }

  /** The detection pass returned a face and a matrix. */
  predicate Detected(input: ImageInput)
  {
    input.detection.Returned? && Usable(input.detection.result)
  }

  /** MediaPipe returns whole meshes and 4x4 matrices; with fewer landmarks
      `compute_face_metrics` would raise outside any handler. */
  predicate WellFormed(input: ImageInput)
  {
    input.detection.Returned? ==>
      var d := input.detection.result;
      (|d.faces| > 0 ==> |d.faces[0]| > MaxIndex) && (|d.matrices| > 0 ==> |d.matrices[0]| == 16)
  }

  function ToLandmark(lm: RawLandmark): (r: Landmark)
    ensures 0.0 <= r.visibility <= 1.0 && 0.0 <= r.presence <= 1.0
  {
    Landmark(lm.x, lm.y, lm.z, ToLandmarkConfidence(lm.visibility), ToLandmarkConfidence(lm.presence))
  }

  /** The `SimpleLandmark` list built from the first face. */
  function ToLandmarks(raw: seq<RawLandmark>): (r: seq<Landmark>)
    ensures |r| == |raw| && forall i :: 0 <= i < |raw| ==> r[i] == ToLandmark(raw[i])
  {
    seq(|raw|, i requires 0 <= i < |raw| => ToLandmark(raw[i]))
  }

  /** `average_matrix_bytes`, on reals. */
  function AverageMatrix(a: seq<real>, b: seq<real>): (r: seq<real>)
    requires |a| == 16 && |b| == 16
    ensures |r| == 16 && forall i :: 0 <= i < 16 ==> r[i] == (a[i] + b[i]) * 0.5
  {
    seq(16, i requires 0 <= i < 16 => (a[i] + b[i]) * 0.5)
  }

  /** Averaging a matrix with itself keeps it, and the order of the two passes
      does not matter. */
  lemma AverageMatrixSelfSymmetric(a: seq<real>, b: seq<real>)
    requires |a| == 16 && |b| == 16
    ensures AverageMatrix(a, a) == a
    ensures AverageMatrix(a, b) == AverageMatrix(b, a)
  {
  }

  /** Whether the upscaled pass is averaged in. */
  predicate AveragesUpscaled(input: ImageInput, averaging: bool)
  {
    averaging && input.upscaled.Returned? && Usable(input.upscaled.result)
  }

  /** The landmarks after the optional averaging with the upscaled pass. */
  function FinalLandmarks(input: ImageInput, averaging: bool): (r: seq<Landmark>)
    requires WellFormed(input) && Detected(input)
    ensures |r| > MaxIndex
  {
    var primary := ToLandmarks(input.detection.result.faces[0]);
    if AveragesUpscaled(input, averaging)
    then Averaged(primary, ToLandmarks(input.upscaled.result.faces[0]))
    else primary
  }

  /** The matrix after the optional averaging. A wrongly sized upscaled matrix
      makes the averaging raise after the landmarks were already averaged. */
  function FinalMatrix(input: ImageInput, averaging: bool): (r: seq<real>)
    requires WellFormed(input) && Detected(input)
    ensures |r| == 16
  {
    var primary := input.detection.result.matrices[0];
    if AveragesUpscaled(input, averaging) && |input.upscaled.result.matrices[0]| == 16
    then AverageMatrix(primary, input.upscaled.result.matrices[0])
    else primary
  }

  /** The metrics of an image whose detection is usable, with score 1.0. */
  function ImageMetrics(n: Numerics, input: ImageInput, averaging: bool): FaceMetrics
    requires WellFormed(input) && Detected(input)
  {
    ComputeFaceMetrics(n, FinalLandmarks(input, averaging), Some(FinalMatrix(input, averaging)), 1.0)
  }

  // ---------------------------------------------------------------------------
  // What process_image does with one image
  // ---------------------------------------------------------------------------

  datatype Outcome =
    | Unreadable
    | DetectorUnavailable
    | DetectorError(errorName: string)
    | NoLandmarks
    | NoMatrix
    | LowConfidence
    | Accepted

  /** `metrics.landmark_confidence`, the value the gate compares. */
  function RoundedConfidence(n: Numerics, input: ImageInput, averaging: bool): real
    requires WellFormed(input) && Detected(input)
  {
    n.round(LandmarkConfidence(FinalLandmarks(input, averaging)), 3)
  }

  /** The exits taken before any metrics are computed. */
  predicate Unusable(o: Outcome)
  {
    o.Unreadable? || o.DetectorUnavailable? || o.DetectorError? || o.NoLandmarks? || o.NoMatrix?
  }

  /** The exits of `process_image` before the metrics, in the order it tests
      them; None when the image gets as far as the metrics. */
  function EarlyExit(detectorAvailable: bool, input: ImageInput): (r: Option<Outcome>)
    ensures r.Some? ==> Unusable(r.value)
    ensures r.None? <==>
              input.readable && detectorAvailable && Detected(input)
  {
    if !input.readable then Some(Unreadable)
    else if !detectorAvailable then Some(DetectorUnavailable)
    else if input.detection.Raised? then Some(DetectorError(input.detection.errorName))
    else if |input.detection.result.faces| == 0 then Some(NoLandmarks)
    else if |input.detection.result.matrices| == 0 then Some(NoMatrix)
    else None
  }

  /** How `process_image` ends for an image. */
  function OutcomeOf(n: Numerics, detectorAvailable: bool, input: ImageInput, averaging: bool): Outcome
    requires WellFormed(input)
  {
    var early := EarlyExit(detectorAvailable, input);
    if early.Some? then early.value
    else if RoundedConfidence(n, input, averaging) < MinLandmarkConfidence then LowConfidence
    else Accepted
  }

  /** The lists an image with outcome `o` is appended to. */
  function Filed(s: ReportState, path: string, o: Outcome): ReportState
  {
    match o
    case Unreadable => s.(noFace := s.noFace + [path])
    case DetectorUnavailable =>
      s.(mediapipeErrors := s.mediapipeErrors + [path],
         errorTypes := Bump(s.errorTypes, "detector_unavailable"),
         noFace := s.noFace + [path])
    case DetectorError(name) =>
      s.(mediapipeErrors := s.mediapipeErrors + [path],
         errorTypes := Bump(s.errorTypes, name),
         noFace := s.noFace + [path])
    case NoLandmarks => s.(mediapipeNoFace := s.mediapipeNoFace + [path], noFace := s.noFace + [path])
    case NoMatrix => s.(missingMatrix := s.missingMatrix + [path], noFace := s.noFace + [path])
    case LowConfidence => s.(lowConfidence := s.lowConfidence + [path])
    case Accepted => s
  }

  /** The report after one image with outcome `o`: counted, then filed. */
  function Recorded(s: ReportState, path: string, o: Outcome): ReportState
  {
    Filed(s.(totalImages := s.totalImages + 1), path, o)
  }

  /** `name_parts[0].capitalize()` of the stem split at '_'. */
  function FaceName(path: string): string
  {
    Capitalize(BeforeFirst(Stem(path), '_'))
  }

  function WebpPath(outDir: string, path: string): string
  {
    Join(outDir, Stem(path) + ".webp")
  }

  function MirrorWebpPath(outDir: string, path: string): string
  {
    Join(outDir, Stem(path) + "_mirror.webp")
  }

  /** The XMP written into the image itself. */
  function FaceXmp(n: Numerics, metrics: FaceMetrics, path: string, lms: seq<Landmark>): string
    requires |lms| > MaxIndex
  {
    GenerateXmp(n, metrics, FaceName(path), lms)
  }

  /** The XMP written into the mirrored copy: the mirrored landmarks, their
      recomputed metrics with the mirrored pose, and the name plus " Mirror". */
  function MirrorXmp(n: Numerics, metrics: FaceMetrics, path: string, lms: seq<Landmark>): string
    requires |lms| > MaxIndex
  {
    var mirroredLandmarks := Mirrored(lms);
    GenerateXmp(n, BuildMirroredMetrics(n, metrics, mirroredLandmarks), FaceName(path) + " Mirror", mirroredLandmarks)
  }

  /** The image's own outputs: the XMP in the source, then the WebP. */
  function FaceFilesWritten(files: map<string, seq<byte>>, path: string, outDir: string, input: ImageInput,
                            xmp: string): map<string, seq<byte>>
  {
    var f := XmpWritten(files, path, xmp);
    if input.webp.Some? then f[WebpPath(outDir, path) := input.webp.value] else f
  }

  /** The mirrored copy: the source image with its XMP, then its WebP. */
  function MirrorWritten(files: map<string, seq<byte>>, path: string, outDir: string, input: ImageInput,
                         mirroredXmp: string): map<string, seq<byte>>
  {
    var f := if input.mirrorSource.Some?
             then XmpWritten(files[MirrorPath(path) := input.mirrorSource.value], MirrorPath(path), mirroredXmp)
             else files;
    if input.mirrorWebp.Some? then f[MirrorWebpPath(outDir, path) := input.mirrorWebp.value] else f
  }

  /** The files an accepted image produces: its own XMP, its WebP and, when
      mirroring and the image is not itself a mirror, the mirrored copy. */
  function OutputsWritten(files: map<string, seq<byte>>, path: string, outDir: string, input: ImageInput,
                          texts: Texts, mirrorOutput: bool): map<string, seq<byte>>
  {
    var f := FaceFilesWritten(files, path, outDir, input, texts.xmp);
    if mirrorOutput && !IsMirrorStem(path) then MirrorWritten(f, path, outDir, input, texts.mirroredXmp) else f
  }

  /** The two XMP texts an accepted image writes: its own, and the one of its
      mirrored copy (written only when mirroring). */
  datatype Texts = Texts(xmp: string, mirroredXmp: string)

  /** The XMP of the final landmarks and their metrics. */
  function ImageXmp(n: Numerics, input: ImageInput, averaging: bool, path: string): string
    requires WellFormed(input) && Detected(input)
  {
    FaceXmp(n, ImageMetrics(n, input, averaging), path, FinalLandmarks(input, averaging))
  }

  /** The XMP of the mirrored copy of the final landmarks. */
  function ImageMirrorXmp(n: Numerics, input: ImageInput, averaging: bool, path: string): string
    requires WellFormed(input) && Detected(input)
  {
    MirrorXmp(n, ImageMetrics(n, input, averaging), path, FinalLandmarks(input, averaging))
  }

  /** `texts` are what `process_image` writes for the image: its own XMP, and the
      mirrored XMP whenever the mirrored copy is written. */
  predicate TextsFit(n: Numerics, input: ImageInput, averaging: bool, path: string, mirrorOutput: bool, texts: Texts)
    requires WellFormed(input) && Detected(input)
  {
    forall lms {:trigger FaceXmp(n, ComputeFaceMetrics(n, lms, Some(FinalMatrix(input, averaging)), 1.0), path, lms)} ::
      lms == FinalLandmarks(input, averaging) ==>
      var m := ComputeFaceMetrics(n, lms, Some(FinalMatrix(input, averaging)), 1.0);
      texts.xmp == FaceXmp(n, m, path, lms)
      && (mirrorOutput && !IsMirrorStem(path) ==> texts.mirroredXmp == MirrorXmp(n, m, path, lms))
  }

  /** `landmarks` and `metrics` are the image's final landmarks and their metrics. */
  predicate Measured(n: Numerics, input: ImageInput, averaging: bool, landmarks: seq<Landmark>, metrics: FaceMetrics)
    requires WellFormed(input) && Detected(input)
  {
    landmarks == FinalLandmarks(input, averaging)
    && forall lms {:trigger ComputeFaceMetrics(n, lms, Some(FinalMatrix(input, averaging)), 1.0)} ::
         lms == landmarks ==> metrics == ComputeFaceMetrics(n, lms, Some(FinalMatrix(input, averaging)), 1.0)
  }

  /** The texts of the image's final landmarks and metrics are the ones `TextsFit` names. */
  lemma MeasuredTextsFit(n: Numerics, input: ImageInput, averaging: bool, path: string, mirrorOutput: bool,
                         metrics: FaceMetrics, landmarks: seq<Landmark>, texts: Texts)
    requires WellFormed(input) && Detected(input)
    requires Measured(n, input, averaging, landmarks, metrics)
    requires texts.xmp == FaceXmp(n, metrics, path, landmarks)
    requires mirrorOutput && !IsMirrorStem(path) ==> texts.mirroredXmp == MirrorXmp(n, metrics, path, landmarks)
    ensures TextsFit(n, input, averaging, path, mirrorOutput, texts)
  {
  }

  /** The file store after `process_image` ended with `outcome`; only an accepted
      image writes, and it writes `texts`. */
  function FilesAfter(files: map<string, seq<byte>>, path: string, outDir: string, input: ImageInput,
                      outcome: Outcome, texts: Texts, mirrorOutput: bool): map<string, seq<byte>>
  {
    if outcome == Accepted then OutputsWritten(files, path, outDir, input, texts, mirrorOutput) else files
  }

  // ---------------------------------------------------------------------------
  // process_image
  // ---------------------------------------------------------------------------

  /** The XMP texts of an accepted image; the mirrored one only when it is wanted. */
  method ComposeTexts(n: Numerics, path: string, mirrorOutput: bool, metrics: FaceMetrics, landmarks: seq<Landmark>)
    returns (texts: Texts)
    requires |landmarks| > MaxIndex
    ensures texts.xmp == FaceXmp(n, metrics, path, landmarks)
    ensures mirrorOutput && !IsMirrorStem(path) ==> texts.mirroredXmp == MirrorXmp(n, metrics, path, landmarks)
  {
    var xmp := FaceXmp(n, metrics, path, landmarks);
    var mirroredXmp := "";
    if mirrorOutput && !IsMirrorStem(path) {
      mirroredXmp := MirroredText(n, path, metrics, landmarks);
    }
    texts := Texts(xmp, mirroredXmp);
  }

  /** The mirrored landmarks, their metrics with the mirrored pose, and their XMP. */
  method MirroredText(n: Numerics, path: string, metrics: FaceMetrics, landmarks: seq<Landmark>)
    returns (mirroredXmp: string)
    requires |landmarks| > MaxIndex
    ensures mirroredXmp == MirrorXmp(n, metrics, path, landmarks)
  {
    var mirroredLandmarks := BuildMirroredLandmarks(landmarks);
    var mirroredMetrics := BuildMirroredMetrics(n, metrics, mirroredLandmarks);
    mirroredXmp := GenerateXmp(n, mirroredMetrics, FaceName(path) + " Mirror", mirroredLandmarks);
  }

  /** The writes of an accepted image, in the order `process_image` makes them. */
  method WriteOutputs(store: FileStore, path: string, outDir: string, input: ImageInput, texts: Texts,
                      mirrorOutput: bool)
    modifies store
    ensures store.files == OutputsWritten(old(store.files), path, outDir, input, texts, mirrorOutput)
  {
    WriteXmpToSource(store, path, texts.xmp);
    if input.webp.Some? {
      store.Write(WebpPath(outDir, path), input.webp.value);
    }
    if mirrorOutput && !IsMirrorStem(path) {
      if input.mirrorSource.Some? {
        store.Write(MirrorPath(path), input.mirrorSource.value);
        WriteXmpToSource(store, MirrorPath(path), texts.mirroredXmp);
      }
      if input.mirrorWebp.Some? {
        store.Write(MirrorWebpPath(outDir, path), input.mirrorWebp.value);
      }
    }
  }

  /** The detection exits of `process_image`: files the image under the first
      exit that applies, or leaves the report alone when none does. */
  method FileEarlyExit(report: DetectionReport, detectorAvailable: bool, path: string, input: ImageInput)
    returns (exited: bool)
    modifies report
    ensures exited == EarlyExit(detectorAvailable, input).Some?
    ensures report.State() == if exited then Filed(old(report.State()), path, EarlyExit(detectorAvailable, input).value)
                              else old(report.State())
  {
    exited := true;
    if !input.readable {
      report.noFace := report.noFace + [path];
      return;
    }
    if !detectorAvailable {
      report.mediapipeErrors := report.mediapipeErrors + [path];
      report.errorTypes := Bump(report.errorTypes, "detector_unavailable");
      report.noFace := report.noFace + [path];
      return;
    }
    if input.detection.Raised? {
      report.mediapipeErrors := report.mediapipeErrors + [path];
      report.errorTypes := Bump(report.errorTypes, input.detection.errorName);
      report.noFace := report.noFace + [path];
      return;
    }
    var result := input.detection.result;
    if |result.faces| == 0 {
      report.mediapipeNoFace := report.mediapipeNoFace + [path];
      report.noFace := report.noFace + [path];
      return;
    }
    if |result.matrices| == 0 {
      report.missingMatrix := report.missingMatrix + [path];
      report.noFace := report.noFace + [path];
      return;
    }
    exited := false;
  }

  /** The landmarks of the first face and its matrix, averaged with the
      upscaled pass when that one found a face and a matrix. */
  method DetectedLandmarks(input: ImageInput, averaging: bool) returns (landmarks: seq<Landmark>, matrix: seq<real>)
    requires WellFormed(input) && Detected(input)
    ensures landmarks == FinalLandmarks(input, averaging) && matrix == FinalMatrix(input, averaging)
  {
    var result := input.detection.result;
    landmarks := ToLandmarks(result.faces[0]);
    matrix := result.matrices[0];
    if averaging && input.upscaled.Returned? && Usable(input.upscaled.result) {
      var upscaled := input.upscaled.result;
      landmarks := AverageLandmarks(landmarks, ToLandmarks(upscaled.faces[0]));
      if |upscaled.matrices[0]| == 16 {
        matrix := AverageMatrix(matrix, upscaled.matrices[0]);
      }
    }
  }

  /** The final landmarks and their metrics, with score 1.0. */
  method Measure(n: Numerics, input: ImageInput, averaging: bool) returns (landmarks: seq<Landmark>, metrics: FaceMetrics)
    requires WellFormed(input) && Detected(input)
    ensures Measured(n, input, averaging, landmarks, metrics)
    ensures metrics.landmarkConfidence == RoundedConfidence(n, input, averaging)
  {
    var matrix;
    landmarks, matrix := DetectedLandmarks(input, averaging);
    metrics := ComputeFaceMetrics(n, landmarks, Some(matrix), 1.0);
  }

  /** The confidence gate: below 0.75 the image is filed as low confidence. */
  method Gate(report: DetectionReport, path: string, confidence: real) returns (accepted: bool)
    modifies report
    ensures accepted <==> confidence >= MinLandmarkConfidence
    ensures report.State() == Filed(old(report.State()), path, if accepted then Accepted else LowConfidence)
  {
    accepted := confidence >= MinLandmarkConfidence;
    if !accepted {
      report.lowConfidence := report.lowConfidence + [path];
    }
  }

  /** An accepted image: its texts, then its writes. */
  method Accept(store: FileStore, n: Numerics, path: string, outDir: string, input: ImageInput, averaging: bool,
                mirrorOutput: bool, metrics: FaceMetrics, landmarks: seq<Landmark>)
    returns (ghost texts: Texts)
    requires WellFormed(input) && Detected(input)
    requires Measured(n, input, averaging, landmarks, metrics)
    modifies store
    ensures TextsFit(n, input, averaging, path, mirrorOutput, texts)
    ensures store.files == OutputsWritten(old(store.files), path, outDir, input, texts, mirrorOutput)
  {
    var written := ComposeTexts(n, path, mirrorOutput, metrics, landmarks);
    texts := written;
    MeasuredTextsFit(n, input, averaging, path, mirrorOutput, metrics, landmarks, texts);
    WriteOutputs(store, path, outDir, input, written, mirrorOutput);
  }

  /** The rest of `process_image` once detection succeeded: the metrics, the
      confidence gate and the writes. */
  method MeasureAndWrite(report: DetectionReport, store: FileStore, n: Numerics, path: string, outDir: string,
                         input: ImageInput, averaging: bool, mirrorOutput: bool)
    returns (ghost outcome: Outcome, ghost texts: Texts)
    requires WellFormed(input) && Detected(input)
    modifies report, store
    ensures outcome == if RoundedConfidence(n, input, averaging) < MinLandmarkConfidence then LowConfidence else Accepted
    ensures outcome == Accepted ==> TextsFit(n, input, averaging, path, mirrorOutput, texts)
    ensures report.State() == Filed(old(report.State()), path, outcome)
    ensures store.files == FilesAfter(old(store.files), path, outDir, input, outcome, texts, mirrorOutput)
  {
    var landmarks, metrics := Measure(n, input, averaging);
    var accepted := Gate(report, path, metrics.landmarkConfidence);
    if accepted {
      outcome := Accepted;
      texts := Accept(store, n, path, outDir, input, averaging, mirrorOutput, metrics, landmarks);
    } else {
      outcome := LowConfidence;
      texts := Texts("", "");
    }
  }

  /** `process_image`: every image is counted once and lands in exactly the lists
      its outcome names; only an accepted image writes files, and it writes the
      texts of its final landmarks and metrics. */
  method ProcessImage(report: DetectionReport, store: FileStore, n: Numerics, detectorAvailable: bool,
                      path: string, outDir: string, input: ImageInput, averaging: bool, mirrorOutput: bool)
    returns (ghost outcome: Outcome, ghost texts: Texts)
    requires WellFormed(input)
    modifies report, store
    ensures outcome == OutcomeOf(n, detectorAvailable, input, averaging)
    ensures outcome == Accepted ==> Detected(input) && TextsFit(n, input, averaging, path, mirrorOutput, texts)
    ensures report.State() == Recorded(old(report.State()), path, outcome)
    ensures store.files == FilesAfter(old(store.files), path, outDir, input, outcome, texts, mirrorOutput)
  {
    report.totalImages := report.totalImages + 1;
    var exited := FileEarlyExit(report, detectorAvailable, path, input);
    if exited {
      outcome := EarlyExit(detectorAvailable, input).value;
      texts := Texts("", "");
      return;
    }
    outcome, texts := MeasureAndWrite(report, store, n, path, outDir, input, averaging, mirrorOutput);
  }

  // ---------------------------------------------------------------------------
  // Properties of one image's processing
  // ---------------------------------------------------------------------------

  /** Every image adds one to the total. The exits before the metrics append
      the path to `no_face`; a low confidence appends it to `low_confidence`
      instead; an accepted image appends it nowhere. */
  lemma RecordedLists(s: ReportState, path: string, o: Outcome)
    ensures var r := Recorded(s, path, o);
            r.totalImages == s.totalImages + 1
            && (Unusable(o) ==> r.noFace == s.noFace + [path] && r.lowConfidence == s.lowConfidence)
            && (!Unusable(o) ==> r.noFace == s.noFace)
            && (o.LowConfidence? <==> r.lowConfidence == s.lowConfidence + [path])
            && (!o.LowConfidence? ==> r.lowConfidence == s.lowConfidence)
            && (o.DetectorUnavailable? || o.DetectorError? <==> r.mediapipeErrors == s.mediapipeErrors + [path])
  {
  }

  /** The unavailable-detector and exception exits add exactly one to their error
      key and leave the other keys alone; every other exit leaves the counts alone. */
  lemma RecordedErrorCounts(s: ReportState, path: string, o: Outcome)
    ensures var r := Recorded(s, path, o);
            var key := if o.DetectorError? then o.errorName else "detector_unavailable";
            if o.DetectorUnavailable? || o.DetectorError? then
              key in r.errorTypes
              && r.errorTypes[key] == (if key in s.errorTypes then s.errorTypes[key] else 0) + 1
              && (forall k :: k != key ==> (k in r.errorTypes <==> k in s.errorTypes))
              && (forall k :: k != key && k in s.errorTypes ==> r.errorTypes[k] == s.errorTypes[k])
            else r.errorTypes == s.errorTypes
  {
  }

  /** Recording an image keeps the report consistent. */
  lemma RecordedKeepsConsistent(s: ReportState, path: string, o: Outcome)
    requires Consistent(s)
    ensures Consistent(Recorded(s, path, o))
  {
    if o.DetectorUnavailable? {
      BumpAddsOne(s.errorTypes, "detector_unavailable");
    } else if o.DetectorError? {
      BumpAddsOne(s.errorTypes, o.errorName);
    }
  }

  /** An image is rejected for its landmark confidence exactly when it gets past
      every detection exit and its rounded confidence is below 0.75; it is
      accepted exactly when that confidence is at least 0.75. */
  lemma LowConfidenceExactly(n: Numerics, detectorAvailable: bool, input: ImageInput, averaging: bool)
    requires WellFormed(input) && EarlyExit(detectorAvailable, input).None?
    ensures OutcomeOf(n, detectorAvailable, input, averaging).LowConfidence? <==>
              ImageMetrics(n, input, averaging).landmarkConfidence < MinLandmarkConfidence
    ensures OutcomeOf(n, detectorAvailable, input, averaging) == Accepted <==>
              ImageMetrics(n, input, averaging).landmarkConfidence >= MinLandmarkConfidence
  {
    var c := RoundedConfidence(n, input, averaging);
    assert OutcomeOf(n, detectorAvailable, input, averaging) == if c < MinLandmarkConfidence then LowConfidence else Accepted;
    assert ImageMetrics(n, input, averaging).landmarkConfidence == c;
  }

  /** An image that is itself a `_mirror` copy is never mirrored again. */
  lemma MirrorsAreNotMirrored(files: map<string, seq<byte>>, path: string, outDir: string, input: ImageInput,
                              texts: Texts)
    requires IsMirrorStem(path)
    ensures OutputsWritten(files, path, outDir, input, texts, true)
            == OutputsWritten(files, path, outDir, input, texts, false)
  {
  }

  /** The mirrored source goes to `stem + "_mirror" + suffix` beside the original;
      it is recognised as a mirror, so later selections skip it, and it carries
      the required tags of its XMP unless the mirrored WebP lands on it. */
  lemma MirrorSourceWritten(files: map<string, seq<byte>>, path: string, outDir: string, input: ImageInput,
                            mirroredXmp: string)
    requires input.mirrorSource.Some? && Suffix(path) != ""
    requires MirrorWebpPath(outDir, path) != MirrorPath(path)
    requires CarriesXmpTags(mirroredXmp)
    ensures var f := MirrorWritten(files, path, outDir, input, mirroredXmp);
            MirrorPath(path) in f && !Selectable(MirrorPath(path)) && HasRequiredPoseXmp(f, MirrorPath(path))
  {
    MirrorPathIsMirror(path);
    var mirror := MirrorPath(path);
    var g := XmpWritten(files[mirror := input.mirrorSource.value], mirror, mirroredXmp);
    WrittenTagsPassCheck(files[mirror := input.mirrorSource.value], mirror, mirroredXmp);
    if input.mirrorWebp.Some? {
      CheckUnchanged(g, g[MirrorWebpPath(outDir, path) := input.mirrorWebp.value], mirror);
    }
  }

  /** The tag check reads one file only: other writes leave its verdict alone. */
  lemma CheckUnchanged(f: map<string, seq<byte>>, g: map<string, seq<byte>>, path: string)
    requires HasRequiredPoseXmp(f, path) && path in g && g[path] == f[path]
    ensures HasRequiredPoseXmp(g, path)
  {
  }

  /** The mirrored copy never touches a file other than its two outputs. */
  lemma MirrorWrittenFrame(files: map<string, seq<byte>>, path: string, outDir: string, input: ImageInput,
                           mirroredXmp: string, q: string)
    requires q in files && q != MirrorPath(path) && q != MirrorWebpPath(outDir, path)
    ensures var f := MirrorWritten(files, path, outDir, input, mirroredXmp);
            q in f && f[q] == files[q]
  {
    var mirror := MirrorPath(path);
    if input.mirrorSource.Some? {
      var copied := files[mirror := input.mirrorSource.value];
      XmpWrittenFrame(copied, mirror, mirroredXmp);
      assert q in copied && copied[q] == files[q];
    }
  }

  /** An accepted image passes the required-tag check afterwards, provided none
      of the other outputs is written over the source itself. */
  lemma OutputsPassCheck(files: map<string, seq<byte>>, path: string, outDir: string, input: ImageInput,
                         texts: Texts, mirrorOutput: bool)
    requires path in files
    requires WebpPath(outDir, path) != path && MirrorWebpPath(outDir, path) != path && MirrorPath(path) != path
    requires CarriesXmpTags(texts.xmp)
    ensures HasRequiredPoseXmp(OutputsWritten(files, path, outDir, input, texts, mirrorOutput), path)
  {
    var mirroredXmp := texts.mirroredXmp;
    var f1 := XmpWritten(files, path, texts.xmp);
    WrittenTagsPassCheck(files, path, texts.xmp);
    XmpWrittenFrame(files, path, texts.xmp);
    var f2 := if input.webp.Some? then f1[WebpPath(outDir, path) := input.webp.value] else f1;
    CheckUnchanged(f1, f2, path);
    if mirrorOutput && !IsMirrorStem(path) {
      MirrorWrittenFrame(f2, path, outDir, input, mirroredXmp, path);
      CheckUnchanged(f2, MirrorWritten(f2, path, outDir, input, mirroredXmp), path);
    }
  }

  /** An image `process_image` accepts is not picked up again by the
      `--only-missing` filter: its file then holds every required tag. */
  lemma AcceptedPassesCheck(n: Numerics, files: map<string, seq<byte>>, path: string, outDir: string,
                            input: ImageInput, averaging: bool, mirrorOutput: bool, texts: Texts)
    requires WellFormed(input) && Detected(input) && path in files
    requires WebpPath(outDir, path) != path && MirrorWebpPath(outDir, path) != path && MirrorPath(path) != path
    requires TextsFit(n, input, averaging, path, mirrorOutput, texts)
    ensures HasRequiredPoseXmp(FilesAfter(files, path, outDir, input, Accepted, texts, mirrorOutput), path)
  {
    var lms := FinalLandmarks(input, averaging);
    var m := ComputeFaceMetrics(n, lms, Some(FinalMatrix(input, averaging)), 1.0);
    assert texts.xmp == FaceXmp(n, m, path, lms);
    GenerateXmpCarriesTags(n, m, FaceName(path), lms);
    OutputsPassCheck(files, path, outDir, input, texts, mirrorOutput);
  }

  // ---------------------------------------------------------------------------
  // main: file selection and the processing loop
  // ---------------------------------------------------------------------------

  /** The images `main` considers: supported, and not a `_mirror` copy. */
  predicate Selectable(p: string)
  {
    IsSupportedImage(p) && !IsMirrorStem(p)
  }

  /** The entries of `xs` that satisfy `keep`, in order. */
  function FilterPaths(xs: seq<string>, keep: string -> bool): (r: seq<string>)
    ensures |r| <= |xs|
    ensures forall p :: p in r <==> p in xs && keep(p)
  {
    if |xs| == 0 then []
    else (if keep(xs[0]) then [xs[0]] else []) + FilterPaths(xs[1..], keep)
  }

  /** `sorted(p for p in in_path.rglob("*") if ...)`. */
  function SelectFiles(found: seq<string>): (r: seq<string>)
    ensures StrictlySorted(r, true)
    ensures forall p :: p in r <==> p in found && Selectable(p)
  {
    SortDedup(FilterPaths(found, Selectable), true)
  }

  /** The work list: every selected image, or with `--only-missing` the images the
      report names, or when it names none the selected images still lacking tags. */
  function WorkList(files: map<string, seq<byte>>, found: seq<string>, onlyMissing: bool,
                    reported: seq<string>): (r: seq<string>)
    ensures !onlyMissing ==> r == SelectFiles(found)
    ensures onlyMissing && |reported| > 0 ==> r == reported
    ensures onlyMissing && |reported| == 0 ==>
              forall p :: p in r <==> p in SelectFiles(found) && !HasRequiredPoseXmp(files, p)
  {
    var selected := SelectFiles(found);
    if !onlyMissing then selected
    else if |reported| > 0 then reported
    else FilterPaths(selected, p => !HasRequiredPoseXmp(files, p))
  }

  /** How many images the loop processes: all of them, or `limit` when positive. */
  function ProcessedCount(limit: int, total: nat): (c: nat)
    ensures c <= total && (limit > 0 ==> c <= limit)
    ensures limit <= 0 || total <= limit ==> c == total
  {
    if limit > 0 && total > limit then limit else total
  }

  /** The report after recording `paths` in order, from `s`, with their outcomes. */
  function Report(s: ReportState, paths: seq<string>, outcomes: seq<Outcome>): ReportState
    requires |paths| == |outcomes|
    decreases |paths|
  {
    if |paths| == 0 then s
    else
      var k := |paths| - 1;
      Recorded(Report(s, paths[..k], outcomes[..k]), paths[k], outcomes[k])
  }

  /** The store after processing `paths` in order from `files`, each image with
      its outcome and texts. */
  function Replay(files: map<string, seq<byte>>, paths: seq<string>, outDir: string, inputs: string -> ImageInput,
                  outcomes: seq<Outcome>, texts: seq<Texts>, mirrorOutput: bool): map<string, seq<byte>>
    requires |paths| == |outcomes| == |texts|
    decreases |paths|
  {
    if |paths| == 0 then files
    else
      var k := |paths| - 1;
      FilesAfter(Replay(files, paths[..k], outDir, inputs, outcomes[..k], texts[..k], mirrorOutput),
                 paths[k], outDir, inputs(paths[k]), outcomes[k], texts[k], mirrorOutput)
  }

  /** Recording any run in a consistent report counts every image once and keeps
      it consistent, whatever the outcomes were. */
  lemma {:induction false} ReportConsistent(s: ReportState, paths: seq<string>, outcomes: seq<Outcome>)
    requires |paths| == |outcomes| && Consistent(s)
    ensures Report(s, paths, outcomes).totalImages == s.totalImages + |paths|
    ensures Consistent(Report(s, paths, outcomes))
    decreases |paths|
  {
    if |paths| > 0 {
      var k := |paths| - 1;
      ReportConsistent(s, paths[..k], outcomes[..k]);
      RecordedKeepsConsistent(Report(s, paths[..k], outcomes[..k]), paths[k], outcomes[k]);
    }
  }

  lemma EmptyReportConsistent()
    ensures Consistent(EmptyReport)
  {
    assert ErrorTotal(map[]) == 0;
  }

  /** Some image of the run is `p` and ends in one of the exits before the metrics. */
  predicate UnusableIn(paths: seq<string>, outcomes: seq<Outcome>, p: string)
    requires |paths| == |outcomes|
  {
    exists i :: 0 <= i < |paths| && paths[i] == p && Unusable(outcomes[i])
  }

  /** Some image of the run is `p` and falls below the confidence threshold. */
  predicate LowIn(paths: seq<string>, outcomes: seq<Outcome>, p: string)
    requires |paths| == |outcomes|
  {
    exists i :: 0 <= i < |paths| && paths[i] == p && outcomes[i].LowConfidence?
  }

  lemma UnusableInSnoc(paths: seq<string>, outcomes: seq<Outcome>, p: string)
    requires |paths| == |outcomes| > 0
    ensures var k := |paths| - 1;
            UnusableIn(paths, outcomes, p) <==>
              UnusableIn(paths[..k], outcomes[..k], p) || (paths[k] == p && Unusable(outcomes[k]))
  {
    var k := |paths| - 1;
    if UnusableIn(paths, outcomes, p) {
      var i :| 0 <= i < |paths| && paths[i] == p && Unusable(outcomes[i]);
      if i < k {
        assert paths[..k][i] == p && outcomes[..k][i] == outcomes[i];
      }
    }
    if UnusableIn(paths[..k], outcomes[..k], p) {
      var i :| 0 <= i < k && paths[..k][i] == p && Unusable(outcomes[..k][i]);
      assert paths[i] == p && outcomes[i] == outcomes[..k][i];
    }
  }

  lemma LowInSnoc(paths: seq<string>, outcomes: seq<Outcome>, p: string)
    requires |paths| == |outcomes| > 0
    ensures var k := |paths| - 1;
            LowIn(paths, outcomes, p) <==>
              LowIn(paths[..k], outcomes[..k], p) || (paths[k] == p && outcomes[k].LowConfidence?)
  {
    var k := |paths| - 1;
    if LowIn(paths, outcomes, p) {
      var i :| 0 <= i < |paths| && paths[i] == p && outcomes[i].LowConfidence?;
      if i < k {
        assert paths[..k][i] == p && outcomes[..k][i] == outcomes[i];
      }
    }
    if LowIn(paths[..k], outcomes[..k], p) {
      var i :| 0 <= i < k && paths[..k][i] == p && outcomes[..k][i].LowConfidence?;
      assert paths[i] == p && outcomes[i] == outcomes[..k][i];
    }
  }

  /** A run adds to `no_face` exactly the images that end in an exit before the
      metrics, and to `low_confidence` exactly those below the threshold. */
  lemma {:induction false} ReportListsRejected(s: ReportState, paths: seq<string>, outcomes: seq<Outcome>)
    requires |paths| == |outcomes|
    ensures forall p :: p in Report(s, paths, outcomes).noFace <==> p in s.noFace || UnusableIn(paths, outcomes, p)
    ensures forall p :: p in Report(s, paths, outcomes).lowConfidence <==>
                          p in s.lowConfidence || LowIn(paths, outcomes, p)
    decreases |paths|
  {
    if |paths| > 0 {
      var k := |paths| - 1;
      ReportListsRejected(s, paths[..k], outcomes[..k]);
      RecordedLists(Report(s, paths[..k], outcomes[..k]), paths[k], outcomes[k]);
      forall p ensures UnusableIn(paths, outcomes, p) <==>
                         UnusableIn(paths[..k], outcomes[..k], p) || (paths[k] == p && Unusable(outcomes[k])) {
        UnusableInSnoc(paths, outcomes, p);
      }
      forall p ensures LowIn(paths, outcomes, p) <==>
                         LowIn(paths[..k], outcomes[..k], p) || (paths[k] == p && outcomes[k].LowConfidence?) {
        LowInSnoc(paths, outcomes, p);
      }
    }
  }

  /** Image i of `paths` ended with `outcomes[i]`, its outcome, and when accepted
      wrote `texts[i]`, the texts of its final landmarks. */
  predicate RunFits(n: Numerics, paths: seq<string>, inputs: string -> ImageInput, averaging: bool,
                    mirrorOutput: bool, outcomes: seq<Outcome>, texts: seq<Texts>)
    requires |paths| == |outcomes| == |texts| && forall p :: WellFormed(inputs(p))
    decreases |paths|
  {
    |paths| == 0
    || var k := |paths| - 1;
       RunFits(n, paths[..k], inputs, averaging, mirrorOutput, outcomes[..k], texts[..k])
       && outcomes[k] == OutcomeOf(n, true, inputs(paths[k]), averaging)
       && (outcomes[k] == Accepted ==>
             Detected(inputs(paths[k])) && TextsFit(n, inputs(paths[k]), averaging, paths[k], mirrorOutput, texts[k]))
  }

  lemma RunFitsStep(n: Numerics, paths: seq<string>, p: string, inputs: string -> ImageInput, averaging: bool,
                    mirrorOutput: bool, outcomes: seq<Outcome>, texts: seq<Texts>, o: Outcome, t: Texts)
    requires |paths| == |outcomes| == |texts| && forall q :: WellFormed(inputs(q))
    requires RunFits(n, paths, inputs, averaging, mirrorOutput, outcomes, texts)
    requires o == OutcomeOf(n, true, inputs(p), averaging)
    requires o == Accepted ==> Detected(inputs(p)) && TextsFit(n, inputs(p), averaging, p, mirrorOutput, t)
    ensures RunFits(n, paths + [p], inputs, averaging, mirrorOutput, outcomes + [o], texts + [t])
  {
    assert (paths + [p])[..|paths|] == paths;
    assert (outcomes + [o])[..|paths|] == outcomes;
    assert (texts + [t])[..|paths|] == texts;
  }

  lemma ReplayStep(files: map<string, seq<byte>>, paths: seq<string>, p: string, outDir: string,
                   inputs: string -> ImageInput, outcomes: seq<Outcome>, texts: seq<Texts>, o: Outcome, t: Texts,
                   mirrorOutput: bool)
    requires |paths| == |outcomes| == |texts|
    ensures Replay(files, paths + [p], outDir, inputs, outcomes + [o], texts + [t], mirrorOutput)
            == FilesAfter(Replay(files, paths, outDir, inputs, outcomes, texts, mirrorOutput),
                          p, outDir, inputs(p), o, t, mirrorOutput)
  {
    assert (paths + [p])[..|paths|] == paths;
    assert (outcomes + [o])[..|paths|] == outcomes;
    assert (texts + [t])[..|paths|] == texts;
  }

  lemma ReportStep(s: ReportState, paths: seq<string>, p: string, outcomes: seq<Outcome>, o: Outcome)
    requires |paths| == |outcomes|
    ensures Report(s, paths + [p], outcomes + [o]) == Recorded(Report(s, paths, outcomes), p, o)
  {
    assert (paths + [p])[..|paths|] == paths;
    assert (outcomes + [o])[..|paths|] == outcomes;
  }

  /** One turn of the processing loop: image `work[count]` is processed, and the
      outcomes, the written files and the report each grow by that image. */
  method ProcessNext(report: DetectionReport, store: FileStore, n: Numerics, work: seq<string>, count: nat,
                     outDir: string, averaging: bool, mirrorOutput: bool, inputs: string -> ImageInput,
                     ghost files0: map<string, seq<byte>>, ghost outcomes: seq<Outcome>, ghost texts: seq<Texts>)
    returns (ghost outcomes': seq<Outcome>, ghost texts': seq<Texts>)
    requires forall p :: WellFormed(inputs(p))
    requires count < |work| && |outcomes| == |texts| == count
    requires RunFits(n, work[..count], inputs, averaging, mirrorOutput, outcomes, texts)
    requires store.files == Replay(files0, work[..count], outDir, inputs, outcomes, texts, mirrorOutput)
    requires report.State() == Report(EmptyReport, work[..count], outcomes)
    modifies report, store
    ensures |outcomes'| == |texts'| == count + 1
    ensures RunFits(n, work[..count + 1], inputs, averaging, mirrorOutput, outcomes', texts')
    ensures store.files == Replay(files0, work[..count + 1], outDir, inputs, outcomes', texts', mirrorOutput)
    ensures report.State() == Report(EmptyReport, work[..count + 1], outcomes')
  {
    var p := work[count];
    var outcome, t := ProcessImage(report, store, n, true, p, outDir, inputs(p), averaging, mirrorOutput);
    RunFitsStep(n, work[..count], p, inputs, averaging, mirrorOutput, outcomes, texts, outcome, t);
    ReplayStep(files0, work[..count], p, outDir, inputs, outcomes, texts, outcome, t, mirrorOutput);
    ReportStep(EmptyReport, work[..count], p, outcomes, outcome);
    assert work[..count + 1] == work[..count] + [p];
    outcomes', texts' := outcomes + [outcome], texts + [t];
  }

  /** The processing loop of `main` over the work list. */
  method ProcessAll(store: FileStore, n: Numerics, work: seq<string>, outDir: string, averaging: bool, limit: int,
                    mirrorOutput: bool, inputs: string -> ImageInput)
    returns (count: nat, report: DetectionReport, ghost outcomes: seq<Outcome>, ghost texts: seq<Texts>)
    requires forall p :: WellFormed(inputs(p))
    modifies store
    ensures fresh(report)
    ensures count == ProcessedCount(limit, |work|) && |outcomes| == |texts| == count
    ensures RunFits(n, work[..count], inputs, averaging, mirrorOutput, outcomes, texts)
    ensures store.files == Replay(old(store.files), work[..count], outDir, inputs, outcomes, texts, mirrorOutput)
    ensures report.State() == Report(EmptyReport, work[..count], outcomes)
  {
    outcomes, texts := [], [];
    report := new DetectionReport();
    count := 0;
    while count < |work|
      invariant count <= ProcessedCount(limit, |work|) && |outcomes| == |texts| == count
      invariant RunFits(n, work[..count], inputs, averaging, mirrorOutput, outcomes, texts)
      invariant store.files == Replay(old(store.files), work[..count], outDir, inputs, outcomes, texts, mirrorOutput)
      invariant report.State() == Report(EmptyReport, work[..count], outcomes)
    {
      if limit > 0 && count >= limit {
        break;
      }
      outcomes, texts := ProcessNext(report, store, n, work, count, outDir, averaging, mirrorOutput, inputs,
                                     old(store.files), outcomes, texts);
      count := count + 1;
    }
  }

  /** `main` after the detector is set up (a missing detector ends the run
      before this point, so every image sees an available detector). `found`
      is what `rglob("*")` lists, `missingReport` the parsed `--missing-report`,
      `inputs` the oracle for each image and `relative` the rendering of a path
      relative to the input directory. A report that is not a JSON object stops
      the run before any image; otherwise the first `ProcessedCount` images of
      the work list are processed in order, with averaging exactly when not
      `--only-missing`: image i ends with `outcomes[i]`, its outcome, and when
      accepted writes `texts[i]`, the texts of its final landmarks. The store is
      the replay of those writes and the unusable-image payload describes the
      final report. */
  method Run(store: FileStore, n: Numerics, disk: Disk, inPath: string, outDir: string,
             found: seq<string>, onlyMissing: bool, missingReport: Option<Json>, limit: int,
             mirrorOutput: bool, inputs: string -> ImageInput, relative: string -> string)
    returns (count: nat, payload: Option<UnusablePayload>, ghost outcomes: seq<Outcome>, ghost texts: seq<Texts>)
    requires forall p :: WellFormed(inputs(p))
    modifies store
    ensures payload.None? <==> onlyMissing && missingReport.Some? && !missingReport.value.JObject?
    ensures payload.None? ==> count == 0 && store.files == old(store.files)
    ensures payload.Some? ==>
              var reported := if onlyMissing then ReportedPaths(disk, inPath, missingReport) else [];
              var work := WorkList(old(store.files), found, onlyMissing, reported);
              count == ProcessedCount(limit, |work|) && |outcomes| == |texts| == count
              && RunFits(n, work[..count], inputs, !onlyMissing, mirrorOutput, outcomes, texts)
              && store.files == Replay(old(store.files), work[..count], outDir, inputs, outcomes, texts, mirrorOutput)
              && var after := Report(EmptyReport, work[..count], outcomes);
              payload.value == UnusableReport(relative, inPath, after.totalImages, after.noFace,
                                              after.lowConfidence, after.errorTypes)
  {
    outcomes, texts := [], [];
    var reported: seq<string> := [];
    if onlyMissing {
      var loaded := LoadMissingReportPaths(disk, inPath, missingReport);
      if loaded.None? {
        return 0, None, outcomes, texts;
      }
      reported := loaded.value;
    }
    var work := WorkList(store.files, found, onlyMissing, reported);
    var report;
    count, report, outcomes, texts := ProcessAll(store, n, work, outDir, !onlyMissing, limit, mirrorOutput, inputs);
    payload := Some(UnusableReport(relative, inPath, report.totalImages, report.noFace,
                                   report.lowConfidence, report.errorTypes));
  }
}
