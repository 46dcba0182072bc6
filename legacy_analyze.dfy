/**
  The earlier analyze-faces script, kept beside the frontend: its own copy of
  `compute_face_metrics` (no landmark confidence), an XMP template without the
  confidence line, a weaker required-tag check, a four-list `DetectionReport`
  with no confidence gate and no mirroring, and a `main` that selects JPEG, PNG
  and WebP files and processes at most `--limit` of them.

  Its `get_euler_angles`, `inject_xmp`, `append_xmp_payload` and
  `write_xmp_to_source` are the same as the shared ones in `FaceMetrics` and
  `XmpIo`, so those are used here.
*/
module LegacyAnalyzeFaces {
  import opened Text
  import opened Wrappers
  import opened Ordering
  import opened Paths
  import opened Files
  import opened FaceMetrics
  import opened XmpIo
  import AnalyzeFaces
  import AnalyzeFacesRun

  // ---------------------------------------------------------------------------
  // compute_face_metrics
  // ---------------------------------------------------------------------------

  /** `FaceMetrics` of this script: the geometry and the score. */
  datatype LegacyMetrics = LegacyMetrics(geometry: Geometry, score: real)

  /** `compute_face_metrics` of this script. Without a matrix the pose is zero;
      the centre is the outer left eye; the width, the blends and the other
      measurements are rounded from `MeasuresOf`. */
  function ComputeLegacyMetrics(n: Numerics, lms: seq<Landmark>, matrix: Option<seq<real>>, score: real)
    : (r: LegacyMetrics)
    requires |lms| > MaxIndex && MatrixShape(matrix)
    ensures matrix.None? && RoundKeepsZero(n) ==>
              r.geometry.pitch == 0.0 && r.geometry.yaw == 0.0 && r.geometry.roll == 0.0
    ensures r.geometry.centerX == r.geometry.eyeLX == n.round(lms[EyeLOuter].x, 4)
    ensures r.geometry.centerY == r.geometry.eyeLY == n.round(lms[EyeLOuter].y, 4)
    ensures r.geometry.iodistBlend == n.round(MeasuresOf(n, lms).iodistBlend, 6)
    ensures r.geometry.srcScalePx == n.round(MeasuresOf(n, lms).srcScalePx, 6)
    ensures r.geometry.faceWidth == n.round(MeasuresOf(n, lms).faceWidth, 4)
    ensures r.score == n.round(score, 3)
  {
    LegacyMetrics(ComputeGeometry(n, lms, matrix), n.round(score, 3))
  }

  /** The two copies of `compute_face_metrics` agree on every field they share. */
  lemma LegacyMetricsAgree(n: Numerics, lms: seq<Landmark>, matrix: Option<seq<real>>, score: real)
    requires |lms| > MaxIndex && MatrixShape(matrix)
    ensures var current := ComputeFaceMetrics(n, lms, matrix, score);
            ComputeLegacyMetrics(n, lms, matrix, score) == LegacyMetrics(current.geometry, current.score)
  {
  }

  // ---------------------------------------------------------------------------
  // generate_xmp
  // ---------------------------------------------------------------------------

  const LegacyBodyTags: seq<Tag> := [IptcName] + GeometryTags + [AcxDetScore]

  /** Every tag the template of this script emits. */
  const LegacyXmpTags: seq<Tag> := BoundaryTags + LegacyBodyTags

  /** The region's own lines: the name, the geometry and the score. */
  function LegacyBodyFields(n: Numerics, m: LegacyMetrics, name: string): seq<Field>
  {
    [Field(IptcName, name)] + GeometryFields(n, m.geometry) + [Field(AcxDetScore, n.format(m.score, 3))]
  }

  lemma LegacyFieldTags(n: Numerics, m: LegacyMetrics, name: string)
    ensures Tags(LegacyBodyFields(n, m, name)) == LegacyBodyTags
  {
    var head := [Field(IptcName, name)];
    var geometry := GeometryFields(n, m.geometry);
    var tail := [Field(AcxDetScore, n.format(m.score, 3))];
    FieldTags(n, Box(0.0, 0.0, 0.0, 0.0), FaceMetrics(m.geometry, 0.0, m.score), name);
    TagsConcat(head, geometry);
    TagsConcat(head + geometry, tail);
    assert Tags(head) == [IptcName];
    assert Tags(tail) == [AcxDetScore];
  }

  /** `generate_xmp` of this script. */
  function LegacyGenerateXmp(n: Numerics, m: LegacyMetrics, name: string, lms: seq<Landmark>): string
    requires |lms| > 0
  {
    Document(BoundaryFields(n, BoundingBox(lms)), LegacyBodyFields(n, m, name))
  }

  /** The text carries the opening tag of every field the template emits. */
  predicate CarriesLegacyXmpTags(text: string)
  {
    forall t :: t in LegacyXmpTags ==> Contains(text, OpenTag(t))
  }

  lemma LegacyGenerateXmpCarriesTags(n: Numerics, m: LegacyMetrics, name: string, lms: seq<Landmark>)
    requires |lms| > 0
    ensures CarriesLegacyXmpTags(LegacyGenerateXmp(n, m, name, lms))
  {
    FieldTags(n, BoundingBox(lms), FaceMetrics(m.geometry, 0.0, m.score), name);
    LegacyFieldTags(n, m, name);
    DocumentContainsTags(BoundaryFields(n, BoundingBox(lms)), LegacyBodyFields(n, m, name));
  }

  /** The current template is this one with the confidence line inserted just
      before the score. */
  lemma CurrentTemplateAddsConfidence(n: Numerics, g: Geometry, confidence: real, score: real, name: string)
    ensures var legacy := LegacyBodyFields(n, LegacyMetrics(g, score), name);
            |legacy| == 28
            && BodyFields(n, FaceMetrics(g, confidence, score), name)
               == legacy[..27] + [Field(AcxLandmarkConfidence, n.format(confidence, 3))] + legacy[27..]
  {
    var head := [Field(IptcName, name)] + GeometryFields(n, g);
    var legacy := LegacyBodyFields(n, LegacyMetrics(g, score), name);
    assert legacy == head + [Field(AcxDetScore, n.format(score, 3))];
    assert legacy[..27] == head && legacy[27..] == [Field(AcxDetScore, n.format(score, 3))];
  }

  /** Apart from the confidence line, both templates emit the same tags. */
  lemma CurrentTemplateSameTags()
    ensures forall t :: t in LegacyXmpTags <==> t in XmpTags && t != AcxLandmarkConfidence
  {
    assert LegacyXmpTags == BoundaryTags + [IptcName] + GeometryTags + [AcxDetScore];
    assert XmpTags == BoundaryTags + [IptcName] + GeometryTags + [AcxLandmarkConfidence, AcxDetScore];
  }

  // ---------------------------------------------------------------------------
  // has_required_pose_xmp
  // ---------------------------------------------------------------------------

  const LegacyRequiredTags: seq<Tag> :=
    [RbX, RbY, RbW, RbH, AcxPitch, AcxYaw, AcxRoll, AcxNose, AcxEyeL, AcxEyeR, AcxMouthL, AcxMouthR,
     AcxChin, AcxForehead, AcxSrcScalePx]

  /** `has_required_pose_xmp` of this script: the file can be read and its bytes
      contain each of the fifteen opening tags. */
  predicate HasLegacyPoseXmp(files: map<string, seq<byte>>, path: string)
  {
    path in files && forall t :: t in LegacyRequiredTags ==> Contains(files[path], Utf8(OpenTag(t)))
  }

  lemma LegacyRequiredTagsAreEmitted()
    ensures forall t :: t in LegacyRequiredTags ==> t in LegacyXmpTags
  {
  }

  /** Writing text that carries the template's tags into an existing file makes
      it pass the tag check. */
  lemma LegacyWrittenTagsPassCheck(files: map<string, seq<byte>>, path: string, xmp: string)
    requires path in files && CarriesLegacyXmpTags(xmp)
    ensures HasLegacyPoseXmp(XmpWritten(files, path, xmp), path)
  {
    LegacyRequiredTagsAreEmitted();
    forall t | t in LegacyRequiredTags
      ensures Contains(XmpWritten(files, path, xmp)[path], Utf8(OpenTag(t)))
    {
      XmpWrittenCarriesText(files, path, xmp, OpenTag(t));
    }
  }

  /** The current script's check asks for more: whatever passes it passes this one. */
  lemma CurrentCheckImpliesLegacy(files: map<string, seq<byte>>, path: string)
    requires AnalyzeFaces.HasRequiredPoseXmp(files, path)
    ensures HasLegacyPoseXmp(files, path)
  {
    assert forall t :: t in LegacyRequiredTags ==> t in AnalyzeFaces.RequiredTags;
  }

  // ---------------------------------------------------------------------------
  // DetectionReport
  // ---------------------------------------------------------------------------

  datatype LegacyReportState = LegacyReportState(
    totalImages: nat,
    mediapipeNoFace: seq<string>,
    noFace: seq<string>,
    missingMatrix: seq<string>,
    mediapipeErrors: seq<string>)

  const EmptyLegacyReport: LegacyReportState := LegacyReportState(0, [], [], [], [])

  /** `DetectionReport` of this script. */
  class LegacyDetectionReport {
    var totalImages: nat
    var mediapipeNoFace: seq<string>
    var noFace: seq<string>
    var missingMatrix: seq<string>
    var mediapipeErrors: seq<string>

    constructor()
      ensures State() == EmptyLegacyReport
    {
      totalImages := 0;
      mediapipeNoFace := [];
      noFace := [];
      missingMatrix := [];
      mediapipeErrors := [];
    }

    function State(): LegacyReportState
      reads this
    {
      LegacyReportState(totalImages, mediapipeNoFace, noFace, missingMatrix, mediapipeErrors)
    }
  }

  /** Every image is counted, and each entry of the three MediaPipe lists comes
      with one of `no_face`. */
  predicate LegacyConsistent(s: LegacyReportState)
  {
    |s.mediapipeNoFace| + |s.missingMatrix| + |s.mediapipeErrors| <= |s.noFace| <= s.totalImages
  }

  // ---------------------------------------------------------------------------
  // process_image
  // ---------------------------------------------------------------------------

  /** The oracle inputs of one image: whether `cv2.imread` succeeded, what the
      detector returned or raised, and the WebP encoding (None when it failed). */
  datatype LegacyInput = LegacyInput(readable: bool, detection: AnalyzeFacesRun.Pass, webp: Option<seq<byte>>)

  predicate LegacyDetected(input: LegacyInput)
  {
    input.detection.Returned? && AnalyzeFacesRun.Usable(input.detection.result)
  }

  /** Whole meshes and 4x4 matrices, as MediaPipe returns them. */
  predicate LegacyWellFormed(input: LegacyInput)
  {
    input.detection.Returned? ==>
      var d := input.detection.result;
      (|d.faces| > 0 ==> |d.faces[0]| > MaxIndex) && (|d.matrices| > 0 ==> |d.matrices[0]| == 16)
  }

  /** `[SimpleLandmark(lm.x, lm.y, lm.z) for lm in ...]`. */
  function SimpleLandmarks(raw: seq<AnalyzeFacesRun.RawLandmark>): (r: seq<Landmark>)
    ensures |r| == |raw|
    ensures forall i :: 0 <= i < |raw| ==> r[i] == Point(raw[i].x, raw[i].y, raw[i].z)
  {
    seq(|raw|, i requires 0 <= i < |raw| => Point(raw[i].x, raw[i].y, raw[i].z))
  }

  function ImageLandmarks(input: LegacyInput): (r: seq<Landmark>)
    requires LegacyWellFormed(input) && LegacyDetected(input)
    ensures |r| > MaxIndex
  {
    SimpleLandmarks(input.detection.result.faces[0])
  }

  function ImageMatrix(input: LegacyInput): (r: seq<real>)
    requires LegacyWellFormed(input) && LegacyDetected(input)
    ensures |r| == 16
  {
    input.detection.result.matrices[0]
  }

  datatype LegacyOutcome =
    | Unreadable
    | DetectorUnavailable
    | DetectorFailed
    | NoLandmarks
    | NoMatrix
    | Written

  /** How `process_image` ends: the exits in the order it tests them, or the
      writes when detection yielded a face and a matrix. */
  function LegacyOutcomeOf(detectorAvailable: bool, input: LegacyInput): (o: LegacyOutcome)
    ensures o == Written <==> input.readable && detectorAvailable && LegacyDetected(input)
  {
    if !input.readable then Unreadable
    else if !detectorAvailable then DetectorUnavailable
    else if input.detection.Raised? then DetectorFailed
    else if |input.detection.result.faces| == 0 then NoLandmarks
    else if |input.detection.result.matrices| == 0 then NoMatrix
    else Written
  }

  /** The lists an image with outcome `o` is appended to. */
  function LegacyFiled(s: LegacyReportState, path: string, o: LegacyOutcome): LegacyReportState
  {
    match o
    case Unreadable => s.(noFace := s.noFace + [path])
    case DetectorUnavailable => s.(mediapipeErrors := s.mediapipeErrors + [path], noFace := s.noFace + [path])
    case DetectorFailed => s.(mediapipeErrors := s.mediapipeErrors + [path], noFace := s.noFace + [path])
    case NoLandmarks => s.(mediapipeNoFace := s.mediapipeNoFace + [path], noFace := s.noFace + [path])
    case NoMatrix => s.(missingMatrix := s.missingMatrix + [path], noFace := s.noFace + [path])
    case Written => s
  }

  function LegacyRecorded(s: LegacyReportState, path: string, o: LegacyOutcome): LegacyReportState
  {
    LegacyFiled(s.(totalImages := s.totalImages + 1), path, o)
  }

  /** The XMP of an image: `name_parts[0].capitalize()` of its stem as the name. */
  function LegacyFaceXmp(n: Numerics, m: LegacyMetrics, path: string, lms: seq<Landmark>): string
    requires |lms| > 0
  {
    LegacyGenerateXmp(n, m, AnalyzeFacesRun.FaceName(path), lms)
  }

  /** `xmp` is the text `process_image` writes for the image: the template of
      its landmarks and their metrics, with score 1.0. */
  predicate XmpFits(n: Numerics, input: LegacyInput, path: string, xmp: string)
    requires LegacyWellFormed(input) && LegacyDetected(input)
  {
    forall lms {:trigger LegacyFaceXmp(n, ComputeLegacyMetrics(n, lms, Some(ImageMatrix(input)), 1.0), path, lms)} ::
      lms == ImageLandmarks(input) ==>
      xmp == LegacyFaceXmp(n, ComputeLegacyMetrics(n, lms, Some(ImageMatrix(input)), 1.0), path, lms)
  }

  /** The writes of an image that gets past detection: the XMP into the source,
      then the WebP into the output directory. */
  function LegacyOutputs(files: map<string, seq<byte>>, path: string, outDir: string, input: LegacyInput,
                         xmp: string): map<string, seq<byte>>
  {
    var f := XmpWritten(files, path, xmp);
    if input.webp.Some? then f[AnalyzeFacesRun.WebpPath(outDir, path) := input.webp.value] else f
  }

  function LegacyFilesAfter(files: map<string, seq<byte>>, path: string, outDir: string, input: LegacyInput,
                            o: LegacyOutcome, xmp: string): map<string, seq<byte>>
  {
    if o == Written then LegacyOutputs(files, path, outDir, input, xmp) else files
  }

  /** The exits of `process_image` before the metrics. */
  method FileLegacyExit(report: LegacyDetectionReport, detectorAvailable: bool, path: string, input: LegacyInput)
    returns (exited: bool)
    modifies report
    ensures exited <==> LegacyOutcomeOf(detectorAvailable, input) != Written
    ensures report.State() == LegacyFiled(old(report.State()), path, LegacyOutcomeOf(detectorAvailable, input))
  {
    exited := true;
    if !input.readable {
      report.noFace := report.noFace + [path];
      return;
    }
    if !detectorAvailable {
      report.mediapipeErrors := report.mediapipeErrors + [path];
      report.noFace := report.noFace + [path];
      return;
    }
    if input.detection.Raised? {
      report.mediapipeErrors := report.mediapipeErrors + [path];
      report.noFace := report.noFace + [path];
      return;
    }
    var result := input.detection.result;
    if |result.faces| == 0 {
      report.mediapipeNoFace := report.mediapipeNoFace + [path];
      report.noFace := report.noFace + [path];
      return;
    }
    if |result.matrices| == 0 {
      report.missingMatrix := report.missingMatrix + [path];
      report.noFace := report.noFace + [path];
      return;
    }
    exited := false;
  }

  lemma LegacyTextFits(n: Numerics, input: LegacyInput, path: string, landmarks: seq<Landmark>,
                       metrics: LegacyMetrics, xmp: string)
    requires LegacyWellFormed(input) && LegacyDetected(input)
    requires landmarks == ImageLandmarks(input)
    requires metrics == ComputeLegacyMetrics(n, landmarks, Some(ImageMatrix(input)), 1.0)
    requires xmp == LegacyFaceXmp(n, metrics, path, landmarks)
    ensures XmpFits(n, input, path, xmp)
  {
  }

  /** The landmarks of the first face, their metrics and their XMP. */
  method LegacyText(n: Numerics, path: string, input: LegacyInput) returns (xmp: string)
    requires LegacyWellFormed(input) && LegacyDetected(input)
    ensures XmpFits(n, input, path, xmp)
  {
    var result := input.detection.result;
    var landmarks := SimpleLandmarks(result.faces[0]);
    var metrics := ComputeLegacyMetrics(n, landmarks, Some(result.matrices[0]), 1.0);
    xmp := LegacyGenerateXmp(n, metrics, AnalyzeFacesRun.FaceName(path), landmarks);
    LegacyTextFits(n, input, path, landmarks, metrics, xmp);
  }

  /** The XMP and the two writes of an image that got past detection. */
  method WriteLegacyOutputs(store: FileStore, n: Numerics, path: string, outDir: string, input: LegacyInput)
    returns (ghost xmp: string)
    requires LegacyWellFormed(input) && LegacyDetected(input)
    modifies store
    ensures XmpFits(n, input, path, xmp)
    ensures store.files == LegacyOutputs(old(store.files), path, outDir, input, xmp)
  {
    var text := LegacyText(n, path, input);
    xmp := text;
    WriteXmpToSource(store, path, text);
    if input.webp.Some? {
      store.Write(AnalyzeFacesRun.WebpPath(outDir, path), input.webp.value);
    }
  }

  /** `process_image` of this script: the image is counted once and filed under
      its exit, or its XMP and WebP are written. */
  method LegacyProcessImage(report: LegacyDetectionReport, store: FileStore, n: Numerics, detectorAvailable: bool,
                            path: string, outDir: string, input: LegacyInput)
    returns (ghost outcome: LegacyOutcome, ghost xmp: string)
    requires LegacyWellFormed(input)
    modifies report, store
    ensures outcome == LegacyOutcomeOf(detectorAvailable, input)
    ensures outcome == Written ==> LegacyDetected(input) && XmpFits(n, input, path, xmp)
    ensures report.State() == LegacyRecorded(old(report.State()), path, outcome)
    ensures store.files == LegacyFilesAfter(old(store.files), path, outDir, input, outcome, xmp)
  {
    report.totalImages := report.totalImages + 1;
    outcome := LegacyOutcomeOf(detectorAvailable, input);
    var exited := FileLegacyExit(report, detectorAvailable, path, input);
    if exited {
      xmp := "";
      return;
    }
    xmp := WriteLegacyOutputs(store, n, path, outDir, input);
  }

  // ---------------------------------------------------------------------------
  // Properties of one image's processing
  // ---------------------------------------------------------------------------

  /** Every image adds one to the total; every exit appends the path to
      `no_face`, an unavailable or failing detector also to `mediapipe_errors`;
      an image that is written appends it nowhere. */
  lemma LegacyRecordedLists(s: LegacyReportState, path: string, o: LegacyOutcome)
    ensures var r := LegacyRecorded(s, path, o);
            r.totalImages == s.totalImages + 1
            && (o != Written <==> r.noFace == s.noFace + [path])
            && (o == Written <==> r == s.(totalImages := s.totalImages + 1))
            && (o.DetectorUnavailable? || o.DetectorFailed? <==> r.mediapipeErrors == s.mediapipeErrors + [path])
            && (o.NoLandmarks? <==> r.mediapipeNoFace == s.mediapipeNoFace + [path])
            && (o.NoMatrix? <==> r.missingMatrix == s.missingMatrix + [path])
  {
    var r := LegacyRecorded(s, path, o);
    assert |s.noFace + [path]| != |s.noFace|;
    assert |s.mediapipeErrors + [path]| != |s.mediapipeErrors|;
    assert |s.mediapipeNoFace + [path]| != |s.mediapipeNoFace|;
    assert |s.missingMatrix + [path]| != |s.missingMatrix|;
  }

  lemma LegacyRecordedKeepsConsistent(s: LegacyReportState, path: string, o: LegacyOutcome)
    requires LegacyConsistent(s)
    ensures LegacyConsistent(LegacyRecorded(s, path, o))
  {
  }

  /** The XMP an image writes carries every tag of the template. */
  lemma FittingXmpCarriesTags(n: Numerics, input: LegacyInput, path: string, xmp: string)
    requires LegacyWellFormed(input) && LegacyDetected(input)
    requires XmpFits(n, input, path, xmp)
    ensures CarriesLegacyXmpTags(xmp)
  {
    var lms := ImageLandmarks(input);
    var m := ComputeLegacyMetrics(n, lms, Some(ImageMatrix(input)), 1.0);
    assert xmp == LegacyFaceXmp(n, m, path, lms);
    LegacyGenerateXmpCarriesTags(n, m, AnalyzeFacesRun.FaceName(path), lms);
  }

  /** Writing text with the template's tags, then a WebP elsewhere, leaves an
      image that passes the tag check. */
  lemma LegacyOutputsPassCheck(files: map<string, seq<byte>>, path: string, outDir: string,
                               input: LegacyInput, xmp: string)
    requires path in files && AnalyzeFacesRun.WebpPath(outDir, path) != path
    requires CarriesLegacyXmpTags(xmp)
    ensures HasLegacyPoseXmp(LegacyOutputs(files, path, outDir, input, xmp), path)
  {
    var f := XmpWritten(files, path, xmp);
    LegacyWrittenTagsPassCheck(files, path, xmp);
    XmpWrittenFrame(files, path, xmp);
    if input.webp.Some? {
      var g := f[AnalyzeFacesRun.WebpPath(outDir, path) := input.webp.value];
      assert path in g && g[path] == f[path];
    }
  }

  /** An image that is written passes the tag check afterwards, unless its WebP is
      written over it, so `--only-missing` does not pick it up again. */
  lemma LegacyWrittenPassesCheck(n: Numerics, files: map<string, seq<byte>>, path: string, outDir: string,
                                 input: LegacyInput, xmp: string)
    requires LegacyWellFormed(input) && LegacyDetected(input) && path in files
    requires AnalyzeFacesRun.WebpPath(outDir, path) != path
    requires XmpFits(n, input, path, xmp)
    ensures HasLegacyPoseXmp(LegacyFilesAfter(files, path, outDir, input, Written, xmp), path)
  {
    FittingXmpCarriesTags(n, input, path, xmp);
    LegacyOutputsPassCheck(files, path, outDir, input, xmp);
  }

  // ---------------------------------------------------------------------------
  // main: file selection and the processing loop
  // ---------------------------------------------------------------------------

  const LegacyImageExtensions: set<string> := {".jpg", ".jpeg", ".png", ".webp"}

  predicate LegacySelectable(p: string)
  {
    Lower(Suffix(p)) in LegacyImageExtensions
  }

  /** `sorted(p for p in in_path.rglob("*") if p.suffix.lower() in {...})`. */
  function LegacySelectFiles(found: seq<string>): (r: seq<string>)
    ensures StrictlySorted(r, true)
    ensures forall p :: p in r <==> p in found && LegacySelectable(p)
  {
    SortDedup(AnalyzeFacesRun.FilterPaths(found, LegacySelectable), true)
  }

  /** The work list: the selected images, or with `--only-missing` those of them
      that fail the tag check. */
  function LegacyWorkList(files: map<string, seq<byte>>, found: seq<string>, onlyMissing: bool): (r: seq<string>)
    ensures !onlyMissing ==> r == LegacySelectFiles(found)
    ensures onlyMissing ==>
              forall p :: p in r <==> p in LegacySelectFiles(found) && !HasLegacyPoseXmp(files, p)
  {
    var selected := LegacySelectFiles(found);
    if onlyMissing then AnalyzeFacesRun.FilterPaths(selected, p => !HasLegacyPoseXmp(files, p)) else selected
  }

  /** The report after recording `paths` in order with their outcomes. */
  function LegacyReport(s: LegacyReportState, paths: seq<string>, outcomes: seq<LegacyOutcome>): LegacyReportState
    requires |paths| == |outcomes|
    decreases |paths|
  {
    if |paths| == 0 then s
    else
      var k := |paths| - 1;
      LegacyRecorded(LegacyReport(s, paths[..k], outcomes[..k]), paths[k], outcomes[k])
  }

  /** How many of the outcomes are exits. */
  function Exits(outcomes: seq<LegacyOutcome>): (c: nat)
    ensures c <= |outcomes|
  {
    if |outcomes| == 0 then 0
    else Exits(outcomes[..|outcomes| - 1]) + if outcomes[|outcomes| - 1] == Written then 0 else 1
  }

  /** A run counts every image once, keeps the report consistent, and adds to
      `no_face` one entry per image that exits. */
  lemma {:induction false} LegacyReportCounts(s: LegacyReportState, paths: seq<string>, outcomes: seq<LegacyOutcome>)
    requires |paths| == |outcomes| && LegacyConsistent(s)
    ensures var r := LegacyReport(s, paths, outcomes);
            r.totalImages == s.totalImages + |paths|
            && |r.noFace| == |s.noFace| + Exits(outcomes)
            && LegacyConsistent(r)
    decreases |paths|
  {
    if |paths| > 0 {
      var k := |paths| - 1;
      LegacyReportCounts(s, paths[..k], outcomes[..k]);
      var before := LegacyReport(s, paths[..k], outcomes[..k]);
      LegacyRecordedLists(before, paths[k], outcomes[k]);
      LegacyRecordedKeepsConsistent(before, paths[k], outcomes[k]);
    }
  }

  /** The store after processing `paths` in order, each with its outcome and XMP. */
  function LegacyReplay(files: map<string, seq<byte>>, paths: seq<string>, outDir: string,
                        inputs: string -> LegacyInput, outcomes: seq<LegacyOutcome>, xmps: seq<string>)
    : map<string, seq<byte>>
    requires |paths| == |outcomes| == |xmps|
    decreases |paths|
  {
    if |paths| == 0 then files
    else
      var k := |paths| - 1;
      LegacyFilesAfter(LegacyReplay(files, paths[..k], outDir, inputs, outcomes[..k], xmps[..k]),
                       paths[k], outDir, inputs(paths[k]), outcomes[k], xmps[k])
  }

  /** Image i of `paths` ended with `outcomes[i]`, its outcome, and when written
      wrote `xmps[i]`, the XMP of its landmarks. */
  predicate LegacyRunFits(n: Numerics, detectorAvailable: bool, paths: seq<string>, inputs: string -> LegacyInput,
                          outcomes: seq<LegacyOutcome>, xmps: seq<string>)
    requires |paths| == |outcomes| == |xmps| && forall p :: LegacyWellFormed(inputs(p))
    decreases |paths|
  {
    |paths| == 0
    || var k := |paths| - 1;
       LegacyRunFits(n, detectorAvailable, paths[..k], inputs, outcomes[..k], xmps[..k])
       && outcomes[k] == LegacyOutcomeOf(detectorAvailable, inputs(paths[k]))
       && (outcomes[k] == Written ==>
             LegacyDetected(inputs(paths[k])) && XmpFits(n, inputs(paths[k]), paths[k], xmps[k]))
  }

  lemma LegacyStep(n: Numerics, detectorAvailable: bool, files: map<string, seq<byte>>, s: LegacyReportState,
                   paths: seq<string>, p: string, outDir: string, inputs: string -> LegacyInput,
                   outcomes: seq<LegacyOutcome>, xmps: seq<string>, o: LegacyOutcome, x: string)
    requires |paths| == |outcomes| == |xmps| && forall q :: LegacyWellFormed(inputs(q))
    requires LegacyRunFits(n, detectorAvailable, paths, inputs, outcomes, xmps)
    requires o == LegacyOutcomeOf(detectorAvailable, inputs(p))
    requires o == Written ==> LegacyDetected(inputs(p)) && XmpFits(n, inputs(p), p, x)
    ensures LegacyRunFits(n, detectorAvailable, paths + [p], inputs, outcomes + [o], xmps + [x])
    ensures LegacyReplay(files, paths + [p], outDir, inputs, outcomes + [o], xmps + [x])
            == LegacyFilesAfter(LegacyReplay(files, paths, outDir, inputs, outcomes, xmps), p, outDir, inputs(p), o, x)
    ensures LegacyReport(s, paths + [p], outcomes + [o]) == LegacyRecorded(LegacyReport(s, paths, outcomes), p, o)
  {
    LegacyRunFitsStep(n, detectorAvailable, paths, p, inputs, outcomes, xmps, o, x);
    LegacyReplayStep(files, paths, p, outDir, inputs, outcomes, xmps, o, x);
    LegacyReportStep(s, paths, p, outcomes, o);
  }

  lemma LegacyRunFitsStep(n: Numerics, detectorAvailable: bool, paths: seq<string>, p: string,
                          inputs: string -> LegacyInput, outcomes: seq<LegacyOutcome>, xmps: seq<string>,
                          o: LegacyOutcome, x: string)
    requires |paths| == |outcomes| == |xmps| && forall q :: LegacyWellFormed(inputs(q))
    requires LegacyRunFits(n, detectorAvailable, paths, inputs, outcomes, xmps)
    requires o == LegacyOutcomeOf(detectorAvailable, inputs(p))
    requires o == Written ==> LegacyDetected(inputs(p)) && XmpFits(n, inputs(p), p, x)
    ensures LegacyRunFits(n, detectorAvailable, paths + [p], inputs, outcomes + [o], xmps + [x])
  {
    assert (paths + [p])[..|paths|] == paths;
    assert (outcomes + [o])[..|paths|] == outcomes;
    assert (xmps + [x])[..|paths|] == xmps;
  }

  lemma LegacyReplayStep(files: map<string, seq<byte>>, paths: seq<string>, p: string, outDir: string,
                         inputs: string -> LegacyInput, outcomes: seq<LegacyOutcome>, xmps: seq<string>,
                         o: LegacyOutcome, x: string)
    requires |paths| == |outcomes| == |xmps|
    ensures LegacyReplay(files, paths + [p], outDir, inputs, outcomes + [o], xmps + [x])
            == LegacyFilesAfter(LegacyReplay(files, paths, outDir, inputs, outcomes, xmps), p, outDir, inputs(p), o, x)
  {
    assert (paths + [p])[..|paths|] == paths;
    assert (outcomes + [o])[..|paths|] == outcomes;
    assert (xmps + [x])[..|paths|] == xmps;
  }

  lemma LegacyReportStep(s: LegacyReportState, paths: seq<string>, p: string, outcomes: seq<LegacyOutcome>,
                         o: LegacyOutcome)
    requires |paths| == |outcomes|
    ensures LegacyReport(s, paths + [p], outcomes + [o]) == LegacyRecorded(LegacyReport(s, paths, outcomes), p, o)
  {
    assert (paths + [p])[..|paths|] == paths;
    assert (outcomes + [o])[..|paths|] == outcomes;
  }

  /** One turn of the processing loop: image `work[count]` is processed, and the
      outcomes, the written files and the report each grow by that image. */
  method LegacyProcessNext(report: LegacyDetectionReport, store: FileStore, n: Numerics, detectorAvailable: bool,
                           work: seq<string>, count: nat, outDir: string, inputs: string -> LegacyInput,
                           ghost files0: map<string, seq<byte>>, ghost outcomes: seq<LegacyOutcome>,
                           ghost xmps: seq<string>)
    returns (ghost outcomes': seq<LegacyOutcome>, ghost xmps': seq<string>)
    requires forall p :: LegacyWellFormed(inputs(p))
    requires count < |work| && |outcomes| == |xmps| == count
    requires LegacyRunFits(n, detectorAvailable, work[..count], inputs, outcomes, xmps)
    requires store.files == LegacyReplay(files0, work[..count], outDir, inputs, outcomes, xmps)
    requires report.State() == LegacyReport(EmptyLegacyReport, work[..count], outcomes)
    modifies report, store
    ensures |outcomes'| == |xmps'| == count + 1
    ensures LegacyRunFits(n, detectorAvailable, work[..count + 1], inputs, outcomes', xmps')
    ensures store.files == LegacyReplay(files0, work[..count + 1], outDir, inputs, outcomes', xmps')
    ensures report.State() == LegacyReport(EmptyLegacyReport, work[..count + 1], outcomes')
  {
    var p := work[count];
    var outcome, x := LegacyProcessImage(report, store, n, detectorAvailable, p, outDir, inputs(p));
    LegacyStep(n, detectorAvailable, files0, EmptyLegacyReport, work[..count], p, outDir, inputs,
               outcomes, xmps, outcome, x);
    assert work[..count + 1] == work[..count] + [p];
    outcomes', xmps' := outcomes + [outcome], xmps + [x];
  }

  /** The processing loop of `main`: at most `limit` images when it is positive. */
  method LegacyProcessAll(store: FileStore, n: Numerics, detectorAvailable: bool, work: seq<string>, outDir: string,
                          limit: int, inputs: string -> LegacyInput)
    returns (count: nat, report: LegacyDetectionReport, ghost outcomes: seq<LegacyOutcome>, ghost xmps: seq<string>)
    requires forall p :: LegacyWellFormed(inputs(p))
    modifies store
    ensures fresh(report)
    ensures count == AnalyzeFacesRun.ProcessedCount(limit, |work|) && |outcomes| == |xmps| == count
    ensures LegacyRunFits(n, detectorAvailable, work[..count], inputs, outcomes, xmps)
    ensures store.files == LegacyReplay(old(store.files), work[..count], outDir, inputs, outcomes, xmps)
    ensures report.State() == LegacyReport(EmptyLegacyReport, work[..count], outcomes)
  {
    outcomes, xmps := [], [];
    report := new LegacyDetectionReport();
    count := 0;
    while count < |work|
      invariant count <= AnalyzeFacesRun.ProcessedCount(limit, |work|) && |outcomes| == |xmps| == count
      invariant LegacyRunFits(n, detectorAvailable, work[..count], inputs, outcomes, xmps)
      invariant store.files == LegacyReplay(old(store.files), work[..count], outDir, inputs, outcomes, xmps)
      invariant report.State() == LegacyReport(EmptyLegacyReport, work[..count], outcomes)
    {
      if limit > 0 && count >= limit {
        break;
      }
      outcomes, xmps := LegacyProcessNext(report, store, n, detectorAvailable, work, count, outDir, inputs,
                                          old(store.files), outcomes, xmps);
      count := count + 1;
    }
  }

  /** `main` after the detector is set up (`detectorAvailable` is false when the
      model file is missing or the detector could not be created, and the run
      goes on): the work list in path order, then the loop. */
  method LegacyMain(store: FileStore, n: Numerics, detectorAvailable: bool, found: seq<string>, outDir: string,
                    onlyMissing: bool, limit: int, inputs: string -> LegacyInput)
    returns (count: nat, report: LegacyDetectionReport, ghost outcomes: seq<LegacyOutcome>, ghost xmps: seq<string>)
    requires forall p :: LegacyWellFormed(inputs(p))
    modifies store
    ensures var work := LegacyWorkList(old(store.files), found, onlyMissing);
            count == AnalyzeFacesRun.ProcessedCount(limit, |work|) && |outcomes| == |xmps| == count
            && LegacyRunFits(n, detectorAvailable, work[..count], inputs, outcomes, xmps)
            && store.files == LegacyReplay(old(store.files), work[..count], outDir, inputs, outcomes, xmps)
            && report.State() == LegacyReport(EmptyLegacyReport, work[..count], outcomes)
  {
    var files := LegacyWorkList(store.files, found, onlyMissing);
    count, report, outcomes, xmps := LegacyProcessAll(store, n, detectorAvailable, files, outDir, limit, inputs);
  }
}
