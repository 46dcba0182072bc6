# Face-pose metadata pipeline: a Dafny model

This project models the offline scripts of a photo-reference site. Together they:

- fetch portrait images from an image search;
- run the MediaPipe face landmarker over each image;
- compute pose and proportion metrics from the landmarks;
- write those metrics into the image as an XMP packet of `acx:` and `Iptc4xmpExt:` tags, which the site's build step later extracts.

It covers both generations of each script:

- **current:** the analyze-faces script with `face_metrics.py`, and the XMP helpers in `xmp_io.py`;
- **legacy:** the front-end analyze-faces script, and the two `fetch_images.py` scripts.

The modules follow the scripts:

| module | file | scripts |
|---|---|---|
| `FaceMetrics` | face_metrics.dfy | `static/offline-scripts/face_metrics.py`: landmark and metric records, `clamp_unit`, Euler angles, `compute_face_metrics` |
| `XmpIo` | xmp_io.dfy | `frontend/offline-scripts/xmp_io.py`: the XMP document, JPEG APP1 injection, appending to other formats, `write_xmp_to_source`. The front-end analyze-faces script holds identical copies of `inject_xmp`, `append_xmp_payload` and `write_xmp_to_source`; its older XMP template, which lacks `<acx:LandmarkConfidence>`, is modelled in `LegacyAnalyzeFaces` |
| `AnalyzeFaces` | analyze_faces.dfy | helpers of `static/offline-scripts/analyze-faces.py`: confidence normalisation, landmark averaging, mirroring, the required-tag check, the missing-metadata report reader, the unusable-image report |
| `AnalyzeFacesRun` | analyze_faces_run.dfy | `process_image` and `main` of the same script, over a file store |
| `LegacyAnalyzeFaces` | legacy_analyze.dfy | `frontend/offline-scripts/analyze-faces.py` |
| `FetchImages` | fetch_images.dfy | `frontend/offline-scripts/fetch_images.py` |
| `LegacyFetchImages` | legacy_fetch.dfy | `offline-scripts/fetch_images.py` |

Shared helpers:

- `Text`: bytes, ASCII string operations, UTF-8 encoding, substring search;
- `Ordering`: Python string order, `pathlib` path order and `sorted(set(..))`;
- `Paths`: name, stem, suffix, join, parent and the `_mirror` name;
- `Files`: a `FileStore` class holding the file system as a map from path to bytes;
- `Lists`: small sequence combinators;
- `Wrappers`: `Option`.

What stands outside the model:

- **Oracles as parameters.** The things the scripts call but do not define are parameters:
  - MediaPipe detection and OpenCV decoding, encoding, flipping and resizing are oracle functions of the image bytes;
  - the web search and HTTP responses are a `search` function and a `fetch` function;
  - the floating-point primitives (`sqrt`, `arctan2`, `degrees`, `round`, `f"{x:.nf}"`) are fields of a `Numerics` value.

  Every property is proved for all oracles.
- **The file system.** Writing files is modelled on `Files.FileStore`. Its methods state the whole new store, and lemmas then prove what the scripts promise about the store:
  - a written image passes the required-tag check;
  - the image data is kept;
  - mirror files are never re-mirrored;
  - each keyword's downloads are the first eligible results up to the quota, under distinct names.

## Model

| member | source | states |
|---|---|---|
| FaceMetrics.Point | static/offline-scripts/face_metrics.py:67-73 | a `SimpleLandmark` built from coordinates carries the default visibility and presence 1.0 |
| FaceMetrics.ClampUnit | static/offline-scripts/face_metrics.py:76-80 | the result lies in [0, 1]; non-finite inputs give 1.0; finite inputs in [0, 1] are kept; values below 0 give 0 and values above 1 give 1 |
| FaceMetrics.ClampUnitIdempotent | static/offline-scripts/face_metrics.py:76-80 | clamping a clamped value changes nothing |
| FaceMetrics.ClampUnitMonotone | static/offline-scripts/face_metrics.py:76-80 | clamping preserves the order of finite values |
| FaceMetrics.EulerAngles | static/offline-scripts/face_metrics.py:83-98 | yaw is `degrees(atan2(-r20, sy))` in both cases; roll is exactly 0 when `sy < 1e-6`, and `degrees(atan2(r10, r00))` otherwise; pitch is `degrees(atan2(r21, r22))`, or `degrees(atan2(-r12, r11))` when `sy < 1e-6` |
| FaceMetrics.EulerAnglesUseRotationBlock | static/offline-scripts/face_metrics.py:110-113 | the pose depends only on the top-left 3x3 block of the 4x4 matrix |
| FaceMetrics.PoseOf | static/offline-scripts/face_metrics.py:108-113 | without matrix data the pose is (0, 0, 0); with it, the Euler angles of the matrix |
| FaceMetrics.Xs | static/offline-scripts/face_metrics.py:181 | the x coordinates of the landmarks, in order |
| FaceMetrics.Ys | frontend/offline-scripts/xmp_io.py:11 | the y coordinates of the landmarks, in order |
| FaceMetrics.MaxOf | static/offline-scripts/face_metrics.py:182 | `max(xs)` bounds every element and is one of them |
| FaceMetrics.MinOf | static/offline-scripts/face_metrics.py:182 | `min(xs)` is below every element and is one of them |
| FaceMetrics.MaxOfUnique | static/offline-scripts/face_metrics.py:182 | an attained upper bound is the maximum |
| FaceMetrics.MinOfUnique | static/offline-scripts/face_metrics.py:182 | an attained lower bound is the minimum |
| FaceMetrics.SumOfUnitValues | static/offline-scripts/face_metrics.py:140-142 | values in [0, 1] sum to between 0 and their count, so their mean lies in [0, 1] |
| FaceMetrics.SumOfOnes | static/offline-scripts/face_metrics.py:140-142 | values that all equal 1 sum to their count |
| FaceMetrics.ConfidencePoints | static/offline-scripts/face_metrics.py:127-135 | exactly seven points: the outer and inner eye corners, the nose tip and the mouth corners |
| FaceMetrics.PointConfidence | static/offline-scripts/face_metrics.py:136-139 | the mean of a point's clamped visibility and presence lies in [0, 1] |
| FaceMetrics.LandmarkConfidence | static/offline-scripts/face_metrics.py:140-142 | the unrounded landmark confidence lies in [0, 1], and is exactly 1 when the seven points carry the default visibility and presence |
| FaceMetrics.Distances | static/offline-scripts/face_metrics.py:144-178 | the blended interocular distance is 0.6 inner + 0.4 outer; the source scale is 0.55 blend + 0.30 oval + 0.15 height; with a non-negative `sqrt`, every distance is non-negative |
| FaceMetrics.MeasuresOf | static/offline-scripts/face_metrics.py:144-182 | the face width is `max(xs) - min(xs)` over all landmarks and is never negative; the other measurements depend only on the seven key points |
| FaceMetrics.ComputeGeometry | static/offline-scripts/face_metrics.py:184-221 | the centre is the outer left eye; the pose fields are the rounded pose angles, which are 0 without a matrix; width, blend and source scale are the rounded measurements |
| FaceMetrics.ComputeFaceMetrics | static/offline-scripts/face_metrics.py:101-224 | definition of the record; what it promises is proved in `FaceMetrics.LandmarkConfidence`, `FaceMetrics.ComputeGeometry`, `LegacyAnalyzeFaces.LegacyMetricsAgree` and `AnalyzeFaces.MirroredMetricsAgree` |
| XmpIo.Be16 | frontend/offline-scripts/xmp_io.py:82 | `seg_len.to_bytes(2, "big")` is two bytes that read back as the length |
| XmpIo.Injected | frontend/offline-scripts/xmp_io.py:78-92 | injection succeeds exactly when the segment length fits in two bytes and the data starts with the SOI marker. The new bytes are: SOI, APP1, the big-endian length, the namespace header, the packet, then the rest of the original |
| XmpIo.InjectedBytes | frontend/offline-scripts/xmp_io.py:87 | the injected bytes are `data[:2] + app1_head + xmp_header + xmp_packet + data[2:]` |
| XmpIo.InjectedRoundTrip | frontend/offline-scripts/xmp_io.py:81-87 | reading the APP1 segment back out of an injected JPEG gives the packet and the original file |
| XmpIo.Appended | frontend/offline-scripts/xmp_io.py:98-100 | the appended file is the original bytes, then the namespace header, then the packet |
| XmpIo.XmpWrittenFrame | frontend/offline-scripts/xmp_io.py:107-125 | writing XMP changes only the target file, and no file appears or disappears |
| XmpIo.XmpWrittenKeepsImage | frontend/offline-scripts/xmp_io.py:107-125 | the original image bytes survive the write, either as the prefix of the new bytes or recoverable from the injected segment |
| XmpIo.InjectedContainsPacket | frontend/offline-scripts/xmp_io.py:87 | the injected file contains the packet contiguously |
| XmpIo.AppendedContainsPacket | frontend/offline-scripts/xmp_io.py:100 | the appended file contains the packet contiguously |
| XmpIo.XmpWrittenCarriesText | frontend/offline-scripts/xmp_io.py:107-125 | any text the XMP contains occurs, UTF-8 encoded, in the written file, on every path through `write_xmp_to_source` |
| XmpIo.InjectXmp | frontend/offline-scripts/xmp_io.py:74-92 | returns true exactly when the file exists and injection applies; on success the store holds the injected bytes, otherwise it is unchanged |
| XmpIo.AppendXmpPayload | frontend/offline-scripts/xmp_io.py:95-104 | returns true exactly when the file exists; on success the store holds the appended bytes, otherwise it is unchanged |
| XmpIo.WriteXmpToSource | frontend/offline-scripts/xmp_io.py:107-125 | a `.jpg`/`.jpeg` file (any case) is injected when possible and appended otherwise. Other files are appended. A missing file is left alone |
| XmpIo.BoundingBox | frontend/offline-scripts/xmp_io.py:10-19 | the padded region lies inside the unit square and contains every landmark whose coordinates lie in [0, 1] |
| XmpIo.Indent | frontend/offline-scripts/xmp_io.py:21-71 | an indentation of `k` spaces has length `k` |
| XmpIo.Tags | frontend/offline-scripts/xmp_io.py:30-65 | the tags of the template's element lines, in order |
| XmpIo.TagsConcat | frontend/offline-scripts/xmp_io.py:30-65 | the tags of two groups of lines are the tags of each, concatenated |
| XmpIo.ElementContainsTag | frontend/offline-scripts/xmp_io.py:31 | an element line contains its opening tag |
| XmpIo.ElementsContainTag | frontend/offline-scripts/xmp_io.py:30-65 | a group of element lines contains the opening tag of each of its fields |
| XmpIo.ElementsContainTags | frontend/offline-scripts/xmp_io.py:30-65 | every field's opening tag occurs in the rendered lines |
| XmpIo.FramedContains | frontend/offline-scripts/xmp_io.py:21-71 | text found in either group of lines is found in the whole document |
| XmpIo.DocumentContainsTag | frontend/offline-scripts/xmp_io.py:21-71 | the document contains the opening tag of every boundary and region field |
| XmpIo.DocumentContainsTags | frontend/offline-scripts/xmp_io.py:21-71 | the document contains the opening tag of every boundary and region field (all tags at once) |
| XmpIo.FieldTags | frontend/offline-scripts/xmp_io.py:30-65 | the boundary lines, the geometry lines and the region lines carry exactly the template's tags, in the template's order |
| XmpIo.GenerateXmpCarriesTags | frontend/offline-scripts/xmp_io.py:7-71 | whatever the metrics, name and landmarks, the generated text carries the opening tag of every field `generate_xmp` emits |
| AnalyzeFaces.ToLandmarkConfidence | static/offline-scripts/analyze-faces.py:179-185 | the result lies in [0, 1]; non-numbers and non-finite numbers give 1.0; finite numbers in [0, 1] are kept |
| AnalyzeFaces.ToLandmarkConfidenceIsClamp | static/offline-scripts/analyze-faces.py:179-185 | on numbers the normalisation is `clamp_unit`, and normalising a normalised value changes nothing |
| AnalyzeFaces.Averaged | static/offline-scripts/analyze-faces.py:147-168 | the averaged face has as many landmarks as the primary detection |
| AnalyzeFaces.AverageLandmarks | static/offline-scripts/analyze-faces.py:147-168 | the loop returns `primary` when the lengths differ, and otherwise the point-wise midpoints of every coordinate, visibility and presence |
| AnalyzeFaces.AveragedSelf | static/offline-scripts/analyze-faces.py:147-168 | averaging a detection with itself changes nothing |
| AnalyzeFaces.AveragedSymmetric | static/offline-scripts/analyze-faces.py:155-167 | when the lengths agree, the order of the two detections does not matter |
| AnalyzeFaces.AveragedBetween | static/offline-scripts/analyze-faces.py:159-166 | each averaged x, y, z, visibility and presence lies between the two inputs' values |
| AnalyzeFaces.RequiredTagsAreEmitted | static/offline-scripts/analyze-faces.py:198-230 | every tag the tag check requires is one that `generate_xmp` emits |
| AnalyzeFaces.WrittenTagsPassCheck | static/offline-scripts/analyze-faces.py:188-231 | after XMP carrying every emitted tag is written into an existing file, `has_required_pose_xmp` holds for that file |
| AnalyzeFaces.WrittenXmpPassesCheck | static/offline-scripts/analyze-faces.py:449-450 | whatever the metrics, name and landmarks, writing generated XMP into an existing file makes it pass the required-tag check |
| AnalyzeFaces.Counterpart | static/offline-scripts/analyze-faces.py:297-304 | the index a point moves to under the left/right swaps stays within the face-mesh indices, and only the swapped indices move |
| AnalyzeFaces.CounterpartInvolution | static/offline-scripts/analyze-faces.py:297-302 | swapping left and right twice gives every index back |
| AnalyzeFaces.CounterpartAfter | static/offline-scripts/analyze-faces.py:303-304 | after the first `k` swaps, an index is unmoved or moved among the face-mesh indices |
| AnalyzeFaces.CounterpartAfterAllSwaps | static/offline-scripts/analyze-faces.py:303-304 | the four sequential swaps exchange exactly the four left/right pairs |
| AnalyzeFaces.Mirrored | static/offline-scripts/analyze-faces.py:285-305 | the mirrored face keeps the length; each point is the reflection (x to 1 - x) of its left/right counterpart |
| AnalyzeFaces.MirroredInvolution | static/offline-scripts/analyze-faces.py:285-305 | mirroring twice gives the original landmarks back |
| AnalyzeFaces.BuildMirroredLandmarks | static/offline-scripts/analyze-faces.py:285-305 | building the list by reflecting every point, then swapping the four pairs in place, yields the mirrored face |
| AnalyzeFaces.MirroredConfidence | static/offline-scripts/face_metrics.py:127-142 | the mirrored face has the same landmark confidence as the original |
| AnalyzeFaces.MirroredKeyPoints | static/offline-scripts/face_metrics.py:116-126 | the key points of the mirrored face are the original key points reflected, with left and right exchanged |
| AnalyzeFaces.MirroredDistances | static/offline-scripts/face_metrics.py:144-178 | every distance measured on mirrored key points equals the original, except the nose-to-eye distance, which is measured to the other eye |
| AnalyzeFaces.MirroredMeasures | static/offline-scripts/face_metrics.py:144-182 | every measurement of the mirrored face equals the original (face width included), except the nose-to-eye distance, which is taken to the right eye |
| AnalyzeFaces.MirroredMeasuresAsDistances | static/offline-scripts/face_metrics.py:144-182 | the mirrored face is measured on the mirrored key points at the original face width |
| AnalyzeFaces.MirroredFaceWidth | static/offline-scripts/face_metrics.py:181-182 | the mirrored face has the same horizontal extent |
| AnalyzeFaces.MirroredXs | static/offline-scripts/analyze-faces.py:287-296 | each mirrored x coordinate is 1 minus the x of the counterpart point |
| AnalyzeFaces.MirroredWidth | static/offline-scripts/face_metrics.py:181-182 | the mirrored x extremes are 1 minus the original's opposite extremes |
| AnalyzeFaces.BuildMirroredMetrics | static/offline-scripts/analyze-faces.py:308-319 | the metrics are recomputed from the mirrored landmarks without a matrix; pitch is the original's; yaw and roll are the negated originals rounded to 2 places |
| AnalyzeFaces.MirroredMetricsAgree | static/offline-scripts/analyze-faces.py:463-468 | the mirrored copy's metrics agree with the original face on the width, scale, every distance and the landmark confidence; its centre is the reflected right eye |
| AnalyzeFaces.MirroredCentre | static/offline-scripts/face_metrics.py:188-189 | the mirrored face's centre is its left eye, which is the reflected right eye |
| AnalyzeFaces.GeometryOfMeasures | static/offline-scripts/face_metrics.py:190-221 | each measured field of the record is the rounded measurement it is named after |
| AnalyzeFaces.FirstWhere | static/offline-scripts/analyze-faces.py:259-262 | the first candidate satisfying the test, no earlier one satisfying it, or none when no candidate does: `in_dir / file` is preferred to `in_dir.parent / file`, and the first of the sorted search matches is taken |
| AnalyzeFaces.Resolve | static/offline-scripts/analyze-faces.py:249-276 | an entry resolves only to a supported image that is not a `_mirror` image |
| AnalyzeFaces.Images | static/offline-scripts/analyze-faces.py:277-280 | the set of images among the resolutions |
| AnalyzeFaces.ImagesSnoc | static/offline-scripts/analyze-faces.py:277-280 | one more resolution adds its image, if any, to the set |
| AnalyzeFaces.Somes | static/offline-scripts/analyze-faces.py:275-280 | the images among the resolutions, in order, with repeats kept; no more of them than resolutions |
| AnalyzeFaces.ReportedPaths | static/offline-scripts/analyze-faces.py:234-282 | the returned list is strictly sorted in path order and holds exactly the images some entry resolves to |
| AnalyzeFaces.ResolvedAreSupported | static/offline-scripts/analyze-faces.py:260-276 | no resolved entry is a `_mirror` image or an unsupported file |
| AnalyzeFaces.CollectImages | static/offline-scripts/analyze-faces.py:245-280 | the `seen` loop keeps each resolved image once: the list is duplicate-free, holds exactly the resolved images, and is no longer than the entries |
| AnalyzeFaces.LoadMissingReportPaths | static/offline-scripts/analyze-faces.py:234-282 | an unreadable report gives `[]`; a document that is not an object is the raising case; otherwise the list is sorted, duplicate-free, no longer than the entries, and holds exactly the resolved images |
| AnalyzeFaces.Relativised | static/offline-scripts/analyze-faces.py:82-90 | each path is mapped through `to_report_relative_path`, in order |
| AnalyzeFaces.UnusableReport | static/offline-scripts/analyze-faces.py:76-104 | both categories are the sorted sets of their relativised paths; the candidates are their sorted union; each count is its list's length and no larger than the input; the other fields are copied |
| AnalyzeFaces.DeletionCandidatesAreUnion | static/offline-scripts/analyze-faces.py:91 | the deletion candidates are the sorted set of all relativised reported paths |
| AnalyzeFacesRun.DetectionReport.constructor | static/offline-scripts/analyze-faces.py:54-64 | a new report has a zero total, empty lists and no error counts |
| AnalyzeFacesRun.ErrorTotalRemove | static/offline-scripts/analyze-faces.py:64 | the error total is one key's count plus the total of the others |
| AnalyzeFacesRun.BumpAddsOne | static/offline-scripts/analyze-faces.py:362-364 | `d[key] = d.get(key, 0) + 1` adds exactly one to the sum of the error counts |
| AnalyzeFacesRun.ToLandmark | static/offline-scripts/analyze-faces.py:390-399 | a converted landmark's visibility and presence lie in [0, 1] |
| AnalyzeFacesRun.ToLandmarks | static/offline-scripts/analyze-faces.py:390-399 | the first face is converted point by point, in order |
| AnalyzeFacesRun.AverageMatrixSelfSymmetric | static/offline-scripts/analyze-faces.py:171-176 | averaging a matrix with itself keeps it, and the order of the two passes does not matter |
| AnalyzeFacesRun.FinalLandmarks | static/offline-scripts/analyze-faces.py:401-430 | the landmarks after the optional averaging with the upscaled pass still cover every face-mesh index |
| AnalyzeFacesRun.FinalMatrix | static/offline-scripts/analyze-faces.py:400-431 | the matrix after the optional averaging still has 16 entries |
| AnalyzeFacesRun.EarlyExit | static/offline-scripts/analyze-faces.py:354-388 | the first exit that applies (unreadable, no detector, exception, no face, no matrix); there is none exactly when the image was read, the detector exists and the pass returned a face and a matrix |
| AnalyzeFacesRun.MeasuredTextsFit | static/offline-scripts/analyze-faces.py:447-468 | the XMP built from the final landmarks and their metrics is the text `process_image` writes |
| AnalyzeFacesRun.ComposeTexts | static/offline-scripts/analyze-faces.py:447-468 | the image's XMP is generated from its metrics, its capitalised name and its landmarks; the mirrored XMP is produced whenever mirroring is wanted and the image is not a mirror |
| AnalyzeFacesRun.MirroredText | static/offline-scripts/analyze-faces.py:465-468 | the mirrored XMP is made from the mirrored landmarks, the mirrored metrics and the name `"<name> Mirror"` |
| AnalyzeFacesRun.WriteOutputs | static/offline-scripts/analyze-faces.py:449-486 | an accepted image's writes, in order: XMP into the source; the WebP when it encodes; then, when mirroring, the mirrored source with its XMP and the mirrored WebP |
| AnalyzeFacesRun.FileEarlyExit | static/offline-scripts/analyze-faces.py:354-388 | an exit is taken exactly when one applies, and the image is filed under that exit's lists; otherwise the report is unchanged |
| AnalyzeFacesRun.DetectedLandmarks | static/offline-scripts/analyze-faces.py:390-434 | the landmarks and matrix are those of the first face, averaged with the upscaled pass when averaging is on and that pass found a face and a matrix |
| AnalyzeFacesRun.Measure | static/offline-scripts/analyze-faces.py:436 | the metrics of the final landmarks and matrix, with score 1.0 |
| AnalyzeFacesRun.Gate | static/offline-scripts/analyze-faces.py:438-445 | the image is accepted exactly when its rounded confidence is at least 0.75; otherwise it is appended to `low_confidence` |
| AnalyzeFacesRun.Accept | static/offline-scripts/analyze-faces.py:447-486 | an accepted image writes the texts of its final landmarks, and the store is left as its writes make it |
| AnalyzeFacesRun.MeasureAndWrite | static/offline-scripts/analyze-faces.py:436-486 | past the detection exits, the outcome is low confidence or accepted according to the 0.75 threshold; the image is filed accordingly, and only an accepted one writes files |
| AnalyzeFacesRun.ProcessImage | static/offline-scripts/analyze-faces.py:340-486 | `process_image` counts the image once, files it under the lists of its outcome, and leaves the store as that outcome's writes make it |
| AnalyzeFacesRun.RecordedLists | static/offline-scripts/analyze-faces.py:350-445 | each image adds one to the total. Detection exits append it to `no_face`; low confidence appends it to `low_confidence` only; MediaPipe errors are exactly the unavailable and exception exits |
| AnalyzeFacesRun.RecordedErrorCounts | static/offline-scripts/analyze-faces.py:362-374 | the unavailable and exception exits add one to their key (`detector_unavailable` or the exception's class name) and change no other key; other outcomes leave the counts alone |
| AnalyzeFacesRun.RecordedKeepsConsistent | static/offline-scripts/analyze-faces.py:350-445 | recording an image keeps the report consistent: lists bounded by the total, the MediaPipe lists inside `no_face`, error counts summing to the error list |
| AnalyzeFacesRun.LowConfidenceExactly | static/offline-scripts/analyze-faces.py:438-445 | past the detection exits, an image is rejected exactly when its metric's confidence is below 0.75, and accepted exactly when it is at least 0.75 |
| AnalyzeFacesRun.MirrorsAreNotMirrored | static/offline-scripts/analyze-faces.py:463 | an image whose stem ends in `_mirror` writes the same files whether or not mirroring is on |
| AnalyzeFacesRun.MirrorSourceWritten | static/offline-scripts/analyze-faces.py:463-472 | the mirrored source is written at `stem + "_mirror" + suffix`; later selections skip it; unless the mirrored WebP overwrites it, it passes the required-tag check |
| AnalyzeFacesRun.CheckUnchanged | static/offline-scripts/analyze-faces.py:188-231 | the required-tag check reads one file only, so other writes leave its verdict alone |
| AnalyzeFacesRun.MirrorWrittenFrame | static/offline-scripts/analyze-faces.py:463-486 | the mirrored copy changes no file except its two outputs |
| AnalyzeFacesRun.OutputsPassCheck | static/offline-scripts/analyze-faces.py:449-486 | when no output path coincides with the source, an accepted image passes the required-tag check after all its writes |
| AnalyzeFacesRun.AcceptedPassesCheck | static/offline-scripts/analyze-faces.py:662-672 | an image `process_image` accepts passes `has_required_pose_xmp` afterwards, so a later `--only-missing` run does not pick it up again |
| AnalyzeFacesRun.FilterPaths | static/offline-scripts/analyze-faces.py:671 | the kept entries are exactly those of the list that pass the test, no more of them than the list has |
| AnalyzeFacesRun.SelectFiles | static/offline-scripts/analyze-faces.py:654-661 | the selection is strictly sorted in path order, and holds exactly the found supported images that are not `_mirror` copies |
| AnalyzeFacesRun.WorkList | static/offline-scripts/analyze-faces.py:654-672 | without `--only-missing`, the selection. With it: the reported paths when there are any; otherwise exactly the selected images that fail the required-tag check |
| AnalyzeFacesRun.ProcessedCount | static/offline-scripts/analyze-faces.py:676-678 | no more images than the list holds, nor than a positive limit allows; all of them when the limit is 0 or not reached |
| AnalyzeFacesRun.ReportConsistent | static/offline-scripts/analyze-faces.py:674-688 | recording any run in a consistent report counts every image once and keeps the report consistent |
| AnalyzeFacesRun.EmptyReportConsistent | static/offline-scripts/analyze-faces.py:674 | the fresh report is consistent |
| AnalyzeFacesRun.UnusableInSnoc | static/offline-scripts/analyze-faces.py:676-688 | a path ends in a detection exit in a longer run exactly when it does so in the shorter run or is the new image with such an exit |
| AnalyzeFacesRun.LowInSnoc | static/offline-scripts/analyze-faces.py:676-688 | a path is rejected for low confidence in a longer run exactly when it is in the shorter run or is the new low-confidence image |
| AnalyzeFacesRun.ReportListsRejected | static/offline-scripts/analyze-faces.py:674-692 | after a run, `no_face` holds exactly the images that took a detection exit and `low_confidence` exactly those below the threshold, so the unusable-image report lists exactly the rejected images |
| AnalyzeFacesRun.RunFitsStep | static/offline-scripts/analyze-faces.py:676-688 | appending an image with its outcome and texts extends a fitting run |
| AnalyzeFacesRun.ReplayStep | static/offline-scripts/analyze-faces.py:676-688 | replaying one more image applies that image's writes to the replay of the earlier ones |
| AnalyzeFacesRun.ReportStep | static/offline-scripts/analyze-faces.py:676-688 | the report of one more image is the earlier report with that image recorded |
| AnalyzeFacesRun.ProcessNext | static/offline-scripts/analyze-faces.py:679-688 | one turn of the loop extends the outcomes, texts, store and report by image `count` |
| AnalyzeFacesRun.ProcessAll | static/offline-scripts/analyze-faces.py:674-688 | the loop processes the first `ProcessedCount` images in order; each ends with its outcome; the store is the replay of their writes; the report records them all |
| AnalyzeFacesRun.Run | static/offline-scripts/analyze-faces.py:654-692 | a report that is not a JSON object stops the run before any image. Otherwise the work list's first images are processed with averaging exactly when `--only-missing` is off, and the unusable-image payload describes the final report |
| LegacyAnalyzeFaces.ComputeLegacyMetrics | frontend/offline-scripts/analyze-faces.py:111-214 | without a matrix the pose is zero; the centre is the rounded outer left eye; the width, blend and source scale are the rounded measurements; the score is rounded to 3 places |
| LegacyAnalyzeFaces.LegacyMetricsAgree | frontend/offline-scripts/analyze-faces.py:111-214 | this copy of `compute_face_metrics` agrees with the current one on every field they share, so it is the current record without the landmark confidence |
| LegacyAnalyzeFaces.LegacyFieldTags | frontend/offline-scripts/analyze-faces.py:216-279 | the region lines of this template carry the name, the geometry tags and the score tag, in order |
| LegacyAnalyzeFaces.LegacyGenerateXmpCarriesTags | frontend/offline-scripts/analyze-faces.py:216-279 | whatever the metrics, name and landmarks, the generated text carries the opening tag of every field the template emits |
| LegacyAnalyzeFaces.CurrentTemplateAddsConfidence | frontend/offline-scripts/analyze-faces.py:216-279 | the current template's region lines are this template's lines with the `LandmarkConfidence` line inserted just before the score |
| LegacyAnalyzeFaces.CurrentTemplateSameTags | frontend/offline-scripts/analyze-faces.py:216-279 | apart from `LandmarkConfidence`, both templates emit the same tags |
| LegacyAnalyzeFaces.LegacyRequiredTagsAreEmitted | frontend/offline-scripts/analyze-faces.py:372-388 | every tag this script's check requires is one its template emits |
| LegacyAnalyzeFaces.LegacyWrittenTagsPassCheck | frontend/offline-scripts/analyze-faces.py:362-389 | writing text that carries the template's tags into an existing file makes that file pass this script's check |
| LegacyAnalyzeFaces.CurrentCheckImpliesLegacy | frontend/offline-scripts/analyze-faces.py:372-388 | the current script's check requires a superset of the tags, so whatever passes it passes this one |
| LegacyAnalyzeFaces.LegacyDetectionReport.constructor | frontend/offline-scripts/analyze-faces.py:84-91 | a new report has a zero total and four empty lists |
| LegacyAnalyzeFaces.SimpleLandmarks | frontend/offline-scripts/analyze-faces.py:437 | each landmark keeps x, y and z and takes the default visibility and presence |
| LegacyAnalyzeFaces.ImageLandmarks | frontend/offline-scripts/analyze-faces.py:437 | the first face's landmarks cover every face-mesh index |
| LegacyAnalyzeFaces.ImageMatrix | frontend/offline-scripts/analyze-faces.py:438 | the first matrix has 16 entries |
| LegacyAnalyzeFaces.LegacyOutcomeOf | frontend/offline-scripts/analyze-faces.py:404-435 | an image is written exactly when it was read, the detector exists and detection returned a face and a matrix |
| LegacyAnalyzeFaces.FileLegacyExit | frontend/offline-scripts/analyze-faces.py:404-435 | the method exits exactly when the image is not written, and files it under that exit's lists |
| LegacyAnalyzeFaces.LegacyTextFits | frontend/offline-scripts/analyze-faces.py:437-443 | the XMP of the first face's landmarks and their metrics is the text this script writes |
| LegacyAnalyzeFaces.LegacyText | frontend/offline-scripts/analyze-faces.py:437-443 | the XMP is generated from the metrics of the first face, with the capitalised first part of the stem as the name |
| LegacyAnalyzeFaces.WriteLegacyOutputs | frontend/offline-scripts/analyze-faces.py:437-456 | the XMP goes into the source, then the WebP is written when it encodes |
| LegacyAnalyzeFaces.LegacyProcessImage | frontend/offline-scripts/analyze-faces.py:391-456 | `process_image` counts the image once, files it under the lists of its outcome, and writes only when detection succeeded |
| LegacyAnalyzeFaces.LegacyRecordedLists | frontend/offline-scripts/analyze-faces.py:399-435 | each image adds one to the total. Every exit appends it to `no_face`; an unavailable or failing detector also to `mediapipe_errors`; no face, or no matrix, also to its own list. A written image changes only the total |
| LegacyAnalyzeFaces.LegacyRecordedKeepsConsistent | frontend/offline-scripts/analyze-faces.py:399-435 | recording an image keeps the report consistent |
| LegacyAnalyzeFaces.FittingXmpCarriesTags | frontend/offline-scripts/analyze-faces.py:443 | the XMP an image writes carries every tag of the template |
| LegacyAnalyzeFaces.LegacyOutputsPassCheck | frontend/offline-scripts/analyze-faces.py:443-456 | writing text with the template's tags, then a WebP elsewhere, leaves the source passing the tag check |
| LegacyAnalyzeFaces.LegacyWrittenPassesCheck | frontend/offline-scripts/analyze-faces.py:527-528 | a written image passes the tag check afterwards, unless its WebP lands on it, so a later `--only-missing` run skips it |
| LegacyAnalyzeFaces.LegacySelectFiles | frontend/offline-scripts/analyze-faces.py:526 | the selection is strictly sorted in path order, and holds exactly the found `.jpg`, `.jpeg`, `.png` and `.webp` files, `_mirror` copies included |
| LegacyAnalyzeFaces.LegacyWorkList | frontend/offline-scripts/analyze-faces.py:526-529 | without `--only-missing`, the selection; with it, exactly the selected images that fail the tag check |
| LegacyAnalyzeFaces.Exits | frontend/offline-scripts/analyze-faces.py:399-435 | the number of exits is at most the number of images |
| LegacyAnalyzeFaces.LegacyReportCounts | frontend/offline-scripts/analyze-faces.py:531-537 | a run counts every image once, adds one `no_face` entry per exit, and keeps the report consistent |
| LegacyAnalyzeFaces.LegacyStep | frontend/offline-scripts/analyze-faces.py:533-537 | one more image extends a fitting run, its replayed store and its report |
| LegacyAnalyzeFaces.LegacyRunFitsStep | frontend/offline-scripts/analyze-faces.py:533-537 | appending an image with its outcome and XMP extends a fitting run |
| LegacyAnalyzeFaces.LegacyReplayStep | frontend/offline-scripts/analyze-faces.py:533-537 | replaying one more image applies its writes to the replay of the earlier ones |
| LegacyAnalyzeFaces.LegacyReportStep | frontend/offline-scripts/analyze-faces.py:533-537 | the report of one more image is the earlier report with that image recorded |
| LegacyAnalyzeFaces.LegacyProcessNext | frontend/offline-scripts/analyze-faces.py:536-537 | one turn of the loop extends the outcomes, XMP texts, store and report by image `count` |
| LegacyAnalyzeFaces.LegacyProcessAll | frontend/offline-scripts/analyze-faces.py:531-537 | the loop processes the first `ProcessedCount` images in order; each ends with its outcome; the store is the replay of their writes; the report records them all |
| LegacyAnalyzeFaces.LegacyMain | frontend/offline-scripts/analyze-faces.py:514-537 | with or without a detector, the work list is processed in path order, up to the limit, and the store and report are those of that run |
| FetchImages.ExtensionShape | frontend/offline-scripts/fetch_images.py:38-43 | the extension is the lower-cased last `.`-segment cut at `?` when that is at most four alphanumeric characters, and `jpg` otherwise; either way at most four alphanumeric characters, none upper case |
| FetchImages.ExtensionOfUrl | frontend/offline-scripts/fetch_images.py:38-43 | a URL ending in a short lower-case alphanumeric extension, possibly followed by a query without dots, yields that extension |
| FetchImages.Keywords | frontend/offline-scripts/fetch_images.py:59-65 | the keyword list is strictly increasing; it holds exactly the stripped, comma-stripped non-blank lines that are not the `keyword` header |
| FetchImages.KeywordsIgnoreLineOrder | frontend/offline-scripts/fetch_images.py:61-65 | the keyword list depends only on which lines the file has, not on their order or repetition |
| FetchImages.HeaderTestPrecedesCommaStrip | frontend/offline-scripts/fetch_images.py:62-64 | the header test looks at the line before commas are stripped: `Keyword` is skipped, but `keyword,` becomes the keyword `keyword` |
| FetchImages.HeaderKept | frontend/offline-scripts/fetch_images.py:64 | the header line `Keyword` is not a keyword |
| FetchImages.HeaderLowered | frontend/offline-scripts/fetch_images.py:64 | the header test is case-insensitive |
| FetchImages.HeaderWithCommaKept | frontend/offline-scripts/fetch_images.py:62-64 | `keyword,` passes the header test and yields `keyword` |
| FetchImages.SafeNameChars | frontend/offline-scripts/fetch_images.py:101 | the safe name keeps the keyword's length, has `_` in place of each space, and has no space and no capital letter |
| FetchImages.FileNamesDistinct | frontend/offline-scripts/fetch_images.py:100-102 | two file names of one keyword are equal only when their counts are equal |
| FetchImages.DestinationsDistinct | frontend/offline-scripts/fetch_images.py:100-103 | a keyword's downloads with different counts go to different paths |
| FetchImages.DownloadImage | frontend/offline-scripts/fetch_images.py:21-36 | returns true exactly when the request did not raise, the status passed `raise_for_status` and the content type mentions `image`; then the body is written at the destination, otherwise nothing changes |
| FetchImages.NonImageRefused | frontend/offline-scripts/fetch_images.py:28-30 | a reply whose content type does not mention `image` is refused, whatever its status |
| FetchImages.EligibleIndices | frontend/offline-scripts/fetch_images.py:88-108 | the eligible hits among the first `n`: in increasing order, each eligible, and every eligible hit among them included |
| FetchImages.EligibleIndicesPrefix | frontend/offline-scripts/fetch_images.py:88-108 | the eligible hits among the first `i` are a prefix of those among the first `m` |
| FetchImages.FirstRaise | frontend/offline-scripts/fetch_images.py:96-97 | the first hit whose width or height makes `int(..)` raise; no earlier hit raises |
| FetchImages.Take | frontend/offline-scripts/fetch_images.py:89-90 | a prefix of at most `k` elements |
| FetchImages.SavedHitsAreFirstEligible | frontend/offline-scripts/fetch_images.py:88-116 | a keyword saves at most `num_images` hits, in result order, each eligible and before the first raising hit; an eligible hit before that point is skipped only when `num_images` earlier hits were saved |
| FetchImages.SavedHitsWhenStopped | frontend/offline-scripts/fetch_images.py:88-116 | a loop that stops at the end, at the quota or at a raising hit has saved exactly the eligible hits it passed |
| FetchImages.WrittenStep | frontend/offline-scripts/fetch_images.py:100-108 | saving one more hit writes its body at the next numbered path |
| FetchImages.WrittenPaths | frontend/offline-scripts/fetch_images.py:100-108 | no download of a keyword overwrites another: each saved hit's body is at its own path, and nothing else is written |
| FetchImages.ScanStep | frontend/offline-scripts/fetch_images.py:88-108 | passing a hit that does not raise extends the eligible list by that hit exactly when it is eligible |
| FetchImages.Visit | frontend/offline-scripts/fetch_images.py:92-108 | one pass of the results loop below the quota: the count and the files grow exactly when the hit is eligible |
| FetchImages.SaveHit | frontend/offline-scripts/fetch_images.py:100-108 | for a hit of sufficient size, the body is stored at the path numbered by the count, exactly when the download succeeds |
| FetchImages.FetchKeyword | frontend/offline-scripts/fetch_images.py:71-116 | one keyword's turn: the final count is the number of saved hits, and the store gains exactly their files. A search that raises writes nothing; so does one with no results. A raising hit keeps the earlier downloads |
| FetchImages.FetchKeywordList | frontend/offline-scripts/fetch_images.py:70-116 | the keywords get their turns in order; each count is that keyword's number of saved hits |
| FetchImages.FetchAll | frontend/offline-scripts/fetch_images.py:45-116 | a missing keywords file raises before anything is written. Otherwise the sorted keywords get their turns in order, and each count is that keyword's number of saved hits |
| LegacyFetchImages.LegacyExtensionShape | offline-scripts/fetch_images.py:14-16 | the extension is the last `.`-segment cut at `?`, case kept, when that is at most four alphanumeric characters, and `jpg` otherwise |
| LegacyFetchImages.LegacyExtensionOfUrl | offline-scripts/fetch_images.py:14-16 | a URL ending in a short alphanumeric extension, possibly followed by a query without dots, yields that extension unchanged |
| LegacyFetchImages.ExtensionsAgreeUpToCase | offline-scripts/fetch_images.py:14-16 | the front-end fetcher's extension is this one lower-cased |
| LegacyFetchImages.LegacyKeywordsMembers | offline-scripts/fetch_images.py:29-32 | the keyword list holds exactly the stripped, comma-stripped forms of the non-blank lines |
| LegacyFetchImages.LegacyKeywordsAppend | offline-scripts/fetch_images.py:32 | the list keeps file order and repetitions: two pieces of a file give their keywords one after the other |
| LegacyFetchImages.HeaderHasNoCommaEnds | offline-scripts/fetch_images.py:36 | a word whose lower-case form is `keyword` has no comma at either end |
| LegacyFetchImages.SearchedKeywordsAgree | offline-scripts/fetch_images.py:32-37 | the keywords this script searches are exactly the front-end fetcher's keywords that are searchable |
| LegacyFetchImages.LegacySkipsCommaHeader | offline-scripts/fetch_images.py:36-37 | the two scripts part on a `keyword,` line: the front end searches `keyword`, this script lists it and then skips it |
| LegacyFetchImages.HeaderWordSkipped | offline-scripts/fetch_images.py:36-37 | the word `keyword` itself is never searched |
| LegacyFetchImages.LegacyDownloadImage | offline-scripts/fetch_images.py:9-24 | succeeds exactly when there is a URL, the request does not raise and the status is 200. Then the body goes to `folder/filename.ext`; otherwise nothing changes |
| LegacyFetchImages.LegacyRefusesNon200 | offline-scripts/fetch_images.py:12 | any status but 200 is refused, whatever the content type |
| LegacyFetchImages.LegacyEligibleIndices | offline-scripts/fetch_images.py:52-65 | the eligible hits among the first `n`: in increasing order, each eligible, and every eligible hit among them included |
| LegacyFetchImages.LegacyEligibleIndicesPrefix | offline-scripts/fetch_images.py:52-65 | the eligible hits among the first `i` are a prefix of those among the first `m` |
| LegacyFetchImages.LegacySavedAreFirstEligible | offline-scripts/fetch_images.py:52-65 | a keyword saves at most `num_images` hits in result order, each of both minimum sizes with a successful download; an eligible hit is skipped only when `num_images` earlier hits were saved |
| LegacyFetchImages.LegacySavedWhenStopped | offline-scripts/fetch_images.py:52-54 | a loop that stops at the end or at the quota has saved exactly the eligible hits it passed |
| LegacyFetchImages.LegacyScanStep | offline-scripts/fetch_images.py:56-65 | passing one hit extends the eligible list by it exactly when it is eligible |
| LegacyFetchImages.LegacyWrittenStep | offline-scripts/fetch_images.py:60-64 | saving one more hit writes its body at the next numbered path |
| LegacyFetchImages.LegacyWrittenPaths | offline-scripts/fetch_images.py:18-20 | no download of a keyword overwrites another: each saved hit's body is at its own path, and nothing else is written |
| LegacyFetchImages.LegacySaveHit | offline-scripts/fetch_images.py:61-64 | for a hit of sufficient size, the body is stored at the path numbered by the count, exactly when the download succeeds |
| LegacyFetchImages.LegacyVisit | offline-scripts/fetch_images.py:56-65 | one pass of the results loop below the quota: the count and the files grow exactly when the hit is eligible |
| LegacyFetchImages.LegacyFetchKeyword | offline-scripts/fetch_images.py:40-65 | a searched keyword's loop: the final count is the number of saved hits, and the store gains exactly their files |
| LegacyFetchImages.LegacyKeywordTurn | offline-scripts/fetch_images.py:35-65 | an empty or header keyword is skipped with count 0 and no writes; any other is searched and fetched |
| LegacyFetchImages.LegacyFetchKeywordList | offline-scripts/fetch_images.py:34-65 | every listed keyword, repeats included, gets its turn in order, with its count |
| LegacyFetchImages.LegacyFetchAll | offline-scripts/fetch_images.py:26-65 | a keywords file that cannot be opened raises before anything is written; otherwise each keyword of the list gets its turn in order, with its count |
| Files.FileStore.constructor | static/offline-scripts/analyze-faces.py:194 | the store starts with the given files |
| Files.FileStore.Read | frontend/offline-scripts/xmp_io.py:77 | `read_bytes` gives a file's bytes, and nothing for a missing path |
| Files.FileStore.Write | frontend/offline-scripts/xmp_io.py:88 | `write_bytes` creates or replaces one file and leaves the others |
| Files.WriteAllPaths | offline-scripts/fetch_images.py:18-20 | with pairwise different names, each write's body ends up at its own name, and nothing else is written |
| Files.WriteAllSnoc | offline-scripts/fetch_images.py:19-20 | a further write lands on top of the earlier ones |
| Files.MergeUpdate | static/offline-scripts/analyze-faces.py:457 | writing over a merged store is writing into its newer part |
| Lists.FilterMapMembers | offline-scripts/fetch_images.py:32 | a filtered comprehension holds exactly the images of the elements it keeps |
| Lists.FilterMapAppend | offline-scripts/fetch_images.py:32 | a comprehension over two pieces is the two comprehensions one after the other |
| Lists.MapSeqAt | static/offline-scripts/analyze-faces.py:83 | a plain comprehension has one image per element, in order |
| Ordering.RankInjective | static/offline-scripts/analyze-faces.py:654-661 | distinct characters keep distinct ranks in both orders |
| Ordering.LessIrreflexive | static/offline-scripts/analyze-faces.py:654-661 | no string or path is below itself |
| Ordering.LessTransitive | static/offline-scripts/analyze-faces.py:654-661 | both orders are transitive |
| Ordering.LessTotal | static/offline-scripts/analyze-faces.py:654-661 | any two different strings or paths are comparable |
| Ordering.LessAsymmetric | static/offline-scripts/analyze-faces.py:654-661 | two strings are never below each other |
| Ordering.StrictlySortedDistinct | static/offline-scripts/analyze-faces.py:91 | a strictly increasing list has no repeated element |
| Ordering.Insert | static/offline-scripts/analyze-faces.py:91 | inserting into a strictly sorted list keeps it strictly sorted, adds exactly the new element and grows by at most one |
| Ordering.SortDedup | static/offline-scripts/analyze-faces.py:91 | `sorted(set(xs))` is strictly increasing, holds exactly the elements of `xs` and is no longer than `xs` |
| Ordering.StrictlySortedUnique | static/offline-scripts/analyze-faces.py:82-91 | two strictly sorted lists with the same elements are equal |
| Ordering.SortDedupSameElements | static/offline-scripts/analyze-faces.py:82-91 | `sorted(set(xs))` depends only on the elements of `xs` |
| Ordering.SortDedupOfSorted | static/offline-scripts/analyze-faces.py:91 | sorting a strictly sorted list changes nothing |
| Ordering.SortDedupLengthOfDistinct | static/offline-scripts/analyze-faces.py:282 | a list without repeats keeps its length when sorted and deduplicated |
| Ordering.InsertNewGrows | static/offline-scripts/analyze-faces.py:91 | inserting an element that is not there yet adds exactly one |
| Paths.Name | static/offline-scripts/analyze-faces.py:265 | `p.name` has no '/' and ends the path |
| Paths.SuffixStart | static/offline-scripts/analyze-faces.py:260 | the suffix starts at the last '.' of the name when that is neither its first nor its last character; otherwise there is none |
| Paths.Suffix | static/offline-scripts/analyze-faces.py:260 | `p.suffix` is empty, or a '.' followed by at least one character, none of them a '.' |
| Paths.StemSuffixSplitName | static/offline-scripts/analyze-faces.py:329 | `stem + suffix` is the name |
| Paths.Parent | static/offline-scripts/analyze-faces.py:257 | the parent is no longer than the path |
| Paths.Join | static/offline-scripts/analyze-faces.py:257 | an absolute name replaces the directory, and the joined path ends with the name |
| Paths.JoinName | static/offline-scripts/analyze-faces.py:453 | a name without '/' is the joined path's name |
| Paths.JoinInjective | offline-scripts/fetch_images.py:18 | joining onto one directory keeps apart names that are both relative or both absolute |
| Paths.LastIndexOfAt | static/offline-scripts/analyze-faces.py:260 | the last occurrence of a character is the one after which it no longer appears |
| Paths.SuffixAfterInsert | static/offline-scripts/analyze-faces.py:329 | inserting text without '.' between a stem and its suffix keeps the suffix |
| Paths.NameHasNoSlash | static/offline-scripts/analyze-faces.py:329 | the stem and the suffix have no '/' |
| Paths.MirrorNameHasNoSlash | static/offline-scripts/analyze-faces.py:328-330 | the mirror name has no '/' |
| Paths.MirrorNameSplit | static/offline-scripts/analyze-faces.py:329 | the name `stem + "_mirror" + suffix` has stem `stem + "_mirror"` and the same suffix |
| Paths.MirrorPathIsMirror | static/offline-scripts/analyze-faces.py:328-330 | the mirrored source keeps the directory and the suffix, and its stem ends in `_mirror` |
| Paths.MirrorPathDiffers | static/offline-scripts/analyze-faces.py:328-330 | the mirrored source never overwrites its original |
| Text.ContainsInMiddle | frontend/offline-scripts/xmp_io.py:86-87 | what occurs in a middle part occurs in the whole |
| Text.ContainsSelf | frontend/offline-scripts/xmp_io.py:86-87 | a part occurs in any sequence it is the middle of |
| Text.ContainsTransitive | frontend/offline-scripts/xmp_io.py:86-87 | what occurs in a part occurs in the whole |
| Text.LowerChar | static/offline-scripts/analyze-faces.py:260 | an upper-case ASCII letter becomes its lower-case form, any other character stays |
| Text.UpperChar | static/offline-scripts/analyze-faces.py:448 | a lower-case ASCII letter becomes its upper-case form, any other character stays |
| Text.Lower | static/offline-scripts/analyze-faces.py:260 | `str.lower` keeps the length and lowers each character |
| Text.LowerKeepsAlnum | frontend/offline-scripts/fetch_images.py:40-41 | lower-casing does not change `isalnum` |
| Text.LowerIdempotent | frontend/offline-scripts/fetch_images.py:101 | lower-casing twice is lower-casing once |
| Text.Capitalize | static/offline-scripts/analyze-faces.py:448 | `str.capitalize` keeps the length, upper-cases the first character and lowers the rest |
| Text.ReplaceChar | offline-scripts/fetch_images.py:61 | `replace(' ', '_')` keeps the length and changes exactly the replaced characters |
| Text.DropLeading | offline-scripts/fetch_images.py:32 | drops exactly the leading characters that are stripped |
| Text.DropTrailing | offline-scripts/fetch_images.py:32 | drops exactly the trailing characters that are stripped |
| Text.StripBy | offline-scripts/fetch_images.py:32 | `strip` is a middle part whose cut-away ends are all stripped characters and whose own ends are kept; it is empty only when every character is stripped |
| Text.StripByKeeps | offline-scripts/fetch_images.py:32 | nothing is stripped from a string whose ends are kept |
| Text.StripByDropsEnd | offline-scripts/fetch_images.py:32 | a final stripped character goes |
| Text.StripIdempotent | offline-scripts/fetch_images.py:32 | stripping twice is stripping once |
| Text.LastIndexOf | offline-scripts/fetch_images.py:14 | `rfind` gives the last index of the character, or -1 when it is absent |
| Text.FirstIndexOf | offline-scripts/fetch_images.py:14 | `find` gives the first index of the character, or -1 when it is absent |
| Text.AfterLast | offline-scripts/fetch_images.py:14 | `split(c)[-1]` ends the string, has no `c`, and is preceded by `c` when it is shorter |
| Text.BeforeFirst | offline-scripts/fetch_images.py:14 | `split(c)[0]` starts the string, has no `c`, and is followed by `c` when it is shorter |
| Text.AfterLastOf | offline-scripts/fetch_images.py:14 | what follows the last `c` of `a + c + t` is `t` when `t` has no `c` |
| Text.BeforeFirstOf | offline-scripts/fetch_images.py:14 | what precedes the first `c` of `e + q` is `e` when `e` has no `c` and `q` starts with `c` or is empty |
| Text.DigitChar | offline-scripts/fetch_images.py:61 | a digit below ten becomes its decimal character |
| Text.NatToString | offline-scripts/fetch_images.py:61 | the decimal form of a count is non-empty, all digits, with no leading zero |
| Text.NatToStringRoundTrip | offline-scripts/fetch_images.py:61 | reading the decimal digits back gives the count |
| Text.NatToStringInjective | offline-scripts/fetch_images.py:61 | different counts give different decimal forms |
| Text.EncodeChar | frontend/offline-scripts/xmp_io.py:79 | UTF-8 encodes a character in 1 to 4 bytes, one byte equal to the code point exactly for ASCII, continuation bytes in 0x80-0xBF |
| Text.EncodeCharRoundTrip | frontend/offline-scripts/xmp_io.py:79 | decoding one encoded character gives its code point back |
| Text.Utf8 | frontend/offline-scripts/xmp_io.py:79 | the encoding is at least as long as the text |
| Text.Utf8Concat | frontend/offline-scripts/xmp_io.py:100 | encoding is compatible with joining texts |
| Text.Utf8PreservesContains | frontend/offline-scripts/xmp_io.py:79 | a substring of the text is a substring of its encoding |
| Text.Utf8Ascii | frontend/offline-scripts/xmp_io.py:79 | ASCII text is encoded one byte per character, each byte its code point |

## Left out

- MediaPipe (`setup_detector`, `detect_with_mediapipe`, `detector.detect`): a foreign ML runtime. A detection is an input of the model, whether it returns or raises.
- OpenCV (`imread`, `cvtColor`, `resize`, `flip`, `imencode`, `imwrite`): library image processing. Decoding, encoding and writing an image are oracle results.
- `requests.get`, `DDGS().images` and `time.sleep`: network I/O and rate limiting. Search results are a `search` function and responses a `fetch` function; the delays are left out.
- Floating point. Landmarks, confidences and metrics are `real`. `sqrt`, `arctan2`, `degrees`, `round` and `:.Nf` formatting are fields of a `Numerics` value, so no concrete angle or rounded value is proved. NaN and infinity appear only where the scripts test for them (`clamp_unit`, `to_landmark_confidence`).
- `average_matrix_bytes`: the float32 `struct` packing and unpacking (IEEE-754 encoding) is left out. `AnalyzeFacesRun.AverageMatrix` averages the sixteen entries as reals.
- Model path and frontend path resolution (`resolve_frontend_path`, `resolve_model_path`, `Path.resolve`, the environment variable, `cwd`): these depend on the process environment. The resolved directories are inputs.
- `to_report_relative_path`: depends on `Path.resolve`. It is the `relative` parameter of `AnalyzeFaces.UnusableReport` and `AnalyzeFacesRun.Run`.
- The `exists`, `is_file` and `rglob` lookups of `load_missing_report_paths`: file-system queries. They are fields of a `Disk` value.
- JSON parsing and serialisation of the reports: a library. The missing-metadata report arrives parsed, as a `Json` value, or as nothing when it cannot be read or parsed. The unusable-image report is the payload record, not its text.
- `argparse`, `mkdir`, `exit(1)` messages, `print`, `print_detection_report` and verbose output: command-line handling and console output. The options are inputs, and only the decisions they lead to are modelled.
- Failures of `write_bytes` and `open(.., 'wb')` themselves: file writes always succeed in the model, except the writes the scripts themselves refuse.
- `splitlines`, `readlines` and text decoding: a keywords file arrives as its lines. A file that cannot be opened is `None`.
- Unicode case rules: `str.lower`, `str.capitalize`, `str.isalnum` and `str.isspace` are modelled on ASCII only. Other characters are left unchanged and are neither letters nor digits.
- Legacy `DDGS().images` raising: it is outside any `try` in `offline-scripts/fetch_images.py` and ends the script. The legacy `search` function always returns results.
- Legacy widths and heights are integers in the model. In `offline-scripts/fetch_images.py` a `None` or string value raises `TypeError` when it is compared with the minimum and ends the script; because `and` short-circuits, a non-number height after a too-small width raises nothing. Float values, which compare normally, are not modelled.
- Model strings are sequences of Unicode scalar values. File names holding surrogate escapes cannot be represented; for them `str.encode("utf-8")` in `inject_xmp` and `append_xmp_payload` raises, the exception is caught and the write is skipped, which the model does not capture.
- The "Only found" message of both fetchers: console output only.
- `AnalyzeFaces.LoadMissingReportPaths`: when the report is not a JSON object, `payload.get` raises outside the `try`, which ends the script. The model returns no result for it, and `AnalyzeFacesRun.Run` stops before any image.
- AnalyzeFacesRun.WellFormed and LegacyAnalyzeFaces.LegacyWellFormed: the process methods and both `main`s require that a returned detection's first face has more than 454 landmarks and its first matrix 16 values, as MediaPipe's face mesh and 4x4 transform always do. With a shorter mesh, `compute_face_metrics` indexing raises, and with a matrix of another size `struct.unpack("<16f")` raises; both happen outside any `try` and end the script, which the model does not capture. The predicates also exclude an empty matrix buffer, which `if matrix_data:` would read as no matrix (pose 0, at static/offline-scripts/face_metrics.py:109-113); MediaPipe never returns one.
- AnalyzeFaces.Resolve: `Path(file_value)` normalisation is not modelled. pathlib drops `./` components, collapses `//` and drops a trailing `/`, so the script merges `a.jpg` with `./a.jpg` in `seen` and takes `a.jpg` as the name of `d/a.jpg/`; the model compares the strings as given, and `Paths.Name` of a path ending in `/` is empty.
- `frontend/test_webp_xmp.py`: an ad hoc experiment with Pillow, a library that is not part of this model.
