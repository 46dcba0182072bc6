/**
  Writing the face metadata into image files: the XMP text `generate_xmp`
  produces, and the byte surgery that stores it in the source image.

  A JPEG gets an APP1 marker segment right after its SOI marker (ITU-T T.81,
  Annex B.1.1.4: marker `FF E1`, then a two-byte big-endian length that counts
  itself and the payload), whose payload is the XMP namespace header
  "http://ns.adobe.com/xap/1.0/" with a terminating zero byte (XMP
  Specification Part 3, section 1.1.3) followed by the packet. Any other file, or
  a JPEG the segment cannot be added to, gets the header and packet appended.
*/
module XmpIo {
  import opened Text
  import opened Wrappers
  import opened Paths
  import opened Files
  import opened FaceMetrics

  // ---------------------------------------------------------------------------
  // Marker segment
  // ---------------------------------------------------------------------------

  const Soi: seq<byte> := [0xFF, 0xD8]
  const App1: seq<byte> := [0xFF, 0xE1]

  /** b"http://ns.adobe.com/xap/1.0/\0" */
  const XmpHeader: seq<byte> :=
    [0x68, 0x74, 0x74, 0x70, 0x3A, 0x2F, 0x2F, 0x6E, 0x73, 0x2E, 0x61, 0x64, 0x6F, 0x62, 0x65,
     0x2E, 0x63, 0x6F, 0x6D, 0x2F, 0x78, 0x61, 0x70, 0x2F, 0x31, 0x2E, 0x30, 0x2F, 0x00]

  const MaxSegmentLength: int := 65535

  /** `v.to_bytes(2, "big")`. */
  function Be16(v: int): (r: seq<byte>)
    requires 0 <= v <= MaxSegmentLength
    ensures |r| == 2 && Be16Value(r[0], r[1]) == v
  {
    [(v / 256) as byte, (v % 256) as byte]
  }

  function Be16Value(hi: byte, lo: byte): int
  {
    hi as int * 256 + lo as int
  }

  /** The APP1 length field: itself, the namespace header and the packet. */
  function SegmentLength(packet: seq<byte>): int
  {
    2 + |XmpHeader| + |packet|
  }

  /** `data[:2] == b"\xff\xd8"`, false for data shorter than two bytes. */
  predicate StartsWithSoi(data: seq<byte>)
  {
    |data| >= 2 && data[..2] == Soi
  }

  /** The bytes `inject_xmp` writes, or None when it returns False: the length
      does not fit in two bytes (`to_bytes` raises) or the data is not a JPEG.
      The segment sits right after the SOI marker and everything else is kept. */
  function Injected(data: seq<byte>, packet: seq<byte>): (r: Option<seq<byte>>)
    ensures r.Some? <==> SegmentLength(packet) <= MaxSegmentLength && StartsWithSoi(data)
    ensures r.Some? ==>
              var out, k := r.value, 6 + |XmpHeader|;
              |out| == |data| + 4 + |XmpHeader| + |packet|
              && out[..2] == Soi && out[2..4] == App1
              && Be16Value(out[4], out[5]) == SegmentLength(packet)
              && out[6..k] == XmpHeader && out[k..k + |packet|] == packet
              && out[k + |packet|..] == data[2..]
  {
    var segLen := SegmentLength(packet);
    if segLen > MaxSegmentLength || !StartsWithSoi(data) then None
    else
      var out := data[..2] + App1 + Be16(segLen) + XmpHeader + packet + data[2..];
      var k := 6 + |XmpHeader|;
      assert out[..2] == data[..2] && out[2..4] == App1 && out[4..6] == Be16(segLen);
      assert out[6..k] == XmpHeader && out[k..k + |packet|] == packet && out[k + |packet|..] == data[2..];
      assert out[4] == Be16(segLen)[0] && out[5] == Be16(segLen)[1];
      Some(out)
  }

  lemma InjectedBytes(data: seq<byte>, packet: seq<byte>)
    requires SegmentLength(packet) <= MaxSegmentLength && StartsWithSoi(data)
    ensures Injected(data, packet)
            == Some(data[..2] + App1 + Be16(SegmentLength(packet)) + XmpHeader + packet + data[2..])
  {
  }

  /** Reads an injected APP1 XMP segment back out of a JPEG: the packet, and the
      file as it was without the segment. */
  function ExtractSegment(out: seq<byte>): Option<(seq<byte>, seq<byte>)>
  {
    var k := 6 + |XmpHeader|;
    if |out| < k || out[..2] != Soi || out[2..4] != App1 || out[6..k] != XmpHeader then None
    else
      var len := Be16Value(out[4], out[5]);
      if len < 2 + |XmpHeader| || 4 + len > |out| then None
      else Some((out[k..4 + len], Soi + out[4 + len..]))
  }

  /** Injection loses nothing: the packet and the original file can be read back. */
  lemma InjectedRoundTrip(data: seq<byte>, packet: seq<byte>)
    requires Injected(data, packet).Some?
    ensures ExtractSegment(Injected(data, packet).value) == Some((packet, data))
  {
    var out := Injected(data, packet).value;
    var k := 6 + |XmpHeader|;
    assert 4 + Be16Value(out[4], out[5]) == k + |packet|;
    assert data == data[..2] + data[2..];
  }

  /** What `append_xmp_payload` writes: the original bytes, the header, the packet. */
  function Appended(data: seq<byte>, packet: seq<byte>): (r: seq<byte>)
    ensures |r| == |data| + |XmpHeader| + |packet|
    ensures r[..|data|] == data && r[|data|..|data| + |XmpHeader|] == XmpHeader
    ensures r[|data| + |XmpHeader|..] == packet
  {
    data + XmpHeader + packet
  }

  // ---------------------------------------------------------------------------
  // Writing into the source file
  // ---------------------------------------------------------------------------

  predicate IsJpegSuffix(path: string)
  {
    Lower(Suffix(path)) in [".jpg", ".jpeg"]
  }

  /** The file system after `write_xmp_to_source(path, xmp)`: a missing file stays
      missing; a JPEG takes the segment when it can; otherwise the packet is
      appended. */
  function XmpWritten(files: map<string, seq<byte>>, path: string, xmp: string): map<string, seq<byte>>
  {
    if path !in files then files
    else
      var packet := Utf8(xmp);
      var injected := Injected(files[path], packet);
      if IsJpegSuffix(path) && injected.Some? then files[path := injected.value]
      else files[path := Appended(files[path], packet)]
  }

  /** Only the target file changes, and no file appears or disappears. */
  lemma XmpWrittenFrame(files: map<string, seq<byte>>, path: string, xmp: string)
    ensures XmpWritten(files, path, xmp).Keys == files.Keys
    ensures forall q :: q in files && q != path ==> XmpWritten(files, path, xmp)[q] == files[q]
  {
  }

  /** The original image survives the write: either as the prefix of the new
      bytes, or recoverable from the injected JPEG segment. */
  lemma XmpWrittenKeepsImage(files: map<string, seq<byte>>, path: string, xmp: string)
    requires path in files
    ensures var out := XmpWritten(files, path, xmp)[path];
            (|files[path]| <= |out| && out[..|files[path]|] == files[path])
            || ExtractSegment(out) == Some((Utf8(xmp), files[path]))
  {
    var injected := Injected(files[path], Utf8(xmp));
    if IsJpegSuffix(path) && injected.Some? {
      InjectedRoundTrip(files[path], Utf8(xmp));
    }
  }

  /** The packet occurs, contiguous, in the bytes either writer produces. */
  lemma InjectedContainsPacket(data: seq<byte>, packet: seq<byte>)
    requires Injected(data, packet).Some?
    ensures Contains(Injected(data, packet).value, packet)
  {
    var out := Injected(data, packet).value;
    var k := 6 + |XmpHeader|;
    assert out == out[..k] + packet + out[k + |packet|..];
    ContainsSelf(out[..k], packet, out[k + |packet|..]);
  }

  lemma AppendedContainsPacket(data: seq<byte>, packet: seq<byte>)
    ensures Contains(Appended(data, packet), packet)
  {
    assert Appended(data, packet) == data + XmpHeader + packet + [];
    ContainsSelf(data + XmpHeader, packet, []);
  }

  /** Whatever the XMP text contains, the written file contains encoded. */
  lemma XmpWrittenCarriesText(files: map<string, seq<byte>>, path: string, xmp: string, t: string)
    requires path in files && Contains(xmp, t)
    ensures Contains(XmpWritten(files, path, xmp)[path], Utf8(t))
  {
    var data, packet := files[path], Utf8(xmp);
    Utf8PreservesContains(xmp, t);
    var out := XmpWritten(files, path, xmp)[path];
    if IsJpegSuffix(path) && Injected(data, packet).Some? {
      InjectedContainsPacket(data, packet);
    } else {
      AppendedContainsPacket(data, packet);
    }
    ContainsTransitive(out, packet, Utf8(t));
  }

  /** `inject_xmp`. */
  method InjectXmp(store: FileStore, path: string, xmp: string) returns (ok: bool)
    modifies store
    ensures ok <==> path in old(store.files) && Injected(old(store.files)[path], Utf8(xmp)).Some?
    ensures ok ==> store.files == old(store.files)[path := Injected(old(store.files)[path], Utf8(xmp)).value]
    ensures !ok ==> store.files == old(store.files)
  {
    var data := store.Read(path);
    if data.None? {
      return false;
    }
    var packet := Utf8(xmp);
    var segLen := 2 + |XmpHeader| + |packet|;
    if segLen > MaxSegmentLength {
      return false;
    }
    if |data.value| < 2 || data.value[..2] != Soi {
      return false;
    }
    InjectedBytes(data.value, packet);
    store.Write(path, data.value[..2] + App1 + Be16(segLen) + XmpHeader + packet + data.value[2..]);
    ok := true;
  }

  /** `append_xmp_payload`. */
  method AppendXmpPayload(store: FileStore, path: string, xmp: string) returns (ok: bool)
    modifies store
    ensures ok <==> path in old(store.files)
    ensures ok ==> store.files == old(store.files)[path := Appended(old(store.files)[path], Utf8(xmp))]
    ensures !ok ==> store.files == old(store.files)
  {
    var data := store.Read(path);
    if data.None? {
      return false;
    }
    store.Write(path, data.value + XmpHeader + Utf8(xmp));
    ok := true;
  }

  /** `write_xmp_to_source`: inject first for a JPEG suffix (any case), append
      otherwise or when injection fails; at most one of the two writes happens. */
  method WriteXmpToSource(store: FileStore, path: string, xmp: string)
    modifies store
    ensures store.files == XmpWritten(old(store.files), path, xmp)
  {
    if Lower(Suffix(path)) in [".jpg", ".jpeg"] {
      var injected := InjectXmp(store, path, xmp);
      if injected {
        return;
      }
      var appended := AppendXmpPayload(store, path, xmp);
      return;
    }
    var appended := AppendXmpPayload(store, path, xmp);
  }

  // ---------------------------------------------------------------------------
  // The XMP text
  // ---------------------------------------------------------------------------

  /** The display region of `generate_xmp`: the landmarks' box padded by a quarter
      of its size on each side, clipped at 0 and kept inside the unit square. */
  datatype Box = Box(x: real, y: real, w: real, h: real)

  function BoundingBox(lms: seq<Landmark>): (b: Box)
    requires |lms| > 0
    ensures b.x >= 0.0 && b.y >= 0.0 && b.x + b.w <= 1.0 && b.y + b.h <= 1.0
    ensures forall i :: 0 <= i < |lms| && 0.0 <= lms[i].x <= 1.0 ==> b.x <= lms[i].x <= b.x + b.w
    ensures forall i :: 0 <= i < |lms| && 0.0 <= lms[i].y <= 1.0 ==> b.y <= lms[i].y <= b.y + b.h
  {
    var xs, ys := Xs(lms), Ys(lms);
    var rawX, rawY := MinOf(xs), MinOf(ys);
    var rawW, rawH := MaxOf(xs) - rawX, MaxOf(ys) - rawY;
    assert xs[0] <= MaxOf(xs) && rawX <= xs[0] && ys[0] <= MaxOf(ys) && rawY <= ys[0];
    var padW, padH := rawW * 0.25, rawH * 0.25;
    var bx := Max(0.0, rawX - padW);
    var bY := Max(0.0, rawY - padH);
    var bw := Min(1.0 - bx, rawW + 2.0 * padW);
    var bh := Min(1.0 - bY, rawH + 2.0 * padH);
    Box(bx, bY, bw, bh)
  }

  /** The elements of the template, each named by its qualified tag. */
  datatype Tag =
    | RbShape | RbX | RbY | RbW | RbH | RbUnit | IptcName
    | AcxPitch | AcxYaw | AcxRoll | AcxCenterX | AcxCenterY | AcxFaceWidth | AcxFaceScale
    | AcxInterocularDist | AcxInterocularInner | AcxInterocularBlend | AcxEyeMouthDist | AcxOvalWidth
    | AcxNose | AcxEyeL | AcxEyeR | AcxEyeInnerL | AcxEyeInnerR | AcxMouthL | AcxMouthR | AcxChin | AcxOvalL | AcxOvalR | AcxForehead
    | AcxFaceHeight | AcxSrcScalePx | AcxNoseEyeDist | AcxLandmarkConfidence | AcxDetScore

  function TagName(t: Tag): string
  {
    match t
    case RbShape => "Iptc4xmpExt:rbShape"
    case RbX => "Iptc4xmpExt:rbX"
    case RbY => "Iptc4xmpExt:rbY"
    case RbW => "Iptc4xmpExt:rbW"
    case RbH => "Iptc4xmpExt:rbH"
    case RbUnit => "Iptc4xmpExt:rbUnit"
    case IptcName => "Iptc4xmpExt:Name"
    case AcxPitch => "acx:Pitch"
    case AcxYaw => "acx:Yaw"
    case AcxRoll => "acx:Roll"
    case AcxCenterX => "acx:CenterX"
    case AcxCenterY => "acx:CenterY"
    case AcxFaceWidth => "acx:FaceWidth"
    case AcxFaceScale => "acx:FaceScale"
    case AcxInterocularDist => "acx:InterocularDist"
    case AcxInterocularInner => "acx:InterocularInner"
    case AcxInterocularBlend => "acx:InterocularBlend"
    case AcxEyeMouthDist => "acx:EyeMouthDist"
    case AcxOvalWidth => "acx:OvalWidth"
    case AcxNose => "acx:Nose"
    case AcxEyeL => "acx:EyeL"
    case AcxEyeR => "acx:EyeR"
    case AcxEyeInnerL => "acx:EyeInnerL"
    case AcxEyeInnerR => "acx:EyeInnerR"
    case AcxMouthL => "acx:MouthL"
    case AcxMouthR => "acx:MouthR"
    case AcxChin => "acx:Chin"
    case AcxOvalL => "acx:OvalL"
    case AcxOvalR => "acx:OvalR"
    case AcxForehead => "acx:Forehead"
    case AcxFaceHeight => "acx:FaceHeight"
    case AcxSrcScalePx => "acx:SrcScalePx"
    case AcxNoseEyeDist => "acx:NoseEyeDist"
    case AcxLandmarkConfidence => "acx:LandmarkConfidence"
    case AcxDetScore => "acx:DetScore"
  }

  /** `<tag>`, what the checks search for. */
  function OpenTag(t: Tag): string
  {
    "<" + TagName(t) + ">"
  }

  datatype Field = Field(tag: Tag, value: string)

  function Indent(k: nat): (r: string)
    ensures |r| == k
  {
    seq(k, _ => ' ')
  }

  /** One line of the template: `<tag>value</tag>` at the given indentation. */
  function Element(indent: nat, f: Field): string
  {
    Indent(indent) + OpenTag(f.tag) + f.value + "</" + TagName(f.tag) + ">\n"
  }

  function Elements(indent: nat, fs: seq<Field>): string
  {
    if |fs| == 0 then "" else Element(indent, fs[0]) + Elements(indent, fs[1..])
  }

  function Tags(fs: seq<Field>): (r: seq<Tag>)
    ensures |r| == |fs| && forall i :: 0 <= i < |fs| ==> r[i] == fs[i].tag
  {
    seq(|fs|, i requires 0 <= i < |fs| => fs[i].tag)
  }

  lemma TagsConcat(a: seq<Field>, b: seq<Field>)
    ensures Tags(a + b) == Tags(a) + Tags(b)
  {
  }

  /** A line starts with its indentation and then its opening tag. */
  lemma ElementContainsTag(indent: nat, f: Field, rest: string)
    ensures Contains(Element(indent, f) + rest, OpenTag(f.tag))
  {
    var pre, post := Indent(indent), f.value + "</" + TagName(f.tag) + ">\n";
    assert Element(indent, f) + rest == pre + OpenTag(f.tag) + (post + rest);
    ContainsSelf(pre, OpenTag(f.tag), post + rest);
  }

  lemma {:induction false} ElementsContainTag(indent: nat, fs: seq<Field>, t: Tag)
    requires t in Tags(fs)
    ensures Contains(Elements(indent, fs), OpenTag(t))
  {
    var rest := Elements(indent, fs[1..]);
    if t == fs[0].tag {
      ElementContainsTag(indent, fs[0], rest);
    } else {
      var i :| 0 <= i < |fs| && Tags(fs)[i] == t;
      assert Tags(fs[1..])[i - 1] == t;
      ElementsContainTag(indent, fs[1..], t);
      ContainsInMiddle(Element(indent, fs[0]), rest, [], OpenTag(t));
      assert Element(indent, fs[0]) + rest + [] == Elements(indent, fs);
    }
  }

  /** Every field's opening tag occurs in the rendered lines. */
  lemma ElementsContainTags(indent: nat, fs: seq<Field>)
    ensures forall t :: t in Tags(fs) ==> Contains(Elements(indent, fs), OpenTag(t))
  {
    forall t | t in Tags(fs) ensures Contains(Elements(indent, fs), OpenTag(t)) {
      ElementsContainTag(indent, fs, t);
    }
  }

  /** The fixed lines of the template: before the region boundary's fields,
      between them and the region's own fields, and after those. */
  datatype Frame = Opening | BoundaryEnd | Closing

  function FrameText(f: Frame): string
  {
    match f
    case Opening =>
      "<x:xmpmeta xmlns:x=\"adobe:ns:meta/\">\n"
      + "  <rdf:RDF xmlns:rdf=\"http://www.w3.org/1999/02/22-rdf-syntax-ns#\">\n"
      + "    <rdf:Description\n"
      + "      xmlns:Iptc4xmpExt=\"http://iptc.org/std/Iptc4xmpExt/2008-02-29/\"\n"
      + "      xmlns:acx=\"http://alt-context.dev/ns/1.0/\">\n"
      + "      <Iptc4xmpExt:ImageRegion>\n"
      + "        <rdf:Bag>\n"
      + "          <rdf:li>\n"
      + "            <Iptc4xmpExt:RegionBoundary>\n"
    case BoundaryEnd => "            </Iptc4xmpExt:RegionBoundary>\n"
    case Closing =>
      "          </rdf:li>\n"
      + "        </rdf:Bag>\n"
      + "      </Iptc4xmpExt:ImageRegion>\n"
      + "    </rdf:Description>\n"
      + "  </rdf:RDF>\n"
      + "</x:xmpmeta>"
  }

  /** The template: the region boundary lines (indented 14) and the region's own
      lines (indented 12) between the fixed lines. */
  function Document(boundary: seq<Field>, body: seq<Field>): string
  {
    FrameText(Opening) + Elements(14, boundary) + FrameText(BoundaryEnd) + Elements(12, body) + FrameText(Closing)
  }

  /** Text found in one of two stretches is found in the whole they are part of. */
  lemma FramedContains(open: string, b: string, mid: string, d: string, close: string, o: string)
    requires Contains(b, o) || Contains(d, o)
    ensures Contains(open + b + mid + d + close, o)
  {
    if Contains(b, o) {
      ContainsInMiddle(open, b, mid + d + close, o);
      assert open + b + (mid + d + close) == open + b + mid + d + close;
    } else {
      ContainsInMiddle(open + b + mid, d, close, o);
    }
  }

  lemma DocumentContainsTag(boundary: seq<Field>, body: seq<Field>, t: Tag)
    requires t in Tags(boundary) + Tags(body)
    ensures Contains(Document(boundary, body), OpenTag(t))
  {
    if t in Tags(boundary) {
      ElementsContainTag(14, boundary, t);
    } else {
      ElementsContainTag(12, body, t);
    }
    FramedContains(FrameText(Opening), Elements(14, boundary), FrameText(BoundaryEnd), Elements(12, body),
                   FrameText(Closing), OpenTag(t));
  }

  lemma DocumentContainsTags(boundary: seq<Field>, body: seq<Field>)
    ensures forall t :: t in Tags(boundary) + Tags(body) ==> Contains(Document(boundary, body), OpenTag(t))
  {
    forall t | t in Tags(boundary) + Tags(body) ensures Contains(Document(boundary, body), OpenTag(t)) {
      DocumentContainsTag(boundary, body, t);
    }
  }

  function BoundaryFields(n: Numerics, b: Box): seq<Field>
  {
    [Field(RbShape, "rectangle"),
     Field(RbX, n.format(b.x, 3)), Field(RbY, n.format(b.y, 3)),
     Field(RbW, n.format(b.w, 3)), Field(RbH, n.format(b.h, 3)),
     Field(RbUnit, "relative")]
  }

  /** `{a:.4f},{b:.4f}` */
  function Pair(n: Numerics, a: real, b: real): string
  {
    n.format(a, 4) + "," + n.format(b, 4)
  }

  /** The pose and geometry lines, from AcxPitch to AcxNoseEyeDist. */
  function GeometryFields(n: Numerics, g: Geometry): seq<Field>
  {
    [Field(AcxPitch, n.format(g.pitch, 2)), Field(AcxYaw, n.format(g.yaw, 2)), Field(AcxRoll, n.format(g.roll, 2)),
     Field(AcxCenterX, n.format(g.centerX, 4)), Field(AcxCenterY, n.format(g.centerY, 4)),
     Field(AcxFaceWidth, n.format(g.faceWidth, 4)), Field(AcxFaceScale, n.format(g.faceScale, 6)),
     Field(AcxInterocularDist, n.format(g.interocularDist, 6)),
     Field(AcxInterocularInner, n.format(g.iodistInner, 6)),
     Field(AcxInterocularBlend, n.format(g.iodistBlend, 6)),
     Field(AcxEyeMouthDist, n.format(g.eyeMouthDist, 6)), Field(AcxOvalWidth, n.format(g.ovalWidth, 6)),
     Field(AcxNose, Pair(n, g.noseX, g.noseY)), Field(AcxEyeL, Pair(n, g.eyeLX, g.eyeLY)),
     Field(AcxEyeR, Pair(n, g.eyeRX, g.eyeRY)), Field(AcxEyeInnerL, Pair(n, g.eyeLiX, g.eyeLiY)),
     Field(AcxEyeInnerR, Pair(n, g.eyeRiX, g.eyeRiY)), Field(AcxMouthL, Pair(n, g.mouthLX, g.mouthLY)),
     Field(AcxMouthR, Pair(n, g.mouthRX, g.mouthRY)), Field(AcxChin, Pair(n, g.chinX, g.chinY)),
     Field(AcxOvalL, Pair(n, g.ovalLX, g.ovalLY)), Field(AcxOvalR, Pair(n, g.ovalRX, g.ovalRY)),
     Field(AcxForehead, Pair(n, g.foreheadX, g.foreheadY)),
     Field(AcxFaceHeight, n.format(g.faceHeight, 6)), Field(AcxSrcScalePx, n.format(g.srcScalePx, 6)),
     Field(AcxNoseEyeDist, n.format(g.noseEyeDist, 6))]
  }

  const GeometryTags: seq<Tag> :=
    [AcxPitch, AcxYaw, AcxRoll, AcxCenterX, AcxCenterY, AcxFaceWidth, AcxFaceScale,
     AcxInterocularDist, AcxInterocularInner, AcxInterocularBlend, AcxEyeMouthDist, AcxOvalWidth,
     AcxNose, AcxEyeL, AcxEyeR, AcxEyeInnerL, AcxEyeInnerR, AcxMouthL, AcxMouthR, AcxChin,
     AcxOvalL, AcxOvalR, AcxForehead, AcxFaceHeight, AcxSrcScalePx, AcxNoseEyeDist]

  const BoundaryTags: seq<Tag> := [RbShape, RbX, RbY, RbW, RbH, RbUnit]

  const BodyTags: seq<Tag> := [IptcName] + GeometryTags + [AcxLandmarkConfidence, AcxDetScore]

  /** Every tag `generate_xmp` of xmp_io.py emits. */
  const XmpTags: seq<Tag> := BoundaryTags + BodyTags

  /** The region's own lines: the name, the geometry, the confidence and the score. */
  function BodyFields(n: Numerics, m: FaceMetrics, name: string): seq<Field>
  {
    [Field(IptcName, name)] + GeometryFields(n, m.geometry)
    + [Field(AcxLandmarkConfidence, n.format(m.landmarkConfidence, 3)), Field(AcxDetScore, n.format(m.score, 3))]
  }

  /** The tags of the two groups of lines, in the order they are written. */
  lemma FieldTags(n: Numerics, b: Box, m: FaceMetrics, name: string)
    ensures Tags(BoundaryFields(n, b)) == BoundaryTags
    ensures Tags(GeometryFields(n, m.geometry)) == GeometryTags
    ensures Tags(BodyFields(n, m, name)) == BodyTags
  {
    var head := [Field(IptcName, name)];
    var geometry := GeometryFields(n, m.geometry);
    var tail := [Field(AcxLandmarkConfidence, n.format(m.landmarkConfidence, 3)), Field(AcxDetScore, n.format(m.score, 3))];
    TagsConcat(head, geometry);
    TagsConcat(head + geometry, tail);
    assert Tags(head) == [IptcName];
    assert Tags(tail) == [AcxLandmarkConfidence, AcxDetScore];
  }

  /** The text carries the opening tag of every field `generate_xmp` emits. */
  predicate CarriesXmpTags(text: string)
  {
    forall t :: t in XmpTags ==> Contains(text, OpenTag(t))
  }

  /** `generate_xmp` of xmp_io.py. */
  function GenerateXmp(n: Numerics, m: FaceMetrics, name: string, lms: seq<Landmark>): string
    requires |lms| > 0
  {
    Document(BoundaryFields(n, BoundingBox(lms)), BodyFields(n, m, name))
  }

  /** Whatever the metrics and the name, the generated text carries every tag. */
  lemma GenerateXmpCarriesTags(n: Numerics, m: FaceMetrics, name: string, lms: seq<Landmark>)
    requires |lms| > 0
    ensures CarriesXmpTags(GenerateXmp(n, m, name, lms))
  {
    FieldTags(n, BoundingBox(lms), m, name);
    DocumentContainsTags(BoundaryFields(n, BoundingBox(lms)), BodyFields(n, m, name));
  }
}
