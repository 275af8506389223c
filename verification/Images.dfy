/** What an uploaded image really is, and that stripping its metadata does not change the answer. */
module Images {
  import opened Prelude
  import opened Bytes
  import Jpeg
  import Png
  import Webp

  datatype Kind = PngKind | JpegKind | WebpKind

  datatype Facts = Facts(kind: Kind, width: nat, height: nat)

  predicate PngSignature(buf: seq<Byte>) {
    |buf| >= 8 && Letters(buf, 0) == Tag(0x89, 0x50, 0x4e, 0x47) && Letters(buf, 4) == Tag(0x0d, 0x0a, 0x1a, 0x0a)
  }

  predicate RiffWebp(buf: seq<Byte>) {
    |buf| >= 12 && Letters(buf, 0) == Tag(82, 73, 70, 70) && Letters(buf, 8) == Tag(87, 69, 66, 80)
  }

  predicate JpegStart(buf: seq<Byte>) {
    |buf| >= 3 && buf[0] == 0xff && buf[1] == 0xd8 && buf[2] == 0xff
  }

  /** The format by its magic numbers. */
  function Detect(buf: seq<Byte>): Option<Kind> {
    if PngSignature(buf) then Some(PngKind)
    else if JpegStart(buf) then Some(JpegKind)
    else if RiffWebp(buf) then Some(WebpKind)
    else None
  }

  /** Format and size; a file that cannot be measured is refused. */
  function Sniff(buf: seq<Byte>): Option<Facts> {
    match Detect(buf)
    case None => None
    case Some(PngKind) =>
      var size := Png.SizeOf(buf);
      if size.Some? then Some(Facts(PngKind, size.value.0, size.value.1)) else None
    case Some(JpegKind) =>
      var size := Jpeg.Size(Rest(buf, 2));
      if size.Some? then Some(Facts(JpegKind, size.value.1, size.value.0)) else None
    case Some(WebpKind) =>
      var says := Webp.SizeOf(buf);
      if says.Measured? then Some(Facts(WebpKind, says.width, says.height)) else None
  }

  function StripMetadata(buf: seq<Byte>, kind: Kind): seq<Byte> {
    match kind
    case JpegKind => Jpeg.Stripped(buf)
    case PngKind => Png.Stripped(buf)
    case WebpKind => Webp.Stripped(buf)
  }

  /** A measured PNG stays what it is exactly when its header chunk holds its size. */
  lemma PngFactsSurvive(buf: seq<Byte>)
    requires Detect(buf) == Some(PngKind) && Sniff(buf).Some?
    ensures Sniff(StripMetadata(buf, PngKind)) == Sniff(buf) <==> Png.HeaderHolds(buf)
  {
    var out := Png.Stripped(buf);
    Png.SizeSurvives(buf);
    assert out[..8] == buf[..8];
    assert PngSignature(out);
  }

  /**
   * A measured JPEG stays what it is exactly when its first SOF segment keeps the size, and a segment is kept or the
   * tail begins with a marker.
   */
  lemma JpegFactsSurvive(buf: seq<Byte>)
    requires Detect(buf) == Some(JpegKind) && Sniff(buf).Some?
    ensures var s := Rest(buf, 2);
            Sniff(StripMetadata(buf, JpegKind)) == Sniff(buf)
            <==> Jpeg.SofKeepsItsSize(s) && (Jpeg.Kept(s) != [] || (Jpeg.Tail(s) != [] && Jpeg.Tail(s)[0] == 0xff))
  {
    var s := Rest(buf, 2);
    var out := Jpeg.Stripped(buf);
    Jpeg.SizeSurvives(s);
    Jpeg.MarkerInFront(s);
    assert Rest(out, 2) == Jpeg.Strip(s);
    assert out[0] == 0xff && out[1] == 0xd8;
    assert !RiffWebp(out);
  }

  lemma StaysWebp(buf: seq<Byte>)
    requires Detect(buf) == Some(WebpKind)
    ensures Detect(Webp.Stripped(buf)) == Some(WebpKind)
  {
    var out := Webp.Stripped(buf);
    if Webp.AtChunk(Rest(buf, 12), |buf|) { assert RiffWebp(out); }
  }

  /** A measured WebP stays what it is exactly when its last chunk survives or does not tell the size. */
  lemma WebpFactsSurvive(buf: seq<Byte>)
    requires Detect(buf) == Some(WebpKind) && Sniff(buf).Some?
    ensures Sniff(StripMetadata(buf, WebpKind)) == Sniff(buf) <==> Webp.SizeStays(buf)
  {
    Webp.SizeSurvives(buf);
    StaysWebp(buf);
  }

  // ----- Written files -----

  /** A PNG with a header chunk of a width and a height is found to be that. */
  lemma SniffsPng(buf: seq<Byte>, w: nat, h: nat)
    requires |buf| >= 24 && buf[..8] == [0x89, 0x50, 0x4e, 0x47, 0x0d, 0x0a, 0x1a, 0x0a] && buf[12..16] == [73, 72, 68, 82]
    requires w == 16777216 * buf[16] as int + 65536 * buf[17] as int + 256 * buf[18] as int + buf[19] as int
    requires h == 16777216 * buf[20] as int + 65536 * buf[21] as int + 256 * buf[22] as int + buf[23] as int
    ensures Sniff(buf) == Some(Facts(PngKind, w, h))
  {
    var signature, kind := buf[..8], buf[12..16];
    assert buf[0] == signature[0] && buf[1] == signature[1] && buf[2] == signature[2] && buf[3] == signature[3];
    assert buf[4] == signature[4] && buf[5] == signature[5] && buf[6] == signature[6] && buf[7] == signature[7];
    assert buf[12] == kind[0] && buf[13] == kind[1] && buf[14] == kind[2] && buf[15] == kind[3];
  }

  /** A JPEG with a SOF segment of a width and a height behind any other segments is found to be that. */
  lemma SniffsJpeg(parts: seq<seq<Byte>>, sof: seq<Byte>, w: nat, h: nat)
    requires forall g :: g in parts ==> Jpeg.Written(g)
    requires |sof| >= 10 && sof[0] == 0xff && 0xc0 <= sof[1] <= 0xcf && sof[1] !in {0xc4, 0xc8, 0xcc}
    requires h == 256 * sof[5] as int + sof[6] as int && w == 256 * sof[7] as int + sof[8] as int
    ensures Sniff([0xff, 0xd8] + (Concat(parts) + sof)) == Some(Facts(JpegKind, w, h))
  {
    var s := Concat(parts) + sof;
    Jpeg.ReadsWrittenSize(parts, sof, h, w);
    assert Rest([0xff, 0xd8] + s, 2) == s;
    assert ([0xff, 0xd8] + s)[2] == 0xff;
  }

  /** A WebP whose first telling chunk says a width and a height is found to be that. */
  lemma SniffsWebp(size: seq<Byte>, others: seq<seq<Byte>>, c: seq<Byte>, more: seq<Byte>, w: nat, h: nat)
    requires |size| == 4 && (forall x :: x in others ==> Webp.Written(x) && Webp.Other(x))
    requires Webp.Written(c) && Webp.Tells(c, w, h)
    ensures Sniff([82, 73, 70, 70] + size + [87, 69, 66, 80] + (Concat(others) + (c + more))) == Some(Facts(WebpKind, w, h))
  {
    var head := [82, 73, 70, 70] + size + [87, 69, 66, 80];
    var buf := head + (Concat(others) + (c + more));
    Webp.ReadsWrittenSize(head, others, c, more, w, h);
    assert Letters(buf, 0) == Letters(head, 0) && Letters(buf, 8) == Letters(head, 8);
  }
}
