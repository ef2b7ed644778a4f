/** Whole QUIC payloads: header, rows of colour and alpha, and the end-to-end round trip. */
module QuicImage {
  import opened Basics
  import opened Bits
  import opened QuicModel
  import opened QuicPixel
  import opened QuicSegment
  import opened QuicRow

  const QUIC_MAGIC := 0x4349_5551
  const QUIC_VERSION := 0
  const HEADER_BYTES := 20

  datatype ImageType = Gray | Rgb16 | Rgb24 | Rgb32 | Rgba

  datatype Limits = Limits(maximumWidth: nat, maximumHeight: nat, maximumOutputBytes: nat)

  datatype Image = Image(width: nat, height: nat, imageType: ImageType, rows: seq<seq<Pixel>>)

  function TypeOf(tag: nat): Option<ImageType> {
    match tag
    case 1 => Some(Gray)
    case 2 => Some(Rgb16)
    case 3 => Some(Rgb24)
    case 4 => Some(Rgb32)
    case 5 => Some(Rgba)
    case _ => None
  }

  function TagOf(t: ImageType): (tag: nat)
    ensures TypeOf(tag) == Some(t)
  {
    match t
    case Gray => 1
    case Rgb16 => 2
    case Rgb24 => 3
    case Rgb32 => 4
    case Rgba => 5
  }

  function ComponentBits(t: ImageType): nat {
    if t == Rgb16 then 5 else 8
  }

  function ColorFormat(t: ImageType, random: RandomTable): (f: Format)
    ensures FormatOk(f) && f.components == [0, 1, 2]
  {
    Format([0, 1, 2], ComponentBits(t), random)
  }

  function AlphaFormat(random: RandomTable): (f: Format)
    ensures FormatOk(f) && f.components == [3]
  {
    Format([3], 8, random)
  }

  // ---------------------------------------------------------------------------
  // Rows of pixels
  // ---------------------------------------------------------------------------

  /** The adaptive state of both passes; the alpha pass is used for Rgba only. */
  datatype Planes = Planes(color: Codec, alpha: Codec)

  ghost predicate PlanesOk(t: ImageType, random: RandomTable, planes: Planes, width: nat) {
    && CodecOk(ColorFormat(t, random), planes.color, width)
    && CodecOk(AlphaFormat(random), planes.alpha, width)
  }

  function FreshPlanes(t: ImageType, width: nat): Planes {
    var color := FreshChannel(width, ComponentBits(t));
    Planes(Codec([color, color, color], FreshCoding()), Codec([FreshChannel(width, 8)], FreshCoding()))
  }

  lemma FreshPlanesOk(t: ImageType, random: RandomTable, width: nat)
    ensures PlanesOk(t, random, FreshPlanes(t, width), width)
  {
    hide FreshBucket;
  }

  function NextRowCodec(codec: Codec): Codec
    requires forall i :: 0 <= i < |codec.channels| ==> |codec.channels[i].residuals| > 0
  {
    codec.(channels := seq(|codec.channels|, i requires 0 <= i < |codec.channels| =>
      StartNextRow(codec.channels[i])))
  }

  ghost predicate RowsOk(rows: seq<seq<Pixel>>, width: nat) {
    forall y :: 0 <= y < |rows| ==> |rows[y]| == width
  }

  function Previous(rows: seq<seq<Pixel>>): Option<seq<Pixel>> {
    if rows == [] then None else Some(rows[|rows| - 1])
  }

  function StartRow(planes: Planes, first: bool): Planes
    requires !first ==> forall i :: 0 <= i < |planes.color.channels| ==> |planes.color.channels[i].residuals| > 0
    requires !first ==> forall i :: 0 <= i < |planes.alpha.channels| ==> |planes.alpha.channels[i].residuals| > 0
  {
    if first then planes else Planes(NextRowCodec(planes.color), NextRowCodec(planes.alpha))
  }

  lemma StartRowOk(t: ImageType, random: RandomTable, planes: Planes, width: nat, first: bool)
    requires PlanesOk(t, random, planes, width) && width > 0
    ensures PlanesOk(t, random, StartRow(planes, first), width)
  {
  }

  function Blank(width: nat): (row: seq<Pixel>)
    ensures |row| == width
  {
    seq(width, _ => [0, 0, 0, 255])
  }

  /** One row of both planes, with the adaptive state after it. */
  function DecodeOne(bits: BitString, t: ImageType, random: RandomTable, width: nat,
                     planes: Planes, rows: seq<seq<Pixel>>)
      : (r: Parsed<(Planes, seq<Pixel>)>)
    requires PlanesOk(t, random, planes, width) && width > 0 && RowsOk(rows, width)
    ensures r.Success? ==> PlanesOk(t, random, r.value.0, width) && |r.value.1| == width
  {
    StartRowOk(t, random, planes, width, rows == []);
    var started := StartRow(planes, rows == []);
    var color := DecodeRow(bits, ColorFormat(t, random), Previous(rows), Blank(width), started.color, 0);
    if color.Failure? then Failure(color.kind)
    else if t != Rgba then Success((started.(color := color.value.codec), color.value.row), color.rest)
    else
      var alpha := DecodeRow(color.rest, AlphaFormat(random), Previous(rows), color.value.row, started.alpha, 0);
      if alpha.Failure? then Failure(alpha.kind)
      else Success((Planes(color.value.codec, alpha.value.codec), alpha.value.row), alpha.rest)
  }

  function DecodeRows(bits: BitString, t: ImageType, random: RandomTable, width: nat, height: nat,
                      planes: Planes, rows: seq<seq<Pixel>>)
      : (r: Parsed<seq<seq<Pixel>>>)
    requires PlanesOk(t, random, planes, width) && width > 0 && RowsOk(rows, width) && |rows| <= height
    ensures r.Success? ==> RowsOk(r.value, width) && |r.value| == height
    decreases height - |rows|
  {
    if |rows| == height then Success(rows, bits)
    else
      var one := DecodeOne(bits, t, random, width, planes, rows);
      if one.Failure? then Failure(one.kind)
      else DecodeRows(one.rest, t, random, width, height, one.value.0, rows + [one.value.1])
  }

  /** An image whose components fit the declared type; without an alpha plane it is opaque. */
  ghost predicate ImageOk(image: Image) {
    && image.imageType != Gray
    && image.width > 0 && image.height > 0
    && |image.rows| == image.height
    && RowsOk(image.rows, image.width)
    && forall y :: 0 <= y < |image.rows| ==> RowOk(image.imageType, image.rows[y])
  }

  ghost predicate RowOk(t: ImageType, row: seq<Pixel>) {
    forall x :: 0 <= x < |row| ==> PixelOk(t, row[x])
  }

  ghost predicate PixelOk(t: ImageType, p: Pixel) {
    && p[0] < Pow2(ComponentBits(t)) && p[1] < Pow2(ComponentBits(t)) && p[2] < Pow2(ComponentBits(t))
    && (if t == Rgba then p[3] < Pow2(8) else p[3] == 255)
  }

  lemma RowWritable(t: ImageType, random: RandomTable, rows: seq<seq<Pixel>>, row: seq<Pixel>)
    requires RowOk(t, row) && (rows != [] ==> |rows[|rows| - 1]| == |row| && RowOk(t, rows[|rows| - 1]))
    ensures Writable(ColorFormat(t, random), Previous(rows), row)
    ensures t == Rgba ==> Writable(AlphaFormat(random), Previous(rows), row)
  {
    hide Pow2;
    var color := ColorFormat(t, random);
    assert forall i :: 0 <= i < 3 ==> color.components[i] == i;
    assert forall x :: 0 <= x < |row| ==> PixelOk(t, row[x]);
  }

  /** The writer's bits for the rows after the first `y`. */
  ghost function EncodeRows(image: Image, random: RandomTable, planes: Planes, y: nat): BitString
    requires ImageOk(image) && y <= image.height
    requires PlanesOk(image.imageType, random, planes, image.width)
    decreases image.height - y
  {
    if y == image.height then []
    else
      var t := image.imageType;
      var row := image.rows[y];
      RowWritable(t, random, image.rows[..y], row);
      StartRowOk(t, random, planes, image.width, y == 0);
      var started := StartRow(planes, y == 0);
      var color := EncodeRow(ColorFormat(t, random), Previous(image.rows[..y]), row, started.color, 0);
      if t != Rgba then
        color.0 + EncodeRows(image, random, started.(color := color.1), y + 1)
      else
        var alpha := EncodeRow(AlphaFormat(random), Previous(image.rows[..y]), row, started.alpha, 0);
        color.0 + (alpha.0 + EncodeRows(image, random, Planes(color.1, alpha.1), y + 1))
  }

  /** Painting the colour of an opaque row onto a blank one gives the row. */
  lemma ColorCompletes(t: ImageType, random: RandomTable, row: seq<Pixel>)
    requires RowOk(t, row) && t != Rgba
    ensures Overlay(ColorFormat(t, random), Blank(|row|), row, 0, |row|) == row
  {
    var f := ColorFormat(t, random);
    forall x | 0 <= x < |row|
      ensures Paint(f, Blank(|row|)[x], row[x]) == row[x]
    {
      PaintColor(f, Blank(|row|)[x], row[x]);
      assert PixelOk(t, row[x]);
    }
  }

  lemma PaintColor(f: Format, p: Pixel, q: Pixel)
    requires f.components == [0, 1, 2] && p[3] == q[3]
    ensures Paint(f, p, q) == q
  {
  }

  /** Painting colour and then alpha gives the row. */
  lemma AlphaCompletes(t: ImageType, random: RandomTable, blank: seq<Pixel>, row: seq<Pixel>)
    requires |blank| == |row|
    ensures var color := Overlay(ColorFormat(t, random), blank, row, 0, |row|);
      Overlay(AlphaFormat(random), color, row, 0, |row|) == row
  {
    var color := Overlay(ColorFormat(t, random), blank, row, 0, |row|);
    forall x | 0 <= x < |row|
      ensures Paint(AlphaFormat(random), color[x], row[x]) == row[x]
    {
      PaintBoth(ColorFormat(t, random), AlphaFormat(random), blank[x], row[x]);
    }
  }

  lemma PaintBoth(f: Format, g: Format, p: Pixel, q: Pixel)
    requires f.components == [0, 1, 2] && g.components == [3]
    ensures Paint(g, Paint(f, p, q), q) == q
  {
  }

  lemma {:induction false} RowsRoundTrip(rest: BitString, image: Image, random: RandomTable, planes: Planes, y: nat)
    requires ImageOk(image) && y <= image.height
    requires PlanesOk(image.imageType, random, planes, image.width)
    ensures DecodeRows(EncodeRows(image, random, planes, y) + rest, image.imageType, random,
                       image.width, image.height, planes, image.rows[..y])
         == Success(image.rows, rest)
    decreases image.height - y
  {
    hide DecodeRow, EncodeRow, Overlay, Blank, StartRow, RowOk, ColorFormat, AlphaFormat, Agree, Writable;
    var w, t, rows := image.width, image.imageType, image.rows[..y];
    var bits := EncodeRows(image, random, planes, y) + rest;
    if y == image.height {
      assert [] + rest == rest;
      assert rows == image.rows;
    } else {
      var row := image.rows[y];
      RowWritable(t, random, rows, row);
      StartRowOk(t, random, planes, w, y == 0);
      var started := StartRow(planes, y == 0);
      var f := ColorFormat(t, random);
      var color := EncodeRow(f, Previous(rows), row, started.color, 0);
      AgreeNone(f, Blank(w), row);
      assert rows + [row] == image.rows[..y + 1];
      if t != Rgba {
        var planes' := started.(color := color.1);
        var tail := EncodeRows(image, random, planes', y + 1) + rest;
        assert bits == color.0 + tail;
        RowRoundTrip(tail, f, Previous(rows), Blank(w), row, started.color, 0);
        ColorCompletes(t, random, row);
        RowsRoundTrip(rest, image, random, planes', y + 1);
      } else {
        var g := AlphaFormat(random);
        var alpha := EncodeRow(g, Previous(rows), row, started.alpha, 0);
        var planes' := Planes(color.1, alpha.1);
        var tail := EncodeRows(image, random, planes', y + 1) + rest;
        var painted := Overlay(f, Blank(w), row, 0, w);
        assert bits == color.0 + (alpha.0 + tail);
        RowRoundTrip(alpha.0 + tail, f, Previous(rows), Blank(w), row, started.color, 0);
        AgreeNone(g, painted, row);
        RowRoundTrip(tail, g, Previous(rows), painted, row, started.alpha, 0);
        AlphaCompletes(t, random, Blank(w), row);
        RowsRoundTrip(rest, image, random, planes', y + 1);
      }
    }
  }

  lemma AgreeNone(f: Format, current: seq<Pixel>, row: seq<Pixel>)
    requires FormatOk(f) && |current| == |row|
    ensures Agree(f, current, row, 0)
  {
  }

  // ---------------------------------------------------------------------------
  // The payload
  // ---------------------------------------------------------------------------

  /** A 32-bit header field, read as two halves. */
  function ReadWord(bits: BitString): Parsed<nat> {
    var high := Take(bits, 16);
    if high.Failure? then high
    else
      var low := Take(high.rest, 16);
      if low.Failure? then low
      else Success(Shl(high.value, 16) + low.value, low.rest)
  }

  lemma WordRoundTrip(w: nat, rest: BitString)
    requires w < 0x1_0000_0000
    ensures ReadWord(ToBits(w, 32) + rest) == Success(w, rest)
  {
    hide ToBits, Shl, Shr, Low, Take, Value, Pow2;
    var high, low := Shr(w, 16), Low(w, 16);
    HalfWord(w);
    ToBitsPrefix(w, 32, 16);
    ToBitsSuffix(w, 32, 16);
    ToBitsValue(ToBits(w, 32)[16..]);
    assert ToBits(w, 32) == ToBits(high, 16) + ToBits(low, 16);
    assert ToBits(w, 32) + rest == ToBits(high, 16) + (ToBits(low, 16) + rest);
    TakeRoundTrip(high, 16, ToBits(low, 16) + rest);
    TakeRoundTrip(low, 16, rest);
    ShlShrLow(w, 16);
  }

  lemma HalfWord(w: nat)
    requires w < 0x1_0000_0000
    ensures Shr(w, 16) < Pow2(16)
  {
    Pow2Word();
    ShrBound(w, 16, 16);
  }

  lemma {:induction false} ShrBound(v: nat, a: nat, b: nat)
    requires v < Pow2(a + b)
    ensures Shr(v, b) < Pow2(a)
  {
    if b > 0 {
      ShrBound(v / 2, a, b - 1);
    }
  }

  datatype Header = Header(magic: nat, version: nat, tag: nat, width: nat, height: nat)

  function ReadHeader(bits: BitString): Parsed<Header> {
    var magic := ReadWord(bits);
    if magic.Failure? then Failure(magic.kind) else
    var version := ReadWord(magic.rest);
    if version.Failure? then Failure(version.kind) else
    var tag := ReadWord(version.rest);
    if tag.Failure? then Failure(tag.kind) else
    var width := ReadWord(tag.rest);
    if width.Failure? then Failure(width.kind) else
    var height := ReadWord(width.rest);
    if height.Failure? then Failure(height.kind) else
    Success(Header(magic.value, version.value, tag.value, width.value, height.value), height.rest)
  }

  function HeaderBits(h: Header): BitString {
    ToBits(h.magic, 32) + (ToBits(h.version, 32) + (ToBits(h.tag, 32) + (ToBits(h.width, 32) + ToBits(h.height, 32))))
  }

  predicate HeaderFits(h: Header) {
    && h.magic < 0x1_0000_0000 && h.version < 0x1_0000_0000 && h.tag < 0x1_0000_0000
    && h.width < 0x1_0000_0000 && h.height < 0x1_0000_0000
  }

  lemma HeaderRoundTrip(h: Header, rest: BitString)
    requires HeaderFits(h)
    ensures ReadHeader(HeaderBits(h) + rest) == Success(h, rest)
  {
    hide ReadWord, ToBits;
    var e := ToBits(h.height, 32) + rest;
    var d := ToBits(h.width, 32) + e;
    var c := ToBits(h.tag, 32) + d;
    var b := ToBits(h.version, 32) + c;
    assert HeaderBits(h) + rest == ToBits(h.magic, 32) + b;
    WordRoundTrip(h.magic, b);
    WordRoundTrip(h.version, c);
    WordRoundTrip(h.tag, d);
    WordRoundTrip(h.width, e);
    WordRoundTrip(h.height, rest);
  }

  /** The checks made on a header, in order, before any pixel is decoded. */
  function CheckHeader(h: Header, expectedWidth: nat, expectedHeight: nat, limits: Limits): (r: Result<ImageType>)
    ensures r.Ok? ==> r.value != Gray && h.width > 0 && h.height > 0
  {
    if h.magic != QUIC_MAGIC || h.version != QUIC_VERSION then Err(InvalidHeader)
    else
      match TypeOf(h.tag)
      case None => Err(UnsupportedType)
      case Some(t) =>
        if t == Gray then Err(UnsupportedType)
        else if h.width != expectedWidth || h.height != expectedHeight then Err(DimensionMismatch)
        else if h.width == 0 || h.height == 0 || h.width > limits.maximumWidth || h.height > limits.maximumHeight
        then Err(ResourceLimit)
        else if h.width * h.height * 4 > limits.maximumOutputBytes then Err(ResourceLimit)
        else Ok(t)
  }

  /** Five-bit components are widened to eight by repeating their high bits. */
  function ExpandPixel(t: ImageType, p: Pixel): Pixel {
    if t == Rgb16 then [8 * p[0] + p[0] / 4, 8 * p[1] + p[1] / 4, 8 * p[2] + p[2] / 4, p[3]] else p
  }

  function ExpandRow(t: ImageType, row: seq<Pixel>): seq<Pixel> {
    seq(|row|, x requires 0 <= x < |row| => ExpandPixel(t, row[x]))
  }

  function ExpandRows(t: ImageType, rows: seq<seq<Pixel>>): seq<seq<Pixel>> {
    seq(|rows|, y requires 0 <= y < |rows| => ExpandRow(t, rows[y]))
  }

  function Decode(input: seq<byte>, expectedWidth: nat, expectedHeight: nat, limits: Limits, random: RandomTable)
      : Result<Image>
  {
    if |input| < HEADER_BYTES || |input| % 4 != 0 then Err(Truncated)
    else
      var header := ReadHeader(AllBits(input));
      if header.Failure? then Err(header.kind)
      else
        var h := header.value;
        var t := CheckHeader(h, expectedWidth, expectedHeight, limits);
        if t.Err? then Err(t.kind)
        else
          FreshPlanesOk(t.value, random, h.width);
          var rows := DecodeRows(header.rest, t.value, random, h.width, h.height, FreshPlanes(t.value, h.width), []);
          if rows.Failure? then Err(rows.kind)
          else Ok(Image(h.width, h.height, t.value, ExpandRows(t.value, rows.value)))
  }

  ghost function Encode(image: Image, random: RandomTable): (input: seq<byte>)
    requires ImageOk(image)
  {
    FreshPlanesOk(image.imageType, random, image.width);
    Pack(HeaderBits(HeaderOf(image)) + EncodeRows(image, random, FreshPlanes(image.imageType, image.width), 0))
  }

  function HeaderOf(image: Image): Header {
    Header(QUIC_MAGIC, QUIC_VERSION, TagOf(image.imageType), image.width, image.height)
  }

  /** Every image within the limits survives the writer and the reader. */
  lemma RoundTrip(image: Image, limits: Limits, random: RandomTable)
    requires ImageOk(image) && image.width < 0x1_0000_0000 && image.height < 0x1_0000_0000
    requires image.width <= limits.maximumWidth && image.height <= limits.maximumHeight
    requires image.width * image.height * 4 <= limits.maximumOutputBytes
    ensures Decode(Encode(image, random), image.width, image.height, limits, random)
         == Ok(image.(rows := ExpandRows(image.imageType, image.rows)))
  {
    hide HeaderBits, ReadHeader, EncodeRows, DecodeRows, Pack, AllBits, FreshPlanes, ExpandRows;
    var w, h, t := image.width, image.height, image.imageType;
    FreshPlanesOk(t, random, w);
    var header := HeaderOf(image);
    var rows := EncodeRows(image, random, FreshPlanes(t, w), 0);
    var padding := PackRoundTrip(HeaderBits(header) + rows);
    HeaderLength(header);
    assert HeaderBits(header) + rows + padding == HeaderBits(header) + (rows + padding);
    HeaderRoundTrip(header, rows + padding);
    assert image.rows[..0] == [];
    RowsRoundTrip(padding, image, random, FreshPlanes(t, w), 0);
  }

  lemma HeaderLength(h: Header)
    ensures |HeaderBits(h)| == 160
  {
    hide ToBits;
  }

  /** Widening loses nothing: distinct five-bit components stay distinct. */
  lemma ExpandRecovers(p: Pixel)
    requires p[0] < 32 && p[1] < 32 && p[2] < 32
    ensures var q := ExpandPixel(Rgb16, p);
      p == [q[0] / 8, q[1] / 8, q[2] / 8, q[3]] && q[0] < 256 && q[1] < 256 && q[2] < 256
  {
  }
}
