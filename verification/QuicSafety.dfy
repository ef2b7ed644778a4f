/** What a whole QUIC payload comes to, for every bit stream. */
module QuicSafety {
  import opened Basics
  import opened Bits
  import opened QuicModel
  import opened QuicPixel
  import opened QuicRow
  import opened QuicFrame
  import opened QuicImage

  // ---------------------------------------------------------------------------
  // Components
  // ---------------------------------------------------------------------------

  lemma FitsNothing(f: Format, row: seq<Pixel>)
    requires FormatOk(f)
    ensures Fits(f, row, 0)
  {
  }

  /** The colour pass over a blank row: components within their width, opaque. */
  lemma ColorRowOk(t: ImageType, random: RandomTable, row: seq<Pixel>, width: nat)
    requires |row| == width && Fits(ColorFormat(t, random), row, width)
    requires Within(ColorFormat(t, random), Blank(width), row, 0, width)
    ensures forall x :: 0 <= x < width ==>
      && row[x][0] < Pow2(ComponentBits(t)) && row[x][1] < Pow2(ComponentBits(t))
      && row[x][2] < Pow2(ComponentBits(t)) && row[x][3] == 255
  {
    hide Pow2;
    var f := ColorFormat(t, random);
    assert f.components[0] == 0 && f.components[1] == 1 && f.components[2] == 2 && 3 !in f.components;
    forall x | 0 <= x < width
      ensures row[x][0] < Pow2(ComponentBits(t)) && row[x][1] < Pow2(ComponentBits(t))
      ensures row[x][2] < Pow2(ComponentBits(t)) && row[x][3] == 255
    {
      assert row[x][f.components[0]] < Pow2(f.bpc) && row[x][f.components[1]] < Pow2(f.bpc);
      assert row[x][f.components[2]] < Pow2(f.bpc);
      assert row[x][3] == Blank(width)[x][3];
    }
  }

  /** The alpha pass leaves colour alone and brings an alpha of eight bits. */
  lemma AlphaRowOk(random: RandomTable, color: seq<Pixel>, row: seq<Pixel>)
    requires |row| == |color| && Fits(AlphaFormat(random), row, |row|)
    requires Within(AlphaFormat(random), color, row, 0, |color|)
    ensures forall x :: 0 <= x < |row| ==>
      row[x][0] == color[x][0] && row[x][1] == color[x][1] && row[x][2] == color[x][2] && row[x][3] < Pow2(8)
  {
    hide Pow2;
    var f := AlphaFormat(random);
    assert f.components[0] == 3 && 0 !in f.components && 1 !in f.components && 2 !in f.components;
    forall x | 0 <= x < |row|
      ensures row[x][0] == color[x][0] && row[x][1] == color[x][1] && row[x][2] == color[x][2]
      ensures row[x][3] < Pow2(8)
    {
      assert row[x][f.components[0]] < Pow2(f.bpc);
    }
  }

  lemma OneRowOk(bits: BitString, t: ImageType, random: RandomTable, width: nat, planes: Planes,
                 rows: seq<seq<Pixel>>)
    requires PlanesOk(t, random, planes, width) && width > 0 && RowsOk(rows, width)
    ensures var r := DecodeOne(bits, t, random, width, planes, rows);
      r.Success? ==> RowOk(t, r.value.1)
  {
    hide DecodeRow, Fits, Within, ColorFormat, AlphaFormat, Blank, StartRow, Pow2;
    StartRowOk(t, random, planes, width, rows == []);
    var started := StartRow(planes, rows == []);
    var f := ColorFormat(t, random);
    FitsNothing(f, Blank(width));
    RowWithin(bits, f, Previous(rows), Blank(width), started.color, 0);
    RowFits(bits, f, Previous(rows), Blank(width), started.color, 0);
    var color := DecodeRow(bits, f, Previous(rows), Blank(width), started.color, 0);
    if color.Success? {
      ColorRowOk(t, random, color.value.row, width);
      if t == Rgba {
        var g := AlphaFormat(random);
        FitsNothing(g, color.value.row);
        RowWithin(color.rest, g, Previous(rows), color.value.row, started.alpha, 0);
        RowFits(color.rest, g, Previous(rows), color.value.row, started.alpha, 0);
        var alpha := DecodeRow(color.rest, g, Previous(rows), color.value.row, started.alpha, 0);
        if alpha.Success? {
          AlphaRowOk(random, color.value.row, alpha.value.row);
        }
      }
    }
  }

  ghost predicate AllRowsOk(t: ImageType, rows: seq<seq<Pixel>>) {
    forall y :: 0 <= y < |rows| ==> RowOk(t, rows[y])
  }

  /** On any bits every decoded component is below two to the component width. */
  lemma {:induction false} DecodedRowsOk(bits: BitString, t: ImageType, random: RandomTable, width: nat,
                                         height: nat, planes: Planes, rows: seq<seq<Pixel>>)
    requires PlanesOk(t, random, planes, width) && width > 0 && RowsOk(rows, width) && |rows| <= height
    requires AllRowsOk(t, rows)
    ensures var r := DecodeRows(bits, t, random, width, height, planes, rows);
      r.Success? ==> AllRowsOk(t, r.value)
    decreases height - |rows|
  {
    hide DecodeOne, RowOk, PlanesOk;
    if |rows| < height {
      OneRowOk(bits, t, random, width, planes, rows);
      var one := DecodeOne(bits, t, random, width, planes, rows);
      if one.Success? {
        var rows' := rows + [one.value.1];
        DecodedRowsOk(one.rest, t, random, width, height, one.value.0, rows');
        assert DecodeRows(bits, t, random, width, height, planes, rows)
            == DecodeRows(one.rest, t, random, width, height, one.value.0, rows');
      }
    }
  }

  /** A pixel of bytes. */
  predicate IsBytes(p: Pixel) {
    p[0] < 256 && p[1] < 256 && p[2] < 256 && p[3] < 256
  }

  lemma ExpandedIsBytes(t: ImageType, p: Pixel)
    requires PixelOk(t, p)
    ensures IsBytes(ExpandPixel(t, p))
  {
    Pow2Byte();
  }

  ghost predicate AllBytes(rows: seq<seq<Pixel>>) {
    forall y, x :: 0 <= y < |rows| && 0 <= x < |rows[y]| ==> IsBytes(rows[y][x])
  }

  lemma ExpandedRowsAreBytes(t: ImageType, rows: seq<seq<Pixel>>)
    requires AllRowsOk(t, rows)
    ensures AllBytes(ExpandRows(t, rows))
  {
    hide ExpandPixel, PixelOk, IsBytes;
    forall y, x | 0 <= y < |rows| && 0 <= x < |rows[y]|
      ensures IsBytes(ExpandRows(t, rows)[y][x])
    {
      assert RowOk(t, rows[y]);
      ExpandedIsBytes(t, rows[y][x]);
    }
  }

  /** Whatever the payload, a decoded image consists of bytes. */
  lemma DecodeYieldsBytes(input: seq<byte>, expectedWidth: nat, expectedHeight: nat, limits: Limits,
                          random: RandomTable)
    ensures var r := Decode(input, expectedWidth, expectedHeight, limits, random);
      r.Ok? ==> AllBytes(r.value.rows)
  {
    hide ReadHeader, AllBits, DecodeRows, FreshPlanes, ExpandRows, AllBytes, CheckHeader, RowOk;
    var r := Decode(input, expectedWidth, expectedHeight, limits, random);
    if r.Ok? {
      var header := ReadHeader(AllBits(input));
      var h, t := header.value, r.value.imageType;
      var planes := FreshPlanes(t, h.width);
      FreshPlanesOk(t, random, h.width);
      DecodedRowsOk(header.rest, t, random, h.width, h.height, planes, []);
      ExpandedRowsAreBytes(t, DecodeRows(header.rest, t, random, h.width, h.height, planes, []).value);
    }
  }

  // ---------------------------------------------------------------------------
  // The schedule over a whole image
  // ---------------------------------------------------------------------------

  /** The decoder after `y` rows: its planes, the rows, and the bits left. */
  ghost function Reached(bits: BitString, t: ImageType, random: RandomTable, width: nat, y: nat)
      : (r: Parsed<(Planes, seq<seq<Pixel>>)>)
    requires width > 0
    ensures r.Success? ==>
      PlanesOk(t, random, r.value.0, width) && RowsOk(r.value.1, width) && |r.value.1| == y
  {
    if y == 0 then
      FreshPlanesOk(t, random, width);
      Success((FreshPlanes(t, width), []), bits)
    else
      var before := Reached(bits, t, random, width, y - 1);
      if before.Failure? then before
      else
        var one := DecodeOne(before.rest, t, random, width, before.value.0, before.value.1);
        if one.Failure? then Failure(one.kind)
        else Success((one.value.0, before.value.1 + [one.value.1]), one.rest)
  }

  /** The decoder of a whole image passes through these states. */
  lemma {:induction false} ReachedIsDecoded(bits: BitString, t: ImageType, random: RandomTable, width: nat,
                                            height: nat, y: nat)
    requires width > 0 && y <= height && PlanesOk(t, random, FreshPlanes(t, width), width)
    ensures var whole := DecodeRows(bits, t, random, width, height, FreshPlanes(t, width), []);
      var r := Reached(bits, t, random, width, y);
      && (r.Failure? ==> whole == Failure(r.kind))
      && (r.Success? ==> whole == DecodeRows(r.rest, t, random, width, height, r.value.0, r.value.1))
  {
    hide DecodeOne, FreshPlanes, PlanesOk;
    if y > 0 {
      ReachedIsDecoded(bits, t, random, width, height, y - 1);
    }
  }

  ghost predicate OnScheduleBoth(t: ImageType, planes: Planes, pixels: nat) {
    OnSchedule(planes.color.coding, pixels) && (t == Rgba ==> OnSchedule(planes.alpha.coding, pixels))
  }

  lemma OneKeepsSchedule(bits: BitString, t: ImageType, random: RandomTable, width: nat, planes: Planes,
                         rows: seq<seq<Pixel>>, before: nat)
    requires PlanesOk(t, random, planes, width) && width > 0 && RowsOk(rows, width)
    requires OnScheduleBoth(t, planes, before)
    ensures var r := DecodeOne(bits, t, random, width, planes, rows);
      r.Success? ==> OnScheduleBoth(t, r.value.0, before + width)
  {
    hide DecodeRow, ColorFormat, AlphaFormat, Blank, OnSchedule;
    StartRowOk(t, random, planes, width, rows == []);
    var started := StartRow(planes, rows == []);
    assert started.color.coding == planes.color.coding && started.alpha.coding == planes.alpha.coding;
    var f := ColorFormat(t, random);
    RowKeepsSchedule(bits, f, Previous(rows), Blank(width), started.color, 0, before);
    var color := DecodeRow(bits, f, Previous(rows), Blank(width), started.color, 0);
    if color.Success? && t == Rgba {
      RowKeepsSchedule(color.rest, AlphaFormat(random), Previous(rows), color.value.row, started.alpha, 0, before);
    }
  }

  lemma OneMoreRow(y: nat, width: nat)
    requires y > 0
    ensures (y - 1) * width + width == y * width
  {
  }

  /** After y rows of an image, on any bits, the code index of each plane is min(6, pixels / 2048), where
      `pixels` is y times the width. */
  lemma {:induction false} ImageKeepsSchedule(bits: BitString, t: ImageType, random: RandomTable, width: nat, y: nat,
                                              pixels: nat)
    requires width > 0 && pixels == y * width
    ensures var r := Reached(bits, t, random, width, y);
      r.Success? ==> OnScheduleBoth(t, r.value.0, pixels)
    decreases y
  {
    hide DecodeOne, OnSchedule, PlanesOk;
    if y == 0 {
      ScheduleStarts();
      hide OnSchedule;
    } else {
      OneMoreRow(y, width);
      var done := pixels - width;
      ImageKeepsSchedule(bits, t, random, width, y - 1, done);
      var before := Reached(bits, t, random, width, y - 1);
      if before.Success? {
        hide OnScheduleBoth;
        OneKeepsSchedule(before.rest, t, random, width, before.value.0, before.value.1, done);
      }
    }
  }
}
