/** What decoding an arbitrary bit stream does to a row, whoever wrote the stream.

  Positions outside the stretch and components outside the format keep their
  values, the coded components come out within their width, and what comes out
  does not depend on what the stretch held before: every position of the stretch
  is written, and none that has been passed is touched again.
*/
module QuicFrame {
  import opened Basics
  import opened Bits
  import opened QuicModel
  import opened QuicPixel
  import opened QuicSegment
  import opened QuicRow
  import Golomb
  import QuicRun

  // ---------------------------------------------------------------------------
  // Only the stretch, only the format's components
  // ---------------------------------------------------------------------------

  /** Nothing outside [a, b) changed, and no component outside the format. */
  ghost predicate Within(f: Format, before: seq<Pixel>, after: seq<Pixel>, a: nat, b: nat) {
    && |after| == |before|
    && (forall p :: 0 <= p < |before| && !(a <= p < b) ==> after[p] == before[p])
    && (forall p, c :: 0 <= p < |before| && 0 <= c < 4 && c !in f.components ==> after[p][c] == before[p][c])
  }

  lemma WithinJoins(f: Format, x: seq<Pixel>, y: seq<Pixel>, z: seq<Pixel>, a: nat, b: nat, c: nat)
    requires a <= b <= c && Within(f, x, y, a, b) && Within(f, y, z, b, c)
    ensures Within(f, x, z, a, c)
  {
  }

  lemma WithinPixel(f: Format, x: seq<Pixel>, y: seq<Pixel>, z: seq<Pixel>, p: nat)
    requires Within(f, x, y, p, p + 1) && Within(f, y, z, p, p + 1)
    ensures Within(f, x, z, p, p + 1)
  {
  }

  lemma {:induction false} ChannelsWithin(bits: BitString, f: Format, channels: seq<Channel>,
                                          previous: Option<seq<Pixel>>, current: seq<Pixel>, position: nat, i: nat)
    requires FormatOk(f) && ChannelsOk(f, channels, |current|)
    requires PreviousOk(previous, |current|) && position < |current| && i <= |channels|
    ensures var r := DecodeChannels(bits, f, channels, previous, current, position, i);
      r.Success? ==> Within(f, current, r.value.1, position, position + 1)
    decreases |channels| - i
  {
    hide Golomb.Decode, BestCode, Reconstruct, Predictor, Within;
    if i == |channels| {
      WithinNothing(f, current, position, position + 1);
    } else {
      var residual := Golomb.Decode(bits, BestCode(channels[i], position, f.bpc), f.bpc);
      if residual.Success? {
        var component := f.components[i];
        var value := Reconstruct(Predictor(previous, current, position, component), residual.value, f.bpc);
        var current' := SetComponent(current, position, component, value);
        var channels' := channels[i := SetResidual(channels[i], position, residual.value)];
        ResidualKept(f, channels, i, position, residual.value, |current|);
        ChannelsWithin(residual.rest, f, channels', previous, current', position, i + 1);
        SetWithin(f, current, position, i, value);
        var r := DecodeChannels(residual.rest, f, channels', previous, current', position, i + 1);
        if r.Success? {
          WithinPixel(f, current, current', r.value.1, position);
        }
      }
    }
  }

  lemma WithinNothing(f: Format, current: seq<Pixel>, a: nat, b: nat)
    ensures Within(f, current, current, a, b)
  {
  }

  lemma SetWithin(f: Format, current: seq<Pixel>, position: nat, i: nat, value: nat)
    requires FormatOk(f) && position < |current| && i < |f.components|
    ensures Within(f, current, SetComponent(current, position, f.components[i], value), position, position + 1)
  {
  }

  lemma FillWithin(f: Format, current: seq<Pixel>, position: nat, n: nat)
    requires 1 <= position && position + n <= |current|
    ensures Within(f, current, Fill(f, current, position, n), position, position + n)
  {
  }

  /** The rest of a segment, from any cursor and on any bits. */
  lemma {:induction false} RestWithin(bits: BitString, f: Format, previous: Option<seq<Pixel>>,
                                      current: seq<Pixel>, codec: Codec, k: Cursor, end: nat)
    requires Ready(f, codec, previous, current) && CursorOk(k, end) && end <= |current|
    ensures var r := DecodeFrom(bits, f, previous, current, codec, k, end);
      r.Success? ==> Within(f, current, r.value.row, k.position, end)
    decreases end - k.position, k.runIndex != k.position, k.stop < k.position
  {
    hide DecodeChannels, QuicRun.Decode, Fill, Adapt, Same, Within, ShouldRun;
    if k.position < Min(end, k.stop + 1) {
      if ShouldRun(f, previous, current, k.position, k.runIndex) {
        RunFresh(f, previous, current, k.position, k.runIndex);
        var run := QuicRun.Decode(bits, codec.coding.runState, 0, end - k.position);
        if run.Success? {
          var wait := k.stop - k.position;
          var current' := Fill(f, current, k.position, run.value.0);
          FillWithin(f, current, k.position, run.value.0);
          var position := k.position + run.value.0;
          if position < end {
            var codec' := AfterRun(codec, wait, run.value.1);
            var k' := Cursor(position, position + wait, k.position);
            RestWithin(run.rest, f, previous, current', codec', k', end);
            var r := DecodeFrom(run.rest, f, previous, current', codec', k', end);
            if r.Success? {
              WithinJoins(f, current, current', r.value.row, k.position, position, end);
            }
          }
        }
      } else {
        ChannelsWithin(bits, f, codec.channels, previous, current, k.position, 0);
        var pixel := DecodeChannels(bits, f, codec.channels, previous, current, k.position, 0);
        if pixel.Success? {
          var codec' := codec.(channels := pixel.value.0);
          var k' := k.(position := k.position + 1);
          RestWithin(pixel.rest, f, previous, pixel.value.1, codec', k', end);
          var r := DecodeFrom(pixel.rest, f, previous, pixel.value.1, codec', k', end);
          if r.Success? {
            WithinJoins(f, current, pixel.value.1, r.value.row, k.position, k.position + 1, end);
          }
        }
      }
    } else if k.stop < end {
      AdaptOk(f, codec, k.stop, |current|);
      var next := Adapt(f, codec, k.stop);
      RestWithin(bits, f, previous, current, next.1, k.(stop := k.position + next.0), end);
    } else {
      WithinNothing(f, current, k.position, end);
    }
  }

  lemma RunFresh(f: Format, previous: Option<seq<Pixel>>, current: seq<Pixel>, position: nat, runIndex: nat)
    requires FormatOk(f) && PreviousOk(previous, |current|) && position < |current|
    requires ShouldRun(f, previous, current, position, runIndex)
    ensures runIndex != position
  {
  }

  /** A segment changes the format's components of [start, end) and nothing else, on any bits. */
  lemma SegmentWithin(bits: BitString, f: Format, previous: Option<seq<Pixel>>, current: seq<Pixel>,
                      codec: Codec, start: nat, end: nat)
    requires Ready(f, codec, previous, current) && start < end <= |current|
    ensures var r := DecodeSegment(bits, f, previous, current, codec, start, end);
      r.Success? ==> Within(f, current, r.value.row, start, end)
  {
    hide DecodeChannels, DecodeFrom, Adapt, Within, AfterFirst;
    if start == 0 {
      ChannelsWithin(bits, f, codec.channels, previous, current, 0, 0);
      var pixel := DecodeChannels(bits, f, codec.channels, previous, current, 0, 0);
      if pixel.Success? {
        var codec' := codec.(channels := pixel.value.0);
        AdaptOk(f, codec', 0, |current|);
        AfterFirstOk(f, codec', |current|);
        var codec'' := AfterFirst(f, codec');
        var k := StartCursor(1, codec''.coding.wait);
        RestWithin(pixel.rest, f, previous, pixel.value.1, codec'', k, end);
        var r := DecodeFrom(pixel.rest, f, previous, pixel.value.1, codec'', k, end);
        if r.Success? {
          WithinJoins(f, current, pixel.value.1, r.value.row, 0, 1, end);
        }
      }
    } else {
      RestWithin(bits, f, previous, current, codec, StartCursor(start, codec.coding.wait), end);
    }
  }

  lemma {:induction false} RowWithin(bits: BitString, f: Format, previous: Option<seq<Pixel>>,
                                     current: seq<Pixel>, codec: Codec, position: nat)
    requires Ready(f, codec, previous, current) && position <= |current|
    ensures var r := DecodeRow(bits, f, previous, current, codec, position);
      r.Success? ==> Within(f, current, r.value.row, position, |current|)
    decreases MAX_CODE_INDEX - codec.coding.codeIndex
  {
    hide DecodeSegment, Within;
    var remaining := |current| - position;
    if FullSegment(codec, remaining) {
      var end := position + codec.coding.pixelsUntil;
      SegmentWithin(bits, f, previous, current, codec, position, end);
      var segment := DecodeSegment(bits, f, previous, current, codec, position, end);
      if segment.Success? {
        var next := NextIndex(segment.value.codec);
        RowWithin(segment.rest, f, previous, segment.value.row, next, end);
        var r := DecodeRow(segment.rest, f, previous, segment.value.row, next, end);
        if r.Success? {
          WithinJoins(f, current, segment.value.row, r.value.row, position, end, |current|);
        }
      }
    } else if remaining != 0 {
      SegmentWithin(bits, f, previous, current, codec, position, |current|);
    } else {
      WithinNothing(f, current, position, |current|);
    }
  }

  // ---------------------------------------------------------------------------
  // Components within their width
  // ---------------------------------------------------------------------------

  /** The coded components before `n` are below two to the component width. */
  ghost predicate Fits(f: Format, row: seq<Pixel>, n: nat)
    requires FormatOk(f) && n <= |row|
  {
    forall p, i :: 0 <= p < n && 0 <= i < |f.components| ==> row[p][f.components[i]] < Pow2(f.bpc)
  }

  /** The first `i` coded components of one pixel are. */
  ghost predicate PixelFits(f: Format, pixel: Pixel, i: nat)
    requires FormatOk(f) && i <= |f.components|
  {
    forall j :: 0 <= j < i ==> pixel[f.components[j]] < Pow2(f.bpc)
  }

  lemma {:induction false} ChannelsFit(bits: BitString, f: Format, channels: seq<Channel>,
                                       previous: Option<seq<Pixel>>, current: seq<Pixel>, position: nat, i: nat)
    requires FormatOk(f) && ChannelsOk(f, channels, |current|)
    requires PreviousOk(previous, |current|) && position < |current| && i <= |channels|
    requires PixelFits(f, current[position], i)
    ensures var r := DecodeChannels(bits, f, channels, previous, current, position, i);
      r.Success? ==> PixelFits(f, r.value.1[position], |channels|)
    decreases |channels| - i
  {
    hide Golomb.Decode, BestCode, Predictor, Reconstruct, Pow2;
    if i < |channels| {
      var residual := Golomb.Decode(bits, BestCode(channels[i], position, f.bpc), f.bpc);
      if residual.Success? {
        var component := f.components[i];
        var value := Reconstruct(Predictor(previous, current, position, component), residual.value, f.bpc);
        ResidualKept(f, channels, i, position, residual.value, |current|);
        ChannelsFit(residual.rest, f, channels[i := SetResidual(channels[i], position, residual.value)], previous,
                    SetComponent(current, position, component, value), position, i + 1);
      }
    }
  }

  lemma FitsNext(f: Format, before: seq<Pixel>, after: seq<Pixel>, p: nat)
    requires FormatOk(f) && p < |before| && Fits(f, before, p) && Within(f, before, after, p, p + 1)
    requires PixelFits(f, after[p], |f.components|)
    ensures Fits(f, after, p + 1)
  {
    hide Pow2;
  }

  lemma FillFits(f: Format, current: seq<Pixel>, position: nat, n: nat)
    requires FormatOk(f) && 1 <= position && position + n <= |current| && Fits(f, current, position)
    ensures Fits(f, Fill(f, current, position, n), position + n)
  {
    hide Pow2;
  }

  lemma {:induction false} RestFits(bits: BitString, f: Format, previous: Option<seq<Pixel>>,
                                    current: seq<Pixel>, codec: Codec, k: Cursor, end: nat)
    requires Ready(f, codec, previous, current) && CursorOk(k, end) && end <= |current|
    requires Fits(f, current, k.position)
    ensures var r := DecodeFrom(bits, f, previous, current, codec, k, end);
      r.Success? ==> Fits(f, r.value.row, end)
    decreases end - k.position, k.runIndex != k.position, k.stop < k.position
  {
    hide DecodeChannels, QuicRun.Decode, Fill, Adapt, Same, Within, ShouldRun, Fits, Pow2, PixelFits;
    if k.position < Min(end, k.stop + 1) {
      if ShouldRun(f, previous, current, k.position, k.runIndex) {
        RunFresh(f, previous, current, k.position, k.runIndex);
        var run := QuicRun.Decode(bits, codec.coding.runState, 0, end - k.position);
        if run.Success? {
          var wait := k.stop - k.position;
          FillFits(f, current, k.position, run.value.0);
          var position := k.position + run.value.0;
          if position < end {
            RestFits(run.rest, f, previous, Fill(f, current, k.position, run.value.0),
                     AfterRun(codec, wait, run.value.1), Cursor(position, position + wait, k.position), end);
          }
        }
      } else {
        PixelFitsNone(f, current[k.position]);
        ChannelsFit(bits, f, codec.channels, previous, current, k.position, 0);
        ChannelsWithin(bits, f, codec.channels, previous, current, k.position, 0);
        var pixel := DecodeChannels(bits, f, codec.channels, previous, current, k.position, 0);
        if pixel.Success? {
          FitsNext(f, current, pixel.value.1, k.position);
          RestFits(pixel.rest, f, previous, pixel.value.1, codec.(channels := pixel.value.0),
                   k.(position := k.position + 1), end);
        }
      }
    } else if k.stop < end {
      AdaptOk(f, codec, k.stop, |current|);
      var next := Adapt(f, codec, k.stop);
      RestFits(bits, f, previous, current, next.1, k.(stop := k.position + next.0), end);
    }
  }

  lemma PixelFitsNone(f: Format, pixel: Pixel)
    requires FormatOk(f)
    ensures PixelFits(f, pixel, 0)
  {
  }

  lemma SegmentFits(bits: BitString, f: Format, previous: Option<seq<Pixel>>, current: seq<Pixel>,
                    codec: Codec, start: nat, end: nat)
    requires Ready(f, codec, previous, current) && start < end <= |current| && Fits(f, current, start)
    ensures var r := DecodeSegment(bits, f, previous, current, codec, start, end);
      r.Success? ==> Fits(f, r.value.row, end)
  {
    hide DecodeChannels, DecodeFrom, Adapt, Within, AfterFirst, Fits, PixelFits, Pow2;
    if start == 0 {
      PixelFitsNone(f, current[0]);
      ChannelsFit(bits, f, codec.channels, previous, current, 0, 0);
      ChannelsWithin(bits, f, codec.channels, previous, current, 0, 0);
      var pixel := DecodeChannels(bits, f, codec.channels, previous, current, 0, 0);
      if pixel.Success? {
        FitsNext(f, current, pixel.value.1, 0);
        var codec' := codec.(channels := pixel.value.0);
        AdaptOk(f, codec', 0, |current|);
        AfterFirstOk(f, codec', |current|);
        var codec'' := AfterFirst(f, codec');
        RestFits(pixel.rest, f, previous, pixel.value.1, codec'', StartCursor(1, codec''.coding.wait), end);
      }
    } else {
      RestFits(bits, f, previous, current, codec, StartCursor(start, codec.coding.wait), end);
    }
  }

  /** On any bits the coded components of a decoded row fit their width. */
  lemma {:induction false} RowFits(bits: BitString, f: Format, previous: Option<seq<Pixel>>,
                                   current: seq<Pixel>, codec: Codec, position: nat)
    requires Ready(f, codec, previous, current) && position <= |current| && Fits(f, current, position)
    ensures var r := DecodeRow(bits, f, previous, current, codec, position);
      r.Success? ==> Fits(f, r.value.row, |current|)
    decreases MAX_CODE_INDEX - codec.coding.codeIndex
  {
    hide DecodeSegment, Fits;
    var remaining := |current| - position;
    if FullSegment(codec, remaining) {
      var end := position + codec.coding.pixelsUntil;
      SegmentFits(bits, f, previous, current, codec, position, end);
      var segment := DecodeSegment(bits, f, previous, current, codec, position, end);
      if segment.Success? {
        RowFits(segment.rest, f, previous, segment.value.row, NextIndex(segment.value.codec), end);
      }
    } else if remaining != 0 {
      SegmentFits(bits, f, previous, current, codec, position, |current|);
    }
  }

  // ---------------------------------------------------------------------------
  // Every position is written
  // ---------------------------------------------------------------------------

  /** Two pixel decodes did the same, up to what the format does not carry. */
  ghost predicate SamePixel(f: Format, r: Parsed<(seq<Channel>, seq<Pixel>)>, r': Parsed<(seq<Channel>, seq<Pixel>)>,
                            position: nat)
    requires FormatOk(f)
  {
    match (r, r')
    case (Success(v, rest), Success(v', rest')) =>
      && rest == rest' && v.0 == v'.0
      && position < |v.1| == |v'.1|
      && Same(f, v.1[position], v'.1[position])
    case (Failure(kind), Failure(kind')) => kind == kind'
    case _ => false
  }

  lemma {:induction false} ChannelsIgnore(
      bits: BitString, f: Format, channels: seq<Channel>, previous: Option<seq<Pixel>>,
      current: seq<Pixel>, other: seq<Pixel>, position: nat, i: nat)
    requires FormatOk(f) && ChannelsOk(f, channels, |current|) && |other| == |current|
    requires PreviousOk(previous, |current|) && position < |current| && i <= |channels|
    requires Agree(f, current, other, position)
    requires forall j :: 0 <= j < i ==> current[position][f.components[j]] == other[position][f.components[j]]
    ensures SamePixel(f, DecodeChannels(bits, f, channels, previous, current, position, i),
                      DecodeChannels(bits, f, channels, previous, other, position, i), position)
    decreases |channels| - i
  {
    hide Golomb.Decode, BestCode, Reconstruct;
    if i < |channels| {
      var residual := Golomb.Decode(bits, BestCode(channels[i], position, f.bpc), f.bpc);
      if residual.Success? {
        var component := f.components[i];
        assert Predictor(previous, current, position, component) == Predictor(previous, other, position, component);
        var value := Reconstruct(Predictor(previous, current, position, component), residual.value, f.bpc);
        ResidualKept(f, channels, i, position, residual.value, |current|);
        ChannelsIgnore(residual.rest, f, channels[i := SetResidual(channels[i], position, residual.value)], previous,
                       SetComponent(current, position, component, value),
                       SetComponent(other, position, component, value), position, i + 1);
      }
    }
  }

  lemma AgreeNext(f: Format, x: seq<Pixel>, y: seq<Pixel>, x': seq<Pixel>, y': seq<Pixel>, p: nat)
    requires FormatOk(f) && |x| == |y| && p < |x| && Agree(f, x, y, p)
    requires Within(f, x, x', p, p + 1) && Within(f, y, y', p, p + 1) && Same(f, x'[p], y'[p])
    ensures Agree(f, x', y', p + 1)
  {
  }

  lemma FillAgrees(f: Format, current: seq<Pixel>, other: seq<Pixel>, position: nat, n: nat)
    requires FormatOk(f) && |other| == |current| && 1 <= position && position + n <= |current|
    requires Agree(f, current, other, position)
    ensures Agree(f, Fill(f, current, position, n), Fill(f, other, position, n), position + n)
  {
  }

  /** Two decodes did the same up to `n`, save for what the format does not carry. */
  ghost predicate SameRow(f: Format, r: Parsed<Done>, r': Parsed<Done>, n: nat)
    requires FormatOk(f)
  {
    match (r, r')
    case (Success(d, rest), Success(d', rest')) =>
      && rest == rest' && d.codec == d'.codec
      && n <= |d.row| == |d'.row|
      && Agree(f, d.row, d'.row, n)
    case (Failure(kind), Failure(kind')) => kind == kind'
    case _ => false
  }

  /** What the rest of a segment comes to does not depend on what it held before. */
  lemma {:induction false} RestIgnores(
      bits: BitString, f: Format, previous: Option<seq<Pixel>>, current: seq<Pixel>, other: seq<Pixel>,
      codec: Codec, k: Cursor, end: nat)
    requires Ready(f, codec, previous, current) && CursorOk(k, end) && end <= |current| == |other|
    requires Agree(f, current, other, k.position)
    ensures SameRow(f, DecodeFrom(bits, f, previous, current, codec, k, end),
                    DecodeFrom(bits, f, previous, other, codec, k, end), end)
    decreases end - k.position, k.runIndex != k.position, k.stop < k.position
  {
    hide DecodeChannels, QuicRun.Decode, Fill, Adapt, Same, Within, ShouldRun, Agree;
    if k.position < Min(end, k.stop + 1) {
      ShouldRunAgrees(f, previous, current, other, k.position, k.runIndex);
      if ShouldRun(f, previous, current, k.position, k.runIndex) {
        RunFresh(f, previous, current, k.position, k.runIndex);
        var run := QuicRun.Decode(bits, codec.coding.runState, 0, end - k.position);
        if run.Success? {
          var wait := k.stop - k.position;
          var n := run.value.0;
          FillAgrees(f, current, other, k.position, n);
          var position := k.position + n;
          if position < end {
            RestIgnores(run.rest, f, previous, Fill(f, current, k.position, n), Fill(f, other, k.position, n),
                        AfterRun(codec, wait, run.value.1), Cursor(position, position + wait, k.position), end);
          }
        }
      } else {
        PixelIgnores(bits, f, previous, current, other, codec, k.position);
        var pixel := DecodeChannels(bits, f, codec.channels, previous, current, k.position, 0);
        var pixel' := DecodeChannels(bits, f, codec.channels, previous, other, k.position, 0);
        if pixel.Success? {
          RestIgnores(pixel.rest, f, previous, pixel.value.1, pixel'.value.1, codec.(channels := pixel.value.0),
                      k.(position := k.position + 1), end);
        }
      }
    } else if k.stop < end {
      AdaptOk(f, codec, k.stop, |current|);
      var next := Adapt(f, codec, k.stop);
      RestIgnores(bits, f, previous, current, other, next.1, k.(stop := k.position + next.0), end);
    }
  }

  lemma PixelIgnores(bits: BitString, f: Format, previous: Option<seq<Pixel>>, current: seq<Pixel>,
                     other: seq<Pixel>, codec: Codec, position: nat)
    requires Ready(f, codec, previous, current) && position < |current| == |other|
    requires Agree(f, current, other, position)
    ensures var r := DecodeChannels(bits, f, codec.channels, previous, current, position, 0);
      var r' := DecodeChannels(bits, f, codec.channels, previous, other, position, 0);
      && (r.Failure? ==> r' == r)
      && (r.Success? ==> r'.Success? && r'.rest == r.rest && r'.value.0 == r.value.0
                         && Agree(f, r.value.1, r'.value.1, position + 1))
  {
    hide DecodeChannels, Within, Agree, Same;
    ChannelsIgnore(bits, f, codec.channels, previous, current, other, position, 0);
    ChannelsWithin(bits, f, codec.channels, previous, current, position, 0);
    ChannelsWithin(bits, f, codec.channels, previous, other, position, 0);
    var r := DecodeChannels(bits, f, codec.channels, previous, current, position, 0);
    var r' := DecodeChannels(bits, f, codec.channels, previous, other, position, 0);
    if r.Success? {
      WithinLength(f, current, r.value.1, position, position + 1);
      WithinLength(f, other, r'.value.1, position, position + 1);
      AgreeNext(f, current, other, r.value.1, r'.value.1, position);
    }
  }

  lemma WithinLength(f: Format, before: seq<Pixel>, after: seq<Pixel>, a: nat, b: nat)
    requires Within(f, before, after, a, b)
    ensures |after| == |before|
  {
  }

  /** Every coded component of [start, end) is written: whatever the row held there, the outcome is the same. */
  lemma SegmentIgnores(bits: BitString, f: Format, previous: Option<seq<Pixel>>, current: seq<Pixel>,
                       other: seq<Pixel>, codec: Codec, start: nat, end: nat)
    requires Ready(f, codec, previous, current) && start < end <= |current| == |other|
    requires Agree(f, current, other, start)
    ensures SameRow(f, DecodeSegment(bits, f, previous, current, codec, start, end),
                    DecodeSegment(bits, f, previous, other, codec, start, end), end)
  {
    hide DecodeChannels, DecodeFrom, Adapt, AfterFirst, Agree;
    if start == 0 {
      PixelIgnores(bits, f, previous, current, other, codec, 0);
      var pixel := DecodeChannels(bits, f, codec.channels, previous, current, 0, 0);
      var pixel' := DecodeChannels(bits, f, codec.channels, previous, other, 0, 0);
      if pixel.Success? {
        var codec' := codec.(channels := pixel.value.0);
        AdaptOk(f, codec', 0, |current|);
        AfterFirstOk(f, codec', |current|);
        var codec'' := AfterFirst(f, codec');
        RestIgnores(pixel.rest, f, previous, pixel.value.1, pixel'.value.1, codec'',
                    StartCursor(1, codec''.coding.wait), end);
      }
    } else {
      RestIgnores(bits, f, previous, current, other, codec, StartCursor(start, codec.coding.wait), end);
    }
  }
}
