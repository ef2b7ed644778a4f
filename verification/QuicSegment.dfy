/** One row segment: runs, single pixels and the model-update schedule.

  `DecodeFrom` follows the reader, `EncodeFrom` is a writer that mirrors it with
  the same models, run state and wait counts. The theorem is that the reader
  turns the writer's bits back into the row.
*/
module QuicSegment {
  import opened Basics
  import opened Bits
  import opened QuicModel
  import opened QuicPixel
  import QuicRun

  /** Everything that adapts while a row is coded. */
  datatype Codec = Codec(channels: seq<Channel>, coding: Coding)

  /** The loop's position, the next model update and the start of the latest run. */
  datatype Cursor = Cursor(position: nat, stop: nat, runIndex: nat)

  datatype Done = Done(codec: Codec, row: seq<Pixel>)

  ghost predicate CodecOk(f: Format, codec: Codec, width: nat) {
    ChannelsOk(f, codec.channels, width) && CodingOk(codec.coding)
  }

  ghost predicate Ready(f: Format, codec: Codec, previous: Option<seq<Pixel>>, current: seq<Pixel>) {
    FormatOk(f) && CodecOk(f, codec, |current|) && PreviousOk(previous, |current|)
  }

  ghost predicate CursorOk(k: Cursor, end: nat) {
    1 <= k.position <= end && k.position <= k.stop + 1
  }

  predicate Same(f: Format, left: Pixel, right: Pixel)
    requires FormatOk(f)
  {
    forall i :: 0 <= i < |f.components| ==> left[f.components[i]] == right[f.components[i]]
  }

  predicate ShouldRun(f: Format, previous: Option<seq<Pixel>>, current: seq<Pixel>, position: nat, runIndex: nat)
    requires FormatOk(f) && PreviousOk(previous, |current|) && position < |current|
  {
    && previous.Some?
    && position > 2
    && runIndex != position
    && Same(f, previous.value[position - 1], previous.value[position])
    && Same(f, current[position - 1], current[position - 2])
  }

  function UpdateModels(f: Format, channels: seq<Channel>, position: nat, trigger: nat): (r: seq<Channel>)
    requires 1 <= f.bpc <= 8 && trigger <= MAX_TRIGGER
    requires forall i :: 0 <= i < |channels| ==>
      ChannelOk(channels[i], |channels[i].residuals|, f.bpc) && position < |channels[i].residuals|
    ensures |r| == |channels|
    ensures forall i :: 0 <= i < |channels| ==> r[i] == UpdateChannel(channels[i], position, f.bpc, trigger)
  {
    seq(|channels|, i requires 0 <= i < |channels| => UpdateChannel(channels[i], position, f.bpc, trigger))
  }

  /** Copies the coded components of the pixel before `position` onto the next `n` pixels. */
  function Fill(f: Format, current: seq<Pixel>, position: nat, n: nat): (r: seq<Pixel>)
    requires 1 <= position && position + n <= |current|
    ensures |r| == |current|
  {
    seq(|current|, p requires 0 <= p < |current| =>
      if position <= p < position + n then Paint(f, current[p], current[position - 1]) else current[p])
  }

  /** Charges the models at the stop index and draws the next wait. */
  function Adapt(f: Format, codec: Codec, at: nat): (r: (nat, Codec))
    requires 1 <= f.bpc <= 8 && codec.coding.trigger <= MAX_TRIGGER
    requires forall i :: 0 <= i < |codec.channels| ==>
      ChannelOk(codec.channels[i], |codec.channels[i].residuals|, f.bpc) && at < |codec.channels[i].residuals|
  {
    var next := NextWait(codec.coding, f.random);
    (next.0, Codec(UpdateModels(f, codec.channels, at, codec.coding.trigger), next.1))
  }

  lemma AdaptOk(f: Format, codec: Codec, at: nat, width: nat)
    requires FormatOk(f) && CodecOk(f, codec, width) && at < width
    ensures CodecOk(f, Adapt(f, codec, at).1, width)
  {
    hide Update, BucketIndex, BucketsOk, Small, Pow2;
  }

  /** Inside a segment the code index and its countdown do not move. */
  predicate SameSchedule(a: Codec, b: Codec) {
    a.coding.codeIndex == b.coding.codeIndex && a.coding.pixelsUntil == b.coding.pixelsUntil
  }

  /** A run leaves the rest of the wait for after it. */
  function AfterRun(codec: Codec, wait: nat, runState: nat): Codec {
    codec.(coding := codec.coding.(wait := wait, runState := runState))
  }

  // ---------------------------------------------------------------------------
  // The reader
  // ---------------------------------------------------------------------------

  function DecodeFrom(bits: BitString, f: Format, previous: Option<seq<Pixel>>, current: seq<Pixel>,
                      codec: Codec, k: Cursor, end: nat)
      : (r: Parsed<Done>)
    requires Ready(f, codec, previous, current) && CursorOk(k, end) && end <= |current|
    ensures r.Success? ==> CodecOk(f, r.value.codec, |current|) && |r.value.row| == |current|
    ensures r.Success? ==> SameSchedule(r.value.codec, codec)
    decreases end - k.position, k.runIndex != k.position, k.stop < k.position
  {
    if k.position < Min(end, k.stop + 1) then
      if ShouldRun(f, previous, current, k.position, k.runIndex) then
        var wait := k.stop - k.position;
        var run := QuicRun.Decode(bits, codec.coding.runState, 0, end - k.position);
        if run.Failure? then Failure(run.kind)
        else
          var codec' := AfterRun(codec, wait, run.value.1);
          var current' := Fill(f, current, k.position, run.value.0);
          var position := k.position + run.value.0;
          if position == end then Success(Done(codec', current'), run.rest)
          else DecodeFrom(run.rest, f, previous, current', codec', Cursor(position, position + wait, k.position), end)
      else
        var pixel := DecodeChannels(bits, f, codec.channels, previous, current, k.position, 0);
        if pixel.Failure? then Failure(pixel.kind)
        else
          DecodeFrom(pixel.rest, f, previous, pixel.value.1, codec.(channels := pixel.value.0),
                     k.(position := k.position + 1), end)
    else if k.stop < end then
      AdaptOk(f, codec, k.stop, |current|);
      var next := Adapt(f, codec, k.stop);
      DecodeFrom(bits, f, previous, current, next.1, k.(stop := k.position + next.0), end)
    else
      Success(Done(codec.(coding := codec.coding.(wait := k.stop - end)), current), bits)
  }

  /** The first pixel of a row has its own wait rule. */
  function AfterFirst(f: Format, codec: Codec): (codec': Codec)
    requires 1 <= f.bpc <= 8 && codec.coding.trigger <= MAX_TRIGGER
    requires forall i :: 0 <= i < |codec.channels| ==>
      ChannelOk(codec.channels[i], |codec.channels[i].residuals|, f.bpc) && 0 < |codec.channels[i].residuals|
  {
    if codec.coding.wait != 0 then codec.(coding := codec.coding.(wait := codec.coding.wait - 1))
    else
      var next := Adapt(f, codec, 0);
      next.1.(coding := next.1.coding.(wait := next.0))
  }

  function StartCursor(position: nat, wait: nat): Cursor {
    Cursor(position, position + wait, 0)
  }

  function DecodeSegment(bits: BitString, f: Format, previous: Option<seq<Pixel>>, current: seq<Pixel>,
                         codec: Codec, start: nat, end: nat)
      : (r: Parsed<Done>)
    requires Ready(f, codec, previous, current) && start < end <= |current|
    ensures r.Success? ==> CodecOk(f, r.value.codec, |current|) && |r.value.row| == |current|
    ensures r.Success? ==> SameSchedule(r.value.codec, codec)
  {
    if start == 0 then
      var pixel := DecodeChannels(bits, f, codec.channels, previous, current, 0, 0);
      if pixel.Failure? then Failure(pixel.kind)
      else
        var codec' := codec.(channels := pixel.value.0);
        AdaptOk(f, codec', 0, |current|);
        var codec'' := AfterFirst(f, codec');
        DecodeFrom(pixel.rest, f, previous, pixel.value.1, codec'', StartCursor(1, codec''.coding.wait), end)
    else
      DecodeFrom(bits, f, previous, current, codec, StartCursor(start, codec.coding.wait), end)
  }

  // ---------------------------------------------------------------------------
  // The writer
  // ---------------------------------------------------------------------------

  ghost predicate WriterReady(f: Format, codec: Codec, previous: Option<seq<Pixel>>, row: seq<Pixel>) {
    Writable(f, previous, row) && CodecOk(f, codec, |row|)
  }

  /** How many pixels from `position` on repeat the coded components of the one before. */
  function MatchLength(f: Format, row: seq<Pixel>, position: nat, end: nat): (n: nat)
    requires FormatOk(f) && 1 <= position <= end <= |row|
    ensures position + n <= end
    ensures forall p :: position <= p < position + n ==> Same(f, row[p], row[position - 1])
    decreases end - position
  {
    if position < end && Same(f, row[position], row[position - 1])
    then 1 + MatchLength(f, row, position + 1, end)
    else 0
  }

  ghost function EncodeFrom(f: Format, previous: Option<seq<Pixel>>, row: seq<Pixel>,
                            codec: Codec, k: Cursor, end: nat)
      : (r: (BitString, Codec))
    requires WriterReady(f, codec, previous, row) && CursorOk(k, end) && end <= |row|
    ensures CodecOk(f, r.1, |row|) && SameSchedule(r.1, codec)
    decreases end - k.position, k.runIndex != k.position, k.stop < k.position
  {
    if k.position < Min(end, k.stop + 1) then
      if ShouldRun(f, previous, row, k.position, k.runIndex) then
        var wait := k.stop - k.position;
        var n := MatchLength(f, row, k.position, end);
        var state := codec.coding.runState;
        var codec' := AfterRun(codec, wait, QuicRun.StateAfter(n, state));
        var position := k.position + n;
        if position == end then (QuicRun.Encode(n, state), codec')
        else
          var tail := EncodeFrom(f, previous, row, codec', Cursor(position, position + wait, k.position), end);
          (QuicRun.Encode(n, state) + tail.0, tail.1)
      else
        var pixel := EncodeChannels(f, codec.channels, previous, row, k.position, 0);
        var tail := EncodeFrom(f, previous, row, codec.(channels := pixel.1),
                               k.(position := k.position + 1), end);
        (pixel.0 + tail.0, tail.1)
    else if k.stop < end then
      AdaptOk(f, codec, k.stop, |row|);
      var next := Adapt(f, codec, k.stop);
      EncodeFrom(f, previous, row, next.1, k.(stop := k.position + next.0), end)
    else
      ([], codec.(coding := codec.coding.(wait := k.stop - end)))
  }

  ghost function EncodeSegment(f: Format, previous: Option<seq<Pixel>>, row: seq<Pixel>,
                               codec: Codec, start: nat, end: nat)
      : (r: (BitString, Codec))
    requires WriterReady(f, codec, previous, row) && start < end <= |row|
    ensures CodecOk(f, r.1, |row|) && SameSchedule(r.1, codec)
  {
    if start == 0 then
      var pixel := EncodeChannels(f, codec.channels, previous, row, 0, 0);
      var codec' := codec.(channels := pixel.1);
      AdaptOk(f, codec', 0, |row|);
      var codec'' := AfterFirst(f, codec');
      var tail := EncodeFrom(f, previous, row, codec'', StartCursor(1, codec''.coding.wait), end);
      (pixel.0 + tail.0, tail.1)
    else
      EncodeFrom(f, previous, row, codec, StartCursor(start, codec.coding.wait), end)
  }

  // ---------------------------------------------------------------------------
  // The reader inverts the writer
  // ---------------------------------------------------------------------------

  lemma OverlayAgrees(f: Format, current: seq<Pixel>, row: seq<Pixel>, a: nat, b: nat)
    requires FormatOk(f) && |current| == |row| && a <= b <= |row| && Agree(f, current, row, a)
    ensures Agree(f, Overlay(f, current, row, a, b), row, b)
  {
  }

  lemma OverlayTwice(f: Format, current: seq<Pixel>, row: seq<Pixel>, a: nat, b: nat, c: nat)
    requires |current| == |row| && a <= b <= c <= |row|
    ensures Overlay(f, Overlay(f, current, row, a, b), row, b, c) == Overlay(f, current, row, a, c)
  {
    hide Paint;
  }

  lemma OverlayNothing(f: Format, current: seq<Pixel>, row: seq<Pixel>, a: nat)
    requires |current| == |row|
    ensures Overlay(f, current, row, a, a) == current
  {
  }

  /** Copying a run is painting it from the row when the row repeats there. */
  lemma FillIsOverlay(f: Format, current: seq<Pixel>, row: seq<Pixel>, position: nat, n: nat)
    requires FormatOk(f) && |current| == |row| && 1 <= position && position + n <= |row|
    requires Agree(f, current, row, position)
    requires forall p :: position <= p < position + n ==> Same(f, row[p], row[position - 1])
    ensures Fill(f, current, position, n) == Overlay(f, current, row, position, position + n)
  {
    forall p | position <= p < position + n
      ensures Paint(f, current[p], current[position - 1]) == Paint(f, current[p], row[p])
    {
      assert Same(f, row[p], row[position - 1]);
    }
  }

  lemma PixelRoundTrip(rest: BitString, f: Format, codec: Codec, previous: Option<seq<Pixel>>,
                       current: seq<Pixel>, row: seq<Pixel>, position: nat)
    requires WriterReady(f, codec, previous, row) && |current| == |row| && position < |row|
    requires Agree(f, current, row, position)
    ensures var w := EncodeChannels(f, codec.channels, previous, row, position, 0);
      DecodeChannels(w.0 + rest, f, codec.channels, previous, current, position, 0)
      == Success((w.1, Overlay(f, current, row, position, position + 1)), rest)
  {
    hide DecodeChannels, EncodeChannels;
    ChannelsRoundTrip(rest, f, codec.channels, previous, current, row, position, 0);
    assert f.components[..|codec.channels|] == f.components;
    var none := Format(f.components[..0], f.bpc, f.random);
    assert Paint(none, current[position], row[position]) == current[position];
    assert PaintedUpTo(f, current, row, position, 0) == current;
    assert PaintedUpTo(f, current, row, position, |codec.channels|) == Overlay(f, current, row, position, position + 1);
  }

  /** Reader and writer stand at the same cursor with rows that agree before it. */
  ghost predicate Coupled(f: Format, previous: Option<seq<Pixel>>, current: seq<Pixel>, row: seq<Pixel>,
                          codec: Codec, k: Cursor, end: nat) {
    && WriterReady(f, codec, previous, row)
    && |current| == |row|
    && CursorOk(k, end)
    && end <= |row|
    && Agree(f, current, row, k.position)
  }

  /** What the writer emits from here on, the reader paints from here on. */
  ghost predicate ReadsBack(rest: BitString, f: Format, previous: Option<seq<Pixel>>, current: seq<Pixel>,
                            row: seq<Pixel>, codec: Codec, k: Cursor, end: nat)
    requires Coupled(f, previous, current, row, codec, k, end)
  {
    var w := EncodeFrom(f, previous, row, codec, k, end);
    DecodeFrom(w.0 + rest, f, previous, current, codec, k, end)
    == Success(Done(w.1, Overlay(f, current, row, k.position, end)), rest)
  }

  lemma {:induction false} RoundTripFrom(
      rest: BitString, f: Format, previous: Option<seq<Pixel>>, current: seq<Pixel>, row: seq<Pixel>,
      codec: Codec, k: Cursor, end: nat)
    requires Coupled(f, previous, current, row, codec, k, end)
    ensures ReadsBack(rest, f, previous, current, row, codec, k, end)
    decreases end - k.position, k.runIndex != k.position, k.stop < k.position
  {
    hide DecodeChannels, EncodeChannels, QuicRun.Decode, QuicRun.Encode, QuicRun.StateAfter,
      MatchLength, Overlay, Fill, Adapt, Agree, Same, InRange;
    if k.position < Min(end, k.stop + 1) {
      ShouldRunAgrees(f, previous, current, row, k.position, k.runIndex);
      if ShouldRun(f, previous, row, k.position, k.runIndex) {
        var n := MatchLength(f, row, k.position, end);
        if k.position + n == end {
          LastRunStep(rest, f, previous, current, row, codec, k, end);
        } else {
          var codec' := AfterRun(codec, k.stop - k.position, QuicRun.StateAfter(n, codec.coding.runState));
          var k' := Cursor(k.position + n, k.stop + n, k.position);
          OverlayAgrees(f, current, row, k.position, k.position + n);
          RoundTripFrom(rest, f, previous, Overlay(f, current, row, k.position, k.position + n), row, codec', k', end);
          RunStep(rest, f, previous, current, row, codec, k, end, n, codec', k');
        }
      } else {
        PixelStep(rest, f, previous, current, row, codec, k, end);
      }
    } else if k.stop < end {
      AdaptOk(f, codec, k.stop, |row|);
      var next := Adapt(f, codec, k.stop);
      RoundTripFrom(rest, f, previous, current, row, next.1, k.(stop := k.position + next.0), end);
    } else {
      assert [] + rest == rest;
      OverlayNothing(f, current, row, end);
    }
  }

  lemma ShouldRunAgrees(f: Format, previous: Option<seq<Pixel>>, current: seq<Pixel>, row: seq<Pixel>,
                        position: nat, runIndex: nat)
    requires FormatOk(f) && PreviousOk(previous, |row|) && |current| == |row| && position < |row|
    requires Agree(f, current, row, position)
    ensures ShouldRun(f, previous, current, position, runIndex) == ShouldRun(f, previous, row, position, runIndex)
  {
  }

  ghost predicate AtRun(f: Format, previous: Option<seq<Pixel>>, current: seq<Pixel>, row: seq<Pixel>,
                        codec: Codec, k: Cursor, end: nat) {
    && Coupled(f, previous, current, row, codec, k, end)
    && k.position < Min(end, k.stop + 1)
    && ShouldRun(f, previous, current, k.position, k.runIndex)
    && ShouldRun(f, previous, row, k.position, k.runIndex)
  }

  lemma LastRunStep(
      rest: BitString, f: Format, previous: Option<seq<Pixel>>, current: seq<Pixel>, row: seq<Pixel>,
      codec: Codec, k: Cursor, end: nat)
    requires AtRun(f, previous, current, row, codec, k, end)
    requires k.position + MatchLength(f, row, k.position, end) == end
    ensures ReadsBack(rest, f, previous, current, row, codec, k, end)
  {
    hide QuicRun.Decode, QuicRun.Encode, QuicRun.StateAfter, DecodeChannels, EncodeChannels,
      MatchLength, Overlay, Fill, Adapt, Agree, Same, InRange, ShouldRun;
    var n := MatchLength(f, row, k.position, end);
    FillIsOverlay(f, current, row, k.position, n);
    QuicRun.RoundTrip(n, codec.coding.runState, 0, end - k.position, rest);
  }

  lemma RunStep(
      rest: BitString, f: Format, previous: Option<seq<Pixel>>, current: seq<Pixel>, row: seq<Pixel>,
      codec: Codec, k: Cursor, end: nat, n: nat, codec': Codec, k': Cursor)
    requires AtRun(f, previous, current, row, codec, k, end)
    requires n == MatchLength(f, row, k.position, end) && k.position + n < end
    requires codec' == AfterRun(codec, k.stop - k.position, QuicRun.StateAfter(n, codec.coding.runState))
    requires k' == Cursor(k.position + n, k.stop + n, k.position)
    requires var current' := Overlay(f, current, row, k.position, k.position + n);
      && Coupled(f, previous, current', row, codec', k', end)
      && ReadsBack(rest, f, previous, current', row, codec', k', end)
    ensures ReadsBack(rest, f, previous, current, row, codec, k, end)
  {
    hide QuicRun.Decode, QuicRun.Encode, QuicRun.StateAfter, DecodeChannels, EncodeChannels,
      MatchLength, Overlay, Fill, Adapt, Agree, Same, InRange, ShouldRun;
    var run := QuicRun.Encode(n, codec.coding.runState);
    var tail := EncodeFrom(f, previous, row, codec', k', end);
    FillIsOverlay(f, current, row, k.position, n);
    QuicRun.RoundTrip(n, codec.coding.runState, 0, end - k.position, tail.0 + rest);
    assert run + tail.0 + rest == run + (tail.0 + rest);
    OverlayTwice(f, current, row, k.position, k.position + n, end);
  }

  lemma {:induction false} PixelStep(
      rest: BitString, f: Format, previous: Option<seq<Pixel>>, current: seq<Pixel>, row: seq<Pixel>,
      codec: Codec, k: Cursor, end: nat)
    requires Coupled(f, previous, current, row, codec, k, end)
    requires k.position < Min(end, k.stop + 1)
    requires !ShouldRun(f, previous, current, k.position, k.runIndex)
    requires !ShouldRun(f, previous, row, k.position, k.runIndex)
    ensures ReadsBack(rest, f, previous, current, row, codec, k, end)
    decreases end - k.position, k.runIndex != k.position, k.stop < k.position, 0
  {
    hide DecodeChannels, EncodeChannels, Overlay, Fill, Adapt, Agree, Same, InRange, ShouldRun, MatchLength;
    var pixel := EncodeChannels(f, codec.channels, previous, row, k.position, 0);
    var codec' := codec.(channels := pixel.1);
    var k' := k.(position := k.position + 1);
    var tail := EncodeFrom(f, previous, row, codec', k', end);
    PixelRoundTrip(tail.0 + rest, f, codec, previous, current, row, k.position);
    assert pixel.0 + tail.0 + rest == pixel.0 + (tail.0 + rest);
    OverlayAgrees(f, current, row, k.position, k.position + 1);
    RoundTripFrom(rest, f, previous, Overlay(f, current, row, k.position, k.position + 1), row, codec', k', end);
    OverlayTwice(f, current, row, k.position, k.position + 1, end);
  }

  /** A segment is read back as written: the coded components of [start, end) and nothing else. */
  lemma SegmentRoundTrip(
      rest: BitString, f: Format, previous: Option<seq<Pixel>>, current: seq<Pixel>, row: seq<Pixel>,
      codec: Codec, start: nat, end: nat)
    requires WriterReady(f, codec, previous, row) && |current| == |row|
    requires start < end <= |row| && Agree(f, current, row, start)
    ensures var w := EncodeSegment(f, previous, row, codec, start, end);
      DecodeSegment(w.0 + rest, f, previous, current, codec, start, end)
      == Success(Done(w.1, Overlay(f, current, row, start, end)), rest)
  {
    hide DecodeChannels, EncodeChannels, DecodeFrom, EncodeFrom, Overlay, Adapt, Agree, InRange, AfterFirst;
    if start == 0 {
      var pixel := EncodeChannels(f, codec.channels, previous, row, 0, 0);
      var codec' := codec.(channels := pixel.1);
      AdaptOk(f, codec', 0, |row|);
      var codec'' := AfterFirst(f, codec');
      AfterFirstOk(f, codec', |row|);
      var k := StartCursor(1, codec''.coding.wait);
      var tail := EncodeFrom(f, previous, row, codec'', k, end);
      PixelRoundTrip(tail.0 + rest, f, codec, previous, current, row, 0);
      assert pixel.0 + tail.0 + rest == pixel.0 + (tail.0 + rest);
      OverlayAgrees(f, current, row, 0, 1);
      RoundTripFrom(rest, f, previous, Overlay(f, current, row, 0, 1), row, codec'', k, end);
      OverlayTwice(f, current, row, 0, 1, end);
    } else {
      RoundTripFrom(rest, f, previous, current, row, codec, StartCursor(start, codec.coding.wait), end);
    }
  }

  lemma AfterFirstOk(f: Format, codec: Codec, width: nat)
    requires FormatOk(f) && CodecOk(f, codec, width) && 0 < width
    ensures CodecOk(f, AfterFirst(f, codec), width)
  {
    AdaptOk(f, codec, 0, width);
    hide Adapt;
  }
}
