/** Whole rows: how a row is cut into segments as the code index grows. */
module QuicRow {
  import opened Basics
  import opened Bits
  import opened QuicModel
  import opened QuicPixel
  import opened QuicSegment

  function NextIndex(codec: Codec): Codec
    requires CodingOk(codec.coding) && codec.coding.codeIndex < MAX_CODE_INDEX
  {
    codec.(coding := IncreaseCodeIndex(codec.coding))
  }

  /** Counts the last segment of a row against the next code index. */
  function Countdown(codec: Codec, n: nat): Codec
    requires codec.coding.codeIndex < MAX_CODE_INDEX ==> n <= codec.coding.pixelsUntil
  {
    if codec.coding.codeIndex < MAX_CODE_INDEX
    then codec.(coding := codec.coding.(pixelsUntil := codec.coding.pixelsUntil - n))
    else codec
  }

  /** A segment that ends where the code index must grow. */
  predicate FullSegment(codec: Codec, remaining: nat) {
    codec.coding.codeIndex < MAX_CODE_INDEX && codec.coding.pixelsUntil <= remaining
  }

  function DecodeRow(bits: BitString, f: Format, previous: Option<seq<Pixel>>, current: seq<Pixel>,
                     codec: Codec, position: nat)
      : (r: Parsed<Done>)
    requires Ready(f, codec, previous, current) && position <= |current|
    ensures r.Success? ==> CodecOk(f, r.value.codec, |current|) && |r.value.row| == |current|
    decreases MAX_CODE_INDEX - codec.coding.codeIndex
  {
    var remaining := |current| - position;
    if FullSegment(codec, remaining) then
      var end := position + codec.coding.pixelsUntil;
      var segment := DecodeSegment(bits, f, previous, current, codec, position, end);
      if segment.Failure? then segment
      else DecodeRow(segment.rest, f, previous, segment.value.row, NextIndex(segment.value.codec), end)
    else if remaining != 0 then
      var segment := DecodeSegment(bits, f, previous, current, codec, position, |current|);
      if segment.Failure? then segment
      else Success(segment.value.(codec := Countdown(segment.value.codec, remaining)), segment.rest)
    else
      Success(Done(codec, current), bits)
  }

  ghost function EncodeRow(f: Format, previous: Option<seq<Pixel>>, row: seq<Pixel>, codec: Codec, position: nat)
      : (r: (BitString, Codec))
    requires WriterReady(f, codec, previous, row) && position <= |row|
    ensures CodecOk(f, r.1, |row|)
    decreases MAX_CODE_INDEX - codec.coding.codeIndex
  {
    var remaining := |row| - position;
    if FullSegment(codec, remaining) then
      var end := position + codec.coding.pixelsUntil;
      var segment := EncodeSegment(f, previous, row, codec, position, end);
      var tail := EncodeRow(f, previous, row, NextIndex(segment.1), end);
      (segment.0 + tail.0, tail.1)
    else if remaining != 0 then
      var segment := EncodeSegment(f, previous, row, codec, position, |row|);
      (segment.0, Countdown(segment.1, remaining))
    else
      ([], codec)
  }

  /** A row is read back as written, however it is cut into segments. */
  lemma {:induction false} RowRoundTrip(
      rest: BitString, f: Format, previous: Option<seq<Pixel>>, current: seq<Pixel>, row: seq<Pixel>,
      codec: Codec, position: nat)
    requires WriterReady(f, codec, previous, row) && |current| == |row| && position <= |row|
    requires Agree(f, current, row, position)
    ensures var w := EncodeRow(f, previous, row, codec, position);
      DecodeRow(w.0 + rest, f, previous, current, codec, position)
      == Success(Done(w.1, Overlay(f, current, row, position, |row|)), rest)
    decreases MAX_CODE_INDEX - codec.coding.codeIndex
  {
    hide DecodeSegment, EncodeSegment, Overlay, Agree, InRange;
    var remaining := |row| - position;
    if FullSegment(codec, remaining) {
      var end := position + codec.coding.pixelsUntil;
      var segment := EncodeSegment(f, previous, row, codec, position, end);
      var next := NextIndex(segment.1);
      var tail := EncodeRow(f, previous, row, next, end);
      assert segment.0 + tail.0 + rest == segment.0 + (tail.0 + rest);
      SegmentRoundTrip(tail.0 + rest, f, previous, current, row, codec, position, end);
      OverlayAgrees(f, current, row, position, end);
      RowRoundTrip(rest, f, previous, Overlay(f, current, row, position, end), row, next, end);
      OverlayTwice(f, current, row, position, end, |row|);
    } else if remaining != 0 {
      SegmentRoundTrip(rest, f, previous, current, row, codec, position, |row|);
    } else {
      assert [] + rest == rest;
      OverlayNothing(f, current, row, position);
    }
  }

  /** The code index and countdown that belong after `n` pixels. */
  predicate OnSchedule(c: Coding, n: nat) {
    && c.codeIndex == Min(6, n / 2048)
    && (c.codeIndex < 6 ==> c.pixelsUntil == 2048 - n % 2048)
  }

  lemma ScheduleStarts()
    ensures OnSchedule(FreshCoding(), 0)
  {
  }

  /** A full segment ends where the index grows, and any other leaves the countdown where it belongs. */
  lemma SegmentKeepsSchedule(earlier: Codec, codec: Codec, n: nat, remaining: nat)
    requires CodingOk(codec.coding) && SameSchedule(codec, earlier) && OnSchedule(earlier.coding, n)
    ensures FullSegment(codec, remaining) ==>
      OnSchedule(NextIndex(codec).coding, n + codec.coding.pixelsUntil)
    ensures !FullSegment(codec, remaining) ==> OnSchedule(Countdown(codec, remaining).coding, n + remaining)
  {
  }

  /** After `n` pixels in all the code index is min(6, n / 2048), however rows are split. */
  lemma {:induction false} RowKeepsSchedule(
      bits: BitString, f: Format, previous: Option<seq<Pixel>>, current: seq<Pixel>,
      codec: Codec, position: nat, before: nat)
    requires Ready(f, codec, previous, current) && position <= |current|
    requires OnSchedule(codec.coding, before + position)
    ensures var r := DecodeRow(bits, f, previous, current, codec, position);
      r.Success? ==> OnSchedule(r.value.codec.coding, before + |current|)
    decreases MAX_CODE_INDEX - codec.coding.codeIndex
  {
    hide DecodeSegment, OnSchedule, InRange;
    var remaining := |current| - position;
    if FullSegment(codec, remaining) {
      var end := position + codec.coding.pixelsUntil;
      var segment := DecodeSegment(bits, f, previous, current, codec, position, end);
      if segment.Success? {
        SegmentKeepsSchedule(codec, segment.value.codec, before + position, remaining);
        RowKeepsSchedule(segment.rest, f, previous, segment.value.row, NextIndex(segment.value.codec), end, before);
      }
    } else if remaining != 0 {
      var segment := DecodeSegment(bits, f, previous, current, codec, position, |current|);
      if segment.Success? {
        SegmentKeepsSchedule(codec, segment.value.codec, before + position, remaining);
      }
    }
  }
}
