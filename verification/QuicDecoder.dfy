/** The imperative QUIC decoder, proved against the functional reading of the format. */
module QuicDecoder {
  import opened Basics
  import opened Bits
  import opened QuicModel
  import opened QuicPixel
  import opened QuicSegment
  import opened QuicFrame
  import QuicRow
  import opened QuicImage
  import opened QuicLaws
  import Golomb
  import QuicRun

  class CodingState {
    var waitCount: nat
    var randomIndex: byte
    var codeIndex: nat
    var pixelsUntilCodeIndex: nat
    var modelTrigger: nat
    var runState: nat

    constructor ()
      ensures Value() == FreshCoding()
    {
      waitCount := 0;
      randomIndex := 255;
      codeIndex := 0;
      pixelsUntilCodeIndex := CODE_INDEX_PIXELS;
      modelTrigger := TriggerOf(0);
      runState := 0;
    }

    ghost function Value(): Coding
      reads this
    {
      Coding(waitCount, randomIndex, codeIndex, pixelsUntilCodeIndex, modelTrigger, runState)
    }

    method NextWait(random: RandomTable) returns (wait: nat)
      modifies this
      ensures (wait, Value()) == QuicModel.NextWait(old(Value()), random)
    {
      randomIndex := if randomIndex == 255 then 0 else randomIndex + 1;
      wait := Low(random(randomIndex), codeIndex);
    }

    method IncreaseCodeIndex()
      requires CodingOk(Value()) && codeIndex < MAX_CODE_INDEX
      modifies this
      ensures Value() == QuicModel.IncreaseCodeIndex(old(Value()))
    {
      codeIndex := codeIndex + 1;
      pixelsUntilCodeIndex := CODE_INDEX_PIXELS;
      modelTrigger := TriggerOf(codeIndex);
    }
  }

  /** Reads every channel of one pixel in place. */
  method DecodePixel(reader: BitReader, channels: array<Channel>, f: Format,
                     previous: Option<seq<Pixel>>, current: array<Pixel>, position: nat)
      returns (r: Result<()>)
    requires reader.Valid() && FormatOk(f) && ChannelsOk(f, channels[..], current.Length)
    requires PreviousOk(previous, current.Length) && position < current.Length
    modifies reader, channels, current
    ensures reader.Valid()
    ensures
      var spec := DecodeChannels(old(reader.Rest()), f, old(channels[..]), previous, old(current[..]), position, 0);
      && (spec.Success? ==> r.Ok? && reader.Rest() == spec.rest && channels[..] == spec.value.0
                            && current[..] == spec.value.1)
      && (spec.Failure? ==> r == Err(spec.kind))
    ensures r.Ok? && NeighboursOk(f, previous, old(current[..]), position) ==>
      forall j :: 0 <= j < channels.Length ==>
        && |channels[j].residuals| == current.Length
        && Painted(f, previous, old(current[..]), position, j, channels[j].residuals[position], current[..])
  {
    hide Golomb.Decode, BestCode, Reconstruct, AllBits, NeighboursOk, Painted;
    ghost var bits, channels0, current0 := reader.Rest(), channels[..], current[..];
    ghost var spec := DecodeChannels(reader.Rest(), f, channels[..], previous, current[..], position, 0);
    var i := 0;
    while i < channels.Length
      invariant i <= channels.Length
      invariant reader.Valid() && ChannelsOk(f, channels[..], current.Length)
      invariant spec == DecodeChannels(reader.Rest(), f, channels[..], previous, current[..], position, i)
    {
      var channel := channels[i];
      assert channel == channels[..][i];
      var component := f.components[i];
      var residual := Golomb.DecodeGolomb(reader, BestCode(channel, position, f.bpc), f.bpc);
      if residual.Err? {
        return Err(residual.kind);
      }
      var predictor := match previous
        case None => if position == 0 then 0 else current[position - 1][component]
        case Some(above) =>
          if position == 0 then above[0][component]
          else (current[position - 1][component] + above[position][component]) / 2;
      assert predictor == Predictor(previous, current[..], position, component);
      ghost var channels' := channels[..][i := SetResidual(channel, position, residual.value)];
      ghost var current' := SetComponent(current[..], position, component,
                                         Reconstruct(predictor, residual.value, f.bpc));
      channels[i] := channel.(residuals := channel.residuals[position := residual.value]);
      current[position] := current[position][component := Reconstruct(predictor, residual.value, f.bpc)];
      assert channels[..] == channels';
      assert current[..] == current';
      i := i + 1;
    }
    if NeighboursOk(f, previous, current0, position) {
      forall j | 0 <= j < channels.Length
        ensures |channels[..][j].residuals| == current.Length
        ensures Painted(f, previous, current0, position, j, channels[..][j].residuals[position], current[..])
      {
        PaintedFromNeighbours(bits, f, channels0, previous, current0, position, 0, j);
      }
    }
    return Ok(());
  }

  /** A look into the table of contexts, which has an entry for every context a model can hold. */
  method ContextIndex(ghost ch: Channel, ghost position: nat, context: nat, bpc: nat) returns (at: nat)
    requires ChannelOk(ch, |ch.residuals|, bpc) && position <= |ch.residuals| && context == Context(ch, position)
    ensures at == BucketIndex(ch, position, bpc) && at < bpc && BucketOk(ch.buckets[at], bpc)
  {
    var table := ContextBuckets(bpc);
    at := table[context];
  }

  /** Charges every channel's model for the residual at one position. */
  method UpdateChannels(channels: array<Channel>, f: Format, position: nat, trigger: nat, ghost width: nat)
    requires FormatOk(f) && ChannelsOk(f, channels[..], width) && position < width && trigger <= MAX_TRIGGER
    modifies channels
    ensures channels[..] == UpdateModels(f, old(channels[..]), position, trigger)
  {
    hide Update, ContextBuckets, Golomb.CodeLength, BucketOk, Small, Pow2;
    ghost var before := channels[..];
    var i := 0;
    while i < channels.Length
      invariant i <= channels.Length
      invariant forall j :: 0 <= j < channels.Length ==>
        channels[j] == if j < i then UpdateChannel(before[j], position, f.bpc, trigger) else before[j]
    {
      var channel := channels[i];
      assert ChannelOk(before[i], width, f.bpc);
      var context := if position == 0 then channel.prior else channel.residuals[position - 1];
      assert context == Context(before[i], position);
      var at := ContextIndex(before[i], position, context, f.bpc);
      var bucket := UpdateBucket(channel.buckets[at], channel.residuals[position], f.bpc, trigger);
      channels[i] := channel.(buckets := channel.buckets[at := bucket]);
      i := i + 1;
    }
    assert channels[..] == UpdateModels(f, before, position, trigger);
  }

  /** Copies the coded components of the pixel before a run onto the run, in place. */
  method FillRun(f: Format, current: array<Pixel>, position: nat, length: nat)
    requires FormatOk(f) && 1 <= position && position + length <= current.Length
    modifies current
    ensures current[..] == Fill(f, old(current[..]), position, length)
  {
    ghost var before := current[..];
    var source := current[position - 1];
    var p := position;
    while p < position + length
      invariant position <= p <= position + length
      invariant forall q :: 0 <= q < current.Length ==>
        current[q] == if position <= q < p then Paint(f, before[q], source) else before[q]
    {
      ghost var pixel := current[p];
      var i := 0;
      while i < |f.components|
        invariant i <= |f.components|
        invariant forall c :: 0 <= c < 4 ==>
          current[p][c] == if c in f.components[..i] then source[c] else pixel[c]
        invariant forall q :: 0 <= q < current.Length && q != p ==>
          current[q] == if position <= q < p then Paint(f, before[q], source) else before[q]
      {
        var c := f.components[i];
        current[p] := current[p][c := source[c]];
        assert f.components[..i + 1] == f.components[..i] + [c];
        i := i + 1;
      }
      assert f.components[..i] == f.components;
      assert current[p] == Paint(f, pixel, source);
      p := p + 1;
    }
    assert current[..] == Fill(f, before, position, length);
  }

  /** The codec held by a decoder's mutable parts. */
  ghost function Held(state: CodingState, channels: array<Channel>): Codec
    reads state, channels
  {
    Codec(channels[..], state.Value())
  }

  /** What the reader would still do from a cursor. */
  ghost function Remaining(reader: BitReader, state: CodingState, channels: array<Channel>, f: Format,
                           previous: Option<seq<Pixel>>, current: array<Pixel>, k: Cursor, end: nat)
      : Parsed<Done>
    requires reader.Valid() && Ready(f, Held(state, channels), previous, current[..])
    requires CursorOk(k, end) && end <= current.Length
    reads reader, state, channels, current
  {
    DecodeFrom(reader.Rest(), f, previous, current[..], Held(state, channels), k, end)
  }

  /** A run read at the cursor and copied over the row. */
  method ReadRun(reader: BitReader, state: CodingState, channels: array<Channel>, f: Format,
                 previous: Option<seq<Pixel>>, current: array<Pixel>, ghost k: Cursor, position: nat, stop: nat,
                 end: nat)
      returns (r: Result<nat>)
    requires reader.Valid() && Ready(f, Held(state, channels), previous, current[..])
    requires CursorOk(k, end) && end <= current.Length && k.position == position && k.stop == stop
    requires position < Min(end, stop + 1) && ShouldRun(f, previous, current[..], position, k.runIndex)
    modifies reader, state, current
    ensures reader.Valid() && Ready(f, Held(state, channels), previous, current[..])
    ensures state.Value().codeIndex == old(state.Value()).codeIndex
    ensures var spec := old(Remaining(reader, state, channels, f, previous, current, k, end));
      && (r.Err? ==> spec == Failure(r.kind))
      && (r.Ok? ==>
            && position + r.value <= end
            && Within(f, old(current[..]), current[..], position, position + r.value)
            && state.waitCount == stop - position
            && spec == if position + r.value == end
                       then Success(Done(Held(state, channels), current[..]), reader.Rest())
                       else Remaining(reader, state, channels, f, previous, current,
                                      Cursor(position + r.value, position + r.value + (stop - position), position),
                                      end))
  {
    hide QuicRun.Decode, DecodeChannels, Fill, Adapt, ShouldRun, AllBits, Within;
    state.waitCount := stop - position;
    var length, runState := QuicRun.DecodeRun(reader, state.runState, end - position);
    if length.Err? {
      return length;
    }
    state.runState := runState;
    FillWithin(f, current[..], position, length.value);
    FillRun(f, current, position, length.value);
    return length;
  }

  /** One pixel read at the cursor. */
  method ReadPixel(reader: BitReader, state: CodingState, channels: array<Channel>, f: Format,
                   previous: Option<seq<Pixel>>, current: array<Pixel>, ghost k: Cursor, position: nat, end: nat)
      returns (r: Result<()>)
    requires reader.Valid() && Ready(f, Held(state, channels), previous, current[..])
    requires CursorOk(k, end) && end <= current.Length && k.position == position
    requires position < Min(end, k.stop + 1) && !ShouldRun(f, previous, current[..], position, k.runIndex)
    modifies reader, channels, current
    ensures reader.Valid()
    ensures r.Ok? ==> Ready(f, Held(state, channels), previous, current[..])
    ensures r.Ok? ==> Within(f, old(current[..]), current[..], position, position + 1)
    ensures var spec := old(Remaining(reader, state, channels, f, previous, current, k, end));
      && (r.Err? ==> spec == Failure(r.kind))
      && (r.Ok? ==> spec == Remaining(reader, state, channels, f, previous, current,
                                      k.(position := position + 1), end))
  {
    hide QuicRun.Decode, DecodeChannels, Fill, Adapt, ShouldRun, AllBits, Within;
    ChannelsWithin(reader.Rest(), f, channels[..], previous, current[..], position, 0);
    r := DecodePixel(reader, channels, f, previous, current, position);
  }

  /** A model update at the stop index and the draw of the next one. */
  method AdaptAtStop(reader: BitReader, state: CodingState, channels: array<Channel>, f: Format,
                     previous: Option<seq<Pixel>>, current: array<Pixel>, ghost k: Cursor, stop: nat, end: nat)
      returns (wait: nat)
    requires reader.Valid() && Ready(f, Held(state, channels), previous, current[..])
    requires CursorOk(k, end) && end <= current.Length && k.stop == stop
    requires stop < end && stop < k.position
    modifies state, channels
    ensures Ready(f, Held(state, channels), previous, current[..])
    ensures old(Remaining(reader, state, channels, f, previous, current, k, end))
         == Remaining(reader, state, channels, f, previous, current, k.(stop := k.position + wait), end)
  {
    hide QuicRun.Decode, DecodeChannels, Fill, ShouldRun, AllBits, UpdateModels, QuicModel.NextWait;
    AdaptOk(f, Held(state, channels), stop, current.Length);
    UpdateChannels(channels, f, stop, state.modelTrigger, current.Length);
    wait := state.NextWait(f.random);
  }

  /** How a stretch of pixels up to the stop index ended. */
  datatype Stretch = Finished | Ran(position: nat, wait: nat) | Stopped

  /** Pixels up to the stop index, or up to and including the first run. Positions that had been passed
      before, and those not yet reached, keep their values. */
  method DecodeStretch(reader: BitReader, state: CodingState, channels: array<Channel>, f: Format,
                       previous: Option<seq<Pixel>>, current: array<Pixel>,
                       start: nat, stop: nat, runIndex: nat, end: nat)
      returns (r: Result<Stretch>, position: nat)
    requires reader.Valid() && Ready(f, Held(state, channels), previous, current[..])
    requires 1 <= start <= end <= current.Length && start <= stop
    modifies reader, state, channels, current
    ensures reader.Valid() && start <= position
    ensures r.Ok? ==> Within(f, old(current[..]), current[..], start, position)
    ensures
      var spec := old(Remaining(reader, state, channels, f, previous, current, Cursor(start, stop, runIndex), end));
      match r
      case Err(kind) => spec == Failure(kind)
      case Ok(Finished) =>
        && position == end
        && spec == Success(Done(Held(state, channels), current[..]), reader.Rest())
      case Ok(Ran(at, wait)) =>
        && start <= at <= position < end
        && (position == start ==> runIndex != start)
        && Ready(f, Held(state, channels), previous, current[..])
        && state.waitCount == wait
        && spec == Remaining(reader, state, channels, f, previous, current, Cursor(position, position + wait, at), end)
      case Ok(Stopped) =>
        && position == Min(end, stop + 1)
        && Ready(f, Held(state, channels), previous, current[..])
        && spec == Remaining(reader, state, channels, f, previous, current, Cursor(position, stop, runIndex), end)
  {
    hide DecodeFrom, DecodeChannels, Fill, ShouldRun, AllBits, ChannelsOk, CodingOk, Within;
    ghost var spec := Remaining(reader, state, channels, f, previous, current, Cursor(start, stop, runIndex), end);
    ghost var before := current[..];
    WithinNothing(f, before, start, start);
    position := start;
    while position < Min(end, stop + 1)
      invariant reader.Valid() && Ready(f, Held(state, channels), previous, current[..])
      invariant start <= position <= Min(end, stop + 1)
      invariant Within(f, before, current[..], start, position)
      invariant spec == Remaining(reader, state, channels, f, previous, current, Cursor(position, stop, runIndex), end)
    {
      ghost var k := Cursor(position, stop, runIndex);
      ghost var entry := current[..];
      if ShouldRun(f, previous, current[..], position, runIndex) {
        RunFresh(f, previous, current[..], position, runIndex);
        var at := position;
        var run := ReadRun(reader, state, channels, f, previous, current, k, position, stop, end);
        if run.Err? {
          return Err(run.kind), position;
        }
        WithinJoins(f, before, entry, current[..], start, position, position + run.value);
        position := position + run.value;
        if position == end {
          return Ok(Finished), position;
        }
        return Ok(Ran(at, state.waitCount)), position;
      }
      var pixel := ReadPixel(reader, state, channels, f, previous, current, k, position, end);
      if pixel.Err? {
        return Err(pixel.kind), position;
      }
      WithinJoins(f, before, entry, current[..], start, position, position + 1);
      position := position + 1;
    }
    return Ok(Stopped), position;
  }

  /** One row segment. It changes the format's components of [start, end) and nothing else; each stretch
      of it begins where the one before ended. */
  method DecodeRowSegment(reader: BitReader, state: CodingState, channels: array<Channel>, f: Format,
                          previous: Option<seq<Pixel>>, current: array<Pixel>, start: nat, end: nat)
      returns (r: Result<()>)
    requires reader.Valid() && Ready(f, Held(state, channels), previous, current[..])
    requires start < end <= current.Length
    modifies reader, state, channels, current
    ensures reader.Valid()
    ensures r.Ok? ==> Within(f, old(current[..]), current[..], start, end)
    ensures
      var spec := DecodeSegment(old(reader.Rest()), f, previous, old(current[..]), old(Held(state, channels)), start,
                                end);
      && (spec.Failure? ==> r == Err(spec.kind))
      && (spec.Success? ==> r.Ok? && reader.Rest() == spec.rest
                            && current[..] == spec.value.row && Held(state, channels) == spec.value.codec)
  {
    hide DecodeFrom, DecodeChannels, ShouldRun, AllBits, UpdateModels, Adapt, ChannelsOk, CodingOk, Within;
    ghost var spec := DecodeSegment(reader.Rest(), f, previous, current[..], Held(state, channels), start, end);
    SegmentWithin(reader.Rest(), f, previous, current[..], Held(state, channels), start, end);
    var position: nat := start;
    var runIndex: nat := 0;
    if position == 0 {
      r := DecodeFirst(reader, state, channels, f, previous, current, end);
      if r.Err? {
        return;
      }
      position := 1;
    }
    var stop: nat := position + state.waitCount;
    while true
      invariant reader.Valid() && Ready(f, Held(state, channels), previous, current[..])
      invariant 1 <= position <= end && position <= stop && start <= position
      invariant spec == Remaining(reader, state, channels, f, previous, current, Cursor(position, stop, runIndex), end)
      decreases end - position, runIndex != position
    {
      var stretch;
      stretch, position := DecodeStretch(reader, state, channels, f, previous, current, position, stop, runIndex, end);
      match stretch
      case Err(kind) =>
        return Err(kind);
      case Ok(Finished) =>
        return Ok(());
      case Ok(Ran(at, wait)) =>
        runIndex := at;
        stop := position + wait;
      case Ok(Stopped) =>
        ghost var k := Cursor(position, stop, runIndex);
        if stop < end {
          var wait := AdaptAtStop(reader, state, channels, f, previous, current, k, stop, end);
          stop := position + wait;
        } else {
          SegmentEnds(reader.Rest(), f, previous, current[..], Held(state, channels), k, end);
          state.waitCount := stop - end;
          return Ok(());
        }
    }
  }

  lemma SegmentEnds(bits: BitString, f: Format, previous: Option<seq<Pixel>>, current: seq<Pixel>,
                    codec: Codec, k: Cursor, end: nat)
    requires Ready(f, codec, previous, current) && CursorOk(k, end) && end <= |current|
    requires k.position == end <= k.stop
    ensures DecodeFrom(bits, f, previous, current, codec, k, end)
         == Success(Done(codec.(coding := codec.coding.(wait := k.stop - end)), current), bits)
  {
  }

  /** The first pixel of a row and its wait rule. */
  method DecodeFirst(reader: BitReader, state: CodingState, channels: array<Channel>, f: Format,
                     previous: Option<seq<Pixel>>, current: array<Pixel>, ghost end: nat)
      returns (r: Result<()>)
    requires reader.Valid() && Ready(f, Held(state, channels), previous, current[..])
    requires 0 < end <= current.Length
    modifies reader, state, channels, current
    ensures reader.Valid()
    ensures r.Ok? ==> Ready(f, Held(state, channels), previous, current[..])
    ensures
      var spec := DecodeSegment(old(reader.Rest()), f, previous, old(current[..]), old(Held(state, channels)), 0, end);
      && (r.Err? ==> spec == Failure(r.kind))
      && (r.Ok? ==> spec == Remaining(reader, state, channels, f, previous, current,
                                      StartCursor(1, state.waitCount), end))
  {
    hide DecodeFrom, DecodeChannels, AllBits, UpdateModels, QuicModel.NextWait;
    r := DecodePixel(reader, channels, f, previous, current, 0);
    if r.Err? {
      return;
    }
    AfterFirstOk(f, Held(state, channels), current.Length);
    if state.waitCount != 0 {
      state.waitCount := state.waitCount - 1;
    } else {
      var wait := state.NextWait(f.random);
      state.waitCount := wait;
      UpdateChannels(channels, f, 0, state.modelTrigger, current.Length);
    }
  }

  /** Cuts one row into segments where the code index grows. */
  method DecodeRow(reader: BitReader, state: CodingState, channels: array<Channel>, f: Format,
                   previous: Option<seq<Pixel>>, current: array<Pixel>)
      returns (r: Result<()>)
    requires reader.Valid() && Ready(f, Held(state, channels), previous, current[..])
    modifies reader, state, channels, current
    ensures reader.Valid()
    ensures
      var spec := QuicRow.DecodeRow(old(reader.Rest()), f, previous, old(current[..]), old(Held(state, channels)), 0);
      && (spec.Failure? ==> r == Err(spec.kind))
      && (spec.Success? ==> r.Ok? && reader.Rest() == spec.rest
                            && current[..] == spec.value.row && Held(state, channels) == spec.value.codec)
  {
    hide DecodeSegment, AllBits, ChannelsOk;
    ghost var spec := QuicRow.DecodeRow(reader.Rest(), f, previous, current[..], Held(state, channels), 0);
    var position: nat := 0;
    var remaining: nat := current.Length;
    while state.codeIndex < MAX_CODE_INDEX && state.pixelsUntilCodeIndex <= remaining
      invariant reader.Valid() && Ready(f, Held(state, channels), previous, current[..])
      invariant position + remaining == current.Length
      invariant spec == QuicRow.DecodeRow(reader.Rest(), f, previous, current[..], Held(state, channels), position)
      decreases MAX_CODE_INDEX - state.codeIndex
    {
      // The countdown is never zero here, so the source's test for it always passes.
      var segmentEnd := position + state.pixelsUntilCodeIndex;
      r := DecodeRowSegment(reader, state, channels, f, previous, current, position, segmentEnd);
      if r.Err? {
        return;
      }
      position := segmentEnd;
      remaining := remaining - state.pixelsUntilCodeIndex;
      state.IncreaseCodeIndex();
    }
    if remaining != 0 {
      r := DecodeRowSegment(reader, state, channels, f, previous, current, position, position + remaining);
      if r.Err? {
        return;
      }
      if state.codeIndex < MAX_CODE_INDEX {
        state.pixelsUntilCodeIndex := state.pixelsUntilCodeIndex - remaining;
      }
    }
    return Ok(());
  }

  method ReadU32(reader: BitReader) returns (r: Result<nat>)
    requires reader.Valid()
    modifies reader
    ensures reader.Valid()
    ensures var spec := ReadWord(old(reader.Rest()));
      && (spec.Failure? ==> r == Err(spec.kind))
      && (spec.Success? ==> r == Ok(spec.value) && reader.Rest() == spec.rest)
  {
    hide Take, Shl, AllBits;
    var high := reader.ReadBits(16);
    if high.Err? {
      return high;
    }
    var low := reader.ReadBits(16);
    if low.Err? {
      return low;
    }
    return Ok(Shl(high.value, 16) + low.value);
  }

  /** Starts every channel of a pass on its next row. */
  method StartNextRows(state: CodingState, channels: array<Channel>, f: Format, ghost width: nat)
    requires ChannelsOk(f, channels[..], width) && width > 0
    modifies channels
    ensures Held(state, channels) == NextRowCodec(old(Held(state, channels)))
  {
    ghost var before := channels[..];
    var i := 0;
    while i < channels.Length
      invariant i <= channels.Length
      invariant forall j :: 0 <= j < channels.Length ==>
        channels[j] == if j < i then StartNextRow(before[j]) else before[j]
    {
      assert ChannelOk(before[i], width, f.bpc);
      channels[i] := channels[i].(prior := channels[i].residuals[0]);
      i := i + 1;
    }
    assert channels[..] == NextRowCodec(Codec(before, state.Value())).channels;
  }

  /** The header, read field by field. */
  method ReadHeaderFields(reader: BitReader) returns (r: Result<Header>)
    requires reader.Valid()
    modifies reader
    ensures reader.Valid()
    ensures var spec := ReadHeader(old(reader.Rest()));
      && (spec.Failure? ==> r == Err(spec.kind))
      && (spec.Success? ==> r == Ok(spec.value) && reader.Rest() == spec.rest)
  {
    hide ReadWord, AllBits;
    var magic := ReadU32(reader);
    if magic.Err? { return Err(magic.kind); }
    var version := ReadU32(reader);
    if version.Err? { return Err(version.kind); }
    var tag := ReadU32(reader);
    if tag.Err? { return Err(tag.kind); }
    var width := ReadU32(reader);
    if width.Err? { return Err(width.kind); }
    var height := ReadU32(reader);
    if height.Err? { return Err(height.kind); }
    return Ok(Header(magic.value, version.value, tag.value, width.value, height.value));
  }

  ghost function HeldPlanes(colorState: CodingState, color: array<Channel>,
                            alphaState: CodingState, alpha: array<Channel>): Planes
    reads colorState, color, alphaState, alpha
  {
    Planes(Held(colorState, color), Held(alphaState, alpha))
  }

  /** Decodes the row after `rows`: colour, then alpha for Rgba. */
  method NextRow(reader: BitReader, colorState: CodingState, color: array<Channel>,
                 alphaState: CodingState, alpha: array<Channel>,
                 t: ImageType, random: RandomTable, width: nat, rows: seq<seq<Pixel>>, ghost height: nat)
      returns (r: Result<seq<Pixel>>)
    requires reader.Valid() && colorState != alphaState && color != alpha
    requires PlanesOk(t, random, HeldPlanes(colorState, color, alphaState, alpha), width)
    requires width > 0 && RowsOk(rows, width) && |rows| < height
    modifies reader, colorState, alphaState, color, alpha
    ensures reader.Valid()
    ensures r.Ok? ==> |r.value| == width
                      && PlanesOk(t, random, HeldPlanes(colorState, color, alphaState, alpha), width)
    ensures var spec := DecodeRows(old(reader.Rest()), t, random, width, height,
                                   old(HeldPlanes(colorState, color, alphaState, alpha)), rows);
      && (r.Err? ==> spec == Failure(r.kind))
      && (r.Ok? ==> spec == DecodeRows(reader.Rest(), t, random, width, height,
                                       HeldPlanes(colorState, color, alphaState, alpha), rows + [r.value]))
  {
    hide QuicRow.DecodeRow, AllBits, NextRowCodec;
    StartRowOk(t, random, HeldPlanes(colorState, color, alphaState, alpha), width, rows == []);
    if rows != [] {
      StartNextRows(colorState, color, ColorFormat(t, random), width);
      StartNextRows(alphaState, alpha, AlphaFormat(random), width);
    }
    var current := new Pixel[width](_ => [0, 0, 0, 255]);
    assert current[..] == Blank(width);
    var passed := DecodeRow(reader, colorState, color, ColorFormat(t, random), Previous(rows), current);
    if passed.Err? {
      return Err(passed.kind);
    }
    if t == Rgba {
      passed := DecodeRow(reader, alphaState, alpha, AlphaFormat(random), Previous(rows), current);
      if passed.Err? {
        return Err(passed.kind);
      }
    }
    return Ok(current[..]);
  }

  /** Decodes every row of an image from fresh models. */
  method DecodeAllRows(reader: BitReader, t: ImageType, random: RandomTable, width: nat, height: nat)
      returns (r: Result<seq<seq<Pixel>>>)
    requires reader.Valid() && width > 0
    requires PlanesOk(t, random, FreshPlanes(t, width), width)
    modifies reader
    ensures reader.Valid()
    ensures var spec := DecodeRows(old(reader.Rest()), t, random, width, height, FreshPlanes(t, width), []);
      && (spec.Failure? ==> r == Err(spec.kind))
      && (spec.Success? ==> r == Ok(spec.value))
  {
    hide AllBits, FreshChannel, DecodeRows, PlanesOk;
    var colorState := new CodingState();
    var alphaState := new CodingState();
    var channel := FreshChannel(width, ComponentBits(t));
    var color := new Channel[] [channel, channel, channel];
    var alpha := new Channel[] [FreshChannel(width, 8)];
    assert HeldPlanes(colorState, color, alphaState, alpha) == FreshPlanes(t, width);
    ghost var spec := DecodeRows(reader.Rest(), t, random, width, height, FreshPlanes(t, width), []);
    var rows := [];
    while |rows| < height
      invariant reader.Valid()
      invariant PlanesOk(t, random, HeldPlanes(colorState, color, alphaState, alpha), width)
      invariant RowsOk(rows, width) && |rows| <= height
      invariant spec == DecodeRows(reader.Rest(), t, random, width, height,
                                   HeldPlanes(colorState, color, alphaState, alpha), rows)
    {
      var row := NextRow(reader, colorState, color, alphaState, alpha, t, random, width, rows, height);
      if row.Err? {
        return Err(row.kind);
      }
      rows := rows + [row.value];
    }
    RowsFinished(reader.Rest(), t, random, width, height, HeldPlanes(colorState, color, alphaState, alpha), rows);
    return Ok(rows);
  }

  /** Decodes one complete payload. */
  method DecodeQuic(input: seq<byte>, expectedWidth: nat, expectedHeight: nat, limits: Limits, random: RandomTable)
      returns (r: Result<Image>)
    ensures r == Decode(input, expectedWidth, expectedHeight, limits, random)
  {
    hide ReadHeader, AllBits, CheckHeader, ExpandRows, FreshPlanes, DecodeRows, PlanesOk;
    if |input| < HEADER_BYTES || |input| % 4 != 0 {
      return Err(Truncated);
    }
    var reader := new BitReader(input);
    var header := ReadHeaderFields(reader);
    if header.Err? {
      return Err(header.kind);
    }
    var h := header.value;
    var checked := CheckHeader(h, expectedWidth, expectedHeight, limits);
    if checked.Err? {
      return Err(checked.kind);
    }
    FreshPlanesOk(checked.value, random, h.width);
    var rows := DecodeAllRows(reader, checked.value, random, h.width, h.height);
    if rows.Err? {
      return Err(rows.kind);
    }
    return Ok(Image(h.width, h.height, checked.value, ExpandRows(checked.value, rows.value)));
  }

  lemma RowsFinished(bits: BitString, t: ImageType, random: RandomTable, width: nat, height: nat,
                     planes: Planes, rows: seq<seq<Pixel>>)
    requires PlanesOk(t, random, planes, width) && width > 0 && RowsOk(rows, width) && |rows| == height
    ensures DecodeRows(bits, t, random, width, height, planes, rows) == Success(rows, bits)
  {
  }
}
