/** Prediction, residual folding and the coding of one QUIC pixel. */
module QuicPixel {
  import opened Basics
  import opened Bits
  import opened QuicModel
  import Golomb

  type Pixel = p: seq<nat> | |p| == 4 witness [0, 0, 0, 255]

  /** One pass over a row: the components it carries, their width, and the wait table. */
  datatype Format = Format(components: seq<nat>, bpc: nat, random: RandomTable)

  predicate FormatOk(f: Format) {
    && 1 <= f.bpc <= 8
    && (forall i :: 0 <= i < |f.components| ==> f.components[i] < 4)
    && (forall i, j :: 0 <= i < j < |f.components| ==> f.components[i] != f.components[j])
  }

  ghost predicate ChannelsOk(f: Format, channels: seq<Channel>, width: nat) {
    && |channels| == |f.components|
    && forall i :: 0 <= i < |channels| ==> ChannelOk(channels[i], width, f.bpc)
  }

  predicate PreviousOk(previous: Option<seq<Pixel>>, width: nat) {
    previous.Some? ==> |previous.value| == width
  }

  // ---------------------------------------------------------------------------
  // Prediction and folding
  // ---------------------------------------------------------------------------

  function Predictor(previous: Option<seq<Pixel>>, current: seq<Pixel>, position: nat, component: nat): nat
    requires position < |current| && PreviousOk(previous, |current|) && component < 4
  {
    match previous
    case None =>
      if position == 0 then 0 else current[position - 1][component]
    case Some(above) =>
      if position == 0 then above[0][component]
      else (current[position - 1][component] + above[position][component]) / 2
  }

  function Unfold(residual: nat, bpc: nat): (u: nat)
    requires residual < Pow2(bpc)
    ensures u < Pow2(bpc)
  {
    if residual % 2 == 0 then residual / 2 else Pow2(bpc) - 1 - residual / 2
  }

  /** The component a residual stands for, given its prediction. */
  function Reconstruct(predictor: nat, residual: nat, bpc: nat): (v: nat)
    requires residual < Pow2(bpc)
    ensures v < Pow2(bpc)
  {
    Low(predictor + Unfold(residual, bpc), bpc)
  }

  /** The writer's residual: small differences of either sign get small numbers. */
  function Fold(predictor: nat, value: nat, bpc: nat): (residual: nat)
    requires 1 <= bpc && predictor < Pow2(bpc) && value < Pow2(bpc)
    ensures residual < Pow2(bpc)
  {
    var difference := if value >= predictor then value - predictor else value + Pow2(bpc) - predictor;
    if difference < Pow2(bpc - 1) then 2 * difference else 2 * (Pow2(bpc) - 1 - difference) + 1
  }

  lemma {:induction false} LowSmall(v: nat, n: nat)
    requires v < Pow2(n)
    ensures Low(v, n) == v
  {
    if n > 0 {
      LowSmall(v / 2, n - 1);
    }
  }

  lemma {:induction false} LowWraps(v: nat, n: nat)
    ensures Low(v + Pow2(n), n) == Low(v, n)
  {
    if n > 0 {
      LowWraps(v / 2, n - 1);
      assert (v + Pow2(n)) / 2 == v / 2 + Pow2(n - 1);
    }
  }

  /** For every predictor, folding and reconstruction are inverse bijections. */
  lemma FoldBijection(predictor: nat, v: nat, bpc: nat)
    requires 1 <= bpc && predictor < Pow2(bpc) && v < Pow2(bpc)
    ensures Reconstruct(predictor, Fold(predictor, v, bpc), bpc) == v
    ensures Fold(predictor, Reconstruct(predictor, v, bpc), bpc) == v
  {
    hide *;
    ReconstructOfFold(predictor, v, bpc);
    FoldOfReconstruct(predictor, v, bpc);
  }

  lemma ReconstructOfFold(predictor: nat, v: nat, bpc: nat)
    requires 1 <= bpc && predictor < Pow2(bpc) && v < Pow2(bpc)
    ensures Reconstruct(predictor, Fold(predictor, v, bpc), bpc) == v
  {
    hide Low, Reconstruct, Pow2;
    var difference := if v >= predictor then v - predictor else v + Pow2(bpc) - predictor;
    UnfoldOfFold(predictor, v, bpc, difference);
    hide Fold, Unfold;
    ReconstructWraps(predictor, Fold(predictor, v, bpc), bpc);
  }

  lemma UnfoldOfFold(predictor: nat, v: nat, bpc: nat, difference: nat)
    requires 1 <= bpc && predictor < Pow2(bpc) && v < Pow2(bpc)
    requires difference == if v >= predictor then v - predictor else v + Pow2(bpc) - predictor
    ensures Unfold(Fold(predictor, v, bpc), bpc) == difference
  {
    var residual := Fold(predictor, v, bpc);
    if difference < Pow2(bpc - 1) {
      assert residual / 2 == difference;
    } else {
      assert residual / 2 == Pow2(bpc) - 1 - difference;
    }
  }

  lemma FoldOfReconstruct(predictor: nat, residual: nat, bpc: nat)
    requires 1 <= bpc && predictor < Pow2(bpc) && residual < Pow2(bpc)
    ensures Fold(predictor, Reconstruct(predictor, residual, bpc), bpc) == residual
  {
    hide Low, Reconstruct;
    assert Pow2(bpc) == 2 * Pow2(bpc - 1);
    ReconstructWraps(predictor, residual, bpc);
  }

  lemma ReconstructWraps(predictor: nat, residual: nat, bpc: nat)
    requires predictor < Pow2(bpc) && residual < Pow2(bpc)
    ensures var sum := predictor + Unfold(residual, bpc);
      Reconstruct(predictor, residual, bpc) == if sum < Pow2(bpc) then sum else sum - Pow2(bpc)
  {
    hide Low, Unfold;
    var sum := predictor + Unfold(residual, bpc);
    if sum < Pow2(bpc) {
      LowSmall(sum, bpc);
    } else {
      LowWraps(sum - Pow2(bpc), bpc);
      LowSmall(sum - Pow2(bpc), bpc);
    }
  }

  // ---------------------------------------------------------------------------
  // One pixel, channel by channel
  // ---------------------------------------------------------------------------

  function SetResidual(ch: Channel, position: nat, residual: nat): Channel
    requires position < |ch.residuals|
  {
    ch.(residuals := ch.residuals[position := residual])
  }

  lemma ResidualKept(f: Format, channels: seq<Channel>, i: nat, position: nat, residual: nat, width: nat)
    requires ChannelsOk(f, channels, width) && i < |channels| && position < width && residual < Pow2(f.bpc)
    ensures ChannelsOk(f, channels[i := SetResidual(channels[i], position, residual)], width)
  {
    hide BucketsOk, Pow2;
    var ch := channels[i];
    assert ChannelOk(ch, width, f.bpc);
    assert Small(ch.residuals[position := residual], f.bpc);
    assert ChannelOk(SetResidual(ch, position, residual), width, f.bpc);
    hide ChannelOk;
  }

  function SetComponent(row: seq<Pixel>, position: nat, component: nat, value: nat): (row': seq<Pixel>)
    requires position < |row| && component < 4
    ensures |row'| == |row|
  {
    row[position := row[position][component := value]]
  }

  /** Reads the channels from `i` on for the pixel at `position`. */
  function DecodeChannels(bits: BitString, f: Format, channels: seq<Channel>,
                          previous: Option<seq<Pixel>>, current: seq<Pixel>, position: nat, i: nat)
      : (r: Parsed<(seq<Channel>, seq<Pixel>)>)
    requires FormatOk(f) && ChannelsOk(f, channels, |current|)
    requires PreviousOk(previous, |current|) && position < |current| && i <= |channels|
    ensures r.Success? ==> ChannelsOk(f, r.value.0, |current|) && |r.value.1| == |current|
    decreases |channels| - i
  {
    if i == |channels| then Success((channels, current), bits)
    else
      var residual := Golomb.Decode(bits, BestCode(channels[i], position, f.bpc), f.bpc);
      if residual.Failure? then Failure(residual.kind)
      else
        var component := f.components[i];
        var value := Reconstruct(Predictor(previous, current, position, component), residual.value, f.bpc);
        ResidualKept(f, channels, i, position, residual.value, |current|);
        DecodeChannels(
          residual.rest, f,
          channels[i := SetResidual(channels[i], position, residual.value)],
          previous,
          SetComponent(current, position, component, value),
          position, i + 1)
  }

  /** Rows whose coded components fit their width. */
  ghost predicate InRange(f: Format, row: seq<Pixel>)
    requires FormatOk(f)
  {
    forall p, i :: 0 <= p < |row| && 0 <= i < |f.components| ==> row[p][f.components[i]] < Pow2(f.bpc)
  }

  ghost predicate Writable(f: Format, previous: Option<seq<Pixel>>, row: seq<Pixel>) {
    && FormatOk(f)
    && PreviousOk(previous, |row|)
    && InRange(f, row)
    && (previous.Some? ==> InRange(f, previous.value))
  }

  ghost function Residual(f: Format, previous: Option<seq<Pixel>>, row: seq<Pixel>, position: nat, i: nat)
      : (residual: nat)
    requires Writable(f, previous, row) && position < |row| && i < |f.components|
    ensures residual < Pow2(f.bpc)
  {
    Fold(Predictor(previous, row, position, f.components[i]), row[position][f.components[i]], f.bpc)
  }

  /** The writer's bits for the channels from `i` on. */
  ghost function EncodeChannels(f: Format, channels: seq<Channel>,
                                previous: Option<seq<Pixel>>, row: seq<Pixel>, position: nat, i: nat)
      : (r: (BitString, seq<Channel>))
    requires Writable(f, previous, row) && ChannelsOk(f, channels, |row|)
    requires position < |row| && i <= |channels|
    ensures ChannelsOk(f, r.1, |row|)
    decreases |channels| - i
  {
    if i == |channels| then ([], channels)
    else
      var residual := Residual(f, previous, row, position, i);
      ResidualKept(f, channels, i, position, residual, |row|);
      var tail := EncodeChannels(f, channels[i := SetResidual(channels[i], position, residual)],
                                 previous, row, position, i + 1);
      (Golomb.Encode(residual, BestCode(channels[i], position, f.bpc), f.bpc) + tail.0, tail.1)
  }

  /** `pixel` with the components of the format taken from `source`. */
  function Paint(f: Format, pixel: Pixel, source: Pixel): Pixel {
    seq(4, c requires 0 <= c < 4 => if c in f.components then source[c] else pixel[c])
  }

  /** `current` with positions `a` up to `b` painted from `row`. */
  function Overlay(f: Format, current: seq<Pixel>, row: seq<Pixel>, a: nat, b: nat): (r: seq<Pixel>)
    requires |row| == |current|
    ensures |r| == |current|
  {
    seq(|current|, p requires 0 <= p < |current| => if a <= p < b then Paint(f, current[p], row[p]) else current[p])
  }

  /** The rows agree on the coded components before `n`. */
  ghost predicate Agree(f: Format, current: seq<Pixel>, row: seq<Pixel>, n: nat)
    requires FormatOk(f) && n <= |current| == |row|
  {
    forall p, i :: 0 <= p < n && 0 <= i < |f.components| ==>
      current[p][f.components[i]] == row[p][f.components[i]]
  }

  ghost function PaintedUpTo(f: Format, current: seq<Pixel>, row: seq<Pixel>, position: nat, i: nat)
      : (r: seq<Pixel>)
    requires |row| == |current| && position < |current| && i <= |f.components|
    ensures |r| == |current|
  {
    var done := Format(f.components[..i], f.bpc, f.random);
    current[position := Paint(done, current[position], row[position])]
  }

  /** The channels from `i` on are read back as written and complete the pixel. */
  lemma {:induction false} ChannelsRoundTrip(
      rest: BitString, f: Format, channels: seq<Channel>, previous: Option<seq<Pixel>>,
      current: seq<Pixel>, row: seq<Pixel>, position: nat, i: nat)
    requires Writable(f, previous, row) && ChannelsOk(f, channels, |row|)
    requires |current| == |row| && position < |row| && i <= |channels|
    requires Agree(f, current, row, position)
    ensures var w := EncodeChannels(f, channels, previous, row, position, i);
      DecodeChannels(w.0 + rest, f, channels, previous, PaintedUpTo(f, current, row, position, i), position, i)
      == Success((w.1, PaintedUpTo(f, current, row, position, |channels|)), rest)
    decreases |channels| - i
  {
    hide Golomb.Decode, Golomb.Encode, BestCode, Fold, Reconstruct, Paint, Pow2;
    var w := EncodeChannels(f, channels, previous, row, position, i);
    var painted := PaintedUpTo(f, current, row, position, i);
    if i == |channels| {
      assert w.0 + rest == rest;
    } else {
      var component := f.components[i];
      var residual := Residual(f, previous, row, position, i);
      var code := BestCode(channels[i], position, f.bpc);
      ResidualKept(f, channels, i, position, residual, |row|);
      var channels' := channels[i := SetResidual(channels[i], position, residual)];
      var tail := EncodeChannels(f, channels', previous, row, position, i + 1);
      assert w.0 + rest == Golomb.Encode(residual, code, f.bpc) + (tail.0 + rest);
      Golomb.RoundTrip(residual, code, f.bpc, tail.0 + rest);
      assert Predictor(previous, painted, position, component) == Predictor(previous, row, position, component);
      FoldBijection(Predictor(previous, row, position, component), row[position][component], f.bpc);
      PaintNext(f, current, row, position, i);
      ChannelsRoundTrip(rest, f, channels', previous, current, row, position, i + 1);
    }
  }

  lemma PaintNext(f: Format, current: seq<Pixel>, row: seq<Pixel>, position: nat, i: nat)
    requires FormatOk(f) && |current| == |row| && position < |row| && i < |f.components|
    ensures SetComponent(PaintedUpTo(f, current, row, position, i), position, f.components[i],
                         row[position][f.components[i]])
         == PaintedUpTo(f, current, row, position, i + 1)
  {
    var c := f.components[i];
    assert f.components[..i + 1] == f.components[..i] + [c];
    var left := SetComponent(PaintedUpTo(f, current, row, position, i), position, c, row[position][c]);
    var right := PaintedUpTo(f, current, row, position, i + 1);
    assert left[position] == right[position];
    assert left == right;
  }
}
