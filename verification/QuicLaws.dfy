/** What the parts of the QUIC codec that writer and reader share compute, in terms of pixels and numbers.

  A writer that mirrors the reader agrees with it on any prediction, any model
  and any table. The laws here say which ones the format has.
*/
module QuicLaws {
  import opened Basics
  import opened Bits
  import opened QuicModel
  import opened QuicPixel
  import opened QuicSegment
  import opened QuicImage
  import Golomb
  import QuicRun

  // ---------------------------------------------------------------------------
  // Prediction
  // ---------------------------------------------------------------------------

  /** What the neighbours predict: nothing in the corner, the left one in the first row, the one above in the
      first column, and elsewhere their mean, rounded down. */
  ghost predicate Predicted(previous: Option<seq<Pixel>>, current: seq<Pixel>, position: nat, c: nat, value: nat)
    requires position < |current| && PreviousOk(previous, |current|) && c < 4
  {
    match previous
    case None => value == if position == 0 then 0 else current[position - 1][c]
    case Some(above) =>
      if position == 0 then value == above[0][c]
      else 2 * value <= current[position - 1][c] + above[position][c] <= 2 * value + 1
  }

  /** An even residual 2k is k more than predicted, an odd one 2k - 1 is k less, both modulo the width. */
  ghost predicate Corrected(predicted: nat, residual: nat, value: nat, modulus: nat) {
    && value < modulus
    && (residual % 2 == 0 ==>
          value == predicted + residual / 2 || value + modulus == predicted + residual / 2)
    && (residual % 2 == 1 ==>
          value + (residual + 1) / 2 == predicted || value + (residual + 1) / 2 == predicted + modulus)
  }

  lemma ReconstructCorrects(predicted: nat, residual: nat, bpc: nat)
    requires 1 <= bpc && predicted < Pow2(bpc) && residual < Pow2(bpc)
    ensures Corrected(predicted, residual, Reconstruct(predicted, residual, bpc), Pow2(bpc))
  {
    ReconstructWraps(predicted, residual, bpc);
    assert Pow2(bpc) == 2 * Pow2(bpc - 1);
    hide Pow2, Reconstruct;
  }

  lemma PredictorPredicts(previous: Option<seq<Pixel>>, current: seq<Pixel>, position: nat, c: nat)
    requires position < |current| && PreviousOk(previous, |current|) && c < 4
    ensures Predicted(previous, current, position, c, Predictor(previous, current, position, c))
  {
  }

  /** The neighbours of a position are within the width. */
  ghost predicate NeighboursOk(f: Format, previous: Option<seq<Pixel>>, current: seq<Pixel>, position: nat)
    requires FormatOk(f) && position < |current| && PreviousOk(previous, |current|)
  {
    forall i :: 0 <= i < |f.components| ==>
      && (position > 0 ==> current[position - 1][f.components[i]] < Pow2(f.bpc))
      && (previous.Some? ==> previous.value[position][f.components[i]] < Pow2(f.bpc))
  }

  lemma PredictorFits(f: Format, previous: Option<seq<Pixel>>, current: seq<Pixel>, position: nat, i: nat)
    requires FormatOk(f) && position < |current| && PreviousOk(previous, |current|) && i < |f.components|
    requires NeighboursOk(f, previous, current, position)
    ensures Predictor(previous, current, position, f.components[i]) < Pow2(f.bpc)
  {
    hide Pow2;
  }

  /** Component `i` of a decoded pixel is what its neighbours predict, corrected by the residual read. */
  ghost predicate Painted(f: Format, previous: Option<seq<Pixel>>, before: seq<Pixel>, position: nat, i: nat,
                          residual: nat, after: seq<Pixel>)
    requires FormatOk(f) && position < |before| == |after| && PreviousOk(previous, |before|) && i < |f.components|
  {
    exists predicted: nat ::
      && Predicted(previous, before, position, f.components[i], predicted)
      && Corrected(predicted, residual, after[position][f.components[i]], Pow2(f.bpc))
  }

  /** Whatever the bits, every component of a decoded pixel is painted so, from the pixels before and above. */
  lemma {:induction false} PaintedFromNeighbours(
      bits: BitString, f: Format, channels: seq<Channel>, previous: Option<seq<Pixel>>, current: seq<Pixel>,
      position: nat, i: nat, j: nat)
    requires FormatOk(f) && ChannelsOk(f, channels, |current|)
    requires PreviousOk(previous, |current|) && position < |current| && i <= j < |channels|
    requires NeighboursOk(f, previous, current, position)
    ensures var r := DecodeChannels(bits, f, channels, previous, current, position, i);
      r.Success? ==>
        && |r.value.0[j].residuals| == |current|
        && Painted(f, previous, current, position, j, r.value.0[j].residuals[position], r.value.1)
    decreases |channels| - i
  {
    hide Golomb.Decode, BestCode, Reconstruct, Predictor, Pow2, Corrected, BucketsOk, Small;
    var r := DecodeChannels(bits, f, channels, previous, current, position, i);
    if r.Success? {
      assert ChannelOk(r.value.0[j], |current|, f.bpc);
      var residual := Golomb.Decode(bits, BestCode(channels[i], position, f.bpc), f.bpc);
      var c := f.components[i];
      var predicted := Predictor(previous, current, position, c);
      var value := Reconstruct(predicted, residual.value, f.bpc);
      var channels' := channels[i := SetResidual(channels[i], position, residual.value)];
      var current' := SetComponent(current, position, c, value);
      ResidualKept(f, channels, i, position, residual.value, |current|);
      if i < j {
        PaintedFromNeighbours(residual.rest, f, channels', previous, current', position, i + 1, j);
        SameNeighbours(f, previous, current, current', position, j, r.value.0[j].residuals[position], r.value.1);
      } else {
        RestKeeps(residual.rest, f, channels', previous, current', position, i + 1, i);
        PredictorFits(f, previous, current, position, i);
        PredictorPredicts(previous, current, position, c);
        ReconstructCorrects(predicted, residual.value, f.bpc);
      }
    }
  }

  lemma SameNeighbours(f: Format, previous: Option<seq<Pixel>>, before: seq<Pixel>, before': seq<Pixel>,
                       position: nat, j: nat, residual: nat, after: seq<Pixel>)
    requires FormatOk(f) && position < |before| == |before'| == |after| && PreviousOk(previous, |before|)
    requires j < |f.components| && (position > 0 ==> before'[position - 1] == before[position - 1])
    requires Painted(f, previous, before', position, j, residual, after)
    ensures Painted(f, previous, before, position, j, residual, after)
  {
    hide Corrected;
    var predicted: nat :|
      && Predicted(previous, before', position, f.components[j], predicted)
      && Corrected(predicted, residual, after[position][f.components[j]], Pow2(f.bpc));
    assert Predicted(previous, before, position, f.components[j], predicted);
  }

  /** The channels still to come touch neither the residual nor the component of one that is done. */
  lemma {:induction false} RestKeeps(
      bits: BitString, f: Format, channels: seq<Channel>, previous: Option<seq<Pixel>>, current: seq<Pixel>,
      position: nat, i: nat, done: nat)
    requires FormatOk(f) && ChannelsOk(f, channels, |current|)
    requires PreviousOk(previous, |current|) && position < |current| && done < i <= |channels|
    ensures var r := DecodeChannels(bits, f, channels, previous, current, position, i);
      r.Success? ==>
        && r.value.0[done] == channels[done]
        && r.value.1[position][f.components[done]] == current[position][f.components[done]]
    decreases |channels| - i
  {
    hide Golomb.Decode, BestCode, Reconstruct, Predictor, Pow2;
    if i < |channels| {
      var residual := Golomb.Decode(bits, BestCode(channels[i], position, f.bpc), f.bpc);
      if residual.Success? {
        var value := Reconstruct(Predictor(previous, current, position, f.components[i]), residual.value, f.bpc);
        ResidualKept(f, channels, i, position, residual.value, |current|);
        RestKeeps(residual.rest, f, channels[i := SetResidual(channels[i], position, residual.value)], previous,
                  SetComponent(current, position, f.components[i], value), position, i + 1, done);
      }
    }
  }

  // ---------------------------------------------------------------------------
  // Models
  // ---------------------------------------------------------------------------

  /** Unary prefixes of a codeword before the escape, for both widths. */
  lemma PrefixTable(code: nat)
    ensures code < 8 ==> Golomb.MaxPrefix(code, 8) == [18, 18, 18, 18, 15, 7, 3, 1][code]
    ensures code < 5 ==> Golomb.MaxPrefix(code, 5) == [21, 15, 7, 3, 1][code]
  {
    assert Pow2(1) == 2 && Pow2(2) == 4 && Pow2(3) == 8 && Pow2(4) == 16 && Pow2(5) == 32 && Pow2(6) == 64;
    assert Pow2(7) == 128 && Pow2(8) == 256;
  }

  lemma BitLengthOne(x: nat)
    requires x > 0
    ensures Golomb.BitLength(x) >= 1 && (x == 1 ==> Golomb.BitLength(x) == 1)
  {
  }

  /** Contexts are grouped by magnitude: bucket k holds those from 2^k - 1 up to 2^(k+1) - 2, the last bucket
      all that remain. */
  lemma ContextGroups(bpc: nat, context: nat)
    requires 1 <= bpc <= 8 && context < Pow2(bpc)
    ensures var k := ContextBuckets(bpc)[context];
      Pow2(k) <= context + 1 && (k < bpc - 1 ==> context + 1 < Pow2(k + 1))
  {
    hide Pow2, Golomb.BitLength;
    Golomb.BitLengthBounds(context + 1);
    var b := Golomb.BitLength(context + 1);
    BitLengthOne(context + 1);
    var k := ContextBuckets(bpc)[context];
    assert k == Min(b - 1, bpc - 1);
    Pow2Monotone(k, b - 1);
  }

  /** A charge adds to each counter the length of the codeword that its code has for the value. All counters
      are halved if and only if every one of them is then above the trigger. */
  lemma UpdateDoes(b: Bucket, value: nat, bpc: nat, trigger: nat, i: nat)
    requires BucketShape(b, bpc) && value < Pow2(bpc) && i < bpc
    ensures var b' := Update(b, value, bpc, trigger);
      var cost := b.counters[i] + |Golomb.Encode(value, i, bpc)|;
      b'.counters[i] ==
        if forall j :: 0 <= j < bpc ==> b.counters[j] + |Golomb.Encode(value, j, bpc)| > trigger
        then cost / 2 else cost
  {
    hide Golomb.CodeLength, BestFrom, Golomb.Encode;
    forall j | 0 <= j < bpc
      ensures Charged(b.counters, value, bpc)[j] == b.counters[j] + |Golomb.Encode(value, j, bpc)|
    {
      Golomb.Length(value, j, bpc);
    }
    UpdateChoosesLargestCheapest(b, value, bpc, trigger);
  }

  /** The context of a position is the residual before it, or at the start of a row the first residual of the
      row above; only the bucket of that context is charged, with the residual of the position. */
  lemma UpdateChannelDoes(ch: Channel, position: nat, bpc: nat, trigger: nat)
    requires ChannelOk(ch, |ch.residuals|, bpc) && position < |ch.residuals| && trigger <= MAX_TRIGGER
    ensures var ch' := UpdateChannel(ch, position, bpc, trigger);
      var context := if position == 0 then ch.prior else ch.residuals[position - 1];
      && context < Pow2(bpc)
      && var k := ContextBuckets(bpc)[context];
         && ch'.residuals == ch.residuals && ch'.prior == ch.prior && |ch'.buckets| == |ch.buckets|
         && (forall j :: 0 <= j < bpc && j != k ==> ch'.buckets[j] == ch.buckets[j])
         && ch'.buckets[k] == Update(ch.buckets[k], ch.residuals[position], bpc, trigger)
         && BestCode(ch, position, bpc) == ch.buckets[k].bestCode
  {
    hide Update, Pow2;
  }

  /** The next row begins with the first residual of this one as its context. */
  lemma NextRowDoes(codec: Codec, i: nat)
    requires forall k :: 0 <= k < |codec.channels| ==> |codec.channels[k].residuals| > 0
    requires i < |codec.channels|
    ensures var codec' := NextRowCodec(codec);
      && |codec'.channels| == |codec.channels| && codec'.coding == codec.coding
      && codec'.channels[i].prior == codec.channels[i].residuals[0]
      && codec'.channels[i].residuals == codec.channels[i].residuals
      && codec'.channels[i].buckets == codec.channels[i].buckets
  {
  }

  /** A fresh model has seen nothing and proposes the code of all bits but one. */
  lemma FreshDoes(width: nat, bpc: nat, k: nat, i: nat)
    requires 1 <= bpc <= 8 && k < bpc && i < bpc
    ensures var ch := FreshChannel(width, bpc);
      && ch.prior == 0 && (forall x :: 0 <= x < width ==> ch.residuals[x] == 0)
      && ch.buckets[k].bestCode == bpc - 1 && ch.buckets[k].counters[i] == 0
    ensures var c := FreshCoding();
      c.wait == 0 && c.randomIndex == 255 && c.codeIndex == 0 && c.pixelsUntil == 2048 && c.runState == 0
  {
  }

  // ---------------------------------------------------------------------------
  // Waits and runs
  // ---------------------------------------------------------------------------

  lemma {:induction false} LowIsRemainder(v: nat, n: nat) returns (q: nat)
    ensures v == q * Pow2(n) + Low(v, n)
  {
    if n == 0 {
      q := v;
    } else {
      q := LowIsRemainder(v / 2, n - 1);
      assert q * Pow2(n) == 2 * (q * Pow2(n - 1));
    }
  }

  /** The next entry of the random table is drawn, with its low bits, one for each step of the code index. */
  lemma NextWaitDoes(c: Coding, random: RandomTable) returns (q: nat)
    ensures var (wait, c') := NextWait(c, random);
      && c'.randomIndex == (c.randomIndex + 1) % 256
      && random(c'.randomIndex) == q * Pow2(c.codeIndex) + wait && wait < Pow2(c.codeIndex)
      && c' == c.(randomIndex := c'.randomIndex)
  {
    q := LowIsRemainder(random((c.randomIndex + 1) % 256), c.codeIndex);
  }

  lemma TriggerTable(i: nat)
    requires i <= 6
    ensures TriggerOf(i) == [110, 550, 900, 800, 550, 400, 350][i]
  {
  }

  /** After the first pixel of a row a pending wait is one shorter and the models are as they were; with none
      pending they are charged and the next wait is drawn. */
  lemma AfterFirstDoes(f: Format, codec: Codec, width: nat)
    requires FormatOk(f) && CodecOk(f, codec, width) && width > 0
    ensures var codec' := AfterFirst(f, codec);
      if codec.coding.wait > 0
      then codec' == codec.(coding := codec.coding.(wait := codec.coding.wait - 1))
      else
        && codec'.coding.wait == NextWait(codec.coding, f.random).0
        && codec'.coding == NextWait(codec.coding, f.random).1.(wait := codec'.coding.wait)
        && |codec'.channels| == |codec.channels|
        && forall i :: 0 <= i < |codec.channels| ==>
             codec'.channels[i] == UpdateChannel(codec.channels[i], 0, f.bpc, codec.coding.trigger)
  {
    hide UpdateChannel, Low, BucketsOk, Small;
  }

  /** A run is read exactly from the fourth pixel of a later row on, where the two pixels before are alike,
      the one above and its left neighbour are alike, and no run has just ended. */
  lemma ShouldRunIff(f: Format, previous: Option<seq<Pixel>>, current: seq<Pixel>, position: nat, runIndex: nat)
    requires FormatOk(f) && PreviousOk(previous, |current|) && position < |current|
    ensures ShouldRun(f, previous, current, position, runIndex) <==>
      && previous.Some? && position >= 3 && runIndex != position
      && forall i :: 0 <= i < |f.components| ==>
           && current[position - 2][f.components[i]] == current[position - 1][f.components[i]]
           && previous.value[position - 1][f.components[i]] == previous.value[position][f.components[i]]
  {
  }

  /** A run repeats the pixel before it in the components of the format, over its length and no further. */
  lemma FillDoes(f: Format, current: seq<Pixel>, position: nat, n: nat, p: nat, c: nat)
    requires 1 <= position && position + n <= |current| && p < |current| && c < 4
    ensures Fill(f, current, position, n)[p][c]
         == if position <= p < position + n && c in f.components then current[position - 1][c] else current[p][c]
  {
  }

  /** Each of the remainder widths 0 to 3 serves four run states, 4 to 7 two, and 8 to 15 one. */
  lemma RunTable(state: nat)
    requires state < 32
    ensures QuicRun.RunBits(state) ==
      if state < 16 then state / 4 else if state < 24 then 4 + (state - 16) / 2 else state - 16
  {
  }

  /** A run is written as one bits for steps of 2^bits pixels, each moving to the next state, a zero bit and the
      remainder; it ends one state lower. */
  lemma RunDoes(n: nat, state: nat)
    requires state < 32
    ensures QuicRun.StateAfter(n, state) ==
      if n >= Pow2(QuicRun.RunBits(state)) then
        QuicRun.StateAfter(n - Pow2(QuicRun.RunBits(state)), Min(31, state + 1))
      else Max(0, state - 1)
    ensures QuicRun.Encode(n, state) ==
      if n >= Pow2(QuicRun.RunBits(state)) then
        [true] + QuicRun.Encode(n - Pow2(QuicRun.RunBits(state)), Min(31, state + 1))
      else [false] + ToBits(n, QuicRun.RunBits(state))
  {
    hide QuicRun.RunBits, Pow2;
  }

  // ---------------------------------------------------------------------------
  // Images
  // ---------------------------------------------------------------------------

  /** Five-bit components fill the low three bits with their own high bits. */
  lemma ExpandDoes(p: Pixel, c: nat)
    requires p[0] < 32 && p[1] < 32 && p[2] < 32 && c < 3
    ensures var e := ExpandPixel(Rgb16, p)[c]; e / 8 == p[c] && e % 8 == p[c] / 4
    ensures ExpandPixel(Rgb16, p)[3] == p[3]
    ensures forall t: ImageType :: t != Rgb16 ==> ExpandPixel(t, p) == p
  {
  }

  /** A header is accepted exactly for these tags and sizes. */
  lemma CheckHeaderIff(h: Header, expectedWidth: nat, expectedHeight: nat, limits: Limits)
    ensures CheckHeader(h, expectedWidth, expectedHeight, limits).Ok? <==>
      && h.magic == 0x4349_5551 && h.version == 0 && 2 <= h.tag <= 5
      && h.width == expectedWidth && h.height == expectedHeight
      && 1 <= h.width <= limits.maximumWidth && 1 <= h.height <= limits.maximumHeight
      && h.width * h.height * 4 <= limits.maximumOutputBytes
    ensures var r := CheckHeader(h, expectedWidth, expectedHeight, limits);
      r.Ok? ==> r.value == [Rgb16, Rgb24, Rgb32, Rgba][h.tag - 2]
    ensures ComponentBits(Rgb16) == 5 && ComponentBits(Rgb24) == ComponentBits(Rgb32) == ComponentBits(Rgba) == 8
  {
  }

  /** Rows begin black and opaque. */
  lemma BlankDoes(width: nat, x: nat)
    requires x < width
    ensures Blank(width)[x] == [0, 0, 0, 255]
  {
  }
}
