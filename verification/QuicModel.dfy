/** The adaptive model of the QUIC codec: cost counters and the coding schedule. */
module QuicModel {
  import opened Basics
  import Golomb

  const MODEL_CODE_COUNT := 8
  const MAX_CODE_INDEX := 6
  const CODE_INDEX_PIXELS := 2048
  const RUN_STATE_COUNT := 32
  /** No trigger used by the schedule is larger. */
  const MAX_TRIGGER := 900

  // ---------------------------------------------------------------------------
  // Buckets
  // ---------------------------------------------------------------------------

  datatype Bucket = Bucket(counters: seq<nat>, bestCode: nat)

  predicate BucketShape(b: Bucket, bpc: nat) {
    1 <= bpc <= 8 && |b.counters| == MODEL_CODE_COUNT && b.bestCode < bpc
  }

  /** All counters after charging every code for one value. */
  function Charged(counters: seq<nat>, value: nat, bpc: nat): (c: seq<nat>)
    requires |counters| == MODEL_CODE_COUNT && 1 <= bpc <= 8
    ensures |c| == MODEL_CODE_COUNT
  {
    seq(MODEL_CODE_COUNT, i requires 0 <= i < MODEL_CODE_COUNT =>
      if i < bpc then counters[i] + Golomb.CodeLength(value, i, bpc) else counters[i])
  }

  function Halved(counters: seq<nat>, bpc: nat): (c: seq<nat>)
    ensures |c| == |counters|
  {
    seq(|counters|, i requires 0 <= i < |counters| => if i < bpc then counters[i] / 2 else counters[i])
  }

  /** `k` is the largest code of minimum cost. */
  predicate LargestCheapest(counters: seq<nat>, bpc: nat, k: nat)
    requires bpc <= |counters|
  {
    && k < bpc
    && (forall i :: 0 <= i < bpc ==> counters[k] <= counters[i])
    && (forall i :: k < i < bpc ==> counters[k] < counters[i])
  }

  /** Scans the codes below `code` downward, moving only to strictly cheaper ones. */
  function BestFrom(counters: seq<nat>, best: nat, code: nat): (k: nat)
    requires code <= best < |counters|
    ensures k <= best
  {
    if code == 0 then best
    else if counters[code - 1] < counters[best] then BestFrom(counters, code - 1, code - 1)
    else BestFrom(counters, best, code - 1)
  }

  lemma {:induction false} BestFromIsLargestCheapest(counters: seq<nat>, bpc: nat, best: nat, code: nat)
    requires code <= best < bpc <= |counters|
    requires forall i :: code <= i < bpc ==> counters[best] <= counters[i]
    requires forall i :: best < i < bpc ==> counters[best] < counters[i]
    ensures LargestCheapest(counters, bpc, BestFrom(counters, best, code))
    decreases code
  {
    if code > 0 {
      if counters[code - 1] < counters[best] {
        BestFromIsLargestCheapest(counters, bpc, code - 1, code - 1);
      } else {
        BestFromIsLargestCheapest(counters, bpc, best, code - 1);
      }
    }
  }

  function Update(b: Bucket, value: nat, bpc: nat, trigger: nat): (b': Bucket)
    requires BucketShape(b, bpc)
    ensures BucketShape(b', bpc)
  {
    var charged := Charged(b.counters, value, bpc);
    var best := BestFrom(charged, bpc - 1, bpc - 1);
    Bucket(if charged[best] > trigger then Halved(charged, bpc) else charged, best)
  }

  /** The code chosen by an update is the largest cheapest one just before any halving. */
  lemma UpdateChoosesLargestCheapest(b: Bucket, value: nat, bpc: nat, trigger: nat)
    requires BucketShape(b, bpc)
    ensures LargestCheapest(Charged(b.counters, value, bpc), bpc, Update(b, value, bpc, trigger).bestCode)
  {
    BestFromIsLargestCheapest(Charged(b.counters, value, bpc), bpc, bpc - 1, bpc - 1);
  }

  /** Counters stay within a factor of each other, and one of them stays small. */
  ghost predicate Bounded(counters: seq<nat>, bpc: nat) {
    && bpc <= |counters|
    && (forall i, j :: 0 <= i < bpc && 0 <= j < bpc ==> counters[i] <= 26 * counters[j] + 26)
    && (exists j :: 0 <= j < bpc && counters[j] <= MAX_TRIGGER)
  }

  /** A bucket as the decoder keeps it. */
  ghost predicate BucketOk(b: Bucket, bpc: nat) {
    BucketShape(b, bpc) && Bounded(b.counters, bpc)
  }

  lemma UpdateKeepsBounded(b: Bucket, value: nat, bpc: nat, trigger: nat)
    requires BucketShape(b, bpc) && Bounded(b.counters, bpc) && trigger <= MAX_TRIGGER
    ensures Bounded(Update(b, value, bpc, trigger).counters, bpc)
  {
    hide Golomb.CodeLength, BestFrom;
    forall i | 0 <= i < bpc
      ensures 1 <= Golomb.CodeLength(value, i, bpc) <= 26
    {
      Golomb.Length(value, i, bpc);
    }
    UpdateChoosesLargestCheapest(b, value, bpc, trigger);
    var charged := Charged(b.counters, value, bpc);
    var best := BestFrom(charged, bpc - 1, bpc - 1);
    var low :| 0 <= low < bpc && b.counters[low] <= MAX_TRIGGER;
    assert charged[best] <= charged[low] <= MAX_TRIGGER + 26;
    var c' := Update(b, value, bpc, trigger).counters;
    assert c'[best] <= MAX_TRIGGER;
  }

  function FreshBucket(bpc: nat): (b: Bucket)
    requires 1 <= bpc <= 8
    ensures BucketOk(b, bpc)
  {
    var b := Bucket(seq(MODEL_CODE_COUNT, _ => 0), bpc - 1);
    assert b.counters[0] <= MAX_TRIGGER;
    b
  }

  /** The next charge of a bucket the decoder keeps is far from the 32-bit limit. */
  lemma ChargeFits(b: Bucket, value: nat, bpc: nat)
    requires BucketOk(b, bpc)
    ensures forall i :: 0 <= i < bpc ==> Charged(b.counters, value, bpc)[i] <= 23452 < 0x1_0000_0000
  {
    hide Golomb.CodeLength;
    var low :| 0 <= low < bpc && b.counters[low] <= MAX_TRIGGER;
    forall i | 0 <= i < bpc
      ensures Charged(b.counters, value, bpc)[i] <= 23452
    {
      Golomb.Length(value, i, bpc);
      assert b.counters[i] <= 26 * b.counters[low] + 26;
    }
  }

  /** The update loop: charge downward, remember the strictly cheaper code, halve if needed. */
  method UpdateBucket(bucket: Bucket, value: nat, bpc: nat, trigger: nat) returns (r: Bucket)
    requires BucketShape(bucket, bpc)
    ensures r == Update(bucket, value, bpc, trigger)
    ensures LargestCheapest(Charged(bucket.counters, value, bpc), bpc, r.bestCode)
  {
    hide Golomb.CodeLength;
    ghost var charged := Charged(bucket.counters, value, bpc);
    var bestCode := bpc - 1;
    var counters := bucket.counters;
    counters := counters[bestCode := counters[bestCode] + Golomb.CodeLength(value, bestCode, bpc)];
    var bestLength := counters[bestCode];
    var code := bpc - 1;
    while code > 0
      invariant 0 <= code <= bestCode < bpc && |counters| == MODEL_CODE_COUNT
      invariant forall i :: 0 <= i < MODEL_CODE_COUNT ==>
        counters[i] == if code <= i then charged[i] else bucket.counters[i]
      invariant bestLength == charged[bestCode]
      invariant BestFrom(charged, bestCode, code) == BestFrom(charged, bpc - 1, bpc - 1)
    {
      code := code - 1;
      counters := counters[code := counters[code] + Golomb.CodeLength(value, code, bpc)];
      if counters[code] < bestLength {
        bestCode := code;
        bestLength := counters[code];
      }
    }
    assert counters == charged;
    if bestLength > trigger {
      var i := 0;
      while i < bpc
        invariant 0 <= i <= bpc && |counters| == MODEL_CODE_COUNT
        invariant forall j :: 0 <= j < MODEL_CODE_COUNT ==>
          counters[j] == if j < i then charged[j] / 2 else charged[j]
      {
        counters := counters[i := counters[i] / 2];
        i := i + 1;
      }
      assert counters == Halved(charged, bpc);
    }
    UpdateChoosesLargestCheapest(bucket, value, bpc, trigger);
    r := Bucket(counters, bestCode);
  }

  // ---------------------------------------------------------------------------
  // Channel models
  // ---------------------------------------------------------------------------

  datatype Channel = Channel(residuals: seq<nat>, prior: nat, buckets: seq<Bucket>)

  /** Residuals of the width the model was made for. */
  ghost predicate Small(residuals: seq<nat>, bpc: nat) {
    forall i :: 0 <= i < |residuals| ==> residuals[i] < Pow2(bpc)
  }

  ghost predicate BucketsOk(buckets: seq<Bucket>, bpc: nat) {
    |buckets| == bpc && forall i :: 0 <= i < bpc ==> BucketOk(buckets[i], bpc)
  }

  ghost predicate ChannelOk(ch: Channel, width: nat, bpc: nat) {
    && 1 <= bpc <= 8
    && |ch.residuals| == width
    && Small(ch.residuals, bpc)
    && ch.prior < Pow2(bpc)
    && BucketsOk(ch.buckets, bpc)
  }

  function FreshChannel(width: nat, bpc: nat): (ch: Channel)
    requires 1 <= bpc <= 8
    ensures ChannelOk(ch, width, bpc)
  {
    Channel(seq(width, _ => 0), 0, seq(bpc, _ => FreshBucket(bpc)))
  }

  /** The table from contexts to buckets: one entry for every value of `bpc` bits, grouped by magnitude. */
  function ContextBuckets(bpc: nat): (table: seq<nat>)
    requires 1 <= bpc <= 8
    ensures |table| == Pow2(bpc)
    ensures forall c :: 0 <= c < Pow2(bpc) ==> table[c] < bpc
  {
    seq(Pow2(bpc), c requires 0 <= c < Pow2(bpc) =>
      if c == 0 then 0 else Min(Golomb.BitLength(c + 1) - 1, bpc - 1))
  }

  function Context(ch: Channel, position: nat): nat
    requires position <= |ch.residuals|
  {
    if position == 0 then ch.prior else ch.residuals[position - 1]
  }

  /** The bucket of a position; its context lies inside the table. */
  function BucketIndex(ch: Channel, position: nat, bpc: nat): (i: nat)
    requires ChannelOk(ch, |ch.residuals|, bpc) && position <= |ch.residuals|
    ensures i < bpc
  {
    ContextBuckets(bpc)[Context(ch, position)]
  }

  function BestCode(ch: Channel, position: nat, bpc: nat): (code: nat)
    requires ChannelOk(ch, |ch.residuals|, bpc) && position <= |ch.residuals|
    ensures Golomb.Params(code, bpc)
  {
    var i := BucketIndex(ch, position, bpc);
    assert BucketOk(ch.buckets[i], bpc);
    ch.buckets[i].bestCode
  }

  function UpdateChannel(ch: Channel, position: nat, bpc: nat, trigger: nat): (ch': Channel)
    requires ChannelOk(ch, |ch.residuals|, bpc) && position < |ch.residuals| && trigger <= MAX_TRIGGER
    ensures ChannelOk(ch', |ch.residuals|, bpc)
  {
    var i := BucketIndex(ch, position, bpc);
    assert BucketOk(ch.buckets[i], bpc);
    var bucket := Update(ch.buckets[i], ch.residuals[position], bpc, trigger);
    UpdateKeepsBounded(ch.buckets[i], ch.residuals[position], bpc, trigger);
    BucketReplaced(ch.buckets, i, bucket, bpc);
    ch.(buckets := ch.buckets[i := bucket])
  }

  lemma BucketReplaced(buckets: seq<Bucket>, i: nat, b: Bucket, bpc: nat)
    requires BucketsOk(buckets, bpc) && i < bpc && BucketOk(b, bpc)
    ensures BucketsOk(buckets[i := b], bpc)
  {
    hide BucketOk;
  }

  function StartNextRow(ch: Channel): Channel
    requires |ch.residuals| > 0
  {
    ch.(prior := ch.residuals[0])
  }

  // ---------------------------------------------------------------------------
  // The coding schedule
  // ---------------------------------------------------------------------------

  datatype Coding = Coding(
    wait: nat,
    randomIndex: byte,
    codeIndex: nat,
    pixelsUntil: nat,
    trigger: nat,
    runState: nat)

  /** The published pseudo-random table, of which nothing is assumed. */
  type RandomTable = byte -> nat

  function TriggerOf(codeIndex: nat): (t: nat)
    ensures t <= MAX_TRIGGER
  {
    var triggers := [110, 550, 900, 800, 550, 400, 350, 250, 140, 160, 140];
    triggers[Min(codeIndex, 10)]
  }

  predicate CodingOk(c: Coding) {
    && c.codeIndex <= MAX_CODE_INDEX
    && 1 <= c.pixelsUntil <= CODE_INDEX_PIXELS
    && c.trigger == TriggerOf(c.codeIndex)
    && c.runState < RUN_STATE_COUNT
  }

  function FreshCoding(): (c: Coding)
    ensures CodingOk(c)
  {
    Coding(0, 255, 0, CODE_INDEX_PIXELS, TriggerOf(0), 0)
  }

  /** Draws the next wait count; the caller masks with the same mask again. */
  function NextWait(c: Coding, random: RandomTable): (r: (nat, Coding))
    ensures r.1 == c.(randomIndex := r.1.randomIndex)
  {
    var index: byte := if c.randomIndex == 255 then 0 else c.randomIndex + 1;
    (Low(random(index), c.codeIndex), c.(randomIndex := index))
  }

  function IncreaseCodeIndex(c: Coding): (c': Coding)
    requires CodingOk(c) && c.codeIndex < MAX_CODE_INDEX
    ensures CodingOk(c')
  {
    c.(codeIndex := c.codeIndex + 1, pixelsUntil := CODE_INDEX_PIXELS, trigger := TriggerOf(c.codeIndex + 1))
  }
}
