/** Bit strings and the word-swapped bit reader of the SPICE QUIC codec.

  A QUIC payload is a sequence of little-endian 32-bit words whose bits are
  consumed from the most significant one down. `AllBits` spells that order out
  one bit at a time; `BitReader.ReadBits` is the word-wise reader and is proved
  to return exactly the next bits of it.
*/
module Bits {

  import opened Basics

  type BitString = seq<bool>

  function BitValue(b: bool): nat {
    if b then 1 else 0
  }

  /** The number a bit string denotes, most significant bit first. */
  function Value(bits: BitString): (v: nat)
    ensures v < Pow2(|bits|)
  {
    if bits == [] then 0
    else 2 * Value(bits[..|bits| - 1]) + BitValue(bits[|bits| - 1])
  }

  lemma ValueEmpty()
    ensures Value([]) == 0
  {
  }

  /** The low `n` bits of `v`, most significant bit first. */
  function ToBits(v: nat, n: nat): (bits: BitString)
    ensures |bits| == n
  {
    if n == 0 then [] else ToBits(v / 2, n - 1) + [v % 2 == 1]
  }

  lemma ValueAppend(bits: BitString, b: bool)
    ensures Value(bits + [b]) == 2 * Value(bits) + BitValue(b)
  {
    assert (bits + [b])[..|bits|] == bits;
  }

  lemma {:induction false} ValueToBits(v: nat, n: nat)
    requires v < Pow2(n)
    ensures Value(ToBits(v, n)) == v
  {
    if n > 0 {
      ValueToBits(v / 2, n - 1);
      hide Value;
      ValueAppend(ToBits(v / 2, n - 1), v % 2 == 1);
    }
  }

  lemma ToBitsAppend(v: nat, n: nat, b: bool)
    ensures ToBits(2 * v + BitValue(b), n + 1) == ToBits(v, n) + [b]
  {
    assert (2 * v + BitValue(b)) / 2 == v;
  }

  lemma {:induction false} ToBitsValue(bits: BitString)
    ensures ToBits(Value(bits), |bits|) == bits
  {
    if bits != [] {
      var front, last := bits[..|bits| - 1], bits[|bits| - 1];
      ToBitsValue(front);
      assert bits == front + [last];
      ValueAppend(front, last);
      hide Value;
      ToBitsAppend(Value(front), |front|, last);
    }
  }

  lemma {:induction false} ValueConcat(a: BitString, b: BitString)
    ensures Value(a + b) == Shl(Value(a), |b|) + Value(b)
  {
    if b == [] {
      assert a + b == a;
    } else {
      ValueConcat(a, b[..|b| - 1]);
      assert (a + b)[..|a + b| - 1] == a + b[..|b| - 1];
    }
  }

  lemma {:induction false} ToBitsPrefix(v: nat, n: nat, j: nat)
    requires j <= n
    ensures ToBits(v, n)[..j] == ToBits(Shr(v, n - j), j)
  {
    if j < n {
      ToBitsPrefix(v / 2, n - 1, j);
      assert ToBits(v, n)[..j] == ToBits(v / 2, n - 1)[..j];
    }
  }

  lemma {:induction false} ToBitsSuffix(v: nat, j: nat, i: nat)
    requires i <= j
    ensures Value(ToBits(v, j)[i..]) == Low(v, j - i)
  {
    if i < j {
      var bits := ToBits(v, j)[i..];
      assert bits[..|bits| - 1] == ToBits(v / 2, j - 1)[i..];
      ToBitsSuffix(v / 2, j - 1, i);
    }
  }

  /** A field of a word: bits `i` up to `j` of the `n`-bit value `v`, by shift and mask. */
  lemma FieldValue(v: nat, n: nat, i: nat, j: nat)
    requires i <= j <= n
    ensures Value(ToBits(v, n)[i..j]) == Low(Shr(v, n - j), j - i)
  {
    ToBitsPrefix(v, n, j);
    ToBitsSuffix(Shr(v, n - j), j, i);
    assert ToBits(v, n)[i..j] == ToBits(v, n)[..j][i..];
  }

  // ---------------------------------------------------------------------------
  // The payload as one bit string
  // ---------------------------------------------------------------------------

  function LittleEndian(b: seq<byte>): (w: nat)
    requires |b| == 4
    ensures w < 0x1_0000_0000
  {
    b[0] as int + 0x100 * (b[1] as int + 0x100 * (b[2] as int + 0x100 * b[3] as int))
  }

  function Word(input: seq<byte>, w: nat): nat
    requires 4 * w + 4 <= |input|
  {
    LittleEndian(input[4 * w..4 * w + 4])
  }

  /** Every bit of the payload in reading order. */
  function AllBits(input: seq<byte>): (bits: BitString)
    requires |input| % 4 == 0
    ensures |bits| == 8 * |input|
  {
    if input == [] then [] else ToBits(LittleEndian(input[..4]), 32) + AllBits(input[4..])
  }

  lemma {:induction false} AllBitsWord(input: seq<byte>, w: nat)
    requires |input| % 4 == 0 && 4 * w + 4 <= |input|
    ensures AllBits(input)[32 * w..32 * w + 32] == ToBits(Word(input, w), 32)
  {
    hide ToBits, LittleEndian;
    if w > 0 {
      AllBitsWord(input[4..], w - 1);
      assert input[4..][4 * (w - 1)..4 * (w - 1) + 4] == input[4 * w..4 * w + 4];
      assert AllBits(input)[32 * w..32 * w + 32] == AllBits(input[4..])[32 * (w - 1)..32 * w];
    }
  }

  // ---------------------------------------------------------------------------
  // Packing bits into words, the writer's side
  // ---------------------------------------------------------------------------

  function WordBytes(w: nat): (b: seq<byte>)
    requires w < 0x1_0000_0000
    ensures |b| == 4 && LittleEndian(b) == w
  {
    var w1 := w / 0x100;
    var w2 := w1 / 0x100;
    [w % 0x100, w1 % 0x100, w2 % 0x100, w2 / 0x100]
  }

  /** Packs a bit string into little-endian words, padding the last one with zero bits. */
  function Pack(bits: BitString): (input: seq<byte>)
    ensures |input| % 4 == 0
    ensures 8 * |input| >= |bits|
    decreases |bits|
  {
    if bits == [] then []
    else if |bits| < 32 then
      WordOf(bits + ToBits(0, 32 - |bits|))
    else
      WordOf(bits[..32]) + Pack(bits[32..])
  }

  function WordOf(bits: BitString): (b: seq<byte>)
    requires |bits| == 32
    ensures |b| == 4 && ToBits(LittleEndian(b), 32) == bits
  {
    Pow2Word();
    ToBitsValue(bits);
    WordBytes(Value(bits))
  }

  /** What the reader sees of a packed bit string is that string and some padding. */
  lemma {:induction false} PackRoundTrip(bits: BitString) returns (padding: BitString)
    ensures AllBits(Pack(bits)) == bits + padding
    decreases |bits|
  {
    hide ToBits, WordOf, LittleEndian;
    var input := Pack(bits);
    if bits == [] {
      padding := [];
    } else if |bits| < 32 {
      padding := ToBits(0, 32 - |bits|);
      assert input[..4] == input && input[4..] == [];
    } else {
      padding := PackRoundTrip(bits[32..]);
      assert input[..4] == WordOf(bits[..32]) && input[4..] == Pack(bits[32..]);
      assert bits == bits[..32] + bits[32..];
      assert AllBits(input) == bits[..32] + (bits[32..] + padding);
    }
  }

  // ---------------------------------------------------------------------------
  // The reader
  // ---------------------------------------------------------------------------

  datatype ErrorKind =
    | Truncated
    | InvalidHeader
    | UnsupportedType
    | DimensionMismatch
    | InvalidCode
    | InvalidRun
    | ResourceLimit

  datatype Result<+T> = Ok(value: T) | Err(kind: ErrorKind)

  /** A value read from the front of a bit string, with the bits that follow it. */
  datatype Parsed<+T> = Success(value: T, rest: BitString) | Failure(kind: ErrorKind)

  function Take(bits: BitString, count: nat): (r: Parsed<nat>)
    ensures r.Success? ==> bits == ToBits(r.value, count) + r.rest && r.value < Pow2(count)
  {
    if count > 31 then Failure(InvalidCode)
    else if |bits| < count then Failure(Truncated)
    else
      ToBitsValue(bits[..count]);
      assert bits == bits[..count] + bits[count..];
      Success(Value(bits[..count]), bits[count..])
  }

  /** Written bits are read back, whatever follows them. */
  lemma TakeRoundTrip(v: nat, count: nat, rest: BitString)
    requires v < Pow2(count) && count <= 31
    ensures Take(ToBits(v, count) + rest, count) == Success(v, rest)
  {
    ValueToBits(v, count);
    assert (ToBits(v, count) + rest)[..count] == ToBits(v, count);
  }

  class BitReader {
    const input: seq<byte>
    var bitOffset: nat

    ghost predicate Valid()
      reads this
    {
      |input| % 4 == 0 && bitOffset <= 8 * |input|
    }

    /** The bits not read yet. */
    ghost function Rest(): (bits: BitString)
      requires Valid()
      reads this
    {
      AllBits(input)[bitOffset..]
    }

    constructor (input: seq<byte>)
      requires |input| % 4 == 0
      ensures this.input == input && Valid() && Rest() == AllBits(input)
    {
      this.input := input;
      bitOffset := 0;
    }

    /** Reads whole fields of each word by shift and mask, as the source does. */
    method ReadBits(count: nat) returns (r: Result<nat>)
      requires Valid()
      modifies this
      ensures Valid()
      ensures var spec := Take(old(Rest()), count);
        && (spec.Success? ==> r == Ok(spec.value) && Rest() == spec.rest)
        && (spec.Failure? ==> r == Err(spec.kind) && bitOffset == old(bitOffset))
    {
      hide Shl, Shr, Low, Value, ToBits, AllBits, Pow2;
      if count > 31 {
        return Err(InvalidCode);
      }
      var end := bitOffset + count;
      if end > 8 * |input| {
        return Err(Truncated);
      }
      ghost var all := AllBits(input);
      ghost var start := bitOffset;
      var output := 0;
      ValueEmpty();
      assert all[start..bitOffset] == [];
      while bitOffset < end
        invariant start <= bitOffset <= end <= 8 * |input|
        invariant output == Value(all[start..bitOffset])
      {
        var wordOffset := bitOffset / 32 * 4;
        var word := LittleEndian(input[wordOffset..wordOffset + 4]);
        var offsetInWord := bitOffset % 32;
        var available := 32 - offsetInWord;
        var take := if available < end - bitOffset then available else end - bitOffset;
        var shift := available - take;
        assert shift == 32 - (offsetInWord + take);
        AllBitsWord(input, bitOffset / 32);
        ReadStep(all, word, 32 * (bitOffset / 32), start, offsetInWord, take);
        // The shifted accumulator is cut to 32 bits; its low bits are free for the field.
        output := Shl(output, take) % 0x1_0000_0000 + Low(Shr(word, shift), take);
        assert output == Value(all[start..bitOffset + take]);
        bitOffset := bitOffset + take;
      }
      assert all[start..end] == old(Rest())[..count];
      assert all[end..] == old(Rest())[count..];
      return Ok(output);
    }
  }

  /** Shifting the accumulator never loses a bit, since at most 31 are read. */
  lemma ShiftFits(output: nat, have: nat, take: nat)
    requires output < Pow2(have) && have + take <= 31
    ensures Shl(output, take) < 0x1_0000_0000
  {
    ShlBound(output, have, take);
    Pow2Monotone(have + take, 31);
    Pow2Word();
  }

  /** One turn of the reading loop extends the value read by one field of a word. */
  lemma ReadStep(all: BitString, word: nat, base: nat, start: nat, i: nat, take: nat)
    requires base + 32 <= |all| && all[base..base + 32] == ToBits(word, 32) && i + take <= 32
    requires start <= base + i && base + i + take - start <= 31
    ensures var offset := base + i;
      Value(all[start..offset + take])
      == Shl(Value(all[start..offset]), take) % 0x1_0000_0000 + Low(Shr(word, 32 - (i + take)), take)
  {
    hide *;
    var offset := base + i;
    SliceOfSlice(all, base, base + 32, i, i + take);
    FieldValue(word, 32, i, i + take);
    ValueConcat(all[start..offset], all[offset..offset + take]);
    SliceConcat(all, start, offset, offset + take);
    ShiftFits(Value(all[start..offset]), offset - start, take);
  }
}
