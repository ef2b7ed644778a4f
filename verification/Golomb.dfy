/** The limited-length Golomb code of the QUIC codec.

  `Encode` is the writer whose lengths the model counters price; `Decode` is what
  the reader does. They are inverse to each other in both directions, so the code
  is prefix free and a reader consumes exactly the priced number of bits.
*/
module Golomb {
  import opened Basics
  import opened Bits

  const MAX_CODE_BITS := 26

  /** A component width of up to eight bits and a code number below it. */
  predicate Params(code: nat, bpc: nat) {
    code < bpc <= 8
  }

  function BitLength(x: nat): nat {
    if x == 0 then 0 else 1 + BitLength(x / 2)
  }

  function CeilLog2(v: nat): nat {
    if v <= 1 then 0 else BitLength(v - 1)
  }

  lemma {:induction false} BitLengthBounds(x: nat)
    ensures x < Pow2(BitLength(x))
    ensures x > 0 ==> Pow2(BitLength(x) - 1) <= x
  {
    if x > 0 {
      BitLengthBounds(x / 2);
    }
  }

  /** `CeilLog2(v)` is the least width that can tell `v` values apart. */
  lemma CeilLog2Least(v: nat, n: nat)
    requires v >= 1
    ensures v <= Pow2(n) <==> CeilLog2(v) <= n
  {
    if v > 1 {
      BitLengthBounds(v - 1);
      if n < CeilLog2(v) {
        Pow2Monotone(n, CeilLog2(v) - 1);
      } else {
        Pow2Monotone(CeilLog2(v), n);
      }
    }
  }

  function MaxPrefix(code: nat, bpc: nat): (p: nat)
    requires Params(code, bpc)
    ensures 1 <= p
  {
    Min(MAX_CODE_BITS - bpc, Pow2(bpc - code) - 1)
  }

  function FirstEscape(code: nat, bpc: nat): nat
    requires Params(code, bpc)
  {
    Shl(MaxPrefix(code, bpc), code)
  }

  /** How many component values are left to the escape code. */
  function EscapeValues(code: nat, bpc: nat): (n: nat)
    requires Params(code, bpc)
    ensures 1 <= n <= Pow2(bpc)
  {
    EscapeRoom(code, bpc);
    Pow2(bpc) - FirstEscape(code, bpc)
  }

  lemma EscapeRoom(code: nat, bpc: nat)
    requires Params(code, bpc)
    ensures FirstEscape(code, bpc) + Pow2(code) <= Pow2(bpc)
  {
    ShlBound(MaxPrefix(code, bpc), bpc - code, code);
  }

  function SuffixBits(code: nat, bpc: nat): (n: nat)
    requires Params(code, bpc)
    ensures n <= bpc && EscapeValues(code, bpc) <= Pow2(n)
  {
    CeilLog2Least(EscapeValues(code, bpc), bpc);
    CeilLog2Least(EscapeValues(code, bpc), CeilLog2(EscapeValues(code, bpc)));
    CeilLog2(EscapeValues(code, bpc))
  }

  /** The price of a value under a code, as the model counters charge it. */
  function CodeLength(value: nat, code: nat, bpc: nat): (n: nat)
    requires Params(code, bpc)
  {
    if value < FirstEscape(code, bpc) then
      Shr(value, code) + code + 1
    else
      MaxPrefix(code, bpc) + SuffixBits(code, bpc)
  }

  function Zeros(n: nat): (bits: BitString)
    ensures |bits| == n
  {
    if n == 0 then [] else [false] + Zeros(n - 1)
  }

  /** The code word of a component value. */
  function Encode(value: nat, code: nat, bpc: nat): (bits: BitString)
    requires Params(code, bpc)
  {
    if value < FirstEscape(code, bpc) then
      Zeros(Shr(value, code)) + [true] + ToBits(Low(value, code), code)
    else
      Zeros(MaxPrefix(code, bpc)) + ToBits(value - FirstEscape(code, bpc), SuffixBits(code, bpc))
  }

  /** Counts zero bits up to a limit, swallowing the one bit that ends them. */
  function ReadZeros(bits: BitString, zeros: nat, limit: nat): Parsed<nat>
    decreases limit - zeros
  {
    if zeros >= limit then Success(zeros, bits)
    else
      var bit := Take(bits, 1);
      if bit.Failure? then Failure(bit.kind)
      else if bit.value == 0 then ReadZeros(bit.rest, zeros + 1, limit)
      else Success(zeros, bit.rest)
  }

  function Decode(bits: BitString, code: nat, bpc: nat): (r: Parsed<nat>)
    requires Params(code, bpc)
    ensures r.Success? ==> r.value < Pow2(bpc)
  {
    var prefix := ReadZeros(bits, 0, MaxPrefix(code, bpc));
    if prefix.Failure? then Failure(prefix.kind)
    else
      var short := prefix.value < MaxPrefix(code, bpc);
      var tail := Take(prefix.rest, if short then code else SuffixBits(code, bpc));
      if tail.Failure? then Failure(tail.kind)
      else
        // The shifted prefix has no low bits, so `|` is addition.
        var value := if short then Shl(prefix.value, code) + tail.value
                     else FirstEscape(code, bpc) + tail.value;
        if value < Pow2(bpc) then Success(value, tail.rest) else Failure(InvalidCode)
  }

  // ---------------------------------------------------------------------------
  // Encode and Decode are inverse
  // ---------------------------------------------------------------------------

  lemma TakeBit(b: bool, rest: BitString)
    ensures Take([b] + rest, 1) == Success(BitValue(b), rest)
  {
    assert ([b] + rest)[..1] == [b];
    assert ([b] + rest)[1..] == rest;
    assert [b][..0] == [];
  }

  lemma TakenBit(bits: BitString)
    ensures var bit := Take(bits, 1);
      bit.Success? ==> bit.value < 2 && bits == [bit.value == 1] + bit.rest
  {
    var bit := Take(bits, 1);
    if bit.Success? {
      assert ToBits(bit.value, 1) == [bit.value == 1];
    }
  }

  lemma {:induction false} ReadZerosOfZeros(n: nat, zeros: nat, limit: nat, rest: BitString)
    requires zeros + n <= limit
    ensures ReadZeros(Zeros(n) + rest, zeros, limit) == ReadZeros(rest, zeros + n, limit)
  {
    if n == 0 {
      assert Zeros(n) + rest == rest;
    } else {
      assert Zeros(n) + rest == [false] + (Zeros(n - 1) + rest);
      TakeBit(false, Zeros(n - 1) + rest);
      ReadZerosOfZeros(n - 1, zeros + 1, limit, rest);
    }
  }

  /** Every zero prefix that was read was there. */
  lemma {:induction false} ZerosOfReadZeros(bits: BitString, zeros: nat, limit: nat)
    requires zeros <= limit
    ensures var r := ReadZeros(bits, zeros, limit);
      r.Success? ==>
        && zeros <= r.value <= limit
        && bits == Zeros(r.value - zeros) + (if r.value < limit then [true] else []) + r.rest
    decreases limit - zeros
  {
    hide Take;
    TakenBit(bits);
    var bit := Take(bits, 1);
    if zeros < limit && bit.Success? {
      if bit.value == 0 {
        ZerosOfReadZeros(bit.rest, zeros + 1, limit);
        var r := ReadZeros(bits, zeros, limit);
        if r.Success? {
          assert Zeros(r.value - zeros) == [false] + Zeros(r.value - zeros - 1);
        }
      }
    }
  }

  /** A short value splits into a prefix below the limit and a remainder. */
  lemma ShortPrefix(value: nat, code: nat, bpc: nat)
    requires Params(code, bpc) && value < FirstEscape(code, bpc)
    ensures Shr(value, code) < MaxPrefix(code, bpc)
  {
    ShlShrLow(value, code);
    if Shr(value, code) >= MaxPrefix(code, bpc) {
      ShlMonotone(MaxPrefix(code, bpc), Shr(value, code), code);
    }
  }

  /** Reading back a code word yields its value and leaves what follows untouched. */
  lemma RoundTrip(value: nat, code: nat, bpc: nat, rest: BitString)
    requires Params(code, bpc) && value < Pow2(bpc)
    ensures Decode(Encode(value, code, bpc) + rest, code, bpc) == Success(value, rest)
  {
    hide Shl, Shr, Low, ToBits, ReadZeros, Take, Zeros, MaxPrefix, FirstEscape, SuffixBits, Pow2;
    var bits := Encode(value, code, bpc) + rest;
    if value < FirstEscape(code, bpc) {
      ShortRoundTrip(value, code, bpc, rest);
    } else {
      var tail := ToBits(value - FirstEscape(code, bpc), SuffixBits(code, bpc));
      assert bits == Zeros(MaxPrefix(code, bpc)) + (tail + rest);
      EscapeReadZeros(MaxPrefix(code, bpc), tail + rest);
      TakeRoundTrip(value - FirstEscape(code, bpc), SuffixBits(code, bpc), rest);
    }
  }

  lemma EscapeReadZeros(limit: nat, rest: BitString)
    ensures ReadZeros(Zeros(limit) + rest, 0, limit) == Success(limit, rest)
  {
    ReadZerosOfZeros(limit, 0, limit, rest);
  }

  lemma ShortReadZeros(n: nat, limit: nat, rest: BitString)
    requires n < limit
    ensures ReadZeros(Zeros(n) + ([true] + rest), 0, limit) == Success(n, rest)
  {
    ReadZerosOfZeros(n, 0, limit, [true] + rest);
    TakeBit(true, rest);
  }

  lemma ShortRoundTrip(value: nat, code: nat, bpc: nat, rest: BitString)
    requires Params(code, bpc) && value < FirstEscape(code, bpc) && value < Pow2(bpc)
    ensures Decode(Encode(value, code, bpc) + rest, code, bpc) == Success(value, rest)
  {
    hide Shl, Shr, ToBits, ReadZeros, Take, Zeros, MaxPrefix, FirstEscape, SuffixBits, Pow2;
    var tail := ToBits(Low(value, code), code);
    assert Encode(value, code, bpc) + rest == Zeros(Shr(value, code)) + ([true] + (tail + rest));
    ShortPrefix(value, code, bpc);
    ShortReadZeros(Shr(value, code), MaxPrefix(code, bpc), tail + rest);
    TakeRoundTrip(Low(value, code), code, rest);
    ShlShrLow(value, code);
  }

  /** Whatever was read is the code word of its value: nothing else decodes to it. */
  lemma Exact(bits: BitString, code: nat, bpc: nat)
    requires Params(code, bpc)
    ensures var r := Decode(bits, code, bpc);
      r.Success? ==> bits == Encode(r.value, code, bpc) + r.rest
  {
    hide Shl, Shr, Low, ToBits, ReadZeros, Zeros, Pow2, SuffixBits, MaxPrefix;
    var limit := MaxPrefix(code, bpc);
    ZerosOfReadZeros(bits, 0, limit);
    var prefix := ReadZeros(bits, 0, limit);
    var r := Decode(bits, code, bpc);
    if r.Success? {
      if prefix.value < limit {
        var tail := Take(prefix.rest, code);
        ShrLowOfShl(prefix.value, tail.value, code);
        ShortIsShort(prefix.value, tail.value, code, limit);
        assert bits == Zeros(prefix.value) + [true] + (ToBits(tail.value, code) + r.rest);
      } else {
        var tail := Take(prefix.rest, SuffixBits(code, bpc));
        assert bits == Zeros(limit) + (ToBits(tail.value, SuffixBits(code, bpc)) + r.rest);
      }
    }
  }

  lemma ShortIsShort(q: nat, r: nat, code: nat, limit: nat)
    requires q < limit && r < Pow2(code)
    ensures Shl(q, code) + r < Shl(limit, code)
  {
    ShlSuccessor(q, code);
    ShlMonotone(q + 1, limit, code);
  }

  /** A code word is as long as the model counters say, and never longer than 26 bits. */
  lemma Length(value: nat, code: nat, bpc: nat)
    requires Params(code, bpc)
    ensures |Encode(value, code, bpc)| == CodeLength(value, code, bpc)
    ensures 1 <= CodeLength(value, code, bpc) <= MAX_CODE_BITS
  {
    hide Shl, Shr, Low, Pow2, CeilLog2;
    if value < FirstEscape(code, bpc) {
      ShortPrefix(value, code, bpc);
    }
  }

  /** No code word begins another one. */
  lemma PrefixFree(v: nat, w: nat, code: nat, bpc: nat)
    requires Params(code, bpc) && v < Pow2(bpc) && w < Pow2(bpc)
    requires Encode(v, code, bpc) <= Encode(w, code, bpc)
    ensures v == w
  {
    hide *;
    var a, b := Encode(v, code, bpc), Encode(w, code, bpc);
    RoundTrip(v, code, bpc, b[|a|..]);
    RoundTrip(w, code, bpc, []);
    assert a + b[|a|..] == b + [];
  }

  /** A successful read consumes exactly the priced number of bits. */
  lemma ConsumesPrice(bits: BitString, code: nat, bpc: nat)
    requires Params(code, bpc)
    ensures var r := Decode(bits, code, bpc);
      r.Success? ==> |bits| - |r.rest| == CodeLength(r.value, code, bpc) <= MAX_CODE_BITS
  {
    hide Encode, CodeLength, Decode;
    Exact(bits, code, bpc);
    var r := Decode(bits, code, bpc);
    if r.Success? {
      Length(r.value, code, bpc);
    }
  }

  /** The reader's loop over the zero prefix, then one field. */
  method DecodeGolomb(reader: BitReader, code: nat, bpc: nat) returns (r: Result<nat>)
    requires reader.Valid() && Params(code, bpc)
    modifies reader
    ensures reader.Valid()
    ensures var spec := Decode(old(reader.Rest()), code, bpc);
      && (spec.Success? ==> r == Ok(spec.value) && reader.Rest() == spec.rest)
      && (spec.Failure? ==> r == Err(spec.kind))
  {
    hide Take, Shl, Pow2, SuffixBits, MaxPrefix, FirstEscape, AllBits;
    var maximumPrefix := MaxPrefix(code, bpc);
    ghost var bits := reader.Rest();
    var zeroPrefix := 0;
    var stopped := false;
    while zeroPrefix < maximumPrefix && !stopped
      invariant reader.Valid()
      invariant zeroPrefix <= maximumPrefix
      invariant stopped ==> zeroPrefix < maximumPrefix
      invariant ReadZeros(bits, 0, maximumPrefix)
             == if stopped then Success(zeroPrefix, reader.Rest())
                else ReadZeros(reader.Rest(), zeroPrefix, maximumPrefix)
      decreases maximumPrefix - zeroPrefix, !stopped
    {
      var bit := reader.ReadBits(1);
      if bit.Err? {
        return Err(bit.kind);
      }
      if bit.value == 0 {
        zeroPrefix := zeroPrefix + 1;
      } else {
        stopped := true;
      }
    }
    var value;
    if zeroPrefix < maximumPrefix {
      var low := reader.ReadBits(code);
      if low.Err? {
        return Err(low.kind);
      }
      value := Shl(zeroPrefix, code) + low.value;
    } else {
      var suffix := reader.ReadBits(SuffixBits(code, bpc));
      if suffix.Err? {
        return Err(suffix.kind);
      }
      value := FirstEscape(code, bpc) + suffix.value;
    }
    if value >= Pow2(bpc) {
      return Err(InvalidCode);
    }
    return Ok(value);
  }
}
