/** The MEL-style run-length coder of the QUIC codec. */
module QuicRun {
  import opened Basics
  import opened Bits
  import opened QuicModel
  import Golomb

  /** Bits in the remainder of a run, for each adaptive run state. */
  const RUN_LENGTH_BITS: seq<nat> := [
    0, 0, 0, 0, 1, 1, 1, 1, 2, 2, 2, 2, 3, 3, 3, 3, 4, 4, 5, 5, 6, 6, 7, 7, 8, 9, 10, 11, 12, 13,
    14, 15
  ]

  function RunBits(state: nat): (n: nat)
    requires state < RUN_STATE_COUNT
    ensures n <= 15
  {
    RUN_LENGTH_BITS[state]
  }

  function Longer(state: nat): (s: nat)
    requires state < RUN_STATE_COUNT
    ensures s < RUN_STATE_COUNT
  {
    if state + 1 < RUN_STATE_COUNT then state + 1 else state
  }

  function Shorter(state: nat): nat {
    if state == 0 then 0 else state - 1
  }

  /** The code word of a run of `n` pixels. */
  function Encode(n: nat, state: nat): BitString
    requires state < RUN_STATE_COUNT
  {
    var hit := Pow2(RunBits(state));
    if n >= hit then [true] + Encode(n - hit, Longer(state))
    else [false] + ToBits(n, RunBits(state))
  }

  function StateAfter(n: nat, state: nat): (s: nat)
    requires state < RUN_STATE_COUNT
    ensures s < RUN_STATE_COUNT
  {
    var hit := Pow2(RunBits(state));
    if n >= hit then StateAfter(n - hit, Longer(state)) else Shorter(state)
  }

  /** Reads hits and a remainder onto `length`, refusing more than `maximum` in all. */
  function Decode(bits: BitString, state: nat, length: nat, maximum: nat): (r: Parsed<(nat, nat)>)
    requires state < RUN_STATE_COUNT && length <= maximum
    ensures r.Success? ==> length <= r.value.0 <= maximum && r.value.1 < RUN_STATE_COUNT
    ensures r.Success? ==> |r.rest| < |bits|
    decreases |bits|
  {
    var bit := Take(bits, 1);
    if bit.Failure? then Failure(bit.kind)
    else if bit.value == 1 then
      var longer := length + Pow2(RunBits(state));
      if longer > maximum then Failure(InvalidRun)
      else Decode(bit.rest, Longer(state), longer, maximum)
    else if RunBits(state) == 0 then Success((length, Shorter(state)), bit.rest)
    else
      var tail := Take(bit.rest, RunBits(state));
      if tail.Failure? then Failure(tail.kind)
      else if length + tail.value > maximum then Failure(InvalidRun)
      else Success((length + tail.value, Shorter(state)), tail.rest)
  }

  /** A written run is read back with the same adaptation of the run state. */
  lemma {:induction false} RoundTrip(n: nat, state: nat, length: nat, maximum: nat, rest: BitString)
    requires state < RUN_STATE_COUNT && length + n <= maximum
    ensures Decode(Encode(n, state) + rest, state, length, maximum)
         == Success((length + n, StateAfter(n, state)), rest)
    decreases n
  {
    hide Take, ToBits, RunBits;
    var hit := Pow2(RunBits(state));
    var bits := Encode(n, state) + rest;
    if n >= hit {
      var tail := Encode(n - hit, Longer(state)) + rest;
      assert bits == [true] + tail;
      Golomb.TakeBit(true, tail);
      RoundTrip(n - hit, Longer(state), length + hit, maximum, rest);
    } else {
      var tail := ToBits(n, RunBits(state)) + rest;
      assert bits == [false] + tail;
      Golomb.TakeBit(false, tail);
      TakeRoundTrip(n, RunBits(state), rest);
      if RunBits(state) == 0 {
        assert tail == rest;
      }
    }
  }

  /** The run loop; also returns the adapted run state. */
  method DecodeRun(reader: BitReader, state: nat, maximum: nat) returns (r: Result<nat>, runState: nat)
    requires reader.Valid() && state < RUN_STATE_COUNT
    modifies reader
    ensures reader.Valid()
    ensures var spec := Decode(old(reader.Rest()), state, 0, maximum);
      && (spec.Success? ==> r == Ok(spec.value.0) && runState == spec.value.1 && reader.Rest() == spec.rest)
      && (spec.Failure? ==> r == Err(spec.kind))
  {
    hide Take, AllBits, RunBits, Pow2;
    ghost var spec := Decode(reader.Rest(), state, 0, maximum);
    var length: nat := 0;
    runState := state;
    while true
      invariant reader.Valid() && runState < RUN_STATE_COUNT && length <= maximum
      invariant Decode(reader.Rest(), runState, length, maximum) == spec
      decreases |reader.Rest()|
    {
      var bit := reader.ReadBits(1);
      if bit.Err? {
        return Err(bit.kind), runState;
      }
      if bit.value != 1 {
        break;
      }
      length := length + Pow2(RunBits(runState));
      if length > maximum {
        return Err(InvalidRun), runState;
      }
      runState := Longer(runState);
    }
    if RunBits(runState) != 0 {
      var tail := reader.ReadBits(RunBits(runState));
      if tail.Err? {
        return Err(tail.kind), runState;
      }
      length := length + tail.value;
      if length > maximum {
        return Err(InvalidRun), runState;
      }
    }
    return Ok(length), Shorter(runState);
  }
}
