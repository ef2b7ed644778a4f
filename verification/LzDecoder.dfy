/** The imperative SPICE LZ decompressor, proved against `LzFormat`. */
module LzDecoder {
  import opened Basics
  import opened LzFormat

  datatype Result = Ok(output: seq<byte>) | Err(kind: Kind)

  class Reader {
    const input: seq<byte>
    var offset: nat

    ghost predicate Valid()
      reads this
    {
      offset <= |input|
    }

    ghost function Rest(): seq<byte>
      requires Valid()
      reads this
    {
      input[offset..]
    }

    constructor (input: seq<byte>, offset: nat)
      requires offset <= |input|
      ensures this.input == input && Valid() && Rest() == input[offset..]
    {
      this.input := input;
      this.offset := offset;
    }

    method ReadByte() returns (r: Option<nat>)
      requires Valid()
      modifies this
      ensures Valid()
      ensures r.Some? ==> U8(old(Rest())) == Success(r.value, Rest()) && r.value < 0x100
      ensures r.None? ==> U8(old(Rest())) == Failure(Truncated)
    {
      if offset >= |input| {
        return None;
      }
      r := Some(input[offset]);
      offset := offset + 1;
    }

    method ReadBytes(n: nat) returns (r: Option<seq<byte>>)
      requires Valid()
      modifies this
      ensures Valid()
      ensures r.Some? ==> |r.value| == n && old(Rest()) == r.value + Rest()
      ensures r.None? ==> |old(Rest())| < n
    {
      if offset + n > |input| {
        return None;
      }
      r := Some(input[offset..offset + n]);
      offset := offset + n;
    }
  }

  // ---------------------------------------------------------------------------
  // Units in a flat buffer
  // ---------------------------------------------------------------------------

  lemma MulStep(n: nat, u: nat)
    requires n >= 1
    ensures n * u == (n - 1) * u + u && (n - 1) * u >= 0
  {
  }

  /** Reading `n` units at once is reading them one by one. */
  lemma {:induction false} UnitsOfBytes(input: seq<byte>, n: nat, total: nat, s: Shape)
    requires ShapeOk(s) && total == n * s.unitBytes
    ensures |input| < total ==> Units(input, n, s) == Failure(Truncated)
    ensures total <= |input| ==> Units(input, n, s).Success? && Units(input, n, s).rest == input[total..]
    decreases n
  {
    if n > 0 {
      MulStep(n, s.unitBytes);
      if |input| >= s.unitBytes {
        var tail := input[s.unitBytes..];
        UnitsOfBytes(tail, n - 1, total - s.unitBytes, s);
        if total <= |input| {
          assert tail[total - s.unitBytes..] == input[total..];
        }
      }
    }
  }

  // ---------------------------------------------------------------------------
  // The decompressor
  // ---------------------------------------------------------------------------

  /** The length-extension loop. */
  method ReadLength(reader: Reader, marker: nat) returns (r: Option<nat>)
    requires reader.Valid()
    modifies reader
    ensures reader.Valid()
    ensures r.Some? ==> ParseChain(old(reader.Rest()), marker) == Success(r.value, reader.Rest())
    ensures r.None? ==> ParseChain(old(reader.Rest()), marker) == Failure(Truncated)
  {
    hide U8;
    ghost var spec := ParseChain(reader.Rest(), marker);
    var length := marker;
    while true
      invariant reader.Valid() && spec == ParseChain(reader.Rest(), length)
      decreases |reader.Rest()|
    {
      ghost var before := reader.Rest();
      var extension := reader.ReadByte();
      if extension.None? {
        return None;
      }
      length := length + extension.value;
      if extension.value != 255 {
        return Some(length);
      }
      Shrinks(before);
    }
  }

  lemma Shrinks(input: seq<byte>)
    ensures U8(input).Success? ==> |U8(input).rest| < |input|
  {
  }

  method ReadDistance(reader: Reader, prefix: nat) returns (r: Option<nat>)
    requires reader.Valid()
    modifies reader
    ensures reader.Valid()
    ensures r.Some? ==> ParseDistance(old(reader.Rest()), prefix) == Success(r.value, reader.Rest())
    ensures r.None? ==> ParseDistance(old(reader.Rest()), prefix) == Failure(Truncated)
  {
    hide U8;
    var low := reader.ReadByte();
    if low.None? {
      return None;
    }
    if low.value == 255 && prefix == NEAR_DISTANCE_PREFIX {
      var farHigh := reader.ReadByte();
      if farHigh.None? {
        return None;
      }
      var farLow := reader.ReadByte();
      if farLow.None? {
        return None;
      }
      return Some(0x100 * farHigh.value + farLow.value + NEAR_DISTANCE_MAX);
    }
    return Some(0x100 * prefix + low.value);
  }

  /** The length and distance after a match control byte. */
  method ReadMatch(reader: Reader, control: nat) returns (r: Option<(nat, nat)>)
    requires reader.Valid() && LITERAL_CONTROL_LIMIT <= control < 0x100
    modifies reader
    ensures reader.Valid()
    ensures r.Some? ==> ParseMatch(old(reader.Rest()), control) == Success(r.value, reader.Rest())
    ensures r.None? ==> ParseMatch(old(reader.Rest()), control) == Failure(Truncated)
  {
    hide ParseChain, ParseDistance;
    var length: nat := control / 0x20 - 1;
    if length == EXTENDED_LENGTH_MARKER {
      var extended := ReadLength(reader, length);
      if extended.None? {
        return None;
      }
      length := extended.value;
    }
    var distance := ReadDistance(reader, control % 0x20);
    if distance.None? {
      return None;
    }
    return Some((length, distance.value));
  }

  /** The overlap copy: each turn appends the unit one distance back. */
  method CopyUnits(output: seq<byte>, ghost units: seq<Unit>, produced: nat, distance: nat, length: nat, s: Shape)
      returns (r: seq<byte>)
    requires ShapeOk(s) && UnitsOk(units, s) && output == Flatten(units)
    requires produced == |units| && 1 <= distance <= produced
    ensures r == Flatten(Copy(units, distance, length))
  {
    hide Flatten;
    ghost var spec := Copy(units, distance, length);
    ghost var have := units;
    r := output;
    var copied := 0;
    while copied < length
      invariant copied <= length && |have| == produced + copied
      invariant UnitsOk(have, s) && r == Flatten(have)
      invariant spec == Copy(have, distance, length - copied)
    {
      var sourceUnit := produced + copied - distance;
      var sourceStart := sourceUnit * s.unitBytes;
      FlattenAt(have, sourceUnit, sourceStart, s.unitBytes);
      FlattenPush(have, have[sourceUnit]);
      r := r + r[sourceStart..sourceStart + s.unitBytes];
      have := have + [have[sourceUnit]];
      copied := copied + 1;
    }
  }

  /** A literal run taken from the input in one piece. */
  method ReadLiteral(reader: Reader, output: seq<byte>, ghost units: seq<Unit>, count: nat, s: Shape)
      returns (r: Option<seq<byte>>, ghost taken: seq<Unit>)
    requires reader.Valid() && ShapeOk(s) && UnitsOk(units, s) && output == Flatten(units)
    modifies reader
    ensures reader.Valid()
    ensures r.None? ==> Units(old(reader.Rest()), count, s) == Failure(Truncated)
    ensures r.Some? ==>
      && Units(old(reader.Rest()), count, s) == Success(taken, reader.Rest())
      && r.value == Flatten(units + taken)
  {
    ghost var rest := reader.Rest();
    UnitsOfBytes(rest, count, count * s.unitBytes, s);
    UnitsExact(rest, count, s);
    var bytes := reader.ReadBytes(count * s.unitBytes);
    if bytes.None? {
      return None, [];
    }
    taken := Units(rest, count, s).value;
    FlattenAppend(units, taken);
    assert bytes.value == rest[..count * s.unitBytes] == Flatten(taken) by {
      FlattenLength(taken, s.unitBytes);
    }
    return Some(output + bytes.value), taken;
  }

  /** Decompresses one stream into a flat buffer of units. */
  method DecompressUnits(reader: Reader, s: Shape) returns (r: Result)
    requires reader.Valid() && ShapeOk(s)
    modifies reader
    ensures reader.Valid()
    ensures var spec := Decompress(old(reader.Rest()), [], s);
      && (spec.Success? ==> r == Ok(Flatten(spec.value)) && reader.Rest() == spec.rest)
      && (spec.Failure? ==> r == Err(spec.kind))
  {
    hide U8, Units, Flatten, Copy, ParseMatch;
    ghost var spec := Decompress(reader.Rest(), [], s);
    ghost var units: seq<Unit> := [];
    var output: seq<byte> := [];
    FlattenNothing();
    var produced: nat := 0;
    while produced < s.expected
      invariant reader.Valid() && UnitsOk(units, s) && produced == |units| <= s.expected
      invariant output == Flatten(units)
      invariant spec == Decompress(reader.Rest(), units, s)
      decreases s.expected - produced
    {
      ghost var before := units;
      var control := reader.ReadByte();
      if control.None? {
        return Err(Truncated);
      }
      if control.value < LITERAL_CONTROL_LIMIT {
        var count := control.value + 1;
        if produced + count > s.expected {
          return Err(OutputOverflow);
        }
        ghost var taken;
        var literal;
        literal, taken := ReadLiteral(reader, output, units, count, s);
        if literal.None? {
          return Err(Truncated);
        }
        output := literal.value;
        units := units + taken;
        produced := produced + count;
      } else {
        var found := ReadMatch(reader, control.value);
        if found.None? {
          return Err(Truncated);
        }
        var length, distance := found.value.0 + s.bias, found.value.1 + 1;
        if distance > produced {
          return Err(InvalidBackReference);
        }
        if produced + length > s.expected {
          return Err(OutputOverflow);
        }
        CopyKeepsUnits(units, distance, length, s);
        output := CopyUnits(output, units, produced, distance, length, s);
        units := Copy(units, distance, length);
        produced := produced + length;
      }
    }
    return Ok(output);
  }

  lemma FlattenNothing()
    ensures Flatten<byte>([]) == []
  {
  }
}
