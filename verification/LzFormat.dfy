/** The SPICE LZ token stream: parser, printer and expansion.

  A stream is a list of tokens, literal runs and back-references. Printing and
  parsing are inverse to each other in both directions, so the decompressor
  accepts exactly the printed forms of valid token lists and expands them by
  overlapping copies.
*/
module LzFormat {
  import opened Basics

  const LITERAL_CONTROL_LIMIT := 32
  const EXTENDED_LENGTH_MARKER := 6
  const NEAR_DISTANCE_PREFIX := 31
  const NEAR_DISTANCE_MAX := 8191
  /** The farthest distance a token can name. */
  const MAX_DISTANCE := 73727

  datatype Kind = Truncated | InvalidBackReference | OutputOverflow

  /** One logical unit: the compressed bytes of a pixel, an index or an alpha sample. */
  type Unit = seq<byte>

  datatype Token = Literal(units: seq<Unit>) | Match(length: nat, distance: nat)

  /** The bytes of a unit, the shortest match, and the units to produce. */
  datatype Shape = Shape(unitBytes: nat, bias: nat, expected: nat)

  predicate ShapeOk(s: Shape) {
    1 <= s.unitBytes && 1 <= s.bias
  }

  /** A value parsed from the front of a byte string, with what follows it. */
  datatype Parsed<+T> = Success(value: T, rest: seq<byte>) | Failure(kind: Kind)

  // ---------------------------------------------------------------------------
  // Validity and meaning
  // ---------------------------------------------------------------------------

  predicate UnitsOk(units: seq<Unit>, s: Shape) {
    Even(units, s.unitBytes)
  }

  /** A token that can follow `produced` units. */
  predicate Valid(t: Token, produced: nat, s: Shape) {
    match t
    case Literal(units) => 1 <= |units| <= 32 && UnitsOk(units, s) && produced + |units| <= s.expected
    case Match(length, distance) =>
      s.bias <= length && produced + length <= s.expected && 1 <= distance <= Min(produced, MAX_DISTANCE)
  }

  /** Appends unit by unit, each the one `distance` back, so short distances repeat. */
  function Copy(output: seq<Unit>, distance: nat, n: nat): (r: seq<Unit>)
    requires 1 <= distance <= |output|
    ensures |r| == |output| + n
    decreases n
  {
    if n == 0 then output else Copy(output + [output[|output| - distance]], distance, n - 1)
  }

  /** The copy is the one extension that is periodic at its distance. */
  lemma {:induction false} CopyIsPeriodic(output: seq<Unit>, distance: nat, n: nat)
    requires 1 <= distance <= |output|
    ensures var r := Copy(output, distance, n);
      && r[..|output|] == output
      && forall i :: |output| <= i < |r| ==> r[i] == r[i - distance]
    decreases n
  {
    if n > 0 {
      var next := output + [output[|output| - distance]];
      CopyIsPeriodic(next, distance, n - 1);
      assert Copy(output, distance, n)[..|output|] == next[..|output|] == output;
    }
  }

  lemma {:induction false} CopyKeepsUnits(output: seq<Unit>, distance: nat, n: nat, s: Shape)
    requires 1 <= distance <= |output| && UnitsOk(output, s)
    ensures UnitsOk(Copy(output, distance, n), s)
    decreases n
  {
    if n > 0 {
      CopyKeepsUnits(output + [output[|output| - distance]], distance, n - 1, s);
    }
  }

  function Apply(output: seq<Unit>, t: Token, s: Shape): (r: seq<Unit>)
    requires Valid(t, |output|, s)
    ensures |r| == |output| + match t case Literal(units) => |units| case Match(length, _) => length
  {
    match t
    case Literal(units) => output + units
    case Match(length, distance) => Copy(output, distance, length)
  }

  /** A list of tokens that produces exactly the expected units. */
  ghost predicate ValidList(tokens: seq<Token>, output: seq<Unit>, s: Shape) {
    if tokens == [] then |output| == s.expected
    else Valid(tokens[0], |output|, s) && ValidList(tokens[1..], Apply(output, tokens[0], s), s)
  }

  ghost function Expand(tokens: seq<Token>, output: seq<Unit>, s: Shape): seq<Unit>
    requires ValidList(tokens, output, s)
  {
    if tokens == [] then output else Expand(tokens[1..], Apply(output, tokens[0], s), s)
  }

  // ---------------------------------------------------------------------------
  // Printing
  // ---------------------------------------------------------------------------

  /** A length extension: bytes of 255 and one below it. */
  function Chain(n: nat): seq<byte> {
    if n < 255 then [n] else [255] + Chain(n - 255)
  }

  function PrintControl(length: nat, prefix: nat): (b: byte)
    requires prefix <= NEAR_DISTANCE_PREFIX
    ensures b >= LITERAL_CONTROL_LIMIT
  {
    0x20 * (Min(length, EXTENDED_LENGTH_MARKER) + 1) + prefix
  }

  function PrintDistance(d: nat): seq<byte>
    requires d < MAX_DISTANCE
  {
    if d < NEAR_DISTANCE_MAX then [d % 0x100]
    else [255, (d - NEAR_DISTANCE_MAX) / 0x100, (d - NEAR_DISTANCE_MAX) % 0x100]
  }

  function DistancePrefix(d: nat): (p: nat)
    ensures p <= NEAR_DISTANCE_PREFIX
  {
    if d < NEAR_DISTANCE_MAX then d / 0x100 else NEAR_DISTANCE_PREFIX
  }

  function PrintMatch(length: nat, d: nat): seq<byte>
    requires d < MAX_DISTANCE
  {
    [PrintControl(length, DistancePrefix(d))]
    + (if length < EXTENDED_LENGTH_MARKER then [] else Chain(length - EXTENDED_LENGTH_MARKER))
    + PrintDistance(d)
  }

  function Print(t: Token, produced: nat, s: Shape): seq<byte>
    requires Valid(t, produced, s)
  {
    match t
    case Literal(units) => [|units| - 1] + Flatten(units)
    case Match(length, distance) => PrintMatch(length - s.bias, distance - 1)
  }

  ghost function PrintList(tokens: seq<Token>, output: seq<Unit>, s: Shape): seq<byte>
    requires ValidList(tokens, output, s)
  {
    if tokens == [] then []
    else Print(tokens[0], |output|, s) + PrintList(tokens[1..], Apply(output, tokens[0], s), s)
  }

  // ---------------------------------------------------------------------------
  // Parsing
  // ---------------------------------------------------------------------------

  function U8(input: seq<byte>): Parsed<nat> {
    if input == [] then Failure(Truncated) else Success(input[0], input[1..])
  }

  function Units(input: seq<byte>, n: nat, s: Shape): (r: Parsed<seq<Unit>>)
    ensures r.Success? ==> |r.value| == n && UnitsOk(r.value, s) && |r.rest| <= |input|
    decreases n
  {
    if n == 0 then Success([], input)
    else if |input| < s.unitBytes then Failure(Truncated)
    else
      var tail := Units(input[s.unitBytes..], n - 1, s);
      if tail.Failure? then tail else Success([input[..s.unitBytes]] + tail.value, tail.rest)
  }

  function ParseChain(input: seq<byte>, n: nat): (r: Parsed<nat>)
    ensures r.Success? ==> n <= r.value && |r.rest| < |input|
  {
    var extension := U8(input);
    if extension.Failure? then extension
    else if extension.value == 255 then ParseChain(extension.rest, n + 255)
    else Success(n + extension.value, extension.rest)
  }

  /** The distance less one. */
  function ParseDistance(input: seq<byte>, prefix: nat): (r: Parsed<nat>)
    ensures r.Success? ==> |r.rest| < |input|
  {
    var low := U8(input);
    if low.Failure? then low
    else if low.value == 255 && prefix == NEAR_DISTANCE_PREFIX then
      var farHigh := U8(low.rest);
      if farHigh.Failure? then farHigh
      else
        var farLow := U8(farHigh.rest);
        if farLow.Failure? then farLow
        else Success(0x100 * farHigh.value + farLow.value + NEAR_DISTANCE_MAX, farLow.rest)
    else Success(0x100 * prefix + low.value, low.rest)
  }

  /** Length less the bias, and distance less one. */
  function ParseMatch(input: seq<byte>, control: nat): (r: Parsed<(nat, nat)>)
    requires LITERAL_CONTROL_LIMIT <= control < 0x100
    ensures r.Success? ==> |r.rest| < |input|
  {
    var short := control / 0x20 - 1;
    var length := if short == EXTENDED_LENGTH_MARKER then ParseChain(input, short) else Success(short, input);
    if length.Failure? then Failure(length.kind)
    else
      var distance := ParseDistance(length.rest, control % 0x20);
      if distance.Failure? then Failure(distance.kind)
      else Success((length.value, distance.value), distance.rest)
  }

  function Parse(input: seq<byte>, produced: nat, s: Shape): (r: Parsed<Token>)
    requires ShapeOk(s)
    ensures r.Success? ==> |r.rest| < |input| && Valid(r.value, produced, s)
  {
    var control := U8(input);
    if control.Failure? then Failure(control.kind)
    else if control.value < LITERAL_CONTROL_LIMIT then
      if produced + control.value + 1 > s.expected then Failure(OutputOverflow)
      else
        var units := Units(control.rest, control.value + 1, s);
        if units.Failure? then Failure(units.kind) else Success(Literal(units.value), units.rest)
    else
      var found := ParseMatch(control.rest, control.value);
      if found.Failure? then Failure(found.kind)
      else if found.value.1 + 1 > produced then Failure(InvalidBackReference)
      else if produced + found.value.0 + s.bias > s.expected then Failure(OutputOverflow)
      else
        MatchInRange(control.rest, control.value);
        Success(Match(found.value.0 + s.bias, found.value.1 + 1), found.rest)
  }

  lemma MatchInRange(input: seq<byte>, control: nat)
    requires LITERAL_CONTROL_LIMIT <= control < 0x100
    ensures var r := ParseMatch(input, control); r.Success? ==> r.value.1 < MAX_DISTANCE
  {
    hide ParseChain;
  }

  /** The whole stream: tokens until the expected units are there. */
  function Decompress(input: seq<byte>, output: seq<Unit>, s: Shape): (r: Parsed<seq<Unit>>)
    requires ShapeOk(s)
    ensures r.Success? && |output| <= s.expected ==> |r.value| == s.expected
    decreases |input|
  {
    if |output| >= s.expected then Success(output, input)
    else
      var token := Parse(input, |output|, s);
      if token.Failure? then Failure(token.kind)
      else Decompress(token.rest, Apply(output, token.value, s), s)
  }

  // ---------------------------------------------------------------------------
  // Parsing inverts printing
  // ---------------------------------------------------------------------------

  lemma FirstByte(b: byte, rest: seq<byte>)
    ensures U8([b] + rest) == Success(b, rest)
  {
  }

  lemma UnitsFirst(unit: Unit, rest: seq<byte>, n: nat, s: Shape)
    requires n >= 1 && |unit| == s.unitBytes && Units(rest, n - 1, s).Success?
    ensures var tail := Units(rest, n - 1, s);
      Units(unit + rest, n, s) == Success([unit] + tail.value, tail.rest)
  {
    assert (unit + rest)[..s.unitBytes] == unit && (unit + rest)[s.unitBytes..] == rest;
  }

  lemma {:induction false} UnitsRoundTrip(units: seq<Unit>, rest: seq<byte>, s: Shape)
    requires UnitsOk(units, s)
    ensures Units(Flatten(units) + rest, |units|, s) == Success(units, rest)
  {
    if units == [] {
      assert Flatten(units) + rest == rest;
    } else {
      var tail := Flatten(units[1..]) + rest;
      assert Flatten(units) + rest == units[0] + tail;
      UnitsRoundTrip(units[1..], rest, s);
      hide Flatten, Units;
      UnitsFirst(units[0], tail, |units|, s);
      assert units == [units[0]] + units[1..];
    }
  }

  lemma {:induction false} ChainRoundTrip(n: nat, start: nat, rest: seq<byte>)
    ensures ParseChain(Chain(n) + rest, start) == Success(start + n, rest)
    decreases n
  {
    if n < 255 {
      FirstByte(n, rest);
    } else {
      assert Chain(n) + rest == [255] + (Chain(n - 255) + rest);
      FirstByte(255, Chain(n - 255) + rest);
      ChainRoundTrip(n - 255, start + 255, rest);
    }
  }

  lemma DistanceRoundTrip(d: nat, rest: seq<byte>)
    requires d < MAX_DISTANCE
    ensures ParseDistance(PrintDistance(d) + rest, DistancePrefix(d)) == Success(d, rest)
  {
    hide U8;
    if d < NEAR_DISTANCE_MAX {
      FirstByte(d % 0x100, rest);
    } else {
      var far := d - NEAR_DISTANCE_MAX;
      assert PrintDistance(d) + rest == [255] + ([far / 0x100] + ([far % 0x100] + rest));
      FirstByte(255, [far / 0x100] + ([far % 0x100] + rest));
      FirstByte(far / 0x100, [far % 0x100] + rest);
      FirstByte(far % 0x100, rest);
    }
  }

  lemma MatchRoundTrip(length: nat, d: nat, rest: seq<byte>)
    requires d < MAX_DISTANCE
    ensures var control := PrintControl(length, DistancePrefix(d));
      && PrintMatch(length, d)[0] == control
      && ParseMatch(PrintMatch(length, d)[1..] + rest, control) == Success((length, d), rest)
  {
    hide ParseChain, ParseDistance, PrintDistance, Chain;
    var tail := PrintDistance(d) + rest;
    DistanceRoundTrip(d, rest);
    if length < EXTENDED_LENGTH_MARKER {
      assert PrintMatch(length, d)[1..] + rest == tail;
    } else {
      assert PrintMatch(length, d)[1..] + rest == Chain(length - EXTENDED_LENGTH_MARKER) + tail;
      ChainRoundTrip(length - EXTENDED_LENGTH_MARKER, EXTENDED_LENGTH_MARKER, tail);
    }
  }

  /** A printed token is read back and leaves what follows it. */
  lemma TokenRoundTrip(t: Token, produced: nat, rest: seq<byte>, s: Shape)
    requires ShapeOk(s) && Valid(t, produced, s)
    ensures Parse(Print(t, produced, s) + rest, produced, s) == Success(t, rest)
  {
    hide Units, Flatten, ParseMatch, PrintMatch, U8;
    match t
    case Literal(units) =>
      assert Print(t, produced, s) + rest == [|units| - 1] + (Flatten(units) + rest);
      FirstByte(|units| - 1, Flatten(units) + rest);
      UnitsRoundTrip(units, rest, s);
    case Match(length, distance) =>
      var printed := PrintMatch(length - s.bias, distance - 1);
      MatchRoundTrip(length - s.bias, distance - 1, rest);
      MatchNonempty(length - s.bias, distance - 1);
      assert printed + rest == [printed[0]] + (printed[1..] + rest);
      FirstByte(printed[0], printed[1..] + rest);
  }

  lemma MatchNonempty(length: nat, d: nat)
    requires d < MAX_DISTANCE
    ensures PrintMatch(length, d) != []
  {
  }

  /** The printed form of a valid list expands to its meaning, and exactly its bytes are consumed. */
  lemma {:induction false} StreamRoundTrip(tokens: seq<Token>, output: seq<Unit>, rest: seq<byte>, s: Shape)
    requires ShapeOk(s) && ValidList(tokens, output, s)
    ensures Decompress(PrintList(tokens, output, s) + rest, output, s) == Success(Expand(tokens, output, s), rest)
    decreases |tokens|
  {
    hide Parse, Print, Apply, Valid;
    if tokens == [] {
      assert PrintList(tokens, output, s) + rest == rest;
    } else {
      var t := tokens[0];
      var output' := Apply(output, t, s);
      var tail := PrintList(tokens[1..], output', s) + rest;
      assert PrintList(tokens, output, s) + rest == Print(t, |output|, s) + tail;
      TokenRoundTrip(t, |output|, tail, s);
      RoomLeft(t, output, s);
      StreamRoundTrip(tokens[1..], output', rest, s);
    }
  }

  lemma RoomLeft(t: Token, output: seq<Unit>, s: Shape)
    requires ShapeOk(s) && Valid(t, |output|, s)
    ensures |output| < s.expected && |output| < |Apply(output, t, s)|
  {
  }

  // ---------------------------------------------------------------------------
  // Printing inverts parsing
  // ---------------------------------------------------------------------------

  lemma SplitFirst(input: seq<byte>)
    requires U8(input).Success?
    ensures input == [U8(input).value] + U8(input).rest
  {
  }

  lemma {:induction false} UnitsExact(input: seq<byte>, n: nat, s: Shape)
    ensures var r := Units(input, n, s); r.Success? ==> input == Flatten(r.value) + r.rest
    decreases n
  {
    var r := Units(input, n, s);
    if n > 0 && r.Success? {
      UnitsExact(input[s.unitBytes..], n - 1, s);
      var tail := Units(input[s.unitBytes..], n - 1, s);
      assert r.value[1..] == tail.value;
      assert input == input[..s.unitBytes] + input[s.unitBytes..];
    }
  }

  lemma {:induction false} ChainExact(input: seq<byte>, start: nat)
    ensures var r := ParseChain(input, start); r.Success? ==> input == Chain(r.value - start) + r.rest
    decreases |input|
  {
    var r := ParseChain(input, start);
    if r.Success? {
      SplitFirst(input);
      if U8(input).value == 255 {
        ChainExact(U8(input).rest, start + 255);
        assert Chain(r.value - start) == [255] + Chain(r.value - start - 255);
      }
    }
  }

  lemma DistanceExact(input: seq<byte>, prefix: nat)
    requires prefix <= NEAR_DISTANCE_PREFIX
    ensures var r := ParseDistance(input, prefix);
      r.Success? ==>
        && r.value < MAX_DISTANCE && DistancePrefix(r.value) == prefix
        && input == PrintDistance(r.value) + r.rest
  {
    var r := ParseDistance(input, prefix);
    if r.Success? {
      SplitFirst(input);
      var low := U8(input);
      if low.value == 255 && prefix == NEAR_DISTANCE_PREFIX {
        SplitFirst(low.rest);
        SplitFirst(U8(low.rest).rest);
        assert input == [255] + ([U8(low.rest).value] + ([U8(U8(low.rest).rest).value] + r.rest));
      }
    }
  }

  lemma MatchExact(input: seq<byte>, control: nat)
    requires LITERAL_CONTROL_LIMIT <= control < 0x100
    ensures var r := ParseMatch(input, control);
      r.Success? ==> r.value.1 < MAX_DISTANCE && [control] + input == PrintMatch(r.value.0, r.value.1) + r.rest
  {
    hide ParseChain, ParseDistance, PrintDistance, Chain, DistancePrefix;
    var r := ParseMatch(input, control);
    if r.Success? {
      var short := control / 0x20 - 1;
      if short == EXTENDED_LENGTH_MARKER {
        ChainExact(input, short);
        var length := ParseChain(input, short);
        DistanceExact(length.rest, control % 0x20);
        assert [control] + input == [control] + Chain(length.value - short) + PrintDistance(r.value.1) + r.rest;
      } else {
        DistanceExact(input, control % 0x20);
        assert [control] + input == [control] + PrintDistance(r.value.1) + r.rest;
      }
    }
  }

  /** Whatever parses is the printed form of its token. */
  lemma TokenExact(input: seq<byte>, produced: nat, s: Shape)
    requires ShapeOk(s)
    ensures var r := Parse(input, produced, s); r.Success? ==> input == Print(r.value, produced, s) + r.rest
  {
    hide Units, Flatten, ParseMatch, PrintMatch;
    var r := Parse(input, produced, s);
    if r.Success? {
      SplitFirst(input);
      var control := U8(input);
      if control.value < LITERAL_CONTROL_LIMIT {
        UnitsExact(control.rest, control.value + 1, s);
      } else {
        MatchExact(control.rest, control.value);
      }
    }
  }

  /** Accepted input is the printed form of exactly one kind of thing: a valid token list. */
  lemma {:induction false} StreamExact(input: seq<byte>, output: seq<Unit>, s: Shape) returns (tokens: seq<Token>)
    requires ShapeOk(s) && |output| <= s.expected && Decompress(input, output, s).Success?
    ensures ValidList(tokens, output, s)
    ensures var r := Decompress(input, output, s);
      r.value == Expand(tokens, output, s) && input == PrintList(tokens, output, s) + r.rest
    decreases |input|
  {
    hide Parse, Print, Apply, Valid;
    if |output| == s.expected {
      tokens := [];
    } else {
      var token := Parse(input, |output|, s);
      TokenExact(input, |output|, s);
      var output' := Apply(output, token.value, s);
      ApplyFits(token.value, output, s);
      var tail := StreamExact(token.rest, output', s);
      tokens := [token.value] + tail;
      assert tokens[1..] == tail;
    }
  }

  lemma ApplyFits(t: Token, output: seq<Unit>, s: Shape)
    requires Valid(t, |output|, s)
    ensures |Apply(output, t, s)| <= s.expected
  {
  }

  /** Acceptance: a stream decompresses if and only if it starts with a printed valid list. */
  lemma AcceptedIffPrinted(input: seq<byte>, s: Shape)
    requires ShapeOk(s)
    ensures Decompress(input, [], s).Success?
            <==> exists tokens, rest :: ValidList(tokens, [], s) && input == PrintList(tokens, [], s) + rest
  {
    hide Decompress, ValidList, PrintList;
    if Decompress(input, [], s).Success? {
      var tokens := StreamExact(input, [], s);
      var rest := Decompress(input, [], s).rest;
      assert ValidList(tokens, [], s) && input == PrintList(tokens, [], s) + rest;
    }
    forall tokens, rest | ValidList(tokens, [], s) && input == PrintList(tokens, [], s) + rest
      ensures Decompress(input, [], s).Success?
    {
      StreamRoundTrip(tokens, [], rest, s);
    }
  }
}
