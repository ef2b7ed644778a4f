/** The imperative GLZ decoder, proved against `GlzFormat`. */
module GlzDecoder {
  import opened Basics
  import opened GlzFormat
  import opened GlzTokens
  import opened GlzStreams

  class Reader {
    const input: seq<byte>
    var offset: nat

    ghost predicate Valid()
      reads this
    {
      offset <= |input|
    }

    constructor (input: seq<byte>, offset: nat)
      requires offset <= |input|
      ensures this.input == input && this.offset == offset
    {
      this.input := input;
      this.offset := offset;
    }

    method ReadByte() returns (r: Read<nat>)
      requires Valid()
      modifies this
      ensures Valid() && r == U8(input, old(offset))
      ensures offset == if r.Got? then r.offset else old(offset)
    {
      if offset >= |input| {
        return Bad(Truncated);
      }
      r := Got(input[offset], offset + 1);
      offset := offset + 1;
    }
  }

  lemma {:induction false} ShlSum(a: nat, b: nat, n: nat)
    ensures Shl(a + b, n) == Shl(a, n) + Shl(b, n)
  {
    if n > 0 {
      ShlSum(a, b, n - 1);
    }
  }

  lemma {:induction false} ShlShl(a: nat, m: nat, n: nat)
    ensures Shl(Shl(a, m), n) == Shl(a, m + n)
  {
    if n > 0 {
      ShlShl(a, m, n - 1);
    }
  }

  /** Taking the next byte of a little-endian number moves it from the tail to the head. */
  lemma LittleEndianStep(low: nat, tail: nat, i: nat)
    ensures Shl(low + 0x100 * tail, 8 * i) == Shl(low, 8 * i) + Shl(tail, 8 * (i + 1))
  {
    hide Shl;
    ShlSum(low, 0x100 * tail, 8 * i);
    assert Shl(tail, 8) == 0x100 * tail by {
      ShlEight(tail);
    }
    ShlShl(tail, 8, 8 * i);
  }

  lemma ShlEight(v: nat)
    ensures Shl(v, 8) == 0x100 * v
  {
    ShlTwo(v, 0);
    ShlTwo(v, 2);
    ShlTwo(v, 4);
    ShlTwo(v, 6);
  }

  lemma ShlTwo(v: nat, n: nat)
    ensures Shl(v, n + 2) == 4 * Shl(v, n)
  {
  }

  /** Distance bytes are gathered low byte first, each shifted into place. */
  method ReadDistance(reader: Reader, count: nat) returns (r: Read<nat>)
    requires reader.Valid()
    modifies reader
    ensures reader.Valid() && r == LittleEndian(reader.input, old(reader.offset), count)
    ensures r.Got? ==> reader.offset == r.offset
  {
    hide Shl;
    ghost var spec := LittleEndian(reader.input, reader.offset, count);
    var distance := 0;
    var i := 0;
    ShlZero();
    while i < count
      invariant i <= count && reader.Valid()
      invariant var tail := LittleEndian(reader.input, reader.offset, count - i);
        && (tail.Bad? ==> spec == tail)
        && (tail.Got? ==> spec == Got(distance + Shl(tail.value, 8 * i), tail.offset))
    {
      ghost var tail := LittleEndian(reader.input, reader.offset + 1, count - i - 1);
      var b := reader.ReadByte();
      if b.Bad? {
        return b;
      }
      if tail.Got? {
        LittleEndianStep(b.value, tail.value, i);
      }
      distance := distance + Shl(b.value, 8 * i);
      i := i + 1;
    }
    ShlNothing(8 * i);
    return Got(distance, reader.offset);
  }

  lemma ShlZero()
    ensures forall v: nat :: Shl(v, 0) == v
  {
  }

  lemma {:induction false} ShlNothing(n: nat)
    ensures Shl(0, n) == 0
  {
    if n > 0 {
      ShlNothing(n - 1);
    }
  }

  /** The length-extension loop. */
  method ReadLength(reader: Reader, marker: nat) returns (r: Read<nat>)
    requires reader.Valid()
    modifies reader
    ensures reader.Valid() && r == ExtendLength(reader.input, old(reader.offset), marker)
    ensures r.Got? ==> reader.offset == r.offset
  {
    ghost var spec := ExtendLength(reader.input, reader.offset, marker);
    var length := marker;
    while true
      invariant reader.Valid()
      invariant spec == ExtendLength(reader.input, reader.offset, length)
      decreases |reader.input| - reader.offset
    {
      var extension := reader.ReadByte();
      if extension.Bad? {
        return extension;
      }
      length := length + extension.value;
      if extension.value != 255 {
        return Got(length, reader.offset);
      }
    }
  }

  method DecodeReference(reader: Reader, control: nat, bias: nat) returns (r: Read<Reference>)
    requires reader.Valid() && control < 0x100
    modifies reader
    ensures reader.Valid() && r == ParseReference(reader.input, old(reader.offset), control, bias)
    ensures r.Got? ==> reader.offset == r.offset
    ensures r.Got? && 0x20 <= control ==>
      Printed(reader.input, old(reader.offset), control, bias, r.value, reader.offset)
  {
    hide ExtendLength, LittleEndian, Printed;
    if 0x20 <= control {
      ReferenceExact(reader.input, reader.offset, control, bias);
    }
    var length := control / 0x20;
    var longPixelOffset := control / 0x10 % 2 == 1;
    var pixelOffset := control % 0x10;
    if length == EXTENDED_LENGTH_MARKER {
      var extended := ReadLength(reader, length);
      if extended.Bad? {
        return Bad(extended.kind);
      }
      length := extended.value;
    }
    var middle := reader.ReadByte();
    if middle.Bad? {
      return Bad(middle.kind);
    }
    pixelOffset := pixelOffset + 0x10 * middle.value;
    var descriptor := reader.ReadByte();
    if descriptor.Bad? {
      return Bad(descriptor.kind);
    }
    var distance := ReadDistance(reader, descriptor.value / 0x40);
    if distance.Bad? {
      return Bad(distance.kind);
    }
    var imageDistance := distance.value;
    if longPixelOffset {
      pixelOffset := pixelOffset + 0x1000 * (descriptor.value % 0x20);
      if descriptor.value / 0x20 % 2 == 1 {
        var high := reader.ReadByte();
        if high.Bad? {
          return Bad(high.kind);
        }
        pixelOffset := pixelOffset + 0x2_0000 * high.value;
      }
    } else {
      imageDistance := descriptor.value % 0x40 + 0x40 * imageDistance;
    }
    length := length + bias;
    if imageDistance == 0 {
      pixelOffset := pixelOffset + 1;
    }
    return Got(Reference(length, pixelOffset, imageDistance), reader.offset);
  }

  /** The pixels a buffer holds: a growing prefix in the colour stream, all of it in the alpha stream. */
  ghost function View(output: array<Pixel>, produced: nat, alpha: bool): seq<Pixel>
    requires produced <= output.Length
    reads output
  {
    if alpha then output[..] else output[..produced]
  }

  /** One pixel moved inside or into the buffer. */
  method PutPixel(output: array<Pixel>, at: nat, pixel: Pixel, alpha: bool)
    requires at < output.Length
    modifies output
    ensures View(output, at + 1, alpha) == Put(old(View(output, at, alpha)), at, pixel, alpha)
  {
    ghost var before := View(output, at, alpha);
    if alpha {
      output[at] := output[at][3 := pixel[3]];
    } else {
      output[at] := pixel;
    }
    assert View(output, at + 1, alpha) == Put(before, at, pixel, alpha);
  }

  /** A forward copy inside the buffer, overlapping where the distance is short. */
  method CopyWithin(output: array<Pixel>, at: nat, distance: nat, n: nat, alpha: bool)
    requires at + n <= output.Length && 1 <= distance <= at
    modifies output
    ensures View(output, at + n, alpha) == CopyLocal(old(View(output, at, alpha)), at, distance, n, alpha)
  {
    hide Put;
    ghost var spec := CopyLocal(View(output, at, alpha), at, distance, n, alpha);
    var copied := 0;
    while copied < n
      invariant copied <= n
      invariant spec == CopyLocal(View(output, at + copied, alpha), at + copied, distance, n - copied, alpha)
    {
      PutPixel(output, at + copied, output[at + copied - distance], alpha);
      copied := copied + 1;
    }
  }

  method CopyFrom(output: array<Pixel>, at: nat, source: seq<Pixel>, from: nat, n: nat, alpha: bool)
    requires at + n <= output.Length && from + n <= |source|
    modifies output
    ensures View(output, at + n, alpha) == CopyImage(old(View(output, at, alpha)), at, source, from, n, alpha)
  {
    hide Put;
    ghost var spec := CopyImage(View(output, at, alpha), at, source, from, n, alpha);
    var copied := 0;
    while copied < n
      invariant copied <= n
      invariant spec
             == CopyImage(View(output, at + copied, alpha), at + copied, source, from + copied, n - copied, alpha)
    {
      PutPixel(output, at + copied, source[from + copied], alpha);
      copied := copied + 1;
    }
  }

  /** Resolves a reference and copies it in place. */
  method CopyReference(h: Header, output: array<Pixel>, produced: nat, reference: Reference, ghost offset: nat,
                       dictionary: Dictionary, alpha: bool)
      returns (r: Option<Outcome>)
    requires produced + reference.length <= output.Length
    requires reference.imageDistance == 0 ==> 1 <= reference.pixelOffset
    modifies output
    ensures var s := State(offset, old(View(output, produced, alpha)), produced, alpha);
      var spec := Refer(h, s, reference, offset, dictionary);
      && (r.Some? ==> spec == r.value && !spec.Continue?)
      && (r.None? ==> reference.length > 0)
      && (r.None? ==> spec == Continue(State(offset, View(output, produced + reference.length, alpha),
                                             produced + reference.length, alpha)))
  {
    hide CopyLocal, CopyImage;
    if reference.length == 0 {
      return Some(Fail(InvalidBackReference));
    }
    if reference.imageDistance == 0 {
      if reference.pixelOffset > produced {
        return Some(Fail(InvalidBackReference));
      }
      CopyWithin(output, produced, reference.pixelOffset, reference.length, alpha);
      return None;
    }
    if reference.imageDistance > h.id {
      return Some(Fail(InvalidBackReference));
    }
    var resolved := dictionary(h.id - reference.imageDistance);
    if resolved.None? {
      return Some(Missing(h.id - reference.imageDistance));
    }
    if reference.pixelOffset + reference.length > |resolved.value| {
      return Some(Fail(InvalidBackReference));
    }
    CopyFrom(output, produced, resolved.value, reference.pixelOffset, reference.length, alpha);
    return None;
  }

  /** Literal pixels, one after another. */
  method CopyLiterals(h: Header, reader: Reader, output: array<Pixel>, produced: nat, count: nat, alpha: bool)
      returns (r: Option<Outcome>)
    requires reader.Valid() && produced + count <= output.Length
    modifies reader, output
    ensures reader.Valid()
    ensures var spec := Literals(h, reader.input,
                                 State(old(reader.offset), old(View(output, produced, alpha)), produced, alpha), count);
      && (r.Some? ==> spec == r.value && !spec.Continue?)
      && (r.None? ==> spec == Continue(State(reader.offset, View(output, produced + count, alpha),
                                             produced + count, alpha)))
  {
    hide Put, LiteralPixel;
    ghost var start := State(reader.offset, View(output, produced, alpha), produced, alpha);
    ghost var spec := Literals(h, reader.input, start, count);
    var width := LiteralBytes(h, alpha);
    var i := 0;
    while i < count
      invariant i <= count && reader.Valid()
      invariant spec == Literals(h, reader.input,
                                 State(reader.offset, View(output, produced + i, alpha), produced + i, alpha),
                                 count - i)
    {
      if reader.offset + width > |reader.input| {
        return Some(Fail(Truncated));
      }
      var encoded := reader.input[reader.offset..reader.offset + width];
      reader.offset := reader.offset + width;
      PutPixel(output, produced + i, LiteralPixel(h, encoded, alpha), alpha);
      i := i + 1;
    }
    return None;
  }

  /** One control byte and what it asks for. */
  method DecodeControl(h: Header, reader: Reader, output: array<Pixel>, produced: nat, dictionary: Dictionary,
                       alpha: bool)
      returns (r: Option<Outcome>, produced': nat)
    requires reader.Valid() && produced < output.Length == h.Pixels()
    modifies reader, output
    ensures reader.Valid() && (r.None? ==> produced < produced' <= output.Length)
    ensures var s := State(old(reader.offset), old(View(output, produced, alpha)), produced, alpha);
      var spec := Step(h, reader.input, s, dictionary);
      && (r.Some? ==> spec == r.value && !spec.Continue?)
      && (r.None? ==> spec == Continue(State(reader.offset, View(output, produced', alpha), produced', alpha)))
  {
    hide Literals, ParseReference, Refer;
    var control := reader.ReadByte();
    if control.Bad? {
      return Some(Fail(control.kind)), produced;
    }
    if control.value < LITERAL_CONTROL_LIMIT {
      var count := control.value + 1;
      if produced + count > output.Length {
        return Some(Fail(OutputOverflow)), produced;
      }
      r := CopyLiterals(h, reader, output, produced, count, alpha);
      return r, produced + count;
    }
    var reference := DecodeReference(reader, control.value, MatchBias(h, alpha));
    if reference.Bad? {
      return Some(Fail(reference.kind)), produced;
    }
    if produced + reference.value.length > output.Length {
      return Some(Fail(OutputOverflow)), produced;
    }
    ReferIgnoresOffset(h, reader.offset, View(output, produced, alpha), produced, reference.value, dictionary, alpha);
    r := CopyReference(h, output, produced, reference.value, reader.offset, dictionary, alpha);
    return r, produced + reference.value.length;
  }

  lemma ReferIgnoresOffset(h: Header, offset: nat, output: seq<Pixel>, produced: nat, reference: Reference,
                           dictionary: Dictionary, alpha: bool)
    requires Room(output, produced, reference.length, alpha)
    requires reference.imageDistance == 0 ==> 1 <= reference.pixelOffset
    ensures forall o: nat ::
      Refer(h, State(o, output, produced, alpha), reference, offset, dictionary)
      == Refer(h, State(offset, output, produced, alpha), reference, offset, dictionary)
  {
    hide CopyLocal, CopyImage;
  }

  /** One stream: colour, or the alpha laid over it. */
  method DecodeStream(h: Header, reader: Reader, output: array<Pixel>, dictionary: Dictionary, alpha: bool)
      returns (r: Option<Outcome>)
    requires reader.Valid() && output.Length == h.Pixels()
    modifies reader, output
    ensures reader.Valid()
    ensures var s := State(old(reader.offset), old(View(output, 0, alpha)), 0, alpha);
      var spec := Finish(h, reader.input, s, dictionary);
      && (r.Some? ==> spec == r.value)
      && (r.None? ==> spec == Finish(h, reader.input, State(reader.offset, output[..], h.Pixels(), alpha), dictionary))
  {
    hide Step, Left;
    ghost var spec := Finish(h, reader.input, State(reader.offset, View(output, 0, alpha), 0, alpha), dictionary);
    var produced := 0;
    while produced < output.Length
      invariant produced <= output.Length && reader.Valid()
      invariant spec == Finish(h, reader.input, State(reader.offset, View(output, produced, alpha), produced, alpha),
                               dictionary)
    {
      r, produced := DecodeControl(h, reader, output, produced, dictionary, alpha);
      if r.Some? {
        return;
      }
    }
    assert View(output, produced, alpha) == output[..];
    return None;
  }

  /** A whole payload against a fixed dictionary. */
  method DecodeGlz(input: seq<byte>, limits: Limits, dictionary: Dictionary) returns (h: HeaderResult, r: Outcome)
    ensures h == ParseHeader(input, limits)
    ensures h.Accepted? ==> r == Finish(h.header, input, Start(), dictionary)
    ensures h.Refused? ==> r == Fail(h.kind)
    ensures h.Accepted? ==> forall pixels :: r == Complete(pixels) <==> Described(h.header, dictionary, input, pixels)
  {
    hide Literals, ParseReference, Refer, Left, ParseHeader, Described;
    h := ParseHeader(input, limits);
    if h.Refused? {
      return h, Fail(h.kind);
    }
    var header := h.header;
    forall pixels
      ensures Finish(header, input, Start(), dictionary) == Complete(pixels)
              <==> Described(header, dictionary, input, pixels)
    {
      CompleteIff(header, dictionary, input, pixels);
    }
    var reader := new Reader(input, HEADER_BYTES);
    var output := new Pixel[header.Pixels()](_ => [0, 0, 0, 0]);
    assert View(output, 0, false) == [];
    var stopped := DecodeStream(header, reader, output, dictionary, false);
    if stopped.Some? {
      return h, stopped.value;
    }
    if header.imageType == Rgba {
      stopped := DecodeStream(header, reader, output, dictionary, true);
      if stopped.Some? {
        return h, stopped.value;
      }
    }
    if reader.offset != |input| {
      return h, Fail(TrailingData);
    }
    return h, Complete(output[..]);
  }
}
