/** A writer for the pieces of a GLZ payload: literal pixels and references.

  The format leaves the writer some freedom: how many bytes a distance takes and
  which of two layouts holds a pixel offset. `Layout` names that choice, so that
  printing is a function and every accepted encoding is the print of one token.
*/
module GlzTokens {
  import opened Basics
  import opened GlzFormat

  /** `w` stands in the payload at `o`. */
  predicate At(input: seq<byte>, o: nat, w: seq<byte>) {
    o + |w| <= |input| && input[o..o + |w|] == w
  }

  lemma AtConcat(input: seq<byte>, o: nat, a: seq<byte>, b: seq<byte>)
    ensures At(input, o, a + b) <==> At(input, o, a) && At(input, o + |a|, b)
  {
    if o + |a| + |b| <= |input| {
      var w := input[o..o + |a| + |b|];
      assert w == input[o..o + |a|] + input[o + |a|..o + |a| + |b|];
      if w == a + b {
        assert input[o..o + |a|] == w[..|a|] == a;
        assert input[o + |a|..o + |a| + |b|] == w[|a|..] == b;
      }
    }
  }

  lemma AtByte(input: seq<byte>, o: nat, b: byte)
    ensures At(input, o, [b]) <==> o < |input| && input[o] == b
  {
  }

  // ---------------------------------------------------------------------------
  // Numbers
  // ---------------------------------------------------------------------------

  /** A length beyond the marker: full bytes of 255 and a last one below. */
  function Chain(n: nat): (w: seq<byte>)
    ensures |w| >= 1
  {
    if n >= 255 then [255] + Chain(n - 255) else [n]
  }

  lemma {:induction false} ChainRead(input: seq<byte>, o: nat, n: nat, length: nat)
    requires At(input, o, Chain(n))
    ensures ExtendLength(input, o, length) == Got(length + n, o + |Chain(n)|)
    decreases n
  {
    hide At;
    if n >= 255 {
      AtConcat(input, o, [255], Chain(n - 255));
      AtByte(input, o, 255);
      ChainRead(input, o + 1, n - 255, length + 255);
    } else {
      AtByte(input, o, n);
    }
  }

  lemma {:induction false} ReadChain(input: seq<byte>, o: nat, length: nat)
    ensures var r := ExtendLength(input, o, length);
      r.Got? ==> length <= r.value && At(input, o, Chain(r.value - length))
                 && r.offset == o + |Chain(r.value - length)|
    decreases |input| - o
  {
    hide At;
    var r := ExtendLength(input, o, length);
    if r.Got? {
      AtByte(input, o, input[o]);
      if input[o] == 255 {
        ReadChain(input, o + 1, length + 255);
        AtConcat(input, o, [255], Chain(r.value - length - 255));
      }
    }
  }

  /** `k` bytes, the low one first. */
  function Little(v: nat, k: nat): (w: seq<byte>)
    ensures |w| == k
  {
    if k == 0 then [] else [v % 0x100] + Little(v / 0x100, k - 1)
  }

  function Power(k: nat): (p: nat)
    ensures p >= 1
  {
    if k == 0 then 1 else 0x100 * Power(k - 1)
  }

  lemma {:induction false} LittleRead(input: seq<byte>, o: nat, v: nat, k: nat)
    requires v < Power(k) && At(input, o, Little(v, k))
    ensures LittleEndian(input, o, k) == Got(v, o + k)
    decreases k
  {
    hide At;
    if k > 0 {
      AtConcat(input, o, [v % 0x100], Little(v / 0x100, k - 1));
      AtByte(input, o, v % 0x100);
      LittleRead(input, o + 1, v / 0x100, k - 1);
    }
  }

  lemma {:induction false} ReadLittle(input: seq<byte>, o: nat, k: nat)
    requires o <= |input|
    ensures var r := LittleEndian(input, o, k);
      r.Got? ==> r.value < Power(k) && At(input, o, Little(r.value, k)) && r.offset == o + k
    decreases k
  {
    var r := LittleEndian(input, o, k);
    if r.Got? && k > 0 {
      ReadLittle(input, o + 1, k - 1);
      AtByte(input, o, input[o]);
      AtConcat(input, o, [input[o]], Little(r.value / 0x100, k - 1));
    }
  }

  // ---------------------------------------------------------------------------
  // References
  // ---------------------------------------------------------------------------

  /** How a reference is laid out: the bytes of its distance, and in the long layout whether the pixel offset
      has a last byte of its own. */
  datatype Layout = Short(bytes: nat) | Long(bytes: nat, wide: bool)

  /** The offset as written: inside the image it counts back from one. */
  function Written(r: Reference): nat
    requires r.imageDistance == 0 ==> 1 <= r.pixelOffset
  {
    if r.imageDistance == 0 then r.pixelOffset - 1 else r.pixelOffset
  }

  /** The reference fits the layout, and is longer than the length that is not written. */
  predicate Fits(r: Reference, layout: Layout, bias: nat) {
    && r.length > bias
    && (r.imageDistance == 0 ==> 1 <= r.pixelOffset)
    && layout.bytes <= 3
    && match layout
       case Short(k) => Written(r) < 0x1000 && r.imageDistance < 0x40 * Power(k)
       case Long(k, wide) => Written(r) < (if wide then 0x200_0000 else 0x2_0000) && r.imageDistance < Power(k)
  }

  /** Three bits of length, the layout and the low bits of the offset. */
  function Control(r: Reference, layout: Layout, bias: nat): (c: byte)
    requires Fits(r, layout, bias)
    ensures 0x20 <= c
  {
    0x20 * Min(r.length - bias, 7) + (if layout.Long? then 0x10 else 0) + Written(r) % 0x10
  }

  function PrintLength(n: nat): seq<byte> {
    if n >= 7 then Chain(n - 7) else []
  }

  function PrintRest(r: Reference, layout: Layout, bias: nat): (w: seq<byte>)
    requires Fits(r, layout, bias)
    ensures |w| >= 1
  {
    var p := Written(r);
    match layout
    case Short(k) => [0x40 * k + r.imageDistance % 0x40] + Little(r.imageDistance / 0x40, k)
    case Long(k, wide) =>
      [0x40 * k + (if wide then 0x20 else 0) + p / 0x1000 % 0x20]
      + (Little(r.imageDistance, k) + if wide then [p / 0x2_0000] else [])
  }

  /** All of a reference but its control byte. */
  function PrintTail(r: Reference, layout: Layout, bias: nat): (w: seq<byte>)
    requires Fits(r, layout, bias)
  {
    PrintLength(r.length - bias) + ([Written(r) / 0x10 % 0x100] + PrintRest(r, layout, bias))
  }

  function PrintReference(r: Reference, layout: Layout, bias: nat): seq<byte>
    requires Fits(r, layout, bias)
  {
    [Control(r, layout, bias)] + PrintTail(r, layout, bias)
  }

  lemma PrintedParts(input: seq<byte>, o: nat, r: Reference, layout: Layout, bias: nat)
    requires Fits(r, layout, bias)
    ensures var n := |PrintLength(r.length - bias)|;
      At(input, o, PrintTail(r, layout, bias)) <==>
        && At(input, o, PrintLength(r.length - bias))
        && o + n < |input| && input[o + n] == Written(r) / 0x10 % 0x100
        && At(input, o + n + 1, PrintRest(r, layout, bias))
  {
    hide At, Written, PrintRest, PrintLength;
    var length, middle, rest := PrintLength(r.length - bias), [Written(r) / 0x10 % 0x100], PrintRest(r, layout, bias);
    AtConcat(input, o, length, middle + rest);
    AtByte(input, o + |length|, Written(r) / 0x10 % 0x100);
    AtConcat(input, o + |length|, middle, rest);
  }

  lemma ControlParts(r: Reference, layout: Layout, bias: nat)
    requires Fits(r, layout, bias)
    ensures var c := Control(r, layout, bias);
      && c / 0x20 == Min(r.length - bias, 7)
      && c / 0x10 % 2 == (if layout.Long? then 1 else 0)
      && c % 0x10 == Written(r) % 0x10
  {
    hide Power;
  }

  lemma OffsetParts(p: nat)
    ensures p % 0x1000 == p % 0x10 + 0x10 * (p / 0x10 % 0x100)
    ensures p % 0x2_0000 == p % 0x1000 + 0x1000 * (p / 0x1000 % 0x20)
    ensures p == p % 0x2_0000 + 0x2_0000 * (p / 0x2_0000)
  {
    assert p / 0x1000 == p / 0x10 / 0x100;
    assert p / 0x2_0000 == p / 0x1000 / 0x20;
  }

  lemma LengthRead(input: seq<byte>, o: nat, n: nat)
    requires At(input, o, PrintLength(n))
    ensures var length := if Min(n, 7) == 7 then ExtendLength(input, o, 7) else Got(Min(n, 7), o);
      length == Got(n, o + |PrintLength(n)|)
  {
    hide At, Chain, ExtendLength;
    if n >= 7 {
      ChainRead(input, o, n - 7, 7);
    }
  }

  /** What follows the middle byte of a reference, as the reader splits it. */
  function ParseRest(input: seq<byte>, o: nat, low: nat, long: bool): Read<(nat, nat)> {
    var descriptor := U8(input, o);
    if descriptor.Bad? then Bad(descriptor.kind) else
    var distance := LittleEndian(input, descriptor.offset, descriptor.value / 0x40);
    if distance.Bad? then Bad(distance.kind)
    else if long then
      var high := LongOffset(input, distance.offset, descriptor.value);
      if high.Bad? then Bad(high.kind)
      else Got((low + 0x1000 * (descriptor.value % 0x20) + 0x2_0000 * high.value, distance.value), high.offset)
    else
      Got((low, descriptor.value % 0x40 + 0x40 * distance.value), distance.offset)
  }

  lemma ShortRead(input: seq<byte>, o: nat, r: Reference, k: nat, bias: nat)
    requires Fits(r, Short(k), bias) && At(input, o, PrintRest(r, Short(k), bias))
    ensures ParseRest(input, o, Written(r) % 0x1000, false)
         == Got((Written(r), r.imageDistance), o + |PrintRest(r, Short(k), bias)|)
  {
    hide At, Little, LittleEndian, Power;
    var d := 0x40 * k + r.imageDistance % 0x40;
    AtConcat(input, o, [d], Little(r.imageDistance / 0x40, k));
    AtByte(input, o, d);
    LittleRead(input, o + 1, r.imageDistance / 0x40, k);
    DescriptorParts(k, r.imageDistance % 0x40);
  }

  lemma DescriptorParts(k: nat, d: nat)
    requires k <= 3 && d < 0x40
    ensures (0x40 * k + d) / 0x40 == k && (0x40 * k + d) % 0x40 == d
    ensures (0x40 * k + d) / 0x20 % 2 == d / 0x20 && (0x40 * k + d) % 0x20 == d % 0x20
  {
  }

  lemma LongParts(input: seq<byte>, o: nat, r: Reference, k: nat, wide: bool, bias: nat)
    requires Fits(r, Long(k, wide), bias)
    ensures At(input, o, PrintRest(r, Long(k, wide), bias)) <==>
      && o < |input| && input[o] == 0x40 * k + (if wide then 0x20 else 0) + Written(r) / 0x1000 % 0x20
      && At(input, o + 1, Little(r.imageDistance, k))
      && (wide ==> o + 1 + k < |input| && input[o + 1 + k] == Written(r) / 0x2_0000)
    ensures |PrintRest(r, Long(k, wide), bias)| == 1 + k + if wide then 1 else 0
  {
    hide At, Little, Power, Written;
    var p := Written(r);
    var first: byte := 0x40 * k + (if wide then 0x20 else 0) + p / 0x1000 % 0x20;
    var tail: seq<byte> := if wide then [p / 0x2_0000] else [];
    AtByte(input, o, first);
    AtConcat(input, o, [first], Little(r.imageDistance, k) + tail);
    AtConcat(input, o + 1, Little(r.imageDistance, k), tail);
    AtEnd(input, o + 1, Little(r.imageDistance, k));
    if wide {
      AtByte(input, o + 1 + k, p / 0x2_0000);
    } else {
      AtNothing(input, o + 1 + k);
    }
  }

  lemma LongRead(input: seq<byte>, o: nat, r: Reference, k: nat, wide: bool, bias: nat)
    requires Fits(r, Long(k, wide), bias) && At(input, o, PrintRest(r, Long(k, wide), bias))
    ensures ParseRest(input, o, Written(r) % 0x1000, true)
         == Got((Written(r), r.imageDistance), o + |PrintRest(r, Long(k, wide), bias)|)
  {
    hide At, Little, LittleEndian, Power, PrintRest;
    var p := Written(r);
    LongParts(input, o, r, k, wide, bias);
    LittleRead(input, o + 1, r.imageDistance, k);
    DescriptorParts(k, (if wide then 0x20 else 0) + p / 0x1000 % 0x20);
    hide Written;
    OffsetParts(p);
  }

  lemma ParseSplits(input: seq<byte>, offset: nat, control: nat, bias: nat)
    requires control < 0x100
    ensures var r := ParseReference(input, offset, control, bias);
      var length := if control / 0x20 == 7 then ExtendLength(input, offset, 7) else Got(control / 0x20, offset);
      if length.Bad? then r == Bad(length.kind)
      else if length.offset >= |input| then r.Bad?
      else
        var rest := ParseRest(input, length.offset + 1, control % 0x10 + 0x10 * input[length.offset] as int,
                              control / 0x10 % 2 == 1);
        if rest.Bad? then r == Bad(rest.kind)
        else
          var (p, d) := rest.value;
          r == Got(Reference(length.value + bias, if d == 0 then p + 1 else p, d), rest.offset)
  {
    hide ExtendLength, LittleEndian, LongOffset;
  }

  /** A printed reference is read back, whatever stands around it. */
  lemma ReferenceRoundTrip(input: seq<byte>, o: nat, r: Reference, layout: Layout, bias: nat)
    requires Fits(r, layout, bias) && At(input, o, PrintTail(r, layout, bias))
    ensures ParseReference(input, o, Control(r, layout, bias), bias) == Got(r, o + |PrintTail(r, layout, bias)|)
  {
    hide At, ParseReference, ParseRest, Control, PrintRest, PrintLength, ExtendLength;
    PrintedParts(input, o, r, layout, bias);
    ControlParts(r, layout, bias);
    var n := r.length - bias;
    LengthRead(input, o, n);
    OffsetParts(Written(r));
    match layout {
      case Short(k) => ShortRead(input, o + |PrintLength(n)| + 1, r, k, bias);
      case Long(k, wide) => LongRead(input, o + |PrintLength(n)| + 1, r, k, wide, bias);
    }
    ParseSplits(input, o, Control(r, layout, bias), bias);
  }

  /** The reader split off just what the print of a reference ends with. */
  ghost predicate RestPrinted(input: seq<byte>, o: nat, low: nat, r: Reference, layout: Layout, bias: nat, end: nat) {
    && Fits(r, layout, bias) && Written(r) % 0x1000 == low
    && At(input, o, PrintRest(r, layout, bias)) && end == o + |PrintRest(r, layout, bias)|
  }

  /** Whatever follows the middle byte of an accepted reference is its print. */
  lemma ReadShort(input: seq<byte>, o: nat, low: nat, length: nat, bias: nat)
    requires length > bias && low < 0x1000
    ensures var rest := ParseRest(input, o, low, false);
      rest.Got? ==>
        && o < |input|
        && RestPrinted(input, o, low, MakeReference(length, rest.value.0, rest.value.1),
                       Short(input[o] / 0x40), bias, rest.offset)
  {
    hide At, Little, LittleEndian, Power;
    var rest := ParseRest(input, o, low, false);
    if rest.Got? {
      var k := input[o] / 0x40;
      ReadLittle(input, o + 1, k);
      var r := MakeReference(length, rest.value.0, rest.value.1);
      AtByte(input, o, input[o]);
      AtConcat(input, o, [input[o]], Little(r.imageDistance / 0x40, k));
    }
  }

  lemma ReadLong(input: seq<byte>, o: nat, low: nat, length: nat, bias: nat)
    requires length > bias && low < 0x1000
    ensures var rest := ParseRest(input, o, low, true);
      rest.Got? ==>
        && o < |input|
        && RestPrinted(input, o, low, MakeReference(length, rest.value.0, rest.value.1),
                       Long(input[o] / 0x40, input[o] / 0x20 % 2 == 1), bias, rest.offset)
  {
    hide At, Little, LittleEndian, Power, PrintRest;
    var rest := ParseRest(input, o, low, true);
    if rest.Got? {
      var k, wide := input[o] / 0x40, input[o] / 0x20 % 2 == 1;
      ReadLittle(input, o + 1, k);
      var r := MakeReference(length, rest.value.0, rest.value.1);
      OffsetSum(rest.value.0, low, input[o] % 0x20, if wide then input[o + 1 + k] else 0);
      ByteParts(input[o]);
      LongParts(input, o, r, k, wide, bias);
    }
  }

  lemma ByteParts(b: byte)
    ensures b == 0x40 * (b / 0x40) + (if b / 0x20 % 2 == 1 then 0x20 else 0) + b % 0x20
  {
  }

  lemma AtNothing(input: seq<byte>, o: nat)
    ensures o <= |input| ==> At(input, o, [])
  {
  }

  lemma OffsetSum(p: nat, low: nat, middle: nat, high: nat)
    requires low < 0x1000 && middle < 0x20 && p == low + 0x1000 * middle + 0x2_0000 * high
    ensures p % 0x1000 == low && p / 0x1000 % 0x20 == middle && p / 0x2_0000 == high
  {
    assert p == low + 0x1000 * (middle + 0x20 * high);
    assert p / 0x1000 == middle + 0x20 * high;
    assert p / 0x2_0000 == p / 0x1000 / 0x20;
  }

  lemma ReadLength(input: seq<byte>, o: nat, marker: nat)
    requires 1 <= marker <= 7 && o <= |input|
    ensures var length := if marker == 7 then ExtendLength(input, o, 7) else Got(marker, o);
      length.Got? ==>
        && marker == Min(length.value, 7) && length.value > 0
        && At(input, o, PrintLength(length.value)) && length.offset == o + |PrintLength(length.value)|
  {
    hide At, Chain, ExtendLength;
    if marker == 7 {
      ReadChain(input, o, 7);
    } else {
      AtNothing(input, o);
    }
  }

  /** The bytes that a reference was read from are its print in some layout. */
  ghost predicate Printed(input: seq<byte>, o: nat, control: nat, bias: nat, r: Reference, end: nat) {
    exists layout ::
      && Fits(r, layout, bias) && control == Control(r, layout, bias)
      && At(input, o, PrintTail(r, layout, bias)) && end == o + |PrintTail(r, layout, bias)|
  }

  /** Every reference the reader accepts was printed so. */
  lemma ReferenceExact(input: seq<byte>, o: nat, control: nat, bias: nat)
    requires o <= |input| && 0x20 <= control < 0x100
    ensures var read := ParseReference(input, o, control, bias);
      read.Got? ==> Printed(input, o, control, bias, read.value, read.offset)
  {
    hide At, ParseReference, ParseRest, PrintRest, PrintLength, ExtendLength, Fits, Written;
    var read := ParseReference(input, o, control, bias);
    if read.Got? {
      ParseSplits(input, o, control, bias);
      ReadLength(input, o, control / 0x20);
      var length := if control / 0x20 == 7 then ExtendLength(input, o, 7) else Got(control / 0x20, o);
      var low := control % 0x10 + 0x10 * input[length.offset] as int;
      var at := length.offset + 1;
      var layout;
      if control / 0x10 % 2 == 1 {
        ReadLong(input, at, low, length.value + bias, bias);
        layout := Long(input[at] / 0x40, input[at] / 0x20 % 2 == 1);
      } else {
        ReadShort(input, at, low, length.value + bias, bias);
        layout := Short(input[at] / 0x40);
      }
      ExactParts(read.value, layout, bias, low, control);
      PrintedParts(input, o, read.value, layout, bias);
    }
  }

  lemma ExactParts(r: Reference, layout: Layout, bias: nat, low: nat, control: byte)
    requires Fits(r, layout, bias) && Written(r) % 0x1000 == low && 0x20 <= control
    requires low % 0x10 == control % 0x10
    requires control / 0x20 == Min(r.length - bias, 7) && layout.Long? == (control / 0x10 % 2 == 1)
    ensures Control(r, layout, bias) == control && Written(r) / 0x10 % 0x100 == low / 0x10
  {
    hide Power, Written;
    OffsetParts(Written(r));
    ControlSum(control);
  }

  lemma ControlSum(control: byte)
    ensures control == 0x20 * (control / 0x20) + (if control / 0x10 % 2 == 1 then 0x10 else 0) + control % 0x10
  {
  }

  // ---------------------------------------------------------------------------
  // Literal pixels
  // ---------------------------------------------------------------------------

  /** A pixel as it is written: three bytes, five bits for each colour and a spare bit, or an alpha. */
  datatype Sample =
    | Color(red: byte, green: byte, blue: byte)
    | Five(fiveRed: nat, fiveGreen: nat, fiveBlue: nat, spare: bool)
    | Alpha(value: byte)

  predicate SampleFits(h: Header, alpha: bool, s: Sample) {
    match s
    case Color(_, _, _) => !alpha && h.imageType != Rgb16
    case Five(r, g, b, _) => !alpha && h.imageType == Rgb16 && r < 0x20 && g < 0x20 && b < 0x20
    case Alpha(_) => alpha
  }

  function PrintSample(h: Header, alpha: bool, s: Sample): (w: seq<byte>)
    requires SampleFits(h, alpha, s)
    ensures |w| == LiteralBytes(h, alpha)
  {
    match s
    case Color(r, g, b) => [b, g, r]
    case Five(r, g, b, spare) => [(if spare then 0x80 else 0) + 4 * r + g / 8, 0x20 * (g % 8) + b]
    case Alpha(v) => [v]
  }

  /** Five bits, followed by the first three of them again. */
  function Widen(v: nat): (w: byte)
    requires v < 0x20
  {
    0x8 * v + v / 4
  }

  /** What a sample looks like; in the alpha stream only its last component matters. */
  function Shown(h: Header, alpha: bool, s: Sample): Pixel
    requires SampleFits(h, alpha, s)
  {
    match s
    case Color(r, g, b) => [r, g, b, 255]
    case Five(r, g, b, _) => [Widen(r), Widen(g), Widen(b), 255]
    case Alpha(v) => [0, 0, 0, v]
  }

  /** A written sample looks as it should. */
  lemma SampleRoundTrip(h: Header, alpha: bool, s: Sample)
    requires SampleFits(h, alpha, s)
    ensures LiteralPixel(h, PrintSample(h, alpha, s), alpha) == Shown(h, alpha, s)
  {
    if s.Five? {
      FiveParts(s.fiveRed, s.fiveGreen, s.fiveBlue, if s.spare then 1 else 0);
    }
  }

  lemma FiveParts(r: nat, g: nat, b: nat, spare: nat)
    requires r < 0x20 && g < 0x20 && b < 0x20 && spare < 2
    ensures var value := 0x100 * (0x80 * spare + 4 * r + g / 8) + (0x20 * (g % 8) + b);
      value / 0x400 % 0x20 == r && value / 0x20 % 0x20 == g && value % 0x20 == b
  {
    var value := 0x100 * (0x80 * spare + 4 * r + g / 8) + (0x20 * (g % 8) + b);
    assert value == b + 0x20 * (g + 0x20 * (r + 0x20 * spare));
    assert value / 0x20 == g + 0x20 * (r + 0x20 * spare);
    assert value / 0x400 == value / 0x20 / 0x20 == r + 0x20 * spare;
  }

  /** Any bytes of the right number are a written sample. */
  lemma SampleExact(h: Header, alpha: bool, bytes: seq<byte>) returns (s: Sample)
    requires |bytes| == LiteralBytes(h, alpha)
    ensures SampleFits(h, alpha, s) && PrintSample(h, alpha, s) == bytes
    ensures LiteralPixel(h, bytes, alpha) == Shown(h, alpha, s)
  {
    if alpha {
      s := Alpha(bytes[0]);
    } else if h.imageType == Rgb16 {
      var first, second := bytes[0] as int, bytes[1] as int;
      s := Five(first / 4 % 0x20, first % 4 * 8 + second / 0x20, second % 0x20, first >= 0x80);
      WordParts(first, second);
    } else {
      s := Color(bytes[2], bytes[1], bytes[0]);
    }
    SampleRoundTrip(h, alpha, s);
  }

  lemma WordParts(first: nat, second: nat)
    requires first < 0x100 && second < 0x100
    ensures var g := first % 4 * 8 + second / 0x20;
      && g < 0x20
      && first == (if first >= 0x80 then 0x80 else 0) + 4 * (first / 4 % 0x20) + g / 8
      && second == 0x20 * (g % 8) + second % 0x20
  {
    var g := first % 4 * 8 + second / 0x20;
    assert g / 8 == first % 4 && g % 8 == second / 0x20;
    assert first / 4 == (if first >= 0x80 then 0x20 else 0) + first / 4 % 0x20;
  }

  // ---------------------------------------------------------------------------
  // Header
  // ---------------------------------------------------------------------------

  /** `k` bytes, the high one first. */
  function Big(v: nat, k: nat): (w: seq<byte>)
    ensures |w| == k
  {
    if k == 0 then [] else Big(v / 0x100, k - 1) + [v % 0x100]
  }

  lemma {:induction false} BigRead(v: nat, k: nat)
    requires v < Power(k)
    ensures BigEndian(Big(v, k)) == v
  {
    if k > 0 {
      BigRead(v / 0x100, k - 1);
      assert Big(v, k)[..k - 1] == Big(v / 0x100, k - 1);
    }
  }

  lemma {:induction false} ReadBig(w: seq<byte>)
    ensures BigEndian(w) < Power(|w|) && Big(BigEndian(w), |w|) == w
  {
    if w != [] {
      var front, last := w[..|w| - 1], w[|w| - 1];
      ReadBig(front);
      assert w == front + [last];
      assert BigEndian(w) / 0x100 == BigEndian(front) && BigEndian(w) % 0x100 == last;
    }
  }

  predicate HeaderFits(h: Header) {
    && h.width < 0x1_0000_0000 && h.height < 0x1_0000_0000
    && Stride(h) < 0x1_0000_0000
    && h.oldest <= h.id < 0x1_0000_0000_0000_0000 && h.id - h.oldest < 0x1_0000_0000
  }

  function Tag(t: ImageType): byte {
    match t
    case Rgb16 => 6
    case Rgb24 => 7
    case Rgb32 => 8
    case Rgba => 9
  }

  /** The type, and a flag for rows stored from the top. */
  function Flags(h: Header): byte {
    Tag(h.imageType) + if h.topDown then 0x10 else 0
  }

  /** Bytes in a row of the described image. */
  function Stride(h: Header): nat {
    match h.imageType
    case Rgb16 => 2 * h.width
    case Rgb24 => 3 * h.width
    case Rgb32 | Rgba => 4 * h.width
  }

  function PrintHeader(h: Header): (w: seq<byte>)
    requires HeaderFits(h)
    ensures |w| == 33
  {
    [0x20, 0x20, 0x5a, 0x4c] + ([0x00, 0x01, 0x00, 0x01] + ([Flags(h)]
    + (Big(h.width, 4) + (Big(h.height, 4) + (Big(Stride(h), 4) + (Big(h.id, 8) + Big(h.id - h.oldest, 4)))))))
  }

  predicate WithinLimits(h: Header, limits: Limits) {
    && 1 <= h.width <= limits.maximumWidth && 1 <= h.height <= limits.maximumHeight
    && h.width * h.height * 4 <= limits.maximumOutputBytes
  }

  lemma Powers()
    ensures Power(4) == 0x1_0000_0000 && Power(8) == 0x1_0000_0000_0000_0000
  {
    assert Power(2) == 0x1_0000;
    assert Power(6) == 0x1_0000 * Power(4);
  }

  lemma FieldIff(input: seq<byte>, o: nat, v: nat, k: nat)
    requires o + k <= |input| && v < Power(k)
    ensures At(input, o, Big(v, k)) <==> Field(input, o, k) == v
  {
    hide BigEndian, Big, Power;
    BigRead(v, k);
    ReadBig(input[o..o + k]);
  }

  lemma FieldFits(input: seq<byte>, o: nat, k: nat)
    requires o + k <= |input|
    ensures Field(input, o, k) < Power(k)
  {
    hide BigEndian, Big, Power;
    ReadBig(input[o..o + k]);
  }

  lemma Magic()
    ensures Big(0x2020_5a4c, 4) == [0x20, 0x20, 0x5a, 0x4c] && Big(0x0001_0001, 4) == [0x00, 0x01, 0x00, 0x01]
  {
    BigFour(0x2020_5a4c);
    BigFour(0x0001_0001);
  }

  lemma BigFour(v: nat)
    ensures Big(v, 4) == [v / 0x100_0000 % 0x100, v / 0x1_0000 % 0x100, v / 0x100 % 0x100, v % 0x100]
  {
    assert v / 0x100 / 0x100 == v / 0x1_0000 && v / 0x1_0000 / 0x100 == v / 0x100_0000;
    assert Big(v / 0x1_0000, 2) == [v / 0x100_0000 % 0x100, v / 0x1_0000 % 0x100];
  }

  lemma HeaderParts(input: seq<byte>, h: Header)
    requires HeaderFits(h)
    ensures At(input, 0, PrintHeader(h)) <==>
      && |input| >= 33
      && Field(input, 0, 4) == 0x2020_5a4c && Field(input, 4, 4) == 0x0001_0001 && input[8] == Flags(h)
      && Field(input, 9, 4) == h.width && Field(input, 13, 4) == h.height && Field(input, 17, 4) == Stride(h)
      && Field(input, 21, 8) == h.id && Field(input, 29, 4) == h.id - h.oldest
  {
    hide At, BigEndian, Big, Power, Stride, Tag, Field;
    Powers();
    Magic();
    var distance := Big(h.id - h.oldest, 4);
    var fromId := Big(h.id, 8) + distance;
    var fromStride := Big(Stride(h), 4) + fromId;
    var fromHeight := Big(h.height, 4) + fromStride;
    var fromWidth := Big(h.width, 4) + fromHeight;
    var fromFlags := [Flags(h)] + fromWidth;
    var fromVersion := [0x00, 0x01, 0x00, 0x01] + fromFlags;
    AtConcat(input, 0, [0x20, 0x20, 0x5a, 0x4c], fromVersion);
    AtConcat(input, 4, [0x00, 0x01, 0x00, 0x01], fromFlags);
    AtConcat(input, 8, [Flags(h)], fromWidth);
    AtConcat(input, 9, Big(h.width, 4), fromHeight);
    AtConcat(input, 13, Big(h.height, 4), fromStride);
    AtConcat(input, 17, Big(Stride(h), 4), fromId);
    AtConcat(input, 21, Big(h.id, 8), distance);
    AtEnd(input, 29, distance);
    if |input| >= 33 {
      FieldIff(input, 0, 0x2020_5a4c, 4);
      FieldIff(input, 4, 0x0001_0001, 4);
      AtByte(input, 8, Flags(h));
      FieldIff(input, 9, h.width, 4);
      FieldIff(input, 13, h.height, 4);
      FieldIff(input, 17, Stride(h), 4);
      FieldIff(input, 21, h.id, 8);
      FieldIff(input, 29, h.id - h.oldest, 4);
    }
  }

  lemma AtEnd(input: seq<byte>, o: nat, w: seq<byte>)
    ensures At(input, o, w) ==> o + |w| <= |input|
  {
  }

  /** A header is accepted with these fields if and only if it is their print and they are within the limits. */
  lemma HeaderIff(input: seq<byte>, h: Header, limits: Limits)
    ensures ParseHeader(input, limits) == Accepted(h) <==>
      HeaderFits(h) && WithinLimits(h, limits) && At(input, 0, PrintHeader(h))
  {
    hide At, Field, Power;
    Powers();
    if |input| >= 33 {
      FieldFits(input, 9, 4);
      FieldFits(input, 13, 4);
      FieldFits(input, 17, 4);
      FieldFits(input, 21, 8);
      FieldFits(input, 29, 4);
      TagIff(input[8], h);
    }
    if HeaderFits(h) {
      HeaderParts(input, h);
    }
  }

  lemma TagIff(flags: byte, h: Header)
    ensures flags == Flags(h) <==>
      flags < 0x20 && TypeOf(flags % 0x10) == Some(h.imageType) && h.topDown == (flags >= 0x10)
    ensures Stride(h) == BytesPerPixel(h.imageType) * h.width
  {
  }
}
