/** The GLZ image format, one control byte at a time.

  A GLZ payload refers back to its own pixels and to earlier images of the
  session. `Step` consumes one control byte and looks at no more than one
  dictionary image, so that concurrent decoders can be interleaved between
  steps; `Finish` is a whole decode against a fixed dictionary.
*/
module GlzFormat {
  import opened Basics

  const HEADER_BYTES := 33
  const LZ_MAGIC := 0x2020_5a4c
  const LZ_VERSION := 0x0001_0001
  const LITERAL_CONTROL_LIMIT := 32
  const EXTENDED_LENGTH_MARKER := 7

  datatype Kind =
    | Truncated
    | InvalidHeader
    | InvalidBackReference
    | OutputOverflow
    | ResourceLimit
    | UnsupportedType
    | TrailingData

  type Pixel = p: seq<byte> | |p| == 4 witness [0, 0, 0, 255]

  datatype ImageType = Rgb16 | Rgb24 | Rgb32 | Rgba

  datatype Limits = Limits(maximumWidth: nat, maximumHeight: nat, maximumOutputBytes: nat)

  datatype Header = Header(
    imageType: ImageType, topDown: bool, width: nat, height: nat, id: nat, oldest: nat)
  {
    function Pixels(): nat {
      width * height
    }
  }

  /** A value read at an offset, with the offset after it. */
  datatype Read<+T> = Got(value: T, offset: nat) | Bad(kind: Kind)

  // ---------------------------------------------------------------------------
  // Header
  // ---------------------------------------------------------------------------

  function BigEndian(b: seq<byte>): nat {
    if b == [] then 0 else 0x100 * BigEndian(b[..|b| - 1]) + b[|b| - 1] as int
  }

  function Field(input: seq<byte>, offset: nat, n: nat): nat
    requires offset + n <= |input|
  {
    BigEndian(input[offset..offset + n])
  }

  function TypeOf(tag: nat): Option<ImageType> {
    match tag
    case 6 => Some(Rgb16)
    case 7 => Some(Rgb24)
    case 8 => Some(Rgb32)
    case 9 => Some(Rgba)
    case _ => None
  }

  function BytesPerPixel(t: ImageType): nat {
    match t
    case Rgb16 => 2
    case Rgb24 => 3
    case Rgb32 | Rgba => 4
  }

  datatype HeaderResult = Accepted(header: Header) | Refused(kind: Kind)

  function ParseHeader(input: seq<byte>, limits: Limits): (r: HeaderResult)
    ensures r.Accepted? ==> |input| >= HEADER_BYTES && r.header.oldest <= r.header.id
  {
    if |input| < HEADER_BYTES then Refused(Truncated)
    else if Field(input, 0, 4) != LZ_MAGIC || Field(input, 4, 4) != LZ_VERSION then Refused(InvalidHeader)
    else if input[8] >= 0x20 then Refused(InvalidHeader)
    else
      var t := TypeOf(input[8] % 0x10);
      var width, height := Field(input, 9, 4), Field(input, 13, 4);
      var id, distance := Field(input, 21, 8), Field(input, 29, 4);
      if t.None? then Refused(UnsupportedType)
      else if id < distance then Refused(InvalidHeader)
      else if width == 0 || height == 0 || width > limits.maximumWidth || height > limits.maximumHeight
      then Refused(ResourceLimit)
      else if Field(input, 17, 4) != BytesPerPixel(t.value) * width then Refused(InvalidHeader)
      else if width * height * 4 > limits.maximumOutputBytes then Refused(ResourceLimit)
      else Accepted(Header(t.value, input[8] >= 0x10, width, height, id, id - distance))
  }

  // ---------------------------------------------------------------------------
  // References
  // ---------------------------------------------------------------------------

  datatype Reference = Reference(length: nat, pixelOffset: nat, imageDistance: nat)

  function U8(input: seq<byte>, offset: nat): (r: Read<nat>)
    ensures r.Got? ==> r.offset == offset + 1 <= |input| && r.value == input[offset]
  {
    if offset < |input| then Got(input[offset], offset + 1) else Bad(Truncated)
  }

  /** Adds extension bytes to a match length until one is below 255. */
  function ExtendLength(input: seq<byte>, offset: nat, length: nat): (r: Read<nat>)
    ensures r.Got? ==> offset < r.offset <= |input| && length <= r.value
    decreases |input| - offset
  {
    var extension := U8(input, offset);
    if extension.Bad? then extension
    else if extension.value == 255 then ExtendLength(input, extension.offset, length + 255)
    else Got(length + extension.value, extension.offset)
  }

  /** A little-endian number of `count` bytes. */
  function LittleEndian(input: seq<byte>, offset: nat, count: nat): (r: Read<nat>)
    ensures r.Got? ==> r.offset == offset + count <= |input| || (count == 0 && r.offset == offset)
    decreases count
  {
    if count == 0 then Got(0, offset)
    else
      var low := U8(input, offset);
      if low.Bad? then low
      else
        var high := LittleEndian(input, low.offset, count - 1);
        if high.Bad? then high
        else Got(low.value + 0x100 * high.value, high.offset)
  }

  /** The extra high part of a long pixel offset, if its flag is set. */
  function LongOffset(input: seq<byte>, offset: nat, descriptor: nat): (r: Read<nat>)
    ensures r.Got? ==> offset <= r.offset && (r.offset <= |input| || r.offset == offset)
  {
    if descriptor / 0x20 % 2 == 1 then U8(input, offset) else Got(0, offset)
  }

  /** The variable-width reference descriptor after its control byte. */
  function ParseReference(input: seq<byte>, offset: nat, control: nat, bias: nat): (r: Read<Reference>)
    requires control < 0x100
    ensures r.Got? ==> offset < r.offset <= |input| && control / 0x20 <= r.value.length
    ensures r.Got? && r.value.imageDistance == 0 ==> 1 <= r.value.pixelOffset
  {
    var length := if control / 0x20 == EXTENDED_LENGTH_MARKER
                  then ExtendLength(input, offset, control / 0x20)
                  else Got(control / 0x20, offset);
    if length.Bad? then Bad(length.kind) else
    var middle := U8(input, length.offset);
    if middle.Bad? then Bad(middle.kind) else
    var descriptor := U8(input, middle.offset);
    if descriptor.Bad? then Bad(descriptor.kind) else
    var low := control % 0x10 + 0x10 * middle.value;
    var distance := LittleEndian(input, descriptor.offset, descriptor.value / 0x40);
    if distance.Bad? then Bad(distance.kind)
    else if control / 0x10 % 2 == 1 then
      var high := LongOffset(input, distance.offset, descriptor.value);
      if high.Bad? then Bad(high.kind)
      else
        var pixels := low + 0x1000 * (descriptor.value % 0x20) + 0x2_0000 * high.value;
        Got(MakeReference(length.value + bias, pixels, distance.value), high.offset)
    else
      Got(MakeReference(length.value + bias, low, descriptor.value % 0x40 + 0x40 * distance.value), distance.offset)
  }

  /** References inside the image itself count back from one. */
  function MakeReference(length: nat, pixelOffset: nat, imageDistance: nat): Reference {
    Reference(length, if imageDistance == 0 then pixelOffset + 1 else pixelOffset, imageDistance)
  }

  // ---------------------------------------------------------------------------
  // Copying
  // ---------------------------------------------------------------------------

  /** Writes one pixel: appended in the colour stream, its alpha overlaid in the alpha stream. */
  function Put(output: seq<Pixel>, at: nat, pixel: Pixel, alpha: bool): (r: seq<Pixel>)
    requires if alpha then at < |output| else at == |output|
    ensures |r| == if alpha then |output| else |output| + 1
  {
    if alpha then output[at := output[at][3 := pixel[3]]] else output + [pixel]
  }

  /** Room for `n` more pixels at `at`. */
  predicate Room(output: seq<Pixel>, at: nat, n: nat, alpha: bool) {
    if alpha then at + n <= |output| else at == |output|
  }

  /** Copies forward pixel by pixel, so a short distance repeats what it has just written. */
  function CopyLocal(output: seq<Pixel>, at: nat, distance: nat, n: nat, alpha: bool): (r: seq<Pixel>)
    requires Room(output, at, n, alpha) && 1 <= distance <= at
    ensures |r| == if alpha then |output| else |output| + n
    decreases n
  {
    if n == 0 then output
    else CopyLocal(Put(output, at, output[at - distance], alpha), at + 1, distance, n - 1, alpha)
  }

  function CopyImage(output: seq<Pixel>, at: nat, source: seq<Pixel>, from: nat, n: nat, alpha: bool): (r: seq<Pixel>)
    requires Room(output, at, n, alpha) && from + n <= |source|
    ensures |r| == if alpha then |output| else |output| + n
    decreases n
  {
    if n == 0 then output
    else CopyImage(Put(output, at, source[from], alpha), at + 1, source, from + 1, n - 1, alpha)
  }

  /** A local copy repeats at its distance, overlap included, and touches nothing else. */
  lemma {:induction false} CopyLocalRepeats(output: seq<Pixel>, at: nat, distance: nat, n: nat, alpha: bool)
    requires Room(output, at, n, alpha) && 1 <= distance <= at
    ensures var r := CopyLocal(output, at, distance, n, alpha);
      && (forall i :: 0 <= i < at ==> r[i] == output[i])
      && (forall i :: at <= i < at + n ==> r[i][3] == r[i - distance][3])
      && (!alpha ==> forall i :: at <= i < at + n ==> r[i] == r[i - distance])
      && (alpha ==> forall i, c :: at <= i < at + n && 0 <= c < 3 ==> r[i][c] == output[i][c])
      && (alpha ==> forall i :: at + n <= i < |output| ==> r[i] == output[i])
    decreases n
  {
    if n > 0 {
      CopyLocalRepeats(Put(output, at, output[at - distance], alpha), at + 1, distance, n - 1, alpha);
    }
  }

  /** A dictionary copy takes the named stretch of the source. */
  lemma {:induction false} CopyImageAppends(output: seq<Pixel>, at: nat, source: seq<Pixel>, from: nat, n: nat)
    requires at == |output| && from + n <= |source|
    ensures CopyImage(output, at, source, from, n, false) == output + source[from..from + n]
    decreases n
  {
    if n > 0 {
      CopyImageAppends(output + [source[from]], at + 1, source, from + 1, n - 1);
      assert source[from..from + n] == [source[from]] + source[from + 1..from + n];
    }
  }

  /** In the alpha stream it takes only the alpha of that stretch. */
  lemma {:induction false} CopyImageOverlays(output: seq<Pixel>, at: nat, source: seq<Pixel>, from: nat, n: nat)
    requires at + n <= |output| && from + n <= |source|
    ensures var r := CopyImage(output, at, source, from, n, true);
      forall i :: 0 <= i < |output| ==>
        r[i] == if at <= i < at + n then output[i][3 := source[from + i - at][3]] else output[i]
    decreases n
  {
    if n > 0 {
      CopyImageOverlays(Put(output, at, source[from], true), at + 1, source, from + 1, n - 1);
    }
  }

  // ---------------------------------------------------------------------------
  // Steps
  // ---------------------------------------------------------------------------

  /** A decoder between two control bytes. */
  datatype State = State(offset: nat, output: seq<Pixel>, produced: nat, alpha: bool)

  /** Images available to references, by id. */
  type Dictionary = nat -> Option<seq<Pixel>>

  datatype Outcome =
    | Continue(state: State)
    | Complete(pixels: seq<Pixel>)
    | Missing(id: nat)
    | Fail(kind: Kind)

  ghost predicate StateOk(h: Header, input: seq<byte>, s: State) {
    && s.offset <= |input|
    && s.produced <= h.Pixels()
    && if s.alpha then |s.output| == h.Pixels() else |s.output| == s.produced
  }

  function Start(): State {
    State(HEADER_BYTES, [], 0, false)
  }

  function LiteralBytes(h: Header, alpha: bool): (n: nat)
    ensures 1 <= n <= 3
  {
    if alpha then 1 else if h.imageType == Rgb16 then 2 else 3
  }

  function MatchBias(h: Header, alpha: bool): nat {
    if alpha then 2 else if h.imageType == Rgb16 then 1 else 0
  }

  function ExpandFiveBits(v: nat): (r: byte)
    requires v < 0x20
  {
    8 * v + v / 4
  }

  /** One literal pixel; in the alpha stream only its last component matters. */
  function LiteralPixel(h: Header, bytes: seq<byte>, alpha: bool): Pixel
    requires |bytes| == LiteralBytes(h, alpha)
  {
    if alpha then [0, 0, 0, bytes[0]]
    else if h.imageType == Rgb16 then
      var value := 0x100 * bytes[0] as int + bytes[1] as int;
      [ExpandFiveBits(value / 0x400 % 0x20), ExpandFiveBits(value / 0x20 % 0x20), ExpandFiveBits(value % 0x20), 255]
    else [bytes[2], bytes[1], bytes[0], 255]
  }

  /** Reads `n` literal pixels. */
  function Literals(h: Header, input: seq<byte>, s: State, n: nat): (r: Outcome)
    requires Room(s.output, s.produced, n, s.alpha)
    ensures r.Continue? || r.Fail?
    ensures r.Continue? ==>
      && r.state.offset == s.offset + n * LiteralBytes(h, s.alpha)
      && (n > 0 ==> r.state.offset <= |input|)
      && r.state.produced == s.produced + n && r.state.alpha == s.alpha
      && |r.state.output| == if s.alpha then |s.output| else |s.output| + n
    decreases n
  {
    var width := LiteralBytes(h, s.alpha);
    if n == 0 then Continue(s)
    else if s.offset + width > |input| then Fail(Truncated)
    else
      var pixel := LiteralPixel(h, input[s.offset..s.offset + width], s.alpha);
      var output := Put(s.output, s.produced, pixel, s.alpha);
      Literals(h, input, State(s.offset + width, output, s.produced + 1, s.alpha), n - 1)
  }

  /** Resolves and copies one reference. */
  function Refer(h: Header, s: State, reference: Reference, offset: nat, dictionary: Dictionary): (r: Outcome)
    requires Room(s.output, s.produced, reference.length, s.alpha)
    requires reference.imageDistance == 0 ==> 1 <= reference.pixelOffset
  {
    if reference.length == 0 then Fail(InvalidBackReference)
    else if reference.imageDistance == 0 then
      if reference.pixelOffset > s.produced then Fail(InvalidBackReference)
      else
        Continue(State(offset, CopyLocal(s.output, s.produced, reference.pixelOffset, reference.length, s.alpha),
                       s.produced + reference.length, s.alpha))
    else if reference.imageDistance > h.id then Fail(InvalidBackReference)
    else
      match dictionary(h.id - reference.imageDistance)
      case None => Missing(h.id - reference.imageDistance)
      case Some(source) =>
        if reference.pixelOffset + reference.length > |source| then Fail(InvalidBackReference)
        else
          Continue(State(offset,
                         CopyImage(s.output, s.produced, source, reference.pixelOffset, reference.length, s.alpha),
                         s.produced + reference.length, s.alpha))
  }

  /** One control byte, or the end of a stream. */
  function Step(h: Header, input: seq<byte>, s: State, dictionary: Dictionary): (r: Outcome)
    requires StateOk(h, input, s)
    ensures r.Continue? ==> StateOk(h, input, r.state)
  {
    if s.produced == h.Pixels() then
      if h.imageType == Rgba && !s.alpha then Continue(s.(produced := 0, alpha := true))
      else if s.offset != |input| then Fail(TrailingData)
      else Complete(s.output)
    else
      var control := U8(input, s.offset);
      if control.Bad? then Fail(control.kind)
      else if control.value < LITERAL_CONTROL_LIMIT then
        if s.produced + control.value + 1 > h.Pixels() then Fail(OutputOverflow)
        else Literals(h, input, s.(offset := control.offset), control.value + 1)
      else
        var reference := ParseReference(input, control.offset, control.value, MatchBias(h, s.alpha));
        if reference.Bad? then Fail(reference.kind)
        else if s.produced + reference.value.length > h.Pixels() then Fail(OutputOverflow)
        else Refer(h, s, reference.value, reference.offset, dictionary)
  }

  /** Every step but the last makes progress through the payload or its streams. */
  function Left(input: seq<byte>, s: State): (n: nat)
    requires s.offset <= |input|
  {
    2 * (|input| - s.offset) + if s.alpha then 0 else 1
  }

  lemma StepProgresses(h: Header, input: seq<byte>, s: State, dictionary: Dictionary)
    requires StateOk(h, input, s)
    ensures var r := Step(h, input, s, dictionary);
      r.Continue? ==> Left(input, r.state) < Left(input, s)
  {
    hide CopyLocal, CopyImage, LiteralPixel, ParseReference;
  }

  /** A whole decode from a state, against one fixed dictionary. */
  function Finish(h: Header, input: seq<byte>, s: State, dictionary: Dictionary): (r: Outcome)
    requires StateOk(h, input, s)
    ensures !r.Continue?
    decreases Left(input, s)
  {
    var step := Step(h, input, s, dictionary);
    StepProgresses(h, input, s, dictionary);
    if step.Continue? then Finish(h, input, step.state, dictionary) else step
  }

  // ---------------------------------------------------------------------------
  // What a decode depends on
  // ---------------------------------------------------------------------------

  /** The dictionary image a step looks at, if any. */
  function Consults(h: Header, input: seq<byte>, s: State): (r: Option<nat>)
    requires StateOk(h, input, s)
  {
    var probe := Step(h, input, s, (_: nat) => None);
    if probe.Missing? then Some(probe.id) else None
  }

  /** A step looks at no more than one image, and only at one of strictly smaller id. */
  lemma StepConsults(h: Header, input: seq<byte>, s: State, d: Dictionary, e: Dictionary)
    requires StateOk(h, input, s)
    ensures Consults(h, input, s).Some? ==> Consults(h, input, s).value < h.id
    ensures Consults(h, input, s).None? || d(Consults(h, input, s).value) == e(Consults(h, input, s).value)
            ==> Step(h, input, s, d) == Step(h, input, s, e)
    ensures Step(h, input, s, d).Missing?
            <==> Consults(h, input, s).Some? && d(Consults(h, input, s).value).None?
    ensures Step(h, input, s, d).Missing? ==> Consults(h, input, s) == Some(Step(h, input, s, d).id)
  {
    hide CopyLocal, CopyImage, LiteralPixel, ParseReference, Literals;
  }

  /** A decode depends on the dictionary only below its own id. */
  lemma {:induction false} FinishLooksBack(h: Header, input: seq<byte>, s: State, d: Dictionary, e: Dictionary)
    requires StateOk(h, input, s)
    requires forall j :: 0 <= j < h.id ==> d(j) == e(j)
    ensures Finish(h, input, s, d) == Finish(h, input, s, e)
    decreases Left(input, s)
  {
    hide Step, Consults;
    StepConsults(h, input, s, d, e);
    StepProgresses(h, input, s, d);
    var step := Step(h, input, s, d);
    if step.Continue? {
      FinishLooksBack(h, input, step.state, d, e);
    }
  }

  /** A decode that found all it looked for is not changed by a larger dictionary. */
  lemma {:induction false} FinishMonotone(h: Header, input: seq<byte>, s: State, d: Dictionary, e: Dictionary)
    requires StateOk(h, input, s)
    requires forall j :: d(j).Some? ==> e(j) == d(j)
    ensures Finish(h, input, s, d).Missing? || Finish(h, input, s, e) == Finish(h, input, s, d)
    decreases Left(input, s)
  {
    hide Step, Consults;
    StepConsults(h, input, s, d, e);
    StepProgresses(h, input, s, d);
    var step := Step(h, input, s, d);
    if step.Continue? {
      FinishMonotone(h, input, step.state, d, e);
    }
  }
}
