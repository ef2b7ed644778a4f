/** Whole GLZ payloads as lists of tokens.

  `Play` says what a list of tokens shows, without bytes and without copying:
  literals show themselves, a reference into the image repeats the last pixels
  with its distance as the period, and one into the dictionary shows a stretch of
  an earlier image. A payload decodes to some pixels exactly when it is the print
  of tokens that show them.
*/
module GlzStreams {
  import opened Basics
  import opened GlzFormat
  import opened GlzTokens

  /** A control byte's worth of payload. */
  datatype Token = Plain(samples: seq<Sample>) | Match(reference: Reference, layout: Layout)

  /** Pixels every reference has beyond its written length. */
  function Bias(h: Header, alpha: bool): nat {
    if alpha then 2 else if h.imageType == Rgb16 then 1 else 0
  }

  predicate SamplesFit(h: Header, alpha: bool, samples: seq<Sample>) {
    forall i :: 0 <= i < |samples| ==> SampleFits(h, alpha, samples[i])
  }

  predicate TokenFits(h: Header, alpha: bool, t: Token) {
    match t
    case Plain(samples) => 1 <= |samples| <= 32 && SamplesFit(h, alpha, samples)
    case Match(r, layout) => Fits(r, layout, Bias(h, alpha))
  }

  function PrintSamples(h: Header, alpha: bool, samples: seq<Sample>): (w: seq<byte>)
    requires SamplesFit(h, alpha, samples)
  {
    if samples == [] then [] else PrintSample(h, alpha, samples[0]) + PrintSamples(h, alpha, samples[1..])
  }

  function PrintToken(h: Header, alpha: bool, t: Token): (w: seq<byte>)
    requires TokenFits(h, alpha, t)
    ensures |w| >= 1
  {
    match t
    case Plain(samples) => [|samples| - 1] + PrintSamples(h, alpha, samples)
    case Match(r, layout) => PrintReference(r, layout, Bias(h, alpha))
  }

  ghost predicate TokensFit(h: Header, alpha: bool, tokens: seq<Token>) {
    forall i :: 0 <= i < |tokens| ==> TokenFits(h, alpha, tokens[i])
  }

  ghost function PrintTokens(h: Header, alpha: bool, tokens: seq<Token>): (w: seq<byte>)
    requires TokensFit(h, alpha, tokens)
  {
    if tokens == [] then [] else PrintToken(h, alpha, tokens[0]) + PrintTokens(h, alpha, tokens[1..])
  }

  // ---------------------------------------------------------------------------
  // What tokens show
  // ---------------------------------------------------------------------------

  function ShowSamples(h: Header, alpha: bool, samples: seq<Sample>): (r: seq<Pixel>)
    requires SamplesFit(h, alpha, samples)
    ensures |r| == |samples|
  {
    seq(|samples|, i requires 0 <= i < |samples| => Shown(h, alpha, samples[i]))
  }

  /** The remainder of `i` by the period. */
  function Phase(i: nat, period: nat): (r: nat)
    requires period >= 1
    ensures r < period
  {
    if i < period then i else Phase(i - period, period)
  }

  /** The last `period` pixels, over and over. */
  function Periodic(shown: seq<Pixel>, period: nat, n: nat): (r: seq<Pixel>)
    requires 1 <= period <= |shown|
    ensures |r| == n
  {
    seq(n, i requires 0 <= i < n => shown[|shown| - period + Phase(i, period)])
  }

  /** What a token shows after the pixels shown so far, if it refers to something that is there. */
  function Show(h: Header, d: Dictionary, alpha: bool, shown: seq<Pixel>, t: Token): (r: Option<seq<Pixel>>)
    requires TokenFits(h, alpha, t)
    ensures r.Some? ==> |r.value| >= 1
  {
    match t
    case Plain(samples) => Some(ShowSamples(h, alpha, samples))
    case Match(reference, _) =>
      var Reference(n, p, distance) := reference;
      if distance == 0 then
        if p <= |shown| then Some(Periodic(shown, p, n)) else None
      else if distance > h.id then None
      else
        match d(h.id - distance)
        case None => None
        case Some(source) => if p + n <= |source| then Some(source[p..p + n]) else None
  }

  /** What a list of tokens shows, if it stays within the image. */
  ghost function Play(h: Header, d: Dictionary, alpha: bool, shown: seq<Pixel>, tokens: seq<Token>)
      : (r: Option<seq<Pixel>>)
    requires TokensFit(h, alpha, tokens)
    decreases |tokens|
  {
    if tokens == [] then Some(shown)
    else
      var more := Show(h, d, alpha, shown, tokens[0]);
      if more.None? || |shown| + |more.value| > h.Pixels() then None
      else Play(h, d, alpha, shown + more.value, tokens[1..])
  }

  /** Colours with the alpha of other pixels, as far as those go. */
  function Blend(color: seq<Pixel>, alphas: seq<Pixel>): (r: seq<Pixel>)
    requires |alphas| <= |color|
    ensures |r| == |color|
  {
    seq(|color|, i requires 0 <= i < |color| => if i < |alphas| then color[i][3 := alphas[i][3]] else color[i])
  }

  // ---------------------------------------------------------------------------
  // The decoder between tokens
  // ---------------------------------------------------------------------------

  /** The decoder holds what has been shown: as its output, or over the colours. */
  ghost predicate Holds(s: State, color: seq<Pixel>, shown: seq<Pixel>) {
    && s.produced == |shown|
    && if s.alpha then |shown| <= |color| && s.output == Blend(color, shown) else s.output == shown
  }

  /** Pixels put one after another are shown one after another. */
  lemma PutHolds(s: State, color: seq<Pixel>, shown: seq<Pixel>, pixel: Pixel)
    requires Holds(s, color, shown) && (s.alpha ==> |shown| < |color|)
    ensures Room(s.output, s.produced, 1, s.alpha)
    ensures Holds(s.(output := Put(s.output, s.produced, pixel, s.alpha), produced := s.produced + 1), color,
                  shown + [pixel])
  {
    if s.alpha {
      assert Put(s.output, s.produced, pixel, true) == Blend(color, shown + [pixel]);
    }
  }

  lemma {:induction false} CopyImageHolds(s: State, color: seq<Pixel>, shown: seq<Pixel>, source: seq<Pixel>,
                                          from: nat, n: nat)
    requires Holds(s, color, shown) && (s.alpha ==> |shown| + n <= |color|) && from + n <= |source|
    ensures Room(s.output, s.produced, n, s.alpha)
    ensures Holds(s.(output := CopyImage(s.output, s.produced, source, from, n, s.alpha),
                     produced := s.produced + n), color, shown + source[from..from + n])
    decreases n
  {
    if n == 0 {
      assert shown + source[from..from] == shown;
    } else {
      PutHolds(s, color, shown, source[from]);
      var s' := s.(output := Put(s.output, s.produced, source[from], s.alpha), produced := s.produced + 1);
      CopyImageHolds(s', color, shown + [source[from]], source, from + 1, n - 1);
      assert shown + [source[from]] + source[from + 1..from + n] == shown + source[from..from + n];
    }
  }

  lemma {:induction false} NextPhase(i: nat, p: nat)
    requires p >= 1
    ensures Phase(i + 1, p) == if Phase(i, p) == p - 1 then 0 else Phase(i, p) + 1
  {
    if i >= p {
      NextPhase(i - p, p);
    }
  }

  lemma FirstPhase(p: nat)
    requires p >= 1
    ensures Phase(0, p) == 0
  {
  }

  lemma PeriodicStep(shown: seq<Pixel>, p: nat, n: nat)
    requires 1 <= p <= |shown| && n >= 1
    ensures var next := shown[|shown| - p];
      Periodic(shown, p, n) == [next] + Periodic(shown + [next], p, n - 1)
  {
    hide Phase;
    var next := shown[|shown| - p];
    var a, b := Periodic(shown, p, n), [next] + Periodic(shown + [next], p, n - 1);
    FirstPhase(p);
    forall i | 0 < i < n
      ensures a[i] == b[i]
    {
      NextPhase(i - 1, p);
    }
    assert a == b;
  }

  lemma {:induction false} CopyLocalHolds(s: State, color: seq<Pixel>, shown: seq<Pixel>, p: nat, n: nat)
    requires Holds(s, color, shown) && (s.alpha ==> |shown| + n <= |color|) && 1 <= p <= |shown|
    ensures Room(s.output, s.produced, n, s.alpha)
    ensures Holds(s.(output := CopyLocal(s.output, s.produced, p, n, s.alpha), produced := s.produced + n), color,
                  shown + Periodic(shown, p, n))
    decreases n
  {
    hide Periodic, Holds, Put;
    HoldsRoom(s, color, shown, n);
    if n == 0 {
      assert Periodic(shown, p, n) == [];
      assert shown + [] == shown;
    } else {
      var next := shown[|shown| - p];
      PutHolds(s, color, shown, next);
      HoldsAt(s, color, shown, |shown| - p);
      PutSame(s.output, s.produced, s.output[s.produced - p], next, s.alpha);
      var output := Put(s.output, s.produced, next, s.alpha);
      CopyLocalHolds(s.(output := output, produced := s.produced + 1), color, shown + [next], p, n - 1);
      PeriodicStep(shown, p, n);
      assert shown + [next] + Periodic(shown + [next], p, n - 1)
          == shown + ([next] + Periodic(shown + [next], p, n - 1));
    }
  }

  lemma HoldsAt(s: State, color: seq<Pixel>, shown: seq<Pixel>, i: nat)
    requires Holds(s, color, shown) && i < |shown|
    ensures i < |s.output| && s.output[i][3] == shown[i][3] && (!s.alpha ==> s.output[i] == shown[i])
  {
  }

  lemma PutSame(output: seq<Pixel>, at: nat, a: Pixel, b: Pixel, alpha: bool)
    requires Room(output, at, 1, alpha) && a[3] == b[3] && (!alpha ==> a == b)
    ensures Put(output, at, a, alpha) == Put(output, at, b, alpha)
  {
  }

  // ---------------------------------------------------------------------------
  // One token
  // ---------------------------------------------------------------------------

  /** Written samples are put one after another. */
  lemma {:induction false} LiteralsHold(h: Header, input: seq<byte>, s: State, color: seq<Pixel>, shown: seq<Pixel>,
                                        samples: seq<Sample>)
    requires Holds(s, color, shown) && (s.alpha ==> |shown| + |samples| <= |color|)
    requires SamplesFit(h, s.alpha, samples) && At(input, s.offset, PrintSamples(h, s.alpha, samples))
    ensures Room(s.output, s.produced, |samples|, s.alpha)
    ensures var r := Literals(h, input, s, |samples|);
      && r.Continue? && r.state.alpha == s.alpha
      && r.state.offset == s.offset + |PrintSamples(h, s.alpha, samples)|
      && Holds(r.state, color, shown + ShowSamples(h, s.alpha, samples))
    decreases |samples|
  {
    hide At, LiteralPixel, Put, PrintSample, Shown, Holds;
    HoldsRoom(s, color, shown, |samples|);
    if samples == [] {
      assert shown + ShowSamples(h, s.alpha, samples) == shown;
    } else {
      var w := PrintSample(h, s.alpha, samples[0]);
      var pixel := Shown(h, s.alpha, samples[0]);
      AtConcat(input, s.offset, w, PrintSamples(h, s.alpha, samples[1..]));
      AtSlice(input, s.offset, w);
      SampleRoundTrip(h, s.alpha, samples[0]);
      HoldsRoom(s, color, shown, 1);
      PutHolds(s, color, shown, pixel);
      var s' := State(s.offset + |w|, Put(s.output, s.produced, pixel, s.alpha), s.produced + 1, s.alpha);
      HoldsMoves(s.(output := s'.output, produced := s'.produced), s'.offset, color, shown + [pixel]);
      LiteralsHold(h, input, s', color, shown + [pixel], samples[1..]);
      assert ShowSamples(h, s.alpha, samples) == [pixel] + ShowSamples(h, s.alpha, samples[1..]);
      assert shown + [pixel] + ShowSamples(h, s.alpha, samples[1..]) == shown + ShowSamples(h, s.alpha, samples);
    }
  }

  lemma HoldsRoom(s: State, color: seq<Pixel>, shown: seq<Pixel>, n: nat)
    requires Holds(s, color, shown) && (s.alpha ==> |shown| + n <= |color|)
    ensures Room(s.output, s.produced, n, s.alpha) && s.produced == |shown|
  {
  }

  lemma HoldsCount(s: State, color: seq<Pixel>, shown: seq<Pixel>)
    requires Holds(s, color, shown)
    ensures s.produced == |shown|
  {
  }

  lemma HoldsMoves(s: State, offset: nat, color: seq<Pixel>, shown: seq<Pixel>)
    requires Holds(s, color, shown)
    ensures Holds(s.(offset := offset), color, shown)
  {
  }

  lemma AtSlice(input: seq<byte>, o: nat, w: seq<byte>)
    requires At(input, o, w)
    ensures o + |w| <= |input| && input[o..o + |w|] == w
  {
  }

  /** Resolving a reference shows what its token shows, or fails with it. */
  lemma ReferHolds(h: Header, d: Dictionary, s: State, color: seq<Pixel>, shown: seq<Pixel>, r: Reference,
                   layout: Layout, offset: nat)
    requires Holds(s, color, shown) && (s.alpha ==> |shown| + r.length <= |color|)
    requires Fits(r, layout, Bias(h, s.alpha))
    ensures Room(s.output, s.produced, r.length, s.alpha)
    ensures var step := Refer(h, s, r, offset, d);
      var more := Show(h, d, s.alpha, shown, Match(r, layout));
      && (more.Some? <==> step.Continue?)
      && (more.Some? ==>
            && |more.value| == r.length && step.state.alpha == s.alpha && step.state.offset == offset
            && Holds(step.state, color, shown + more.value))
  {
    hide Periodic, CopyLocal, CopyImage, Holds;
    HoldsRoom(s, color, shown, r.length);
    if r.imageDistance == 0 {
      if r.pixelOffset <= |shown| {
        CopyLocalHolds(s, color, shown, r.pixelOffset, r.length);
        HoldsMoves(s.(output := CopyLocal(s.output, s.produced, r.pixelOffset, r.length, s.alpha),
                      produced := s.produced + r.length), offset, color,
                   shown + Periodic(shown, r.pixelOffset, r.length));
      }
    } else if r.imageDistance <= h.id {
      var source := d(h.id - r.imageDistance);
      if source.Some? && r.pixelOffset + r.length <= |source.value| {
        CopyImageHolds(s, color, shown, source.value, r.pixelOffset, r.length);
        HoldsMoves(s.(output := CopyImage(s.output, s.produced, source.value, r.pixelOffset, r.length, s.alpha),
                      produced := s.produced + r.length), offset, color,
                   shown + source.value[r.pixelOffset..r.pixelOffset + r.length]);
      }
    }
  }

  /** One step read this token and showed what it shows. */
  ghost predicate Reads(h: Header, d: Dictionary, input: seq<byte>, s: State, color: seq<Pixel>, shown: seq<Pixel>,
                        t: Token, s': State) {
    && TokenFits(h, s.alpha, t)
    && At(input, s.offset, PrintToken(h, s.alpha, t))
    && s'.offset == s.offset + |PrintToken(h, s.alpha, t)| && s'.alpha == s.alpha
    && var more := Show(h, d, s.alpha, shown, t);
       more.Some? && |shown| + |more.value| <= h.Pixels() && Holds(s', color, shown + more.value)
  }

  /** The decoder stands between two tokens of an unfinished stream. */
  ghost predicate Between(h: Header, input: seq<byte>, s: State, color: seq<Pixel>, shown: seq<Pixel>) {
    && StateOk(h, input, s) && Holds(s, color, shown) && |shown| < h.Pixels()
    && (s.alpha ==> |color| == h.Pixels())
  }

  /** A printed token that shows something is one step of the decoder. */
  lemma TokenRoundTrip(h: Header, d: Dictionary, input: seq<byte>, s: State, color: seq<Pixel>, shown: seq<Pixel>,
                       t: Token)
    requires Between(h, input, s, color, shown)
    requires TokenFits(h, s.alpha, t) && At(input, s.offset, PrintToken(h, s.alpha, t))
    requires var more := Show(h, d, s.alpha, shown, t);
      more.Some? && |shown| + |more.value| <= h.Pixels()
    ensures var step := Step(h, input, s, d);
      step.Continue? && Reads(h, d, input, s, color, shown, t, step.state)
  {
    hide At, Holds, Literals, Refer, ParseReference, Control, PrintTail, SamplesFit, Fits, PrintSamples, ShowSamples,
      Periodic;
    HoldsRoom(s, color, shown, 0);
    match t
    case Plain(samples) =>
      AtConcat(input, s.offset, [|samples| - 1], PrintSamples(h, s.alpha, samples));
      AtByte(input, s.offset, |samples| - 1);
      HoldsMoves(s, s.offset + 1, color, shown);
      LiteralsHold(h, input, s.(offset := s.offset + 1), color, shown, samples);
    case Match(r, layout) =>
      var bias := Bias(h, s.alpha);
      AtConcat(input, s.offset, [Control(r, layout, bias)], PrintTail(r, layout, bias));
      AtByte(input, s.offset, Control(r, layout, bias));
      ReferenceRoundTrip(input, s.offset + 1, r, layout, bias);
      ShownLength(h, d, s.alpha, shown, r, layout);
      ReferHolds(h, d, s, color, shown, r, layout, s.offset + 1 + |PrintTail(r, layout, bias)|);
  }

  lemma ShownLength(h: Header, d: Dictionary, alpha: bool, shown: seq<Pixel>, r: Reference, layout: Layout)
    requires Fits(r, layout, Bias(h, alpha))
    ensures var more := Show(h, d, alpha, shown, Match(r, layout));
      more.Some? ==> |more.value| == r.length
  {
  }

  /** Literals that were read are the print of samples. */
  lemma {:induction false} LiteralsExact(h: Header, input: seq<byte>, s: State, n: nat) returns (samples: seq<Sample>)
    requires Room(s.output, s.produced, n, s.alpha) && s.offset <= |input|
    requires Literals(h, input, s, n).Continue?
    ensures |samples| == n && SamplesFit(h, s.alpha, samples)
    ensures At(input, s.offset, PrintSamples(h, s.alpha, samples))
    decreases n
  {
    hide LiteralPixel, PrintSample, Shown, SampleFits;
    if n == 0 {
      samples := [];
    } else {
      var width := LiteralBytes(h, s.alpha);
      var bytes := input[s.offset..s.offset + width];
      var first := SampleExact(h, s.alpha, bytes);
      var output := Put(s.output, s.produced, LiteralPixel(h, bytes, s.alpha), s.alpha);
      var rest := LiteralsExact(h, input, State(s.offset + width, output, s.produced + 1, s.alpha), n - 1);
      samples := [first] + rest;
      assert samples[1..] == rest;
      AtConcat(input, s.offset, bytes, PrintSamples(h, s.alpha, rest));
    }
  }

  /** Every step inside a stream read a token. */
  lemma TokenExact(h: Header, d: Dictionary, input: seq<byte>, s: State, color: seq<Pixel>, shown: seq<Pixel>)
      returns (t: Token)
    requires Between(h, input, s, color, shown) && Step(h, input, s, d).Continue?
    ensures Reads(h, d, input, s, color, shown, t, Step(h, input, s, d).state)
  {
    hide At, Holds, Literals, Refer, ParseReference, Control, PrintTail, SamplesFit, Fits, PrintSamples, ShowSamples,
      Periodic;
    HoldsRoom(s, color, shown, 0);
    var control := input[s.offset];
    AtByte(input, s.offset, control);
    if control < 32 {
      HoldsMoves(s, s.offset + 1, color, shown);
      HoldsRoom(s, color, shown, control + 1);
      var samples := LiteralsExact(h, input, s.(offset := s.offset + 1), control + 1);
      t := Plain(samples);
      AtConcat(input, s.offset, [control], PrintSamples(h, s.alpha, samples));
      LiteralsHold(h, input, s.(offset := s.offset + 1), color, shown, samples);
    } else {
      var bias := Bias(h, s.alpha);
      ReferenceExact(input, s.offset + 1, control, bias);
      var read := ParseReference(input, s.offset + 1, control, bias);
      var r := read.value;
      var layout :|
        && Fits(r, layout, bias) && control == Control(r, layout, bias)
        && At(input, s.offset + 1, PrintTail(r, layout, bias))
        && read.offset == s.offset + 1 + |PrintTail(r, layout, bias)|;
      t := Match(r, layout);
      AtConcat(input, s.offset, [control], PrintTail(r, layout, bias));
      ReferHolds(h, d, s, color, shown, r, layout, read.offset);
    }
  }

  // ---------------------------------------------------------------------------
  // Streams and payloads
  // ---------------------------------------------------------------------------

  /** The tokens printed from here on show all that is missing of a stream, which then ends at `end`. */
  ghost predicate Encodes(h: Header, d: Dictionary, input: seq<byte>, alpha: bool, o: nat, shown: seq<Pixel>,
                          tokens: seq<Token>, end: nat, all: seq<Pixel>) {
    && TokensFit(h, alpha, tokens)
    && At(input, o, PrintTokens(h, alpha, tokens)) && end == o + |PrintTokens(h, alpha, tokens)|
    && Play(h, d, alpha, shown, tokens) == Some(all) && |all| == h.Pixels()
  }

  /** A decoder at the start of such tokens reaches their end with all pixels shown. */
  lemma {:induction false} StreamRoundTrip(
      h: Header, d: Dictionary, input: seq<byte>, s: State, color: seq<Pixel>, shown: seq<Pixel>,
      tokens: seq<Token>, end: nat, all: seq<Pixel>)
      returns (s': State)
    requires StateOk(h, input, s) && Holds(s, color, shown) && (s.alpha ==> |color| == h.Pixels())
    requires Encodes(h, d, input, s.alpha, s.offset, shown, tokens, end, all)
    ensures StateOk(h, input, s') && Holds(s', color, all) && s'.offset == end && s'.alpha == s.alpha
    ensures Finish(h, input, s, d) == Finish(h, input, s', d)
    decreases |tokens|
  {
    hide At, Step, Show, TokenFits, PrintToken, Holds, Left;
    if tokens == [] {
      s' := s;
    } else {
      var more := Show(h, d, s.alpha, shown, tokens[0]);
      var rest := PrintTokens(h, s.alpha, tokens[1..]);
      AtConcat(input, s.offset, PrintToken(h, s.alpha, tokens[0]), rest);
      TokenRoundTrip(h, d, input, s, color, shown, tokens[0]);
      StepProgresses(h, input, s, d);
      var step := Step(h, input, s, d);
      s' := StreamRoundTrip(h, d, input, step.state, color, shown + more.value, tokens[1..], end, all);
    }
  }

  /** A decode that completes went through tokens that show all the pixels of its stream. */
  lemma {:induction false} StreamExact(h: Header, d: Dictionary, input: seq<byte>, s: State, color: seq<Pixel>,
                                       shown: seq<Pixel>)
      returns (tokens: seq<Token>, s': State, all: seq<Pixel>)
    requires StateOk(h, input, s) && Holds(s, color, shown) && (s.alpha ==> |color| == h.Pixels())
    requires Finish(h, input, s, d).Complete?
    ensures Encodes(h, d, input, s.alpha, s.offset, shown, tokens, s'.offset, all)
    ensures StateOk(h, input, s') && Holds(s', color, all) && s'.alpha == s.alpha
    ensures Finish(h, input, s, d) == Finish(h, input, s', d)
    decreases Left(input, s)
  {
    hide At, Show, TokenFits, PrintToken, Holds, Left, Step;
    HoldsCount(s, color, shown);
    if |shown| == h.Pixels() {
      tokens, s', all := [], s, shown;
      AtNothing(input, s.offset);
    } else {
      StepProgresses(h, input, s, d);
      NotDone(h, input, s, d);
      var step := Step(h, input, s, d);
      var t := TokenExact(h, d, input, s, color, shown);
      var more := Show(h, d, s.alpha, shown, t);
      var rest;
      rest, s', all := StreamExact(h, d, input, step.state, color, shown + more.value);
      tokens := [t] + rest;
      assert tokens[1..] == rest;
      AtConcat(input, s.offset, PrintToken(h, s.alpha, t), PrintTokens(h, s.alpha, rest));
    }
  }

  lemma NotDone(h: Header, input: seq<byte>, s: State, d: Dictionary)
    requires StateOk(h, input, s) && s.produced < h.Pixels()
    ensures !Step(h, input, s, d).Complete?
  {
    hide Literals, ParseReference, Refer;
    ReferNotDone(h, s, d);
  }

  lemma ReferNotDone(h: Header, s: State, d: Dictionary)
    ensures forall r: Reference, o: nat ::
      Room(s.output, s.produced, r.length, s.alpha) && (r.imageDistance == 0 ==> 1 <= r.pixelOffset) ==>
        !Refer(h, s, r, o, d).Complete?
  {
    hide CopyLocal, CopyImage;
  }

  /** The payload is the print of these tokens, and the pixels are what they show. */
  ghost predicate PrintOf(h: Header, d: Dictionary, input: seq<byte>, pixels: seq<Pixel>,
                          colors: seq<Token>, alphas: seq<Token>) {
    && |input| >= 33 && TokensFit(h, false, colors) && TokensFit(h, true, alphas)
    && input[33..] == PrintTokens(h, false, colors) + PrintTokens(h, true, alphas)
    && var color, alpha := Play(h, d, false, [], colors), Play(h, d, true, [], alphas);
       && color.Some? && |color.value| == h.Pixels()
       && if h.imageType == Rgba
          then alpha.Some? && |alpha.value| == h.Pixels() && pixels == Blend(color.value, alpha.value)
          else alphas == [] && pixels == color.value
  }

  ghost predicate Described(h: Header, d: Dictionary, input: seq<byte>, pixels: seq<Pixel>) {
    exists colors, alphas :: PrintOf(h, d, input, pixels, colors, alphas)
  }

  /** What the decoder does when a stream is complete. */
  lemma StreamEnds(h: Header, d: Dictionary, input: seq<byte>, s: State)
    requires StateOk(h, input, s) && s.produced == h.Pixels()
    ensures h.imageType == Rgba && !s.alpha ==>
      && StateOk(h, input, s.(produced := 0, alpha := true))
      && Finish(h, input, s, d) == Finish(h, input, s.(produced := 0, alpha := true), d)
    ensures !(h.imageType == Rgba && !s.alpha) ==>
      Finish(h, input, s, d) == if s.offset == |input| then Complete(s.output) else Fail(TrailingData)
  {
    hide Left;
    StepProgresses(h, input, s, d);
  }

  lemma BlendNothing(color: seq<Pixel>)
    ensures Blend(color, []) == color
  {
  }

  /** Printed tokens decode to what they show. */
  lemma PayloadRoundTrip(h: Header, d: Dictionary, input: seq<byte>, pixels: seq<Pixel>,
                         colors: seq<Token>, alphas: seq<Token>)
    requires PrintOf(h, d, input, pixels, colors, alphas)
    ensures StateOk(h, input, Start()) && Finish(h, input, Start(), d) == Complete(pixels)
  {
    hide Step, Play, PrintTokens, TokensFit, Finish, Left;
    var printedColors, printedAlphas := PrintTokens(h, false, colors), PrintTokens(h, true, alphas);
    assert At(input, 33, printedColors + printedAlphas);
    AtConcat(input, 33, printedColors, printedAlphas);
    var middle := 33 + |printedColors|;
    var color, alpha := Play(h, d, false, [], colors), Play(h, d, true, [], alphas);
    var s := StreamRoundTrip(h, d, input, Start(), [], [], colors, middle, color.value);
    StreamEnds(h, d, input, s);
    if h.imageType == Rgba {
      BlendNothing(color.value);
      var s' := StreamRoundTrip(h, d, input, s.(produced := 0, alpha := true), color.value, [], alphas, |input|,
                                alpha.value);
      StreamEnds(h, d, input, s');
    } else {
      NoTokens(h, true);
    }
  }

  lemma NoTokens(h: Header, alpha: bool)
    ensures TokensFit(h, alpha, []) && PrintTokens(h, alpha, []) == []
  {
  }

  /** A decode that completes has printed tokens that show its pixels. */
  lemma PayloadExact(h: Header, d: Dictionary, input: seq<byte>)
      returns (colors: seq<Token>, alphas: seq<Token>)
    requires StateOk(h, input, Start()) && Finish(h, input, Start(), d).Complete?
    ensures PrintOf(h, d, input, Finish(h, input, Start(), d).pixels, colors, alphas)
  {
    hide Step, Play, PrintTokens, TokensFit, Finish, Left;
    var s, color;
    colors, s, color := StreamExact(h, d, input, Start(), [], []);
    StreamEnds(h, d, input, s);
    if h.imageType == Rgba {
      BlendNothing(color);
      var s', alpha;
      alphas, s', alpha := StreamExact(h, d, input, s.(produced := 0, alpha := true), color, []);
      StreamEnds(h, d, input, s');
    } else {
      alphas := [];
      NoTokens(h, true);
      AtNothing(input, |input|);
    }
    AtConcat(input, 33, PrintTokens(h, false, colors), PrintTokens(h, true, alphas));
    assert At(input, 33, PrintTokens(h, false, colors) + PrintTokens(h, true, alphas));
  }

  /** A payload decodes to these pixels if and only if it is the print of tokens that show them. */
  lemma CompleteIff(h: Header, d: Dictionary, input: seq<byte>, pixels: seq<Pixel>)
    requires StateOk(h, input, Start())
    ensures Finish(h, input, Start(), d) == Complete(pixels) <==> Described(h, d, input, pixels)
  {
    hide PrintOf, Finish;
    if Finish(h, input, Start(), d) == Complete(pixels) {
      var colors, alphas := PayloadExact(h, d, input);
    }
    if Described(h, d, input, pixels) {
      var colors, alphas :| PrintOf(h, d, input, pixels, colors, alphas);
      PayloadRoundTrip(h, d, input, pixels, colors, alphas);
    }
  }

  /** A payload is accepted with this header and these pixels if and only if it is their print, and within the
      limits. */
  lemma PayloadIff(input: seq<byte>, limits: Limits, d: Dictionary, h: Header, pixels: seq<Pixel>)
    ensures ParseHeader(input, limits) == Accepted(h) && Finish(h, input, Start(), d) == Complete(pixels) <==>
      HeaderFits(h) && WithinLimits(h, limits) && At(input, 0, PrintHeader(h)) && Described(h, d, input, pixels)
  {
    hide Described, Finish, PrintHeader;
    HeaderIff(input, h, limits);
    if ParseHeader(input, limits) == Accepted(h) {
      CompleteIff(h, d, input, pixels);
    }
  }
}
