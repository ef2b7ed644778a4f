/** The SASL security layer under a channel (section 3.7 of RFC 4422).

  Each token travels behind its length in four octets, most significant first.
  Messages are cut into chunks before they are wrapped, and readers ask for byte
  counts that need not match any token, so the reader buffers what a token held
  beyond what was asked for.
*/
module Sasl {
  import opened Basics

  const SASL_MAX_DATA_BYTES := 1024 * 1024
  const SASL_SECURITY_PLAINTEXT_BYTES := 8192

  /** One direction of a mechanism: the k-th buffer to a token and back. */
  type Wrap = (nat, seq<byte>) -> seq<byte>
  type Unwrap = (nat, seq<byte>) -> Option<seq<byte>>

  ghost predicate Inverse(wrap: Wrap, unwrap: Unwrap) {
    forall k: nat, p: seq<byte> :: p != [] ==> unwrap(k, wrap(k, p)) == Some(p)
  }

  // ---------------------------------------------------------------------------
  // Framing
  // ---------------------------------------------------------------------------

  function BigEndian(b: seq<byte>): nat
    requires |b| == 4
  {
    b[0] as nat * 0x100_0000 + b[1] as nat * 0x1_0000 + b[2] as nat * 0x100 + b[3] as nat
  }

  function ToBigEndian(n: nat): (b: seq<byte>)
    requires n < 0x1_0000_0000
    ensures |b| == 4 && BigEndian(b) == n
  {
    [n / 0x100_0000, n / 0x1_0000 % 0x100, n / 0x100 % 0x100, n % 0x100]
  }

  predicate Acceptable(length: nat) {
    0 < length <= SASL_MAX_DATA_BYTES
  }

  function Frame(token: seq<byte>): seq<byte>
    requires Acceptable(|token|)
  {
    ToBigEndian(|token|) + token
  }

  /** A length in four octets, most significant first, and the token; no more than a mebibyte. */
  lemma FrameIs(token: seq<byte>)
    ensures Acceptable(|token|) <==> 1 <= |token| <= 0x10_0000
    ensures Acceptable(|token|) ==>
      && var f := Frame(token);
         && |f| == 4 + |token| && f[4..] == token
         && |token| == 0x100_0000 * f[0] as int + 0x1_0000 * f[1] as int + 0x100 * f[2] as int + f[3] as int
  {
    if Acceptable(|token|) {
      assert Frame(token)[..4] == ToBigEndian(|token|);
    }
  }

  /** The plaintext of the whole tokens of a byte stream, up to the first fault. */
  function Opened(bytes: seq<byte>, k: nat, unwrap: Unwrap): seq<byte>
    decreases |bytes|
  {
    if |bytes| < 4 then []
    else
      var length := BigEndian(bytes[..4]);
      if !Acceptable(length) || |bytes| < 4 + length then []
      else
        match unwrap(k, bytes[4..4 + length])
        case None => []
        case Some(p) => p + Opened(bytes[4 + length..], k + 1, unwrap)
  }

  /** The chunks a message is cut into. */
  function Chunks(message: seq<byte>): (r: seq<seq<byte>>)
    ensures Flatten(r) == message
    ensures forall i :: 0 <= i < |r| ==> 0 < |r[i]| <= SASL_SECURITY_PLAINTEXT_BYTES
  {
    if message == [] then []
    else
      var n := Min(|message|, SASL_SECURITY_PLAINTEXT_BYTES);
      [message[..n]] + Chunks(message[n..])
  }

  /** All chunks but the last are full. */
  lemma {:induction false} ChunksAreFull(message: seq<byte>, i: nat)
    requires i < |Chunks(message)|
    ensures i + 1 < |Chunks(message)| ==> |Chunks(message)[i]| == 8192
    ensures i + 1 == |Chunks(message)| ==> 8192 * i + |Chunks(message)[i]| == |message|
  {
    var n := Min(|message|, 8192);
    if i == 0 {
      if n == |message| {
        assert message[n..] == [];
      } else {
        assert message[n..] != [];
      }
    } else {
      ChunksAreFull(message[n..], i - 1);
    }
  }

  predicate Wrappable(chunks: seq<seq<byte>>, k: nat, wrap: Wrap) {
    chunks == [] || (Acceptable(|wrap(k, chunks[0])|) && Wrappable(chunks[1..], k + 1, wrap))
  }

  /** The bytes of wrapped chunks. */
  function Wrapped(chunks: seq<seq<byte>>, k: nat, wrap: Wrap): seq<byte>
    requires Wrappable(chunks, k, wrap)
  {
    if chunks == [] then [] else Frame(wrap(k, chunks[0])) + Wrapped(chunks[1..], k + 1, wrap)
  }

  ghost predicate NonEmpty(chunks: seq<seq<byte>>) {
    forall i :: 0 <= i < |chunks| ==> chunks[i] != []
  }

  /** One frame opens to its plaintext, and the rest follows. */
  lemma OpenFrame(p: seq<byte>, rest: seq<byte>, k: nat, wrap: Wrap, unwrap: Unwrap)
    requires Inverse(wrap, unwrap) && p != [] && Acceptable(|wrap(k, p)|)
    ensures Opened(Frame(wrap(k, p)) + rest, k, unwrap) == p + Opened(rest, k + 1, unwrap)
  {
    var token := wrap(k, p);
    var head := ToBigEndian(|token|);
    hide BigEndian, ToBigEndian;
    var bytes := Frame(token) + rest;
    assert bytes[..4] == head;
    assert bytes[4..4 + |token|] == token;
    assert bytes[4 + |token|..] == rest;
  }

  /** What was wrapped is what opens, whatever follows on the stream. */
  lemma {:induction false} OpenWrapped(chunks: seq<seq<byte>>, rest: seq<byte>, k: nat, wrap: Wrap, unwrap: Unwrap)
    requires Inverse(wrap, unwrap) && NonEmpty(chunks) && Wrappable(chunks, k, wrap)
    ensures Opened(Wrapped(chunks, k, wrap) + rest, k, unwrap)
         == Flatten(chunks) + Opened(rest, k + |chunks|, unwrap)
  {
    hide Inverse, Opened, Frame, Acceptable;
    if chunks == [] {
      assert Wrapped(chunks, k, wrap) + rest == rest;
    } else {
      var tail := Wrapped(chunks[1..], k + 1, wrap) + rest;
      OpenWrapped(chunks[1..], rest, k + 1, wrap, unwrap);
      assert Wrapped(chunks, k, wrap) + rest == Frame(wrap(k, chunks[0])) + tail;
      OpenFrame(chunks[0], tail, k, wrap, unwrap);
    }
  }

  // ---------------------------------------------------------------------------
  // The two ends
  // ---------------------------------------------------------------------------

  datatype Error = StreamEnded | TokenLength | TokenRejected

  /** The frames before the first token of a forbidden length have been written, and no others. */
  ghost predicate StoppedAt(chunks: seq<seq<byte>>, start: nat, at: nat, wrap: Wrap, wire: seq<byte>, wire': seq<byte>)
  {
    && start <= at < start + |chunks|
    && !Acceptable(|wrap(at, chunks[at - start])|)
    && Wrappable(chunks[..at - start], start, wrap)
    && wire' == wire + Wrapped(chunks[..at - start], start, wrap)
  }

  class SecureWriter {
    const wrap: Wrap
    var wire: seq<byte>
    var wrapped: nat

    constructor (wrap: Wrap)
      ensures this.wrap == wrap && wire == [] && wrapped == 0
    {
      this.wrap := wrap;
      wire, wrapped := [], 0;
    }

    /** Writes one message chunk by chunk; fails at the first token of a forbidden length. */
    method WriteMessage(message: seq<byte>) returns (ok: bool)
      modifies this
      ensures ok <==> Wrappable(Chunks(message), old(wrapped), wrap)
      ensures ok ==> wire == old(wire) + Wrapped(Chunks(message), old(wrapped), wrap)
      ensures ok ==> wrapped == old(wrapped) + |Chunks(message)|
      ensures !ok ==> StoppedAt(Chunks(message), old(wrapped), wrapped, wrap, old(wire), wire)
    {
      hide Frame, Acceptable, Wrapped, Wrappable, Chunks, StoppedAt;
      ghost var k := wrapped;
      ghost var done: seq<seq<byte>> := [];
      var rest := message;
      NothingWrapped(k, wrap);
      while rest != []
        invariant Chunks(message) == done + Chunks(rest) && wrapped == k + |done|
        invariant Wrappable(done, k, wrap) && wire == old(wire) + Wrapped(done, k, wrap)
        decreases |rest|
      {
        var n := if |rest| < SASL_SECURITY_PLAINTEXT_BYTES then |rest| else SASL_SECURITY_PLAINTEXT_BYTES;
        var token := wrap(wrapped, rest[..n]);
        FirstChunk(rest, n);
        if !Acceptable(|token|) {
          NotWrappable(done, Chunks(rest), k, wrap);
          Stops(done, Chunks(rest), k, wrap, old(wire));
          return false;
        }
        WrappedOne(rest[..n], wrapped, wrap);
        WrappedAppend(done, [rest[..n]], k, wrap);
        wire := wire + Frame(token);
        wrapped := wrapped + 1;
        done := done + [rest[..n]];
        rest := rest[n..];
      }
      FirstChunk(rest, 0);
      assert done + [] == done;
      return true;
    }
  }

  lemma Stops(done: seq<seq<byte>>, rest: seq<seq<byte>>, k: nat, wrap: Wrap, wire: seq<byte>)
    requires Wrappable(done, k, wrap) && rest != [] && !Acceptable(|wrap(k + |done|, rest[0])|)
    ensures StoppedAt(done + rest, k, k + |done|, wrap, wire, wire + Wrapped(done, k, wrap))
  {
    assert (done + rest)[..|done|] == done;
  }

  lemma NothingWrapped(k: nat, wrap: Wrap)
    ensures Wrappable([], k, wrap) && Wrapped([], k, wrap) == []
  {
  }

  lemma FirstChunk(message: seq<byte>, n: nat)
    requires n == Min(|message|, SASL_SECURITY_PLAINTEXT_BYTES)
    ensures Chunks(message) == if message == [] then [] else [message[..n]] + Chunks(message[n..])
  {
  }

  lemma {:induction false} NotWrappable(a: seq<seq<byte>>, b: seq<seq<byte>>, k: nat, wrap: Wrap)
    requires b != [] && !Acceptable(|wrap(k + |a|, b[0])|)
    ensures !Wrappable(a + b, k, wrap)
  {
    hide Acceptable;
    if a == [] {
      assert a + b == b;
    } else {
      assert (a + b)[1..] == a[1..] + b;
      NotWrappable(a[1..], b, k + 1, wrap);
    }
  }

  /** Copies a slice into a buffer. */
  method CopySlice(source: seq<byte>, output: array<byte>, start: nat)
    requires start + |source| <= output.Length
    modifies output
    ensures output[..start] == old(output[..start]) && output[start..start + |source|] == source
  {
    var i := 0;
    while i < |source|
      invariant 0 <= i <= |source|
      invariant output[..start] == old(output[..start])
      invariant forall j :: 0 <= j < i ==> output[start + j] == source[j]
    {
      output[start + i] := source[i];
      i := i + 1;
    }
  }

  /** The bytes begin with this length. */
  ghost predicate LengthAt(bytes: seq<byte>, length: nat) {
    && |bytes| >= 4
    && length == 0x100_0000 * bytes[0] as int + 0x1_0000 * bytes[1] as int + 0x100 * bytes[2] as int + bytes[3] as int
  }

  /** The bytes begin with a whole token of this length. */
  ghost predicate TokenAt(bytes: seq<byte>, length: nat) {
    LengthAt(bytes, length) && 1 <= length <= 0x10_0000 && 4 + length <= |bytes|
  }

  lemma LengthIs(bytes: seq<byte>)
    requires |bytes| >= 4
    ensures forall length: nat :: LengthAt(bytes, length) <==> length == BigEndian(bytes[..4])
  {
  }

  class SecureReader {
    const unwrap: Unwrap
    /** Everything the transport will deliver, and how much of it was read. */
    const stream: seq<byte>
    var position: nat
    var unwrapped: nat
    var decoded: seq<byte>
    var offset: nat

    ghost predicate Valid()
      reads this
    {
      position <= |stream| && offset <= |decoded|
    }

    /** The plaintext still to be read. */
    ghost function Remaining(): seq<byte>
      requires Valid()
      reads this
    {
      decoded[offset..] + Opened(stream[position..], unwrapped, unwrap)
    }

    constructor (stream: seq<byte>, unwrap: Unwrap)
      ensures Valid() && this.stream == stream && this.unwrap == unwrap
      ensures Remaining() == Opened(stream, 0, unwrap)
    {
      this.stream := stream;
      this.unwrap := unwrap;
      position, unwrapped, decoded, offset := 0, 0, [], 0;
    }

    /** Reads the next token into the buffer. */
    method ReadToken() returns (error: Option<Error>)
      requires Valid() && decoded == [] && offset == 0
      modifies this
      ensures Valid() && offset == 0
      ensures error.None? ==> Remaining() == old(Remaining()) && position > old(position)
      ensures error.Some? ==> old(Remaining()) == []
      ensures var rest := old(stream[position..]);
        && (error.None? ==> exists length: nat ::
              && TokenAt(rest, length) && position == old(position) + 4 + length
              && unwrap(old(unwrapped), rest[4..4 + length]) == Some(decoded) && unwrapped == old(unwrapped) + 1)
        && (error == Some(TokenRejected) ==> exists length: nat ::
              TokenAt(rest, length) && unwrap(old(unwrapped), rest[4..4 + length]).None?)
        && (error == Some(TokenLength) <==> exists length: nat ::
              LengthAt(rest, length) && !(1 <= length <= 0x10_0000))
        && (error == Some(StreamEnded) <==> |rest| < 4 || exists length: nat ::
              LengthAt(rest, length) && 1 <= length <= 0x10_0000 && |rest| < 4 + length)
    {
      hide BigEndian;
      var rest := stream[position..];
      if |rest| < 4 {
        return Some(StreamEnded);
      }
      var length := BigEndian(rest[..4]);
      LengthIs(rest);
      assert LengthAt(rest, length);
      if length == 0 || length > SASL_MAX_DATA_BYTES {
        return Some(TokenLength);
      }
      if |rest| < 4 + length {
        return Some(StreamEnded);
      }
      assert TokenAt(rest, length);
      var plaintext := unwrap(unwrapped, rest[4..4 + length]);
      if plaintext.None? {
        return Some(TokenRejected);
      }
      assert rest[4 + length..] == stream[position + 4 + length..];
      position := position + 4 + length;
      unwrapped := unwrapped + 1;
      decoded := plaintext.value;
      return None;
    }

    /** Copies from the buffer; a buffer read to its end is cleared. */
    method CopyDecoded(output: array<byte>, written: nat) returns (copied: nat)
      requires Valid() && offset < |decoded| && written < output.Length
      modifies this`decoded, this`offset, output
      ensures Valid() && copied > 0 && written + copied <= output.Length
      ensures copied <= |old(Remaining())| && Remaining() == old(Remaining())[copied..]
      ensures output[..written] == old(output[..written])
      ensures output[written..written + copied] == old(Remaining())[..copied]
      ensures written + copied == output.Length || decoded == []
      ensures decoded == [] ==> offset == 0
    {
      hide Opened;
      var available := |decoded| - offset;
      copied := if available < output.Length - written then available else output.Length - written;
      CopySlice(decoded[offset..offset + copied], output, written);
      assert old(Remaining())[..copied] == decoded[offset..offset + copied];
      offset := offset + copied;
      if offset == |decoded| {
        decoded, offset := [], 0;
      }
    }

    /** Fills the output with the next plaintext bytes, whatever the token boundaries; fails exactly
        when the stream does not hold that much. */
    method ReadExact(output: array<byte>) returns (error: Option<Error>)
      requires Valid()
      modifies this, output
      ensures Valid()
      ensures error.None? <==> |old(Remaining())| >= output.Length
      ensures error.None? ==>
        && output[..] == old(Remaining())[..output.Length]
        && Remaining() == old(Remaining())[output.Length..]
    {
      hide Opened;
      ghost var before := Remaining();
      var written := 0;
      while written < output.Length
        invariant Valid() && written <= output.Length && written <= |before|
        invariant output[..written] == before[..written]
        invariant Remaining() == before[written..]
        decreases output.Length - written, |stream| - position
      {
        if offset < |decoded| {
          var copied := CopyDecoded(output, written);
          assert output[..written + copied] == output[..written] + output[written..written + copied];
          assert before[..written + copied] == before[..written] + before[written..][..copied];
          assert before[written..][copied..] == before[written + copied..];
          written := written + copied;
        } else {
          assert decoded[offset..] == [];
          decoded, offset := [], 0;
          error := ReadToken();
          if error.Some? {
            return;
          }
        }
      }
      return None;
    }
  }

  // ---------------------------------------------------------------------------
  // Messages through both ends
  // ---------------------------------------------------------------------------

  /** Writes messages one after another; what is on the wire then opens to all of them. */
  method SendAll(messages: seq<seq<byte>>, wrap: Wrap, ghost unwrap: Unwrap) returns (sent: bool, wire: seq<byte>)
    requires Inverse(wrap, unwrap)
    ensures sent ==> Opened(wire, 0, unwrap) == Flatten(messages)
  {
    hide Inverse, Opened, Chunks, Wrapped, Wrappable, Flatten;
    var writer := new SecureWriter(wrap);
    ghost var chunks: seq<seq<byte>> := [];
    NothingWrapped(0, wrap);
    var i := 0;
    assert messages[..i] == [] == chunks;
    while i < |messages|
      invariant 0 <= i <= |messages|
      invariant NonEmpty(chunks) && Wrappable(chunks, 0, wrap) && writer.wrapped == |chunks|
      invariant writer.wire == Wrapped(chunks, 0, wrap)
      invariant Flatten(chunks) == Flatten(messages[..i])
    {
      ghost var more := Chunks(messages[i]);
      sent := writer.WriteMessage(messages[i]);
      if !sent {
        return false, writer.wire;
      }
      WrappedAppend(chunks, more, 0, wrap);
      FlattenAppend(chunks, more);
      FlattenPush(messages[..i], messages[i]);
      assert messages[..i + 1] == messages[..i] + [messages[i]];
      chunks := chunks + more;
      i := i + 1;
    }
    assert messages[..i] == messages;
    OpenedIs(chunks, wrap, unwrap);
    return true, writer.wire;
  }

  /** Reads messages of known lengths, one after another. */
  method ReceiveAll(ghost messages: seq<seq<byte>>, lengths: seq<nat>, wire: seq<byte>, unwrap: Unwrap)
    returns (failure: Option<Error>, received: seq<seq<byte>>)
    requires Opened(wire, 0, unwrap) == Flatten(messages)
    requires |lengths| == |messages| && forall i :: 0 <= i < |messages| ==> lengths[i] == |messages[i]|
    ensures failure.None? && received == messages
  {
    hide Opened;
    received, failure := [], None;
    var reader := new SecureReader(wire, unwrap);
    var i := 0;
    while i < |lengths|
      invariant 0 <= i <= |lengths| && reader.Valid()
      invariant reader.Remaining() == Flatten(messages[i..]) && received == messages[..i] && failure.None?
    {
      assert messages[i..][1..] == messages[i + 1..];
      var output := new byte[lengths[i]](_ => 0);
      failure := reader.ReadExact(output);
      received := received + [output[..]];
      i := i + 1;
    }
  }

  /** Whole messages written in chunks are read back in order, without loss or duplication. */
  method Exchange(messages: seq<seq<byte>>, wrap: Wrap, unwrap: Unwrap)
    returns (sent: bool, failure: Option<Error>, received: seq<seq<byte>>)
    requires Inverse(wrap, unwrap)
    ensures sent ==> failure.None? && received == messages
  {
    hide Inverse, Opened, Flatten;
    var wire;
    sent, wire := SendAll(messages, wrap, unwrap);
    if !sent {
      return false, None, [];
    }
    var lengths := seq(|messages|, i requires 0 <= i < |messages| => |messages[i]|);
    failure, received := ReceiveAll(messages, lengths, wire, unwrap);
  }

  lemma WrappedOne(chunk: seq<byte>, k: nat, wrap: Wrap)
    requires Acceptable(|wrap(k, chunk)|)
    ensures Wrappable([chunk], k, wrap) && Wrapped([chunk], k, wrap) == Frame(wrap(k, chunk))
  {
    hide Frame, Acceptable;
    assert [chunk][1..] == [];
    assert Frame(wrap(k, chunk)) + [] == Frame(wrap(k, chunk));
  }

  lemma OpenedIs(chunks: seq<seq<byte>>, wrap: Wrap, unwrap: Unwrap)
    requires Inverse(wrap, unwrap) && NonEmpty(chunks) && Wrappable(chunks, 0, wrap)
    ensures Opened(Wrapped(chunks, 0, wrap), 0, unwrap) == Flatten(chunks)
  {
    OpenWrapped(chunks, [], 0, wrap, unwrap);
    assert Opened([], |chunks|, unwrap) == [];
    assert Wrapped(chunks, 0, wrap) + [] == Wrapped(chunks, 0, wrap);
  }

  lemma {:induction false} WrappedAppend(a: seq<seq<byte>>, b: seq<seq<byte>>, k: nat, wrap: Wrap)
    requires Wrappable(a, k, wrap) && Wrappable(b, k + |a|, wrap)
    ensures Wrappable(a + b, k, wrap)
    ensures Wrapped(a + b, k, wrap) == Wrapped(a, k, wrap) + Wrapped(b, k + |a|, wrap)
  {
    hide Frame, Acceptable;
    if a == [] {
      assert a + b == b;
    } else {
      assert (a + b)[1..] == a[1..] + b;
      WrappedAppend(a[1..], b, k + 1, wrap);
    }
  }
}
