# OxideSpice: a Dafny model of its decoders, its Agent tunnel and its channels

OxideSpice is a SPICE client. Four parts of it hold logic that is hard to get
right by reading, and this project models them and proves what they are for.

**Image decoding.** QUIC is modelled from the bit reader up to the whole image,
both as functions on bit strings and as the in-place loops over rows and models.
A writer that mirrors the decoder's adaptive state is defined beside it, and
every image is shown to survive the trip. What writer and reader share, such as
prediction, models and tables, is stated in numbers besides, and a payload of the
reference encoder decodes to the pixels it was made from. On streams that no
writer made, the decoder stays within its tables, its widths and its stretch of
the row. LZ has a round trip too, and its converse: what the decoder accepts is
exactly what some valid token list prints. GLZ has both as well, for its colour
and alpha streams; its images refer to earlier images, so its decoder is a
function of a dictionary.

**Concurrent GLZ decoding.** Several Display channels decode at once, wait for
each other's images, give up their decode slots while they wait, and insert into
one shared window that evicts by contiguous prefix. The channels are a state
machine whose steps interleave freely. Whatever the order, every image is the
one a sequential decoder would give. When the server keeps its window discipline,
nothing needed is evicted, somebody can always step, every schedule ends, and
all schedules that do not fail end in the same window. Which interleavings can
exceed the byte budget is characterised exactly. A migration to another server,
with channels arriving one by one at a dictionary that the first of them clears,
is part of the model. Small sessions that meet the assumptions are written out
byte by byte.

**The Agent tunnel.** Credits, the outbound message slot and file transfers are
three small specifications, joined in one world in which messages carry the bytes
of files. An invariant over every run says that they agree, and a theorem says
exactly which turns of the main loop fail. The runtime is one class whose methods
move that world as specified. For credits the server and the messages on both
wires are part of the model too, with grants as they are on the wire.

**Channels and live migration.** Effective serials survive a transport swap, a
replacement is only ever activated while its generation is current, barriers over
several channels hold for all of them at once, and the SASL security layer
(section 3.7 of RFC 4422) neither loses nor repeats a byte.

Two further parts are small and complete in themselves: the surface copy, whose
overlapping row moves equal a copy from a snapshot, and the acknowledgement
window of a channel.

## How it is built

Code that updates fields, arrays or readers step by step is a class or a method
with loops, proved against a function on values; what the source promises is then
proved about that function. Integers are unbounded. Where a width matters, it is
written out: 32-bit words of the QUIC reader, 32-bit transfer identifiers with
their wrap-around, byte values. Shifts are repeated doubling and halving.

Concurrency appears as interleaving: of channel steps in the GLZ session, of
server, wire and client steps in the credit accounts, and of other tasks' steps
met while waiting, given as a script, in the channel model. Anything the code
waits for is such an input.

## Properties that fail

Each of these is a property one might expect, with an input that breaks it and
the exact condition under which it holds.

- **A channel waits for itself.** The registry rejects a wait for a channel's own
  serial when that is not below the serial of the message being handled. Full
  headers may skip serials, and then a wait for a skipped serial passes the check
  and can never be reached (`Progress.SkippedSerialPassesCheck`). The check does
  its job exactly when the requester's serial follows its last completed one
  without a gap (`Progress.SelfCheckSufficesWithoutGap`).
- **Grants across a reconnect.** Nothing on the wire says which connection a grant
  was made for. A server that takes what it reads, adding up all counts or beginning
  anew with every start, can be rejected after a reconnect
  (`AgentWire.StaleStartRejected`), and cannot be if and only if nothing of an earlier
  connection is on its way or can come about (`AgentWire.ReconnectSafeIffQuiet`). A
  server that counts starts is always safe.
- **Success before sending.** A file's success may be accepted while its bytes are
  still in the outbound slot (`AgentWitness.SuccessOvertakes`, and for every such
  moment `AgentSoundness.SuccessCanOvertake`); all were sent if and only if the slot
  holds none of them (`AgentSoundness.SuccessCarried`).
- **The loop ends only because of the peer.** A current clipboard command, a layout
  or an offer whose payload does not encode ends the main loop as well
  (`AgentWitness.CommandEndsLoop`, `AgentWitness.DraftEndsLoop`);
  `AgentSoundness.TurnFailsIff` gives all the reasons.
- **After a migration the dictionary is the new server's.** A channel still at work on
  an old image may insert it after the clear (`GlzWitness.OldImageAmongNew`).
  `GlzMigration.SafeIffNoneLoose` and `GlzMigration.SafeIffSettled` say when none does.
- **A window belongs to its transport.** The swap at a migration end is noticed only
  with the next message, so that envelope's acknowledgement may go out on the new
  transport under the old window (`AckWindow.MigrationEndCrosses`);
  `AckWindow.CrossesIff` says when.

## Model

| member | source | states |
|---|---|---|
| Bits.AllBitsWord | crates/oxide-spice-codecs/src/quic.rs:148-178 | The bit string of an input is, word by word, the 32 bits of each little-endian word, most significant first |
| Bits.PackRoundTrip | crates/oxide-spice-codecs/src/quic.rs:121-136 | Any bit string can be packed into whole words that read back as those bits and padding |
| Bits.TakeRoundTrip | crates/oxide-spice-codecs/src/quic.rs:148-178 | A value written in `count` bits is what taking `count` bits returns, and the rest is untouched |
| Bits.BitReader.constructor | crates/oxide-spice-codecs/src/quic.rs:128-136 | A reader starts with all bits of its input ahead of it |
| Bits.BitReader.ReadBits | crates/oxide-spice-codecs/src/quic.rs:148-178 | The word-wise reader refines taking bits one at a time; a failed read leaves the offset where it was |
| Golomb.CeilLog2Least | crates/oxide-spice-codecs/src/quic.rs:700-706 | `ceil_log2` is the least exponent whose power of two reaches its argument |
| Golomb.RoundTrip | crates/oxide-spice-codecs/src/quic.rs:661-685 | Decoding a codeword followed by anything gives back the value and what follows, for every code and width |
| Golomb.Exact | crates/oxide-spice-codecs/src/quic.rs:661-685 | Every successful decode has consumed exactly the codeword of its result |
| Golomb.Length | crates/oxide-spice-codecs/src/quic.rs:687-698 | `golomb_code_length` is the length of the codeword, always between 1 and 26 |
| Golomb.PrefixFree | crates/oxide-spice-codecs/src/quic.rs:661-698 | No codeword is a prefix of another |
| Golomb.ConsumesPrice | crates/oxide-spice-codecs/src/quic.rs:661-698 | On every bit stream a decode consumes exactly the priced number of bits, never more than 26 |
| Golomb.DecodeGolomb | crates/oxide-spice-codecs/src/quic.rs:661-685 | The decoding loop computes the specified value, leaves the reader behind the codeword and fails in the same cases |
| QuicModel.UpdateChoosesLargestCheapest | crates/oxide-spice-codecs/src/quic.rs:231-249 | After charging a value, the best code is the largest index among the cheapest |
| QuicModel.UpdateKeepsBounded | crates/oxide-spice-codecs/src/quic.rs:231-249 | Every counter stays at most 26 above 26 times the minimum, with the minimum at most 900, through charging and halving |
| QuicModel.ChargeFits | crates/oxide-spice-codecs/src/quic.rs:231-249 | Charging any value to a bucket the decoder keeps leaves every counter at most 23452, far below 2^32 |
| QuicModel.UpdateBucket | crates/oxide-spice-codecs/src/quic.rs:231-249 | The update loop, which walks down and keeps the first strict improvement, computes the specified bucket and its largest cheapest code |
| QuicModel.TriggerOf | crates/oxide-spice-codecs/src/quic.rs:281-285 | The trigger never exceeds the bound under which the counters are safe |
| QuicModel.ContextBuckets | crates/oxide-spice-codecs/src/quic.rs:197-208 | The table has exactly one entry for every value of the component width, and each entry names a bucket |
| QuicModel.BucketIndex | crates/oxide-spice-codecs/src/quic.rs:227-233 | The context of every position of a kept model lies inside the table, for every width, and leads to a bucket |
| QuicModel.UpdateChannel | crates/oxide-spice-codecs/src/quic.rs:231-249 | Charging a kept model leaves residuals, prior context, bucket shapes and counters within their bounds |
| QuicModel.BestCode | crates/oxide-spice-codecs/src/quic.rs:227-229 | The code a model proposes, looked up through the table of 2^bpc contexts, is within the range the Golomb decoder accepts |
| QuicRun.RoundTrip | crates/oxide-spice-codecs/src/quic.rs:634-659 | A run length written by a mirroring writer reads back as that length, in the same run state, from every state and within every maximum |
| QuicRun.DecodeRun | crates/oxide-spice-codecs/src/quic.rs:634-659 | The run loop computes the specified length and state and fails in the same cases |
| QuicPixel.FoldBijection | crates/oxide-spice-codecs/src/quic.rs:571-586 | For every predictor, folding and reconstructing are inverse to each other on the whole value range |
| QuicPixel.ResidualKept | crates/oxide-spice-codecs/src/quic.rs:566-586 | Storing a residual of the component width, as the Golomb decoder yields, keeps every model in bounds |
| QuicPixel.ChannelsRoundTrip | crates/oxide-spice-codecs/src/quic.rs:553-589 | Decoding one pixel from the bits of a mirroring writer paints exactly its components and leaves the same models |
| QuicSegment.RoundTripFrom | crates/oxide-spice-codecs/src/quic.rs:476-550 | From any coupled point inside a segment, the decoder reads back the rest of the row and ends in the writer’s models, run state and wait count |
| QuicSegment.SegmentRoundTrip | crates/oxide-spice-codecs/src/quic.rs:464-551 | A whole segment written by the mirroring writer decodes to that stretch of the row |
| QuicRow.RowRoundTrip | crates/oxide-spice-codecs/src/quic.rs:415-462 | A row decodes back however the code-index schedule splits it into segments |
| QuicRow.ScheduleStarts | crates/oxide-spice-codecs/src/quic.rs:263-274 | A fresh coding state is on schedule after zero pixels |
| QuicRow.SegmentKeepsSchedule | crates/oxide-spice-codecs/src/quic.rs:424-461 | A full segment ends exactly where the code index grows; any shorter one leaves the right countdown |
| QuicRow.RowKeepsSchedule | crates/oxide-spice-codecs/src/quic.rs:424-461 | On every bit stream, a row that starts on schedule ends on schedule: code index min(6, N/2048) and the next step at the right distance, however the row splits |
| QuicFrame.ChannelsWithin | crates/oxide-spice-codecs/src/quic.rs:553-589 | On every bit stream, decoding a pixel changes that position only, and only components of the format |
| QuicFrame.RestWithin | crates/oxide-spice-codecs/src/quic.rs:476-550 | On every bit stream, from any point inside a segment, no position already passed and none behind the end is changed |
| QuicFrame.SegmentWithin | crates/oxide-spice-codecs/src/quic.rs:464-551 | On every bit stream, a segment changes nothing outside [start,end) and no component outside the format |
| QuicFrame.RowWithin | crates/oxide-spice-codecs/src/quic.rs:415-462 | The same of a whole row across its segments, so the alpha plane never disturbs the colours |
| QuicFrame.ChannelsIgnore | crates/oxide-spice-codecs/src/quic.rs:553-589 | A decoded pixel does not depend on what its position held before |
| QuicFrame.RestIgnores | crates/oxide-spice-codecs/src/quic.rs:476-550 | Nor does the rest of a segment depend on what it held before, models, errors and bits consumed included |
| QuicFrame.SegmentIgnores | crates/oxide-spice-codecs/src/quic.rs:464-551 | Two rows that agree before a segment decode alike, whatever the segment held: every position of [start,end) is written before it is read |
| QuicFrame.RestFits | crates/oxide-spice-codecs/src/quic.rs:476-550 | On every bit stream, the coded components up to the end of a segment are below two to the component width |
| QuicFrame.RowFits | crates/oxide-spice-codecs/src/quic.rs:415-462 | The same of a whole row |
| QuicImage.RowsRoundTrip | crates/oxide-spice-codecs/src/quic.rs:354-395 | All rows of an image read back, colour and alpha planes alternating |
| QuicImage.WordRoundTrip | crates/oxide-spice-codecs/src/quic.rs:138-142 | The two half-word reads put a 32-bit word together again |
| QuicImage.HeaderRoundTrip | crates/oxide-spice-codecs/src/quic.rs:305-320 | The header fields read back from their bits |
| QuicImage.CheckHeader | crates/oxide-spice-codecs/src/quic.rs:312-342 | Only a non-empty image of a supported type passes the header checks |
| QuicImage.DecodeOne | crates/oxide-spice-codecs/src/quic.rs:366-394 | One row of both planes leaves both planes’ models, run states and schedules within their bounds |
| QuicImage.RoundTrip | crates/oxide-spice-codecs/src/quic.rs:295-413 | For every image within the limits, decoding the bytes of the mirroring writer gives that image |
| QuicImage.ExpandRecovers | crates/oxide-spice-codecs/src/quic.rs:400-406 | Expanding five-bit components loses nothing |
| QuicSafety.OneRowOk | crates/oxide-spice-codecs/src/quic.rs:366-394 | On every bit stream, each component of a decoded row is below two to its width, alpha included |
| QuicSafety.DecodedRowsOk | crates/oxide-spice-codecs/src/quic.rs:354-395 | On every bit stream, each component of every decoded row is below two to its width |
| QuicSafety.DecodeYieldsBytes | crates/oxide-spice-codecs/src/quic.rs:295-413 | Whatever the payload, an image that decodes consists of bytes: the shifts of five-bit components lose nothing |
| QuicSafety.ReachedIsDecoded | crates/oxide-spice-codecs/src/quic.rs:354-395 | The decoder of a whole image passes through the states reached row by row |
| QuicSafety.ImageKeepsSchedule | crates/oxide-spice-codecs/src/quic.rs:354-461 | On every bit stream, after y rows of an image the code index of the colour plane, and of the alpha plane where there is one, is min(6, y·width/2048) |
| QuicLaws.PaintedFromNeighbours | crates/oxide-spice-codecs/src/quic.rs:553-589 | On every bit stream, each component of a decoded pixel is what its neighbours predict (nothing in the corner, the left one in the first row, the one above in the first column, their mean rounded down elsewhere) plus or minus half its residual, modulo the width |
| QuicLaws.ReconstructCorrects | crates/oxide-spice-codecs/src/quic.rs:571-586 | An even residual 2k is k more than predicted, an odd one 2k - 1 is k less, modulo the width |
| QuicLaws.PrefixTable | crates/oxide-spice-codecs/src/quic.rs:661-698 | How many zero bits begin an escaped codeword, for each code of both widths, in numbers |
| QuicLaws.ContextGroups | crates/oxide-spice-codecs/src/quic.rs:197-208 | Bucket k holds the contexts from 2^k - 1 to 2^(k+1) - 2, and the last bucket all that remain |
| QuicLaws.UpdateDoes | crates/oxide-spice-codecs/src/quic.rs:231-249 | Each counter is charged the length of the codeword that its code has for the value, and all are halved if and only if every one is then above the trigger |
| QuicLaws.UpdateChannelDoes | crates/oxide-spice-codecs/src/quic.rs:227-249 | Only the bucket of the context is charged, with the residual of the position; the context is the residual before it, or the prior one at the start of a row |
| QuicLaws.NextRowDoes | crates/oxide-spice-codecs/src/quic.rs:223-225 | The next row begins with the first residual of this row as its context |
| QuicLaws.FreshDoes | crates/oxide-spice-codecs/src/quic.rs:209-274 | Fresh models and coding state, in numbers |
| QuicLaws.NextWaitDoes | crates/oxide-spice-codecs/src/quic.rs:276-279 | A wait is the low bits, as many as the code index, of the next entry of the random table, round and round |
| QuicLaws.TriggerTable | crates/oxide-spice-codecs/src/quic.rs:281-285 | The trigger of each code index, in numbers |
| QuicLaws.AfterFirstDoes | crates/oxide-spice-codecs/src/quic.rs:490-497 | After the first pixel of a row a pending wait is one shorter; with none pending every model is charged and the next wait is drawn |
| QuicLaws.ShouldRunIff | crates/oxide-spice-codecs/src/quic.rs:612-632 | A run is read exactly from the fourth pixel of a later row on, where the two pixels before are alike, the one above and its left neighbour are alike, and no run has just ended there |
| QuicLaws.FillDoes | crates/oxide-spice-codecs/src/quic.rs:510-515 | A run repeats the components of the format of the pixel before it, over its length and no further |
| QuicLaws.RunTable | crates/oxide-spice-codecs/src/quic.rs:18-21 | The remainder widths of all run states, as a formula |
| QuicLaws.RunDoes | crates/oxide-spice-codecs/src/quic.rs:634-659 | A run is one bits for steps of the current width, each moving one state up, then a zero bit and the remainder, and ends one state lower |
| QuicLaws.ExpandDoes | crates/oxide-spice-codecs/src/quic.rs:400-406 | A widened component has its five bits on top and the first three of them below; other image types are left alone |
| QuicLaws.CheckHeaderIff | crates/oxide-spice-codecs/src/quic.rs:312-342 | A header is accepted if and only if its tags are the published ones, its size is the announced one and within the limits |
| QuicLaws.BlankDoes | crates/oxide-spice-codecs/src/quic.rs:357-360 | Rows begin black and opaque |
| QuicVector.BytePrice | crates/oxide-spice-codecs/src/quic.rs:687-698 | The price of every byte under every code, in numbers |
| QuicVector.Codeword | crates/oxide-spice-codecs/src/quic.rs:661-685 | The codeword of every byte under every code, as one number of that many bits |
| QuicVector.PayloadBits | crates/oxide-spice-codecs/src/quic.rs:731-746 | The published two by two payload is its header and the bits of eight words |
| QuicVector.FirstPixels | crates/oxide-spice-codecs/src/quic.rs:731-746 | The first row of that payload, and what it teaches the models |
| QuicVector.SecondPixels | crates/oxide-spice-codecs/src/quic.rs:731-746 | The second row, read with what the first one taught |
| QuicVector.PayloadDecodes | crates/oxide-spice-codecs/src/quic.rs:731-746 | The payload that the reference encoder made for four given pixels decodes to those four pixels, whatever the random table |
| QuicDecoder.CodingState.constructor | crates/oxide-spice-codecs/src/quic.rs:263-274 | The object starts as the specified coding state |
| QuicDecoder.CodingState.NextWait | crates/oxide-spice-codecs/src/quic.rs:276-279 | The object moves as the specified wait step |
| QuicDecoder.CodingState.IncreaseCodeIndex | crates/oxide-spice-codecs/src/quic.rs:287-292 | The object moves as the specified code-index step |
| QuicDecoder.DecodePixel | crates/oxide-spice-codecs/src/quic.rs:553-589 | In place on the row and the models, one pixel is decoded as specified, errors included; each of its components is what the neighbours in the row and above predict, corrected by the residual stored in its model |
| QuicDecoder.ContextIndex | crates/oxide-spice-codecs/src/quic.rs:227-233 | The lookup by context is always inside the table and finds the specified bucket |
| QuicDecoder.UpdateChannels | crates/oxide-spice-codecs/src/quic.rs:591-610 | Every channel’s model is updated at the position, and only there |
| QuicDecoder.FillRun | crates/oxide-spice-codecs/src/quic.rs:510-515 | A run copies the components of the pixel before it, and only those components |
| QuicDecoder.ReadRun | crates/oxide-spice-codecs/src/quic.rs:506-523 | A run inside a segment changes only the positions it covers and leads on to what the specification says remains |
| QuicDecoder.ReadPixel | crates/oxide-spice-codecs/src/quic.rs:524-533 | A pixel inside a segment changes only its position and leads on to what the specification says remains |
| QuicDecoder.AdaptAtStop | crates/oxide-spice-codecs/src/quic.rs:538-546 | Adapting the models at the stop position leads on to what the specification says remains |
| QuicDecoder.DecodeStretch | crates/oxide-spice-codecs/src/quic.rs:502-537 | One stretch up to a stop or run computes what the specification says, changes no position outside the ones it passes, and a zero-length run cannot repeat at the same position |
| QuicDecoder.DecodeRowSegment | crates/oxide-spice-codecs/src/quic.rs:464-551 | The nested loops compute the specified segment, change nothing outside [start,end) or outside the format, and terminate |
| QuicDecoder.DecodeFirst | crates/oxide-spice-codecs/src/quic.rs:480-497 | The first pixel of a row and the adaptation it may trigger |
| QuicDecoder.DecodeRow | crates/oxide-spice-codecs/src/quic.rs:415-462 | The segment loop computes the specified row |
| QuicDecoder.ReadU32 | crates/oxide-spice-codecs/src/quic.rs:138-142 | Reads the specified word |
| QuicDecoder.StartNextRows | crates/oxide-spice-codecs/src/quic.rs:223-225 | Models carry over to the next row as specified |
| QuicDecoder.ReadHeaderFields | crates/oxide-spice-codecs/src/quic.rs:305-320 | Reads the specified header |
| QuicDecoder.NextRow | crates/oxide-spice-codecs/src/quic.rs:366-394 | One row of both planes, in place, leads on to what the specification says remains |
| QuicDecoder.DecodeAllRows | crates/oxide-spice-codecs/src/quic.rs:354-395 | The row loop computes the specified rows |
| QuicDecoder.DecodeQuic | crates/oxide-spice-codecs/src/quic.rs:295-413 | The whole decoder is the specified function of its input, for every input; on the published payload that function gives the published pixels |
| GlzFormat.ParseHeader | crates/oxide-spice-codecs/src/glz.rs:78-140 | An accepted header is complete and its window head is not after its id |
| GlzFormat.ParseReference | crates/oxide-spice-codecs/src/glz.rs:279-337 | A parsed reference consumes input, has at least its control length, and a local one points at least one pixel back; GlzTokens.ReferenceRoundTrip and ReferenceExact say which one it is |
| GlzFormat.CopyLocalRepeats | crates/oxide-spice-codecs/src/glz.rs:340-368 | A local reference repeats the output at its distance even when it overlaps itself; the alpha pass touches nothing but alpha |
| GlzFormat.CopyImageAppends | crates/oxide-spice-codecs/src/glz.rs:369-397 | A colour reference to another image appends exactly that slice of it |
| GlzFormat.CopyImageOverlays | crates/oxide-spice-codecs/src/glz.rs:369-407 | An alpha reference to another image overlays exactly the alpha of that slice |
| GlzFormat.StepProgresses | crates/oxide-spice-codecs/src/glz.rs:176-269 | Every decoding step makes progress |
| GlzFormat.StepConsults | crates/oxide-spice-codecs/src/glz.rs:369-395 | A step looks up at most one image, of a strictly smaller id; it depends on the dictionary only there, and reports a missing image exactly when that lookup fails |
| GlzFormat.FinishLooksBack | crates/oxide-spice-codecs/src/glz.rs:369-395 | The result depends only on images of smaller ids, so decoding in id order is well founded |
| GlzFormat.FinishMonotone | crates/oxide-spice-codecs/src/glz.rs:69-173 | A result obtained with some images is the result with more of them |
| GlzTokens.ReferenceRoundTrip | crates/oxide-spice-codecs/src/glz.rs:279-337 | The print of a reference, in every layout of distance and offset bytes that holds it, is read back as that reference, whatever stands around it |
| GlzTokens.ReferenceExact | crates/oxide-spice-codecs/src/glz.rs:279-337 | Every reference that is accepted was read from its print in one of the layouts |
| GlzTokens.SampleRoundTrip | crates/oxide-spice-codecs/src/glz.rs:198-212 | A literal pixel written blue, green, red, or as five bits of each colour, or as an alpha, has those colours or that alpha |
| GlzTokens.SampleExact | crates/oxide-spice-codecs/src/glz.rs:198-212 | Any bytes of the right number are such a literal pixel |
| GlzTokens.HeaderIff | crates/oxide-spice-codecs/src/glz.rs:78-140 | A header is accepted with given fields if and only if it is their print and they are within the limits |
| GlzStreams.ReferHolds | crates/oxide-spice-codecs/src/glz.rs:340-397 | A reference shows the last pixels with its distance as the period, or the named stretch of an earlier image, and fails exactly when there is no such stretch |
| GlzStreams.TokenRoundTrip | crates/oxide-spice-codecs/src/glz.rs:192-229 | A printed token is one step of the decoder, which then holds what the token shows |
| GlzStreams.TokenExact | crates/oxide-spice-codecs/src/glz.rs:192-229 | Every step of the decoder inside a stream read the print of a token and shows what it shows |
| GlzStreams.StreamRoundTrip | crates/oxide-spice-codecs/src/glz.rs:176-269 | A colour or alpha stream printed from any list of tokens decodes to what they show |
| GlzStreams.StreamExact | crates/oxide-spice-codecs/src/glz.rs:176-269 | A stream of a decode that completes is the print of a list of tokens, and holds what they show |
| GlzStreams.PayloadRoundTrip | crates/oxide-spice-codecs/src/glz.rs:140-173 | Both streams printed one behind the other decode to the colours with the alpha of the second stream |
| GlzStreams.CompleteIff | crates/oxide-spice-codecs/src/glz.rs:140-173 | A payload decodes to given pixels if and only if it is the print of tokens that show them, for every dictionary |
| GlzStreams.PayloadIff | crates/oxide-spice-codecs/src/glz.rs:69-173 | The same with the header: accepted with given fields and pixels if and only if it is their print and within the limits |
| GlzDecoder.Reader.constructor | crates/oxide-spice-codecs/src/glz.rs:435-438 | A reader stands at its offset |
| GlzDecoder.Reader.ReadByte | crates/oxide-spice-codecs/src/glz.rs:444-451 | One byte, or truncation with the offset unchanged |
| GlzDecoder.ReadDistance | crates/oxide-spice-codecs/src/glz.rs:298-337 | The little-endian distance loop computes the specified distance |
| GlzDecoder.ReadLength | crates/oxide-spice-codecs/src/glz.rs:287-297 | The 255-chained length loop computes the specified length |
| GlzDecoder.DecodeReference | crates/oxide-spice-codecs/src/glz.rs:279-337 | The reader decodes the specified reference and stands behind it; the bytes it read are the print of that reference in one of the layouts |
| GlzDecoder.PutPixel | crates/oxide-spice-codecs/src/glz.rs:399-407 | A pixel write, or an alpha-only write, in place |
| GlzDecoder.CopyWithin | crates/oxide-spice-codecs/src/glz.rs:340-368 | The overlapping copy in place is the specified local copy |
| GlzDecoder.CopyFrom | crates/oxide-spice-codecs/src/glz.rs:369-397 | The copy from another image in place is the specified one |
| GlzDecoder.CopyReference | crates/oxide-spice-codecs/src/glz.rs:340-397 | A reference is resolved, checked and copied as specified, with the specified error otherwise |
| GlzDecoder.CopyLiterals | crates/oxide-spice-codecs/src/glz.rs:195-214 | Literal pixels are read and written as specified |
| GlzDecoder.DecodeControl | crates/oxide-spice-codecs/src/glz.rs:192-229 | One control byte does one specified step and produces at least one pixel |
| GlzDecoder.DecodeStream | crates/oxide-spice-codecs/src/glz.rs:176-269 | The loop over a colour or alpha stream computes the specified stream |
| GlzDecoder.DecodeGlz | crates/oxide-spice-codecs/src/glz.rs:69-173 | The whole decoder is the specified function of its input, for every input and dictionary; behind an accepted header it gives pixels exactly when the rest is the print of tokens that show them |
| GlzWindow.BytesWithout | crates/oxide-spice-client/src/display.rs:644-648 | Removing an image takes exactly its size off the sum of stored sizes |
| GlzWindow.ClearOnce | crates/oxide-spice-client/src/display.rs:589-606 | Clearing for one migration activation happens once, whatever channel comes first |
| GlzWindow.InsertReflects | crates/oxide-spice-client/src/display.rs:612-655 | After every insert the window is the closed form of what was inserted: contiguous prefix, its newest head, and the images from that head on; the head never moves back |
| GlzWindow.ReflectsUnique | crates/oxide-spice-client/src/display.rs:612-655 | The closed form determines images, oldest id, contiguous id and retained bytes |
| GlzWindow.InsertAllReflects | crates/oxide-spice-client/src/display.rs:612-655 | Any successful order of distinct images leads to the closed form of their set |
| GlzWindow.Confluence | crates/oxide-spice-client/src/display.rs:612-655 | Any two successful insertion orders of the same distinct images give the same window |
| GlzWindow.SharedWindow.constructor | crates/oxide-spice-client/src/display.rs:572-585 | An empty window |
| GlzWindow.SharedWindow.Resolve | crates/oxide-spice-client/src/display.rs:608-610 | For every log of inserts the window reflects: an image is found if and only if it was inserted and is not below the oldest id, and it is the image inserted |
| GlzWindow.SharedWindow.Insert | crates/oxide-spice-client/src/display.rs:612-655 | A known id changes nothing; otherwise the window holds the images it held and the new one, less those below the oldest id, moves as specified, and is over the limit exactly above 16 MiB; only a success is announced |
| GlzWindow.SharedWindow.AdvancePrefix | crates/oxide-spice-client/src/display.rs:629-636 | The advancing loop computes the specified contiguous prefix and head |
| GlzWindow.SharedWindow.EvictOld | crates/oxide-spice-client/src/display.rs:637-648 | The eviction loop removes exactly the images below the oldest id and keeps the byte count |
| GlzWindow.SharedWindow.ClearForMigration | crates/oxide-spice-client/src/display.rs:589-606 | The first report of an activation empties every field and announces it; later ones change nothing |
| GlzSession.SequentialSeesTruth | crates/oxide-spice-codecs/src/glz.rs:369-395 | Decoding in id order is decoding against all the results of that same decoding |
| GlzSession.MoveKeepsShape | crates/oxide-spice-client/src/display.rs:1217-1246 | Every step of a channel leaves it at a meaningful point of its work |
| GlzSession.HonestStep | crates/oxide-spice-client/src/display.rs:608-610 | A step against a window of sequential images is the step against the truth, or finds an image missing |
| GlzSession.InsertKeepsHonest | crates/oxide-spice-client/src/display.rs:612-655 | Inserting and evicting leave sequential images only |
| GlzSession.MoveKeepsHonest | crates/oxide-spice-client/src/display.rs:1217-1246 | Decode, wait, retry or insert by any channel keeps every stored or finished image equal to the sequential one |
| GlzSession.EveryInterleavingHonest | crates/oxide-spice-client/src/display.rs:608-687 | Over every interleaving of any number of channels, where each id has one payload with an accepted header and whatever its references are, each image stored or about to be stored is the sequential one |
| GlzWatch.MoveKeepsWatchful | crates/oxide-spice-client/src/display.rs:657-687 | In any session, disciplined or not, every step keeps that a blocked channel’s reference is neither present nor evicted unless news is on the way or the session has failed |
| GlzWatch.RestIsExplained | crates/oxide-spice-client/src/display.rs:657-687 | However a session goes, a channel that still waits when nobody can move waits for an image not yet sent, or in a session that failed elsewhere; an evicted reference always ends its channel |
| GlzLiveness.HeadsBelow | crates/oxide-spice-client/src/display.rs:629-636 | With heads that do not decrease, the head of the contiguous prefix is at or below that of any image not yet inserted |
| GlzLiveness.NeededIsKept | crates/oxide-spice-client/src/display.rs:629-648 | Eviction never removes an image that an image not yet inserted may reference, whether or not other images decode |
| GlzLiveness.WaitIsAnswered | crates/oxide-spice-client/src/display.rs:657-687 | A waiting channel never finds its reference evicted, whether or not other images decode |
| GlzLiveness.InsertSucceeds | crates/oxide-spice-client/src/display.rs:617-619 | An insert never meets its own id |
| GlzLiveness.MoveKeepsOrderly | crates/oxide-spice-client/src/display.rs:657-687 | All of this is kept by every step of every channel |
| GlzCompletion.MoveKeepsSlots | crates/oxide-spice-client/src/display.rs:1217-1246 | Free decode slots and slots held by decoding channels always add up to the number of slots |
| GlzCompletion.LowestCanMove | crates/oxide-spice-client/src/display.rs:1233-1242 | The channel that owes the next contiguous image can move, or one that holds a slot can |
| GlzCompletion.SomebodyCanMove | crates/oxide-spice-client/src/display.rs:1233-1242 | Deadlock freedom: while work is left and nothing failed, some channel can step, because a waiter gives up its slot and subscribes before it checks |
| GlzCompletion.MoveProgresses | crates/oxide-spice-client/src/display.rs:657-687 | Every step lowers one well-founded measure, so wake-ups cannot go on for ever |
| GlzCompletion.BeginOrderly | crates/oxide-spice-client/src/display.rs:1217-1246 | A session of disciplined images shared out over channels starts in order |
| GlzCompletion.IdleMeansDone | crates/oxide-spice-client/src/display.rs:1217-1246 | When all channels are idle, every image decodes and exactly the sequential images have been inserted |
| GlzCompletion.BrokenHasReason | crates/oxide-spice-client/src/display.rs:612-655 | A session ends early only with the byte budget exceeded or at an image that the sequential decoder rejects too |
| GlzCompletion.EveryScheduleCompletes | crates/oxide-spice-client/src/display.rs:657-687 | Every schedule ends: with the byte budget exceeded, or at an image the sequential decoder rejects too, or with all channels idle, the sequential images inserted and the window they determine |
| GlzCompletion.ScheduleIndependent | crates/oxide-spice-client/src/display.rs:608-687 | Any two schedules, slot counts and divisions of the images over channels that end without failure end with the same images and the same window |
| GlzBudget.MoveKeepsDelivering | crates/oxide-spice-client/src/display.rs:612-655 | Every step keeps, besides the order of the session, that each channel delivers its ids in order and that each inserted image was decoded with only inserted ones at hand |
| GlzBudget.DeliveredIsCut | crates/oxide-spice-client/src/display.rs:612-655 | In every reachable state the inserted ids are a cut, in order on every channel and closed under references, and the window is the one that cut determines |
| GlzBudget.ExceededHoldsMore | crates/oxide-spice-client/src/display.rs:650-652 | A schedule that ends for want of budget ends with more bytes in the window than the budget allows |
| GlzBudget.OverfullExceeds | crates/oxide-spice-client/src/display.rs:650-652 | Every cut whose window is beyond the budget has an interleaving that exceeds the budget |
| GlzBudget.WithinBudgetIffRoomy | crates/oxide-spice-client/src/display.rs:650-652 | No interleaving exceeds the budget if and only if the window of every cut is within it |
| GlzBudget.EveryScheduleDelivers | crates/oxide-spice-client/src/display.rs:657-687 | Where every image decodes and every cut is within the budget, every schedule ends with all channels idle and all sequential images inserted |
| GlzMigration.SourceHonest | crates/oxide-spice-client/src/display.rs:589-606 | Until a channel arrives at the new server, every stored image is the old server’s sequential one |
| GlzMigration.HarmlessStep | crates/oxide-spice-client/src/display.rs:657-687 | An old channel whose images cannot be completed even from the new server’s, or come out as the very images it has, stores nothing else |
| GlzMigration.PlayedClean | crates/oxide-spice-client/src/display.rs:589-606 | In every run after a clear that left only such channels, arrivals in any order included, every stored image is the new server’s sequential one |
| GlzMigration.StaleInsertStored | crates/oxide-spice-client/src/display.rs:612-655 | An old image inserted after the clear is always stored, under an id where the new server has another image |
| GlzMigration.LooseUnsafe | crates/oxide-spice-client/src/display.rs:2093-2099 | If at the clear some channel has an old image in hand that needs no other, some run stores an old image among the new server’s, whoever holds the decode slots |
| GlzMigration.SafeIffNoneLoose | crates/oxide-spice-client/src/display.rs:2093-2099 | Every run after the clear stores only the new server’s images if and only if no channel has such an image in hand at the clear, where each other old channel is one that stores nothing |
| GlzMigration.SafeIffSettled | crates/oxide-spice-client/src/display.rs:2093-2099 | For old sessions whose headers ask to keep nothing before their own image: if and only if no channel had an old image left at the clear |
| GlzWitness.DisciplinedSessionExists | crates/oxide-spice-codecs/src/glz.rs:69-173 | The assumptions on the server can be met: two images that decode, byte by byte, the second referring to the first, shared by two channels |
| GlzWitness.SessionDelivers | crates/oxide-spice-client/src/display.rs:612-687 | In that session every cut is within the budget, so every schedule over any channels delivers both images |
| GlzWitness.OldImageAmongNew | crates/oxide-spice-client/src/display.rs:2093-2099 | Two servers of one image each, byte by byte, and two channels: a run after the migration stores the old image under the new one’s id |
| LzFormat.CopyIsPeriodic | crates/oxide-spice-codecs/src/lz.rs:414-423 | A match repeats the output at its distance, also where it overlaps itself |
| LzFormat.TokenRoundTrip | crates/oxide-spice-codecs/src/lz.rs:346-427 | Every valid token parses back from its bytes, whatever follows, with 255-chained lengths and the near and far distance forms |
| LzFormat.StreamRoundTrip | crates/oxide-spice-codecs/src/lz.rs:346-427 | The bytes of any valid token list decompress to its expansion and exactly those bytes are consumed |
| LzFormat.TokenExact | crates/oxide-spice-codecs/src/lz.rs:346-427 | Every parsed token was printed by exactly the bytes consumed |
| LzFormat.StreamExact | crates/oxide-spice-codecs/src/lz.rs:346-427 | Whatever the decoder accepts is the printed form of some valid token list, with that expansion |
| LzFormat.AcceptedIffPrinted | crates/oxide-spice-codecs/src/lz.rs:346-427 | An input is accepted if and only if it begins with the printed form of a valid token list |
| LzDecoder.Reader.constructor | crates/oxide-spice-codecs/src/lz.rs:602-605 | A reader stands at its offset |
| LzDecoder.Reader.ReadByte | crates/oxide-spice-codecs/src/lz.rs:611-618 | One byte, or truncation |
| LzDecoder.Reader.ReadBytes | crates/oxide-spice-codecs/src/lz.rs:628-639 | A slice of the asked length, or truncation |
| LzDecoder.ReadLength | crates/oxide-spice-codecs/src/lz.rs:376-391 | The chained-length loop computes the specified length |
| LzDecoder.ReadDistance | crates/oxide-spice-codecs/src/lz.rs:392-406 | The distance bytes give the specified distance |
| LzDecoder.ReadMatch | crates/oxide-spice-codecs/src/lz.rs:374-406 | Length and distance of a match as specified |
| LzDecoder.CopyUnits | crates/oxide-spice-codecs/src/lz.rs:414-423 | Copying a match byte by byte, overlap included, is copying its units |
| LzDecoder.ReadLiteral | crates/oxide-spice-codecs/src/lz.rs:363-372 | A literal run appends exactly its units |
| LzDecoder.DecompressUnits | crates/oxide-spice-codecs/src/lz.rs:346-427 | The loop computes the specified decompression of every input, and leaves the reader behind it |
| Surface.RectBounds | crates/oxide-spice-client/src/display.rs:2942-2964 | A rectangle is converted exactly when it lies inside the surface, and then covers the same pixels |
| Surface.SnapshotUnique | crates/oxide-spice-client/src/display.rs:797-855 | Copying from a snapshot of the old surface determines the new surface |
| Surface.NextRowAbove | crates/oxide-spice-client/src/display.rs:845-848 | Moving downwards on the surface, copying from the last row to the first never reads a row already written |
| Surface.NextRowBelow | crates/oxide-spice-client/src/display.rs:849-853 | Moving upwards or sideways, copying from the first row to the last never does |
| Surface.AllRowsAreSnapshot | crates/oxide-spice-client/src/display.rs:845-853 | Row copies in the chosen order are the snapshot copy, and leave all other pixels alone |
| Surface.CopyWithin | crates/oxide-spice-client/src/display.rs:858-870 | An overlapping move within one vector behaves as if through a copy |
| Surface.SurfaceData.constructor | crates/oxide-spice-client/src/display.rs:736-743 | A blank surface of the given size |
| Surface.SurfaceData.CopySurfaceRow | crates/oxide-spice-client/src/display.rs:858-870 | One row move in the flat pixel vector changes exactly that stretch of that row |
| Surface.SurfaceData.CopyUpward | crates/oxide-spice-client/src/display.rs:845-848 | The loop from the last row computes the specified rows |
| Surface.SurfaceData.CopyDownward | crates/oxide-spice-client/src/display.rs:849-853 | The loop from the first row computes the specified rows |
| Surface.SurfaceData.Put | crates/oxide-spice-client/src/display.rs:838-839 | One pixel write changes exactly that pixel |
| Surface.SurfaceData.Snapshot | crates/oxide-spice-client/src/display.rs:825-832 | The temporary holds the source region as it was |
| Surface.SurfaceData.CopyClipped | crates/oxide-spice-client/src/display.rs:818-844 | Under a clip, exactly the pixels inside it take the old source pixels |
| Surface.SurfaceData.CopyBits | crates/oxide-spice-client/src/display.rs:797-855 | For every rectangle, source corner and clip: a target pixel inside the clip takes the pixel that was at its distance from the source corner, every other pixel keeps its value, and a target or source outside the surface changes nothing |
| Surface.Create | crates/oxide-spice-client/src/display.rs:726-744 | A new surface, or a refusal exactly when it has no pixels or does not fit the shared byte budget, of which then nothing is taken |
| Surface.ClippedAgrees | crates/oxide-spice-client/src/display.rs:797-855 | The path without a clip agrees with the clipped path under a clip that is always true |
| AgentCredits.AgentCreditReturns.constructor | crates/oxide-spice-client/src/agent.rs:863-872 | A new counter holds nothing |
| AgentCredits.AgentCreditReturns.Reset | crates/oxide-spice-client/src/agent.rs:875-879 | A new generation discards what the prior one returned |
| AgentCredits.AgentCreditReturns.ReturnNow | crates/oxide-spice-client/src/agent.rs:882-898 | A credit returns only while its generation is current |
| AgentCredits.AgentCreditReturns.Take | crates/oxide-spice-client/src/agent.rs:901-908 | Takes everything returned for the current generation |
| AgentCredits.NextConserves | crates/oxide-spice-client/src/agent.rs:1629-1647 | Each step keeps tokens, pending returns and live credits of the generation at exactly ten while connected |
| AgentCredits.RunConserves | crates/oxide-spice-client/src/agent.rs:875-920 | Conservation over every run of drops, reconnects and announcements; the announced tokens never exceed the window |
| AgentWire.StartBalanced | crates/oxide-spice-client/src/agent.rs:1076-1117 | The accounts balance before the first connection, for every kind of server |
| AgentWire.ActBalances | crates/oxide-spice-client/src/agent.rs:1201-1220 | With grants as they are on the wire, a start or a count and no generation: each action of server, client or host keeps what a server that counts starts holds or will take equal to what the client will accept |
| AgentWire.EveryRunAccepted | crates/oxide-spice-client/src/agent.rs:1629-1647 | A server that counts the starts it has heard, and spends only what it was granted since the latest, is never rejected, over every run and whatever older grants are still on the wire |
| AgentWire.TrustingActs | crates/oxide-spice-client/src/agent.rs:1629-1647 | A server that takes whatever it reads, adding all counts or beginning anew with a start, stays balanced through every action, if it reconnects only when no older grant is on its way or can come about |
| AgentWire.PatientRunAccepted | crates/oxide-spice-client/src/agent.rs:1629-1647 | Over every run in which all reconnects are of that kind, a server of either sort is never rejected |
| AgentWire.ExcessRejected | crates/oxide-spice-client/src/agent.rs:1821-1857 | An adding server that holds or will read more than the client will accept has a run within the connection that ends in a rejection |
| AgentWire.OwingRejected | crates/oxide-spice-client/src/agent.rs:1821-1857 | A server of either sort that spent part of a window which is still to come in whole has such a run |
| AgentWire.UnquietRejected | crates/oxide-spice-client/src/agent.rs:1821-1857 | A reconnect with an older grant on its way, an unread connect, unread data or an unreturned credit gives a server of either sort such a run |
| AgentWire.ReconnectSafeIffQuiet | crates/oxide-spice-client/src/agent.rs:1821-1857 | For a server that takes whatever it reads, adding or beginning anew, a reconnect cannot lead to a rejection if and only if nothing of an earlier connection is on its way or can come about |
| AgentWire.StaleStartRejected | crates/oxide-spice-client/src/agent.rs:1843-1857 | A run that is rejected: connect, start, disconnect, and connect again before the start was read |
| AgentOutbox.OpenedOrderly | crates/oxide-spice-client/src/agent.rs:1076-1117 | A new outbox is in order |
| AgentOutbox.PrepareOrderly | crates/oxide-spice-client/src/agent.rs:1222-1330 | Preparing keeps the outbox in order and fails exactly when the slot is free, nothing else is pending and the layout or offer that is ready cannot be encoded or is too long |
| AgentOutbox.AcceptOrderly | crates/oxide-spice-client/src/agent.rs:1332-1579 | Under its guard a command keeps the outbox in order and fails exactly when its payload cannot be encoded or is too long |
| AgentOutbox.SendOrderly | crates/oxide-spice-client/src/agent.rs:1173-1199 | Under its guard sending one fragment keeps the outbox in order and cannot fail |
| AgentOutbox.AcceptPlaces | crates/oxide-spice-client/src/agent.rs:1898-1909 | An accepted command puts exactly its own message into the slot and on the record of messages, or changes neither |
| AgentOutbox.StepStaysOrderly | crates/oxide-spice-client/src/session.rs:2221-2417 | Under the loop’s guards a step fails if and only if a payload cannot be sent; it never finds an overlapping message, a missing message or a token underflow, tokens and fragments sent make up the tokens granted, and every completion asked for is answered or stored |
| AgentOutbox.RunStaysOrderly | crates/oxide-spice-client/src/session.rs:2221-2417 | The same over every run, and a completion asked for once is answered exactly once unless it is still stored |
| AgentOutbox.DeliveredMeansSent | crates/oxide-spice-client/src/agent.rs:1173-1199 | A completion reports success exactly when the last fragment of its message goes out |
| AgentTransfers.SomeCandidateIsFree | crates/oxide-spice-client/src/agent.rs:1922-1931 | Among more consecutive identifiers than are taken, across wrap-around, one is free |
| AgentTransfers.AllocateTransferId | crates/oxide-spice-client/src/agent.rs:1922-1931 | The allocation loop always returns a free nonzero identifier while at most eight transfers are active |
| AgentTransfers.StepKeepsTable | crates/oxide-spice-client/src/agent.rs:1464-1576 | Every step keeps the phases: bytes accepted are none before the guest agrees, below the size while sending unless the file is empty, and all of it once completion is awaited; at most eight transfers of the current generation, each started transfer active or ended once |
| AgentTransfers.StartFindsId | crates/oxide-spice-client/src/agent.rs:1464-1505 | A start within the limit always finds a fresh nonzero identifier |
| AgentTransfers.StartDoes | crates/oxide-spice-client/src/agent.rs:1464-1505 | A start adds one transfer that waits with no bytes accepted, under an identifier that was free, or is refused for the first of three reasons; every other transfer is left as it was |
| AgentTransfers.DataDoes | crates/oxide-spice-client/src/agent.rs:1506-1555 | Data is taken exactly while its transfer sends and within chunk limit and size; it is added to what was accepted, the last of it makes the transfer await its end, and every other transfer is left as it was |
| AgentTransfers.CancelDoes | crates/oxide-spice-client/src/agent.rs:1556-1576 | A cancel removes that transfer and no other |
| AgentTransfers.ReportDoes | crates/oxide-spice-client/src/agent.rs:1752-1793 | An accepted report of an acceptance makes its transfer send, any other ends it, and every other transfer is left as it was |
| AgentTransfers.SuccessMeansComplete | crates/oxide-spice-client/src/agent.rs:1771-1778 | A success report is accepted exactly for a transfer awaiting completion, all of whose bytes have then been accepted |
| AgentTransfers.RunKeepsTable | crates/oxide-spice-client/src/agent.rs:1752-1793 | The phase invariant over every run of commands, reports and resets |
| AgentSoundness.SuccessCarried | crates/oxide-spice-client/src/agent.rs:1771-1778 | At an accepted success, the messages put into the slot since the start message carry exactly the bytes of the file; they have all been sent if and only if none of them is still in the slot |
| AgentSoundness.SuccessCanOvertake | crates/oxide-spice-client/src/agent.rs:1771-1778 | Whenever the last bytes of a file have just been accepted, a success report is accepted before they are sent |
| AgentSoundness.ReportFailsIff | crates/oxide-spice-client/src/agent.rs:1752-1793 | A status report fails exactly for a second acceptance or a success before the last byte was accepted |
| AgentSoundness.DispatchedSound | crates/oxide-spice-client/src/agent.rs:1649-1819 | Each message keeps the invariant and fails exactly when it is malformed, a full event queue refuses it or its status report is out of place |
| AgentSoundness.AcceptedTable | crates/oxide-spice-client/src/agent.rs:1464-1576 | No command breaks the transfer table or runs out of identifiers; its message is unfit exactly for a current clipboard or volume command with a bad payload |
| AgentSoundness.AcceptedCarried | crates/oxide-spice-client/src/agent.rs:1464-1576 | Every command keeps the bytes carried by placed messages equal to the bytes accepted, transfer by transfer |
| AgentSoundness.CommandedSound | crates/oxide-spice-client/src/agent.rs:1332-1579 | A command keeps the invariant and fails if and only if it is of the current generation with a payload that cannot be sent |
| AgentSoundness.FragmentedSound | crates/oxide-spice-client/src/agent.rs:1629-1647 | A fragment fails exactly without a token, when it does not decode, or when one of its messages fails; all invariants are kept unless it does not decode, which costs its token the credit |
| AgentSoundness.ReactedAllSound | crates/oxide-spice-client/src/session.rs:2243-2391 | The messages of one envelope in order, with nothing prepared between them, keep the invariant up to the first that fails, and one fails exactly for the reasons named |
| AgentSoundness.TurnFailsIff | crates/oxide-spice-client/src/session.rs:2221-2417 | A turn, of one thing or of all messages of an envelope, fails if and only if the prepared payload, a fragment or a command is one of those named, so never by an overlapping or missing message, a token underflow, an exceeded window or exhausted identifiers |
| AgentSoundness.LoopSound | crates/oxide-spice-client/src/session.rs:2221-2417 | Over every run: outbox, table, credit account and carried bytes stay in order, every published success is of a file whose bytes were all put into messages, and no fault of the runtime itself ends the run |
| AgentSoundness.LoopFailsAt | crates/oxide-spice-client/src/session.rs:2221-2417 | The turn that ended a run is one that fails for those reasons in the world the turns before it left |
| AgentWitness.CommandEndsLoop | crates/oxide-spice-client/src/session.rs:2400-2406 | From the loop’s own start: a current command whose payload does not encode ends the loop |
| AgentWitness.DraftEndsLoop | crates/oxide-spice-client/src/session.rs:2221-2223 | From the loop’s own start: so does a layout or an offer that does not encode, before anything else in its turn |
| AgentWitness.SuccessOvertakes | crates/oxide-spice-client/src/agent.rs:1771-1778 | From the loop’s own start: a file of four bytes is reported and accepted as received while all four are still in the slot |
| AgentRuntime.StaleIsRefused | crates/oxide-spice-client/src/agent.rs:1359-1374 | A command of another generation changes nothing, puts nothing into the slot, cannot fail, and its completion is answered at once |
| AgentRuntime.AgentRuntime.constructor | crates/oxide-spice-client/src/agent.rs:1076-1128 | The runtime as it enters the main loop, in order |
| AgentRuntime.AgentRuntime.AbandonStream | crates/oxide-spice-client/src/agent.rs:1826-1836 | What a reset drops: transfers, outbound message, stored completion, readiness |
| AgentRuntime.AgentRuntime.Restart | crates/oxide-spice-client/src/agent.rs:1821-1843 | The fields of a new generation one by one: the generation, ten inbound tokens, the credit counter, and an empty stream, slot and transfer map |
| AgentRuntime.AgentRuntime.BeginGeneration | crates/oxide-spice-client/src/agent.rs:1821-1857 | A new generation moves outbox, table and account as specified |
| AgentRuntime.AgentRuntime.Disconnect | crates/oxide-spice-client/src/agent.rs:1859-1882 | A disconnect moves outbox, table and account as specified |
| AgentRuntime.AgentRuntime.ReinitializeAfterMigration | crates/oxide-spice-client/src/agent.rs:1131-1148 | A migration target’s report replaces tokens and stream state |
| AgentRuntime.AgentRuntime.HandleToken | crates/oxide-spice-client/src/agent.rs:1611-1620 | Granted tokens are added |
| AgentRuntime.AgentRuntime.Apply | crates/oxide-spice-client/src/agent.rs:1649-1819 | The fields after one message, each as an expression of the fields before |
| AgentRuntime.AgentRuntime.HandleStatus | crates/oxide-spice-client/src/agent.rs:1752-1793 | Of a transfer of the current generation: an acceptance moves it from waiting to sending and changes nothing else in it, a success after its last byte, a guest’s cancel or a failure removes it, and an acceptance or success out of place is the error named, exactly then. No other transfer changes |
| AgentRuntime.AgentRuntime.DispatchMessage | crates/oxide-spice-client/src/agent.rs:1649-1819 | One message has its specified effect |
| AgentRuntime.AgentRuntime.DispatchAll | crates/oxide-spice-client/src/agent.rs:1637-1641 | The messages of a fragment have their effects in order, up to the first failure |
| AgentRuntime.AgentRuntime.HandleFragment | crates/oxide-spice-client/src/agent.rs:1629-1647 | A fragment without a token is refused; otherwise it spends one, a fragment that does not decode gets no credit, and that of any other is dropped at the end unless some event keeps it; no other field of the account moves |
| AgentRuntime.AgentRuntime.DispatchWithCredit | crates/oxide-spice-client/src/agent.rs:1637-1647 | With the credit alive while the messages are dispatched, outbox, table and account move as specified, failures included |
| AgentRuntime.AgentRuntime.DropCredit | crates/oxide-spice-client/src/agent.rs:916-920 | A dropped credit moves the account as specified |
| AgentRuntime.AgentRuntime.SendReturnedCredits | crates/oxide-spice-client/src/agent.rs:1201-1220 | Announces exactly the pending returns; the window error cannot happen |
| AgentRuntime.AgentRuntime.SendOne | crates/oxide-spice-client/src/agent.rs:1173-1199 | Sends one fragment as specified; under its guard it cannot fail |
| AgentRuntime.AgentRuntime.Queue | crates/oxide-spice-client/src/agent.rs:1898-1909 | Queues if and only if the slot is free, the payload is encoded and short enough; otherwise the slot is as it was and the specified error names the reason |
| AgentRuntime.AgentRuntime.PrepareInternal | crates/oxide-spice-client/src/agent.rs:1222-1330 | Queues announcement, clipboard limit, or the layout or offer that is ready, in that order, with the specified error for a payload that cannot be sent |
| AgentRuntime.AgentRuntime.StartTransfer | crates/oxide-spice-client/src/agent.rs:1464-1499 | Starts a transfer, or gives the specified refusal |
| AgentRuntime.AgentRuntime.AddFileData | crates/oxide-spice-client/src/agent.rs:1506-1555 | Accepts data, or gives the specified refusal |
| AgentRuntime.AgentRuntime.Execute | crates/oxide-spice-client/src/agent.rs:1375-1578 | The fields after a current command are those of its specified effect; it fails exactly for a payload that cannot be sent |
| AgentRuntime.AgentRuntime.AcceptCommand | crates/oxide-spice-client/src/agent.rs:1332-1579 | A command has its specified effect on outbox, table and reply, the failing payload included |
| AgentRuntime.React | crates/oxide-spice-client/src/session.rs:2223-2417 | Each branch of the loop, under its guard, moves the whole runtime as specified |
| AgentRuntime.ReactAll | crates/oxide-spice-client/src/session.rs:2243-2391 | The messages of one envelope move the whole runtime as specified, up to the first that fails |
| AgentRuntime.TakeTurn | crates/oxide-spice-client/src/session.rs:2221-2417 | One turn, preparation and all messages of an envelope included, moves the runtime as specified and fails exactly when the stated condition holds, never by a fault of its own |
| AgentRuntime.MainLoop | crates/oxide-spice-client/src/session.rs:2221-2417 | Over every list of turns the loop does what is specified, ends early exactly at the first turn that meets the failing condition, and publishes success only for files whose bytes were all put into messages |
| Progress.Slots | crates/oxide-spice-client/src/channel.rs:52-67 | One slot for each channel with its serial so far, or the error if and only if an identity is listed twice |
| Progress.ProgressRegistry.constructor | crates/oxide-spice-client/src/channel.rs:52-67 | A registry over the slots as given |
| Progress.ProgressRegistry.Complete | crates/oxide-spice-client/src/channel.rs:70-84 | Accepts a serial if and only if it is greater, names the error otherwise, and never lowers an entry |
| Progress.AwaitOne | crates/oxide-spice-client/src/channel.rs:106-121 | A wait ends only when its target is reached, while the others go on; it ends cancelled exactly when a cancel was among the sights it used |
| Progress.WaitFor | crates/oxide-spice-client/src/channel.rs:87-124 | On success all targets are reached at once, although checked one after another under every interleaving of completions, and none is self-referential; cancelled if and only if a cancel was seen; completions met on the way are all noted |
| Progress.SelfCheckSufficesWithoutGap | crates/oxide-spice-client/src/channel.rs:99-101 | The self-reference check leaves only waits that can end if and only if the requester’s serial follows its completed one without a gap |
| Progress.SkippedSerialPassesCheck | crates/oxide-spice-client/src/channel.rs:99-101 | A concrete self-wait that passes the check and cannot end |
| Migration.StepsKeepOrder | crates/oxide-spice-client/src/session.rs:179-226 | Preparing and invalidating leave only the latest preparation possibly current |
| Migration.RevokedForGood | crates/oxide-spice-client/src/session.rs:179-226 | Over every run the generation only grows, and one once cancelled, failed or superseded is never current again |
| Migration.MigrationManager.constructor | crates/oxide-spice-client/src/session.rs:158-170 | No generation has been issued |
| Migration.MigrationManager.Begin | crates/oxide-spice-client/src/session.rs:185-190 | Takes a new generation and supersedes those before |
| Migration.MigrationManager.Invalidate | crates/oxide-spice-client/src/session.rs:206-208 | A failure or cancel invalidates all that was issued |
| Channel.Channel.constructor | crates/oxide-spice-client/src/channel.rs:153-175 | A linked channel |
| Channel.Channel.Move | crates/oxide-spice-client/src/session.rs:179-226 | The manager’s steps one by one: taking a generation, sending this channel’s replacement later, and revoking at any time; each has its stated effect on generation, queue and history and keeps the queue in generation order |
| Channel.Channel.Prepare | crates/oxide-spice-client/src/session.rs:179-226 | A whole preparation: a failure after sending leaves the replacement in the queue under a revoked generation |
| Channel.Channel.Install | crates/oxide-spice-client/src/channel.rs:590-602 | The replacement’s serial, base and kind become the channel’s, the activation count grows by one and the history records the generation |
| Channel.HistoryActivated | crates/oxide-spice-client/src/channel.rs:561-603 | An activation of a current generation is later than no cancel that it was issued before |
| Channel.HistoryInvalidated | crates/oxide-spice-client/src/session.rs:206-208 | A cancel or a new preparation keeps the history in that order |
| Channel.Channel.NextCurrent | crates/oxide-spice-client/src/channel.rs:574-594 | Pending and queued replacements are tried in order and only one whose generation is current, issued and not invalidated is taken |
| Channel.Channel.ActivateReplacement | crates/oxide-spice-client/src/channel.rs:561-603 | A swap takes exactly one such replacement, sets the base and raises the activation count by one; a failure swaps nothing |
| Channel.Channel.TakeReplacement | crates/oxide-spice-client/src/channel.rs:394-413 | A replacement of another generation is dropped on arrival |
| Channel.Channel.ForgetPath | crates/oxide-spice-client/src/channel.rs:397-402 | A closed path leaves nothing that could be activated |
| Channel.Channel.MeetReplacement | crates/oxide-spice-client/src/channel.rs:394-413 | A replacement met while a header is awaited takes over if it is to do so at once, and then exactly one swap happens with the effective serial as the base; otherwise it waits |
| Channel.Channel.ReadHeader | crates/oxide-spice-client/src/channel.rs:389-427 | Until a header arrives, immediate replacements take over and the effective serial is carried on |
| Channel.Channel.ReadMessage | crates/oxide-spice-client/src/channel.rs:342-387 | Each message read has a greater effective serial than all before it, across any number of swaps, and the serial its header or the count gives |
| Channel.Channel.MigrateToReplacement | crates/oxide-spice-client/src/channel.rs:510-554 | A migrate message swaps exactly once, with the serial before any migration data as the base |
| Channel.Task.constructor | crates/oxide-spice-client/src/session.rs:1946-2019 | A task starts with the serial reached so far as its completed one |
| Channel.Task.BeginMigration | crates/oxide-spice-client/src/session.rs:2280-2315 | A preparation that succeeds notes the activation count; one that fails invalidates everything issued and forgets the baseline |
| Channel.Task.CancelMigration | crates/oxide-spice-client/src/session.rs:2316-2322 | A cancel invalidates every generation issued so far, on the record too, and forgets the baseline |
| Channel.Task.EndMigration | crates/oxide-spice-client/src/session.rs:2323-2336 | An end without a begin is the error; otherwise it swaps exactly when nothing was swapped since the begin, and does nothing else |
| Channel.Task.SwitchToHost | crates/oxide-spice-client/src/session.rs:2360-2370 | A switch whose preparation fails is the error; otherwise it swaps exactly once, with the effective serial as the base |
| Channel.Task.Publish | crates/oxide-spice-client/src/channel.rs:70-84 | A greater serial is published without error and noted |
| Channel.Task.Handle | crates/oxide-spice-client/src/session.rs:2243-2391 | Action by action: a cancel revokes all generations and forgets the baseline; a begin prepares, or revokes on failure; an end swaps exactly when nothing was swapped since the begin; a migrate or a host switch swaps once; a barrier waits. No action lowers the effective serial below the envelope’s, and the acknowledgement state follows |
| Channel.Task.HandleAll | crates/oxide-spice-client/src/session.rs:2243-2391 | The messages of an envelope in order keep its serial at or below the effective one and move the acknowledgement state as specified |
| Channel.Task.ServeEnvelope | crates/oxide-spice-client/src/session.rs:2231-2396 | One envelope publishes one serial greater than all before, and publishing cannot fail; its acknowledgement goes out on another transport than its window’s exactly in the stated case |
| Channel.Task.Run | crates/oxide-spice-client/src/session.rs:2221-2396 | Over every run of reads, migrations, cancels, source closes and host switches the published serials strictly increase, so the non-monotonic error is unreachable; and no activation after a cancel or a failed preparation is of a generation issued before it |
| Sasl.Chunks | crates/oxide-spice-client/src/channel.rs:457-460 | The chunks of a message are non-empty, at most 8192 bytes each, and make up the message |
| Sasl.ChunksAreFull | crates/oxide-spice-client/src/channel.rs:457-460 | All chunks but the last have 8192 bytes |
| Sasl.FrameIs | crates/oxide-spice-client/src/sasl.rs:213-221 | A frame is the length of the token in four octets, most significant first, and the token, of at most a mebibyte |
| Sasl.OpenWrapped | crates/oxide-spice-client/src/channel.rs:445-508 | What was wrapped chunk by chunk opens to the chunks in order, whatever follows on the stream |
| Sasl.SecureWriter.WriteMessage | crates/oxide-spice-client/src/channel.rs:445-470 | Writes exactly the frames of the chunks, or fails exactly when some token has a forbidden length, with the frames before it written and no others |
| Sasl.SecureReader.ReadToken | crates/oxide-spice-client/src/channel.rs:489-505 | A token moves from the stream to the buffer without changing the plaintext still to be read; each error has its exact condition on the next bytes of the stream |
| Sasl.SecureReader.CopyDecoded | crates/oxide-spice-client/src/channel.rs:477-488 | Buffered bytes are copied once and in order |
| Sasl.SecureReader.ReadExact | crates/oxide-spice-client/src/channel.rs:471-508 | Successive reads return consecutive slices of the plaintext whatever the token boundaries, and fail exactly when it is too short |
| Sasl.Exchange | crates/oxide-spice-client/src/channel.rs:430-508 | Any list of messages written through the layer is read back message by message |
| AckWindow.AcknowledgedCounts | crates/oxide-spice-client/src/channel.rs:890-906 | An acknowledgement goes out on every window-th counted envelope since the window was installed, and on no other |
| AckWindow.HandledAllOk | crates/oxide-spice-client/src/channel.rs:821-839 | Through any messages of an envelope the count stays that of the window installed, and the state is up to date with the transport unless the last message was a migration end that swapped |
| AckWindow.CrossesIff | crates/oxide-spice-client/src/session.rs:2322-2396 | An envelope’s acknowledgement goes out on another transport than its window was installed on if and only if it is due and the last message was a migration end that swapped, or there was no message and a swap had gone unnoticed |
| AckWindow.MigrationEndCrosses | crates/oxide-spice-client/src/session.rs:2322-2396 | An envelope of a single migration end, under a window of one, whose acknowledgement crosses |
| AckWindow.ControlState.constructor | crates/oxide-spice-client/src/channel.rs:771-778 | No window is installed |
| AckWindow.ControlState.SetAck | crates/oxide-spice-client/src/channel.rs:828-839 | A new window starts its count over |
| AckWindow.ControlState.Observe | crates/oxide-spice-client/src/channel.rs:821-826 | At each message, a window of another transport is forgotten; the same transport’s is kept |
| AckWindow.ControlState.Forget | crates/oxide-spice-client/src/channel.rs:872-879 | After a migration no window is installed and the new transport is noted |
| AckWindow.ControlState.Adopt | crates/oxide-spice-client/src/session.rs:2366-2373 | A host switch takes over the state negotiated on the new transport |
| AckWindow.ControlState.AcknowledgeEnvelope | crates/oxide-spice-client/src/channel.rs:890-906 | An acknowledgement goes out on every window-th counted envelope and on no other |

## Left out

- QUIC: cancellation polls; the contents of the random wait table, which is a parameter; rows are separate arrays rather than slices of one vector.
- LZ: the path from header to pixels (palettes, colour formats, row order): each unit is converted on its own there, and the decompressed units are what the proofs are about.
- GLZ: cancellation polls; pixels are four-byte units, so the check that a stored image has a whole number of pixels has no counterpart.
- GlzMigration.SafeIffNoneLoose: leaves open an old image that refers to other images and could be completed from the new server's under the same ids; whether it is depends on which of those are inserted and still kept when it is retried.
- GlzMigration.LooseUnsafe: one migration between two servers; the clear and its announcement are one step.
- GlzBudget.WithinBudgetIffRoomy: is about all interleavings of one division of the ids over channels, with the assumptions of EveryScheduleCompletes.
- GlzCompletion.EveryScheduleCompletes: assumes one payload with an accepted header for each id, heads that do not decrease with the id, references inside the window, each id on exactly one channel, and ids that increase on each channel; without the last four only the safety result is claimed.
- GlzSession.EveryInterleavingHonest: assumes one payload with an accepted header for each id; a rejected header ends its channel before anything is shared.
- Surface.SurfaceData.CopyClipped: the temporary copy is a sequence of rows rather than one vector.
- AgentWire.EveryRunAccepted: the server is any one that counts starts; what a particular server does is not part of the model.
- AgentRuntime.AgentRuntime.PrepareInternal: which layout or clipboard offer is ready, how long it is and whether it encodes are inputs; serials of offers are not modelled.
- AgentRuntime.AgentRuntime.AcceptCommand: a clipboard or volume command is reduced to the payload it queues, its length and whether it is valid and encodes; pending clipboard reads are not modelled.
- AgentRuntime.AgentRuntime.HandleFragment: stream decoding is an input: the messages a fragment completes, or that it does not decode.
- AgentRuntime.MainLoop: closing of the host's queues, cancellation and socket errors, which end the loop at once, are not turns.
- Channel.Channel.ReadMessage: one read is one step; a read dropped half-way by the surrounding selection is not modelled, nor is a change of header size across a swap.
- AckWindow.ControlState.AcknowledgeEnvelope: the count saturates at the 32-bit limit in the code; a window is at most that large, so the model counts without limit.
- Channel.Task.Run: migration is stated for one channel and the shared generation; that all channels migrate or none is not promised by the code.
- Sasl.SecureReader.ReadExact: the mechanism is a pair of functions of the token number; authentication itself is not modelled.
- 64-bit overflow of serials, generations, token counts and image ids, and the errors that guard against it.
- The link handshake, tickets, TLS, sockets and file descriptors.
- Cursor, inputs, playback, record, port, smartcard and USB channels, palette and image caches, JPEG, video, zlib and LZ4 adapters.
