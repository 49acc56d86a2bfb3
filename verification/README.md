# pyatv-rs protocol core, modelled and proved in Dafny

This project models the sans-io core of an Apple TV client library and proves what its
protocols promise: the OPACK serialisation codec, the Companion framing, message and correlation
layers above it, the HAP channel and its counter-nonce cipher, the legacy SRP pairing
arithmetic, the TLV8 pairing messages, the DAAP login and retry logic and the priority relayer.

`dafny verify dfyconfig.toml` checks everything.

## How it is built

Each stateful part of the program is a class whose methods work in place, with the loops and
early returns of the original, proved against a pure specification function; the laws are lemmas
about the specification functions. Whole-run properties are stated over step functions whose
runs are arbitrary sequences of steps.

| area | modules |
|---|---|
| OPACK | `OpackValue`, `OpackTables`, `OpackSer`, `OpackDe`, `OpackDecoder` (data and operations); `OpackWire`, `OpackTrees`, `OpackNumbering` (the format byte by byte); `OpackScalars`, `OpackLockstep`, `OpackBudget`, `OpackRoundTrip`, `OpackRelay`, `OpackShortest` (laws) |
| Companion | `CompanionFrame`, `CompanionCodec`, `CompanionMessage`, `CompanionEndToEnd`, `CompanionDelivery`; `CompanionWire`, `CompanionVerdicts` (frames byte by byte, messages key by key); `CompanionProtocol` (driver), `CompanionAnswers`, `CompanionRuns`, `CompanionCorrelation`, `CompanionOutstanding` (exchanges and whole runs) |
| Pairing | `Chacha`, `HapSession`, `CipherWire` (what is sealed under what), `SrpEncoding`, `SrpLegacy`, `Tlv8` |
| DAAP | `Daap` (one request against a script of answers and interference), `DaapTraces` (what its trace may be and what it returns), `DaapTasks` (many requests at once), `DaapLink` (each of the many is one against a script) |
| Relayer | `Relayer` |
| shared | `Bytes`, `Wrappers` |

Two ends that agree with each other may both be wrong. So the formats are also written out in plain
numbers (`OpackWire`, `OpackTrees`, `CompanionWire`, `CipherWire`, `SrpLegacy.Device`), apart from the
code that writes and the code that reads, and each side is proved against them on its own.

What comes from outside is a parameter: the AEAD (asked only that opening undoes sealing and that
a sealed text is 16 bytes longer; section 2.8 of RFC 8439 is not modelled), the hash and the group of SRP-6a (section 2.6 of
RFC 5054; the proofs follow section 3 of RFC 2945), the UTF-8 check, the table digest, the size of a value slot, what a device answers and
when. Pointer-sized integers are 64 bits wide, so `LengthOverflow` cannot arise. Floats are bit
patterns; `ValueEq` is IEEE equality on them. A timeout, a cancelled wait and a lost connection
are steps that may happen whenever something is being waited for.

## What the proofs turned up

- **Signed zeros and back-references.** `crates/pyatv-opack/src/objects.rs:121` says the digest
  agrees with equality for every non-NaN input. It hashes float bits, so for `+0.0` and `-0.0` it
  does not, and that is what makes the codec work: `OpackRoundTrip.RoundTripIffZerosSeparate`
  proves that everything that packs round-trips if and only if the digest tells the two zeros
  apart at both widths. Were they ever to share one, the second zero would be taken for a repeat
  of the first and a later index would dangle (`OpackRoundTrip.ZerosCollide`).
  For the same reason the bucketed table is not always the linear scan's: with such a digest it
  is if and only if both zeros of one width are not recorded
  (`OpackTables.RefinesScanUnlessBothZeros`; for any digest, `OpackTables.RefinesScanIff`).
- **The default budget refuses some of what `pack` writes.** A document decodes under a budget if
  and only if its exact cost fits (`OpackRoundTrip.RoundTrip`). `crates/pyatv-opack/src/de.rs:42-48`
  says the one shape refused by default is a dense array of single-byte values
  (`OpackRelay.DenseArrayLimit` says from which size). Documents that repeat a short string are
  refused as well, because a pointer costs a slot and takes one byte
  (`OpackRelay.RepeatedTextLimit`). So what was decoded by default may be refused by default once
  packed again (`OpackRelay.RelayIsRefused`); it is accepted if and only if the cost of the new
  document fits the default budget for its size (`OpackRelay.DecodedSurvives`).
- **Interning can lengthen a document.** A pointer is longer than the scalar it replaces exactly
  for the shortest scalars at higher indices (`OpackShortest.PointerIsLongerIff`); a document that
  numbers at most 33 scalars never grows (`OpackShortest.InterningCost`).
- **A cancelled wait or a failed send leaves its XID outstanding.** The comments at
  `crates/pyatv-proto-companion/src/protocol.rs:166-169` speak of forgetting it however the
  exchange finished. After an exchange its XID is outstanding if and only if its request was not
  sent (`CompanionOutstanding.ExchangeForgetsIffSent`), or its wait was cancelled
  (`CompanionOutstanding.EndingStep`). Over runs of up to 2^32 XIDs an exchange that is over is
  outstanding if and only if it was abandoned in one of these two ways, nothing was closed since,
  and no exchange has begun since when fifteen later ones had already been abandoned
  (`CompanionOutstanding.OutstandingAfterEndIff`). Later exchanges that are answered or time out
  displace nothing, however many they are (`CompanionOutstanding.DisplacedByAbandonedOnly`,
  `CompanionOutstanding.SentExchangesDisplaceNothing`). While
  it is outstanding a late reply to it is kept (`CompanionOutstanding.LateReplyKeptIff`).
- **Such a reply still reaches nobody within 2^32 XIDs**
  (`CompanionCorrelation.LateRepliesReachNobody`), and with one more it can
  (`CompanionCorrelation.WrapHandsStaleReply`). Whatever the number of XIDs, an answer arrived
  before its exchange began if and only if that exchange found it in the stash
  (`CompanionCorrelation.EarlyIffServed`, `CompanionCorrelation.BeginServesIff`).
- **Re-login compares the id in force at the refusal.** The comment at
  `crates/pyatv-proto-dmap/src/daap.rs:265-266` says it is the one the failing request was built
  with. That rule is kept, whatever the other tasks do until the refused one has its turn, if and
  only if the id its request carried is in force when the refusal comes
  (`DaapTasks.DocumentedRuleHoldsIff`), and where it is, logins collapse per carried id
  (`DaapTasks.CollapseByCarriedId`). Otherwise two requests built with one id can log in twice
  (`DaapTasks.LateRefusalLogsInAgain`). A device that reissues an id defeats the collapse
  (`DaapTasks.ReissueDefeatsCollapse`), and first logins are never collapsed: a task that found no
  session logs in when its turn comes, whatever id is in force by then
  (`DaapTasks.FirstLoginNeverYields`).
- **TLV8 joins scattered chunks.** `crates/pyatv-pairing/src/tlv8.rs:312` speaks of contiguous
  runs of one tag; the reader joins all chunks of a tag (`Tlv8.ReadsIffChunks`). The documented
  reading is what it returns if and only if no tag comes back after another
  (`Tlv8.ContiguousReadingIff`).
- **The relayer's search order** yields each protocol once, as `crates/pyatv-core/src/relayer.rs:151-154`
  says, if and only if no protocol but the holder of a takeover is listed twice in the priorities
  (`Relayer.SearchOrderDistinctIff`). What the queries list shows a registration twice once a
  duplicated one is registered (`Relayer.DuplicatesShow`).

## Model

| member | source | states |
|---|---|---|
| `OpackRoundTrip.RoundTrip` | crates/pyatv-opack/src/ser.rs:71-140 | Decoding a packed value followed by any bytes, under any budget, returns its canonical form and consumes exactly the packed bytes, or reports the budget exactly when it is below the document's exact cost |
| `OpackRoundTrip.RoundTripIffZerosSeparate` | crates/pyatv-opack/src/objects.rs:121-156 | With room in the budget, every packable document round-trips if and only if the digest separates the two zeros of both float widths |
| `OpackRoundTrip.ZerosCollide` | crates/pyatv-opack/src/objects.rs:111-119 | The concrete document that fails, with its error, when the zeros share a digest |
| `OpackRoundTrip.ZerosPack` | crates/pyatv-opack/src/ser.rs:71-90 | The encoder numbers the two zeros apart and points at index 1 for the repeat |
| `OpackRoundTrip.PackSucceedsIff` | crates/pyatv-opack/src/ser.rs:93-149 | Packing succeeds exactly when every scalar has an encoding and containers nest at most 32 deep |
| `OpackRoundTrip.RepackIsIdentical` | crates/pyatv-opack/src/ser.rs:71-140 | Packing what came back reproduces the document byte for byte |
| `OpackRoundTrip.CanonEncodesSame` | crates/pyatv-opack/src/ser.rs:71-140 | From any table and depth, a value and its canonical form encode to the same bytes and the same table |
| `OpackLockstep.ValueLands` | crates/pyatv-opack/src/de.rs:206-274 | From tables in lockstep, at any depth, decoding what the encoder wrote yields the canonical value, stops right behind it, costs exactly its wire cost and leaves the tables in lockstep |
| `OpackLockstep.GroupsLand` | crates/pyatv-opack/src/de.rs:317-355 | The same for the items of arrays and the entries of dicts, counted and open-ended |
| `OpackLockstep.FreshIsRecorded` | crates/pyatv-opack/src/objects.rs:111-119 | A scalar new to the encoder's table is new to the decoder's |
| `OpackLockstep.RepeatKeepsLockstep` | crates/pyatv-opack/src/ser.rs:80-83 | Past the reach of back-references, recording a repeat does no harm |
| `OpackLockstep.PointerIsValue` | crates/pyatv-opack/src/de.rs:306-315 | A back-reference resolves to the canonical form of the very value it replaced |
| `OpackLockstep.ContainerStaysInline` | crates/pyatv-opack/src/ser.rs:159-171 | No container is ever replaced by a pointer or numbered |
| `OpackLockstep.EncodeKeepsInterned` | crates/pyatv-opack/src/ser.rs:71-90 | The encoder's table never holds a duplicate, a container, a terminator or a pointer |
| `OpackLockstep.EncodingHead` | crates/pyatv-opack/src/tags.rs:12-122 | No encoding starts with the byte that terminates open-ended containers |
| `OpackWire.FormIsRead` | crates/pyatv-opack/src/de.rs:206-315 | Every form in the format table, those the encoder never writes included (timestamps, long pointers, oversized prefixes), is read wherever it stands and under any budget as what the table says, with its length, its charge and whether it takes an index, or fails with the first of: a text that is none, the budget, an index not taken yet |
| `OpackWire.ReadsIffForm` | crates/pyatv-opack/src/de.rs:206-274 | Short of containers the decoder accepts exactly those forms |
| `OpackWire.RefusedTags` | crates/pyatv-opack/src/de.rs:225-267 | Which tags are refused as unknown and which as integers too wide, and no others |
| `OpackWire.FormCutShort` | crates/pyatv-opack/src/de.rs:138-178 | Input that ends inside a form is reported at the point where the decoder began to read what is missing |
| `OpackWire.ScalarIsWritten` | crates/pyatv-opack/src/ser.rs:93-119 | The encoder gives each scalar the form the table names for it, with the same rule for indices as the decoder, or the named error |
| `OpackWire.PointerIsWritten` | crates/pyatv-opack/src/ser.rs:291-303 | Indices below 65,536 are written in the shortest pointer form, larger ones not at all |
| `OpackTrees.KeyThenValue` | crates/pyatv-opack/src/ser.rs:127-136 | Inside a dictionary each key stands directly before its value, in order |
| `OpackTrees.ContainerIsWritten` | crates/pyatv-opack/src/ser.rs:120-188 | A container is 208 or 224 plus its count up to 15, its values one level deeper, and a closing byte 3 from 15 on; at depth 32 it is refused |
| `OpackTrees.ContainerIsRead` | crates/pyatv-opack/src/de.rs:317-355 | A container whose announced elements, each paid for by a slot or two before it is read, are all there is read as those elements and ends behind them, or behind the first byte 3 if open |
| `OpackTrees.ContainerReadsIff` | crates/pyatv-opack/src/de.rs:317-355 | And it is read in no other case, nor below 32 levels |
| `OpackTrees.ContainerFails` | crates/pyatv-opack/src/de.rs:317-355 | Otherwise it fails as its first element that cannot be paid for or read |
| `OpackTrees.EmptyOpenArray` | crates/pyatv-opack/src/tags.rs:14-17 | The two-byte documents DF 03 and EF 03 are the empty array and the empty dictionary |
| `OpackTrees.DefaultBudgetMeans` | crates/pyatv-opack/src/de.rs:105-122 | The default budget is four times the input, at least 65,536 and at most 16,777,216 |
| `OpackNumbering.ListIsWritten` | crates/pyatv-opack/src/ser.rs:71-90 | A packed list of scalars byte for byte: each inline where it first appears, then as a pointer to the count of different numbered items before that appearance, while that is below 65,536 |
| `OpackScalars.ScalarLands` | crates/pyatv-opack/src/de.rs:206-299 | Every scalar written inline is read back as its canonical form, wherever it stands, with the recording rule both sides share |
| `OpackScalars.PointerLands` | crates/pyatv-opack/src/ser.rs:291-303 | An emitted pointer is read as the index it was emitted for |
| `OpackScalars.ScalarBytesInjective` | crates/pyatv-opack/src/ser.rs:93-119 | Two scalars share an encoding exactly when they share a canonical form |
| `OpackScalars.ScalarHead` | crates/pyatv-opack/src/tags.rs:12-122 | First bytes of scalars are disjoint from terminator, pointers and containers |
| `OpackShortest.PointerIsLongerIff` | crates/pyatv-opack/src/ser.rs:291-303 | A pointer is longer than the inline form it replaces exactly for empty strings and byte strings from index 33 on and for one-byte scalars from index 256 on |
| `OpackShortest.InterningCost` | crates/pyatv-opack/src/ser.rs:71-90 | A packed document is at most as long as without interning plus what its shortest scalars lose as pointers into its own table, and never longer if it numbers at most 33 scalars |
| `OpackShortest.InlineIsShortest` | crates/pyatv-opack/src/ser.rs:191-282 | Among all inline forms the decoder accepts for a scalar, the encoder's is never longer; only timestamps have none |
| `OpackBudget.DecodeIsBounded` | crates/pyatv-opack/src/de.rs:138-202 | For every input and budget a successful decode consumes between 1 and all bytes, nests at most 32 deep, and all its slots, back-references included, plus all inline strings and byte strings are paid for within the budget |
| `OpackBudget.BudgetThreshold` | crates/pyatv-opack/src/de.rs:193-202 | Under another budget a decode gives the same result if what it spent fits, and the budget error otherwise |
| `OpackBudget.OnlyConsumedBytesMatter` | crates/pyatv-opack/src/de.rs:86-97 | For any accepted input, whatever stands behind the consumed bytes, the result is the same |
| `OpackRelay.DecodedSurvives` | crates/pyatv-opack/src/de.rs:206-274 | Whatever was decoded from any input is canonical and packs exactly unless it holds a timestamp; the new document decodes to it under exactly the budgets its own cost fits, so by default if and only if that cost is within the default budget for its size |
| `OpackRelay.DenseArrayLimit` | crates/pyatv-opack/src/de.rs:42-48 | A dense array of n one-byte values unpacks under the default budget exactly while its slots cost no more than that budget |
| `OpackRelay.RepeatedTextLimit` | crates/pyatv-opack/src/de.rs:42-48 | For every n from 15: n equal one-letter strings written out decode by default exactly while a slot and a byte each fit the budget, and repacked exactly while two slots for every repeat do |
| `OpackRelay.RelayIsRefused` | crates/pyatv-opack/src/de.rs:99-122 | At any slot size from 32 to 58, 1100 such strings decode by default, pack, and are refused by default once packed |
| `OpackTables.BucketsRefineScan` | crates/pyatv-opack/src/objects.rs:92-127 | While no bucket reaches 64 and equal values among those involved share a digest, any recordings from any table number values as a linear scan would |
| `OpackTables.RefinesScanIff` | crates/pyatv-opack/src/objects.rs:92-127 | For any scalars, with buckets below the cap, the bucketed table is the linear scan's if and only if no two recorded values are equal with different digests |
| `OpackTables.RefinesScanUnlessBothZeros` | crates/pyatv-opack/src/objects.rs:121-141 | With a digest that separates the zeros, as hashing float bits does, that is if and only if both zeros of one width are not recorded |
| `OpackTables.BucketsRefineIdentity` | crates/pyatv-opack/src/objects.rs:111-119 | With such a digest the table holds each scalar once, zeros apart, and every NaN as often as it came |
| `OpackTables.CapIsReached` | crates/pyatv-opack/src/objects.rs:46-54 | With all values under one digest a repeat is recognised up to 63 values and recorded again from 64 on |
| `OpackTables.FloatEqMeans` | crates/pyatv-opack/src/objects.rs:121-141 | A binary64 equals itself unless it is a NaN, by exponent and fraction, and otherwise only the other zero |
| `OpackTables.BothZerosDiffer` | crates/pyatv-opack/src/objects.rs:111-119 | The two-value recording on which bucketed table and linear scan differ |
| `OpackTables.SeparatingZerosBreaksAgreement` | crates/pyatv-opack/src/objects.rs:121-141 | A digest that separates the zeros cannot agree with equality on them |
| `OpackTables.EqualScalarsIdentical` | crates/pyatv-opack/src/objects.rs:129-156 | Equal scalars sharing a digest are identical once the zeros are separated |
| `OpackTables.PackTable.Lookup` | crates/pyatv-opack/src/objects.rs:64-66 | The map answers the position of the encoding in the order of first appearance |
| `OpackTables.PackTable.Record` | crates/pyatv-opack/src/objects.rs:72-75 | A new encoding is appended, a known one keeps its number |
| `OpackTables.UnpackTable.Record` | crates/pyatv-opack/src/objects.rs:111-119 | Every bucket keeps exactly the positions of the values under its digest, and a value is appended unless an equal one is confirmed below the cap |
| `OpackTables.UnpackTable.Confirm` | crates/pyatv-opack/src/objects.rs:114-114 | Scanning one bucket finds an equal value if and only if the whole table holds one with that digest |
| `OpackSer.Encoder.Value` | crates/pyatv-opack/src/ser.rs:71-90 | Appends exactly the specified bytes, truncating an inline repeat to its pointer, and leaves the specified table |
| `OpackSer.Encoder.Write` | crates/pyatv-opack/src/ser.rs:93-140 | Appends the inline form and restores the depth |
| `OpackSer.Pack` | crates/pyatv-opack/src/ser.rs:38-60 | The imperative encoder computes `PackBytes`, whose laws are above |
| `OpackDecoder.Decoder.Value` | crates/pyatv-opack/src/de.rs:206-274 | On success yields the specified value and leaves offset, depth, charge and table as specified; on failure yields the specified error |
| `OpackDecoder.Decoder.Array` | crates/pyatv-opack/src/de.rs:317-334 | Both array loops follow the specification |
| `OpackDecoder.Decoder.Dict` | crates/pyatv-opack/src/de.rs:336-355 | Both dict loops follow the specification |
| `OpackDecoder.Unpack` | crates/pyatv-opack/src/de.rs:86-97 | The imperative decoder computes `UnpackWith`, whose laws are above |
| `OpackValue.NarrowestFor` | crates/pyatv-opack/src/value.rs:53-63 | The width fits the number and no narrower one does |
| `OpackValue.CanonIdempotent` | crates/pyatv-opack/src/value.rs:53-75 | The canonical form is canonical |
| `CompanionWire.TypesAreNumbered` | crates/pyatv-proto-companion/src/frame.rs:33-102 | The seventeen frame types stand for their seventeen bytes, both ways, and no other byte for any |
| `CompanionWire.TypeGroups` | crates/pyatv-proto-companion/src/frame.rs:104-137 | Pairing frames are 3 to 6, messages 7 to 9, and only 3 and 5 are answered under another byte, the next one |
| `CompanionFrame.TypeByteRoundTrip` | crates/pyatv-proto-companion/src/frame.rs:81-102 | Type bytes and frame types correspond one to one |
| `CompanionFrame.HeaderRoundTrip` | crates/pyatv-proto-companion/src/frame.rs:155-213 | A sendable header is read back whatever follows it |
| `CompanionFrame.HeaderBytesReproduced` | crates/pyatv-proto-companion/src/frame.rs:170-213 | Re-encoding a decoded header reproduces the received bytes, which therefore serve as associated data |
| `CompanionWire.FrameOnWire` | crates/pyatv-proto-companion/src/codec.rs:107-135 | A frame that goes out is its type byte, three length bytes with the highest first and its payload, in the clear or sealed under the outbound key and counter with those four bytes as associated data; the length counts the tag, nothing empty is sealed, nothing over 1,048,576 bytes goes out |
| `CompanionWire.StreamOnWire` | crates/pyatv-proto-companion/src/codec.rs:107-135 | Over a whole stream the counters of the sealed frames are consecutive, empty frames using none |
| `CompanionWire.FrameFromWire` | crates/pyatv-proto-companion/src/codec.rs:156-187 | What any buffer gives: nothing yet, a failure, or the frame opened under the inbound key and counter with its four header bytes as associated data |
| `CompanionCodec.FrameOpens` | crates/pyatv-proto-companion/src/codec.rs:107-187 | An accepted frame is the next one out on the other side whatever follows it, and the ciphers stay in step, empty payloads touching neither |
| `CompanionCodec.PartialWaits` | crates/pyatv-proto-companion/src/codec.rs:156-171 | While a frame is still arriving nothing is returned and nothing changes |
| `CompanionCodec.StreamDelivers` | crates/pyatv-proto-companion/src/codec.rs:107-187 | For any accepted frames, encryption switched on at one boundary, bytes cut anywhere and polled at any time: what is delivered is always a prefix of what was sent, nothing fails, and once all bytes are in, polling delivers the rest |
| `CompanionCodec.FrameCodec.Encode` | crates/pyatv-proto-companion/src/codec.rs:107-135 | The method follows the specification, counters included |
| `CompanionCodec.FrameCodec.TakeFrame` | crates/pyatv-proto-companion/src/codec.rs:156-187 | The method follows the specification: buffer, cipher and result |
| `CompanionCodec.DrainInPieces` | crates/pyatv-proto-companion/src/codec.rs:138-187 | Taking frames from more bytes is taking them from the first and carrying on with what is left; a failure stays the same failure |
| `CompanionCodec.InboundSegmentationIndependent` | crates/pyatv-proto-companion/src/codec.rs:138-187 | For arbitrary inbound bytes, however they are cut, frames, failure and cipher are those of one push, and so is the buffer unless a frame fails |
| `CompanionVerdicts.KeysAre` | crates/pyatv-proto-companion/src/message.rs:16-29 | The keys are the seven ASCII strings `_i`, `_t`, `_x`, `_c`, `_em`, `_ec` and `_ed` |
| `CompanionVerdicts.EnvelopeIsWritten` | crates/pyatv-proto-companion/src/message.rs:122-140 | An envelope goes out as identifier, type (1, 2 or 3), content and XID under those keys in this order, without its error |
| `CompanionVerdicts.EnvelopeIsRead` | crates/pyatv-proto-companion/src/message.rs:148-186 | Every field of an envelope, error message, code and domain included, is what stands first under its key, whole numbers of any width counting alike |
| `CompanionMessage.EnvelopeRoundTrip` | crates/pyatv-proto-companion/src/message.rs:122-186 | An envelope is read back from its dictionary, minus the error, which is never serialised |
| `CompanionMessage.ReadSurvivesWire` | crates/pyatv-proto-companion/src/message.rs:148-186 | What is read from any dictionary is unchanged by canonicalisation: identifier, type, XID and presence of an error, with canonical content |
| `CompanionMessage.CanonGet` | crates/pyatv-opack/src/value.rs:274-281 | Looking up a key commutes with canonicalisation |
| `CompanionEndToEnd.MessageIsRead` | crates/pyatv-proto-companion/src/message.rs:122-186 | An error-free envelope within the default budget is unpacked and read back with the same identifier, type and XID and canonical content |
| `CompanionEndToEnd.MessagesArrive` | crates/pyatv-proto-companion/src/codec.rs:107-187 | A sequence of envelopes survives packing, framing, sealing, arbitrary segmentation, opening, unpacking and reading, in order |
| `CompanionDelivery.MessageIsClassified` | crates/pyatv-proto-companion/src/protocol.rs:377-436 | A packed response goes to the exchange awaiting its XID, is kept for one outstanding and dropped otherwise; events with identifiers are published; requests go nowhere |
| `CompanionDelivery.SmallMessageIsSendable` | crates/pyatv-opack/src/de.rs:106-122 | An envelope whose rough cost is within the 64 KiB floor is never refused by the budget |
| `CompanionDelivery.EmptyReplyIsSendable` | crates/pyatv-opack/src/de.rs:105-106 | The smallest response under any XID is sendable at any slot size up to 4096 |
| `CompanionVerdicts.VerdictIff` | crates/pyatv-proto-companion/src/protocol.rs:377-506 | For every frame: who gets it, under which XID it is kept and which event it is, if and only if its type byte and keys say so, with or without an error in it |
| `CompanionVerdicts.MessageVerdict` | crates/pyatv-proto-companion/src/protocol.rs:409-506 | The verdict on any message as a function of its keys, including what is dropped |
| `CompanionVerdicts.ResponseEndsExchange` | crates/pyatv-proto-companion/src/protocol.rs:264-353 | A sent exchange ends with the first response under its XID: without an error it is returned as it is, with one the exchange fails with identifier, message, code and domain; either way the events before it are published and the XID and its stash entry are gone |
| `CompanionVerdicts.ExchangeUnanswered` | crates/pyatv-proto-companion/src/protocol.rs:317-353 | An exchange that gets no answer fails for the lost connection or for its deadline, one whose answer is stashed returns that and reads nothing, and the XID and its stash entry are gone in every case |
| `CompanionVerdicts.RequestIsWritten` | crates/pyatv-proto-companion/src/protocol.rs:271-276 | A request goes out as the caller's entries in order, less any `_x`, with the issued one behind them |
| `CompanionVerdicts.StampIsWritten` | crates/pyatv-proto-companion/src/protocol.rs:223-237 | A pairing message that has an `_x` goes out as it is; any other gets the next XID behind its entries, which is then used up |
| `CompanionVerdicts.AuthFrameEndsExchange` | crates/pyatv-proto-companion/src/protocol.rs:223-253 | A pairing exchange ends with the first pairing frame of the type that answers its own, judged the same way, leaves what is outstanding alone and takes an XID only if its dictionary has none |
| `CompanionProtocol.RequestCarriesXid` | crates/pyatv-proto-companion/src/protocol.rs:264-279 | An outgoing request carries exactly the issued XID and every other key as given |
| `CompanionProtocol.Driver.NextXid` | crates/pyatv-proto-companion/src/protocol.rs:146-150 | Hands out the counter and advances it modulo 2^32 |
| `CompanionProtocol.Driver.Issue` | crates/pyatv-proto-companion/src/protocol.rs:156-164 | Evicts the oldest XIDs with their stashed replies until there is room, then appends |
| `CompanionProtocol.Driver.Resolve` | crates/pyatv-proto-companion/src/protocol.rs:170-173 | Removes every occurrence of the XID and its stashed reply |
| `CompanionProtocol.Driver.ReadAndDispatch` | crates/pyatv-proto-companion/src/protocol.rs:377-437 | One frame: handed, kept, published or dropped, with the state to match |
| `CompanionProtocol.Driver.DispatchResponse` | crates/pyatv-proto-companion/src/protocol.rs:468-485 | A response goes to the waiter of its XID or to the stash, if that XID is outstanding |
| `CompanionProtocol.Driver.StashResponse` | crates/pyatv-proto-companion/src/protocol.rs:493-506 | Only a reply to an outstanding XID is kept |
| `CompanionProtocol.Driver.DispatchEvent` | crates/pyatv-proto-companion/src/protocol.rs:444-462 | An event with an identifier is appended to the stream, one without is dropped |
| `CompanionProtocol.Driver.PumpInner` | crates/pyatv-proto-companion/src/protocol.rs:340-353 | Takes a stashed answer to the awaited XID; otherwise reads until that answer, a lost connection or the deadline, dispatching everything else |
| `CompanionProtocol.Driver.Pump` | crates/pyatv-proto-companion/src/protocol.rs:317-338 | Takes or awaits the answer, forgets the XID however that ended and judges the answer |
| `CompanionProtocol.Driver.ExchangeOpack` | crates/pyatv-proto-companion/src/protocol.rs:264-279 | A whole exchange, including a send that fails after the XID was issued |
| `CompanionAnswers.WaitGoesOn` | crates/pyatv-proto-companion/src/protocol.rs:340-353 | Past any frames that are not what it awaits a wait goes on, with their events published in order and the outstanding list as it was |
| `CompanionAnswers.AnswerIsReturned` | crates/pyatv-proto-companion/src/protocol.rs:264-353 | An exchange whose answer arrives before anything else it could take for one returns that answer in canonical form, has published the events before it, leaves the rest unread and forgets its XID |
| `CompanionProtocol.Driver.ExchangeAuth` | crates/pyatv-proto-companion/src/protocol.rs:223-253 | A whole pairing exchange, stamped if it has no XID |
| `CompanionRuns.EveryRunIsSafe` | crates/pyatv-proto-companion/src/protocol.rs:340-506 | In every run: at most 16 XIDs tracked, stash keys among them, one fate per received frame, answers exactly the handed frames once each, events exactly those carried, in arrival order |
| `CompanionRuns.NextSafe` | crates/pyatv-proto-companion/src/protocol.rs:146-506 | Every single step keeps that account |
| `CompanionRuns.VerdictMeans` | crates/pyatv-proto-companion/src/protocol.rs:377-506 | What each verdict on a frame implies about its content, whoever waits |
| `CompanionOutstanding.IssueForgets` | crates/pyatv-proto-companion/src/protocol.rs:156-164 | Issuing an XID forgets the oldest outstanding ones beyond fifteen and the replies stashed under these and no others |
| `CompanionOutstanding.ExchangeForgetsIffSent` | crates/pyatv-proto-companion/src/protocol.rs:264-338 | After an exchange its XID is outstanding if and only if the request could not be sent; of the others only the oldest beyond fifteen are gone |
| `CompanionOutstanding.EndingStep` | crates/pyatv-proto-companion/src/protocol.rs:317-338 | A wait ended by its answer or its deadline removes its XID and nothing else; a cancelled one leaves the driver as it was |
| `CompanionOutstanding.OutstandingAfterEndIff` | crates/pyatv-proto-companion/src/protocol.rs:156-173 | Up to 2^32 XIDs, an exchange that is over is outstanding if and only if it was abandoned, nothing was closed since and no exchange began since when fifteen later ones had been abandoned |
| `CompanionOutstanding.DisplacedByAbandonedOnly` | crates/pyatv-proto-companion/src/protocol.rs:156-164 | Any number of later answered or timed-out exchanges displaces nothing; of later abandoned ones the sixteenth does |
| `CompanionOutstanding.SentExchangesDisplaceNothing` | crates/pyatv-proto-companion/src/protocol.rs:156-173 | With room left, the driver keeps its whole list through any number of sent exchanges under fresh XIDs, whatever arrives while they wait and however they end |
| `CompanionOutstanding.LateReplyKeptIff` | crates/pyatv-proto-companion/src/protocol.rs:468-506 | A reply to an exchange nobody waits for is kept if and only if its XID is outstanding, and dropped otherwise |
| `CompanionCorrelation.LateRepliesReachNobody` | crates/pyatv-proto-companion/src/protocol.rs:166-173 | Up to 2^32 XIDs, a frame handed to an exchange arrived while it ran, and a reply arriving after its exchange ended is handed to none |
| `CompanionCorrelation.WrapHandsStaleReply` | crates/pyatv-proto-companion/src/protocol.rs:146-150 | One XID past the bound, a stale reply is handed to a later exchange |
| `CompanionCorrelation.EarlyIffServed` | crates/pyatv-proto-companion/src/protocol.rs:340-353 | In every run, with no bound on XIDs, an answer arrived before its exchange began if and only if that exchange was served from the stash |
| `CompanionCorrelation.BeginServesIff` | crates/pyatv-proto-companion/src/protocol.rs:340-346 | Beginning an exchange hands it an answer at once if and only if one is stashed under its XID |
| `CompanionCorrelation.StashNeverServes` | crates/pyatv-proto-companion/src/protocol.rs:340-346 | While XIDs are fresh no exchange is answered from the stash |
| `CompanionCorrelation.SuccessCarriesOwnXid` | crates/pyatv-proto-companion/src/protocol.rs:317-338 | Every answer is a dictionary with its exchange's XID, and it counts as success exactly when it has no error message |
| `CompanionCorrelation.ExchangeIsRun` | crates/pyatv-proto-companion/src/protocol.rs:264-353 | An exchange as the driver performs it is a run of steps, with the same end state and answer, so the run theorems speak about the driver |
| `CompanionCorrelation.WaitIsRun` | crates/pyatv-proto-companion/src/protocol.rs:340-353 | The driver's wait is a run of arrivals ending in an answer or in giving up |
| `CipherWire.NonceBytes` | crates/pyatv-pairing/src/chacha.rs:56-81 | Each of the twelve bytes of every nonce: four zeros and then the counter, or the counter and then four zeros, low byte first |
| `CipherWire.CallsUseTheirCounters` | crates/pyatv-pairing/src/chacha.rs:198-260 | In any run, each call seals under the outbound or opens under the inbound key, with its own data and associated data, under the nonce of the first counter of its direction plus the number of calls of that direction before it, or is refused at the last counter |
| `Chacha.NonceInjective` | crates/pyatv-pairing/src/chacha.rs:76-81 | Under either layout, nonces are equal exactly when counters are |
| `Chacha.BareNonceIsWideCounter` | crates/pyatv-pairing/src/chacha.rs:76-81 | The bare layout is the counter as one twelve-byte little-endian number |
| `Chacha.SealedOpens` | crates/pyatv-pairing/src/chacha.rs:198-235 | What one side seals the other opens, and both stay in step |
| `Chacha.NoncesNeverRepeat` | crates/pyatv-pairing/src/chacha.rs:198-260 | Over any run of calls, failing ones included, no two seals and no two opens use one nonce |
| `Chacha.RunCounts` | crates/pyatv-pairing/src/chacha.rs:253-260 | A run uses consecutive counters from where it started and never the last one |
| `Chacha.SealsUntilExhausted` | crates/pyatv-pairing/src/chacha.rs:253-260 | Exactly the encrypts below the last counter value reach the seal; the rest are refused |
| `Chacha.Chacha20Cipher.Encrypt` | crates/pyatv-pairing/src/chacha.rs:198-202 | The counter moves before the seal, so a failed seal still burns its nonce |
| `Chacha.Chacha20Cipher.Decrypt` | crates/pyatv-pairing/src/chacha.rs:231-235 | The counter moves before the open, whether or not it succeeds |
| `CipherWire.FramedIsBlocks` | crates/pyatv-pairing/src/session.rs:75-89 | Encrypt succeeds exactly if every block is sealed and puts out block i as its length in two bytes, low byte first, and its kilobyte or rest sealed under the outbound key and the counter i after the first, those two bytes being the associated data |
| `CipherWire.DrainedOnce` | crates/pyatv-pairing/src/session.rs:115-140 | Decrypt opens the front block once its two length bytes, its text and sixteen bytes of tag are there, under the inbound key and counter with those two bytes as associated data |
| `HapSession.FramedLength` | crates/pyatv-pairing/src/session.rs:144-147 | The output of a successful encrypt is as long as announced |
| `HapSession.LeftoverIsPartial` | crates/pyatv-pairing/src/session.rs:115-140 | What decrypt leaves buffered is a strict prefix of one frame, at most 65,552 bytes |
| `HapSession.DrainInPieces` | crates/pyatv-pairing/src/session.rs:115-140 | Draining more bytes is draining the first and carrying on with what they left |
| `HapSession.SegmentationIndependent` | crates/pyatv-pairing/src/session.rs:115-140 | However a stream is cut, plaintext, counters and leftover are as for one call, and failures coincide |
| `HapSession.ChannelDelivers` | crates/pyatv-pairing/src/session.rs:75-140 | Everything the peer's encrypt calls sent comes out complete and in order, nothing left over |
| `HapSession.HapSession.Encrypt` | crates/pyatv-pairing/src/session.rs:75-89 | The chunk loop computes the specified frames and counter |
| `HapSession.HapSession.Decrypt` | crates/pyatv-pairing/src/session.rs:115-140 | The drain loop computes plaintext, counter and leftover; on failure the buffer is kept and the counter has moved |
| `SrpEncoding.Minimal` | crates/pyatv-pairing/src/srp_encoding.rs:32-37 | Strips leading zeros and keeps the integer |
| `SrpEncoding.MinimalEqualIffSameInteger` | crates/pyatv-pairing/src/srp_encoding.rs:32-37 | Two byte strings have one shortest form exactly when they denote one integer |
| `SrpEncoding.MinimalIsLeast` | crates/pyatv-pairing/src/srp_encoding.rs:32-37 | Shortening is idempotent and no non-empty string for the integer is shorter |
| `SrpEncoding.IntToBytesIsToBe` | crates/pyatv-pairing/src/srp_legacy.rs:76-84 | The extra shortening pass changes nothing, and the bytes denote the integer |
| `SrpEncoding.FormsAreDigits` | crates/pyatv-pairing/src/srp_legacy.rs:82-93 | The shortest form is the base-256 digits of the integer, highest first; the padded form is as many digits as the modulus has, or more if the integer has more |
| `SrpEncoding.PadMeans` | crates/pyatv-pairing/src/srp_legacy.rs:87-93 | Padding keeps the integer and has the modulus's width exactly when the integer fits it, as every residue does |
| `SrpEncoding.PadInjective` | crates/pyatv-pairing/src/srp_legacy.rs:87-93 | Padded forms are equal only for equal integers |
| `SrpLegacy.PowMeans` | crates/pyatv-pairing/src/srp_legacy.rs:200-208 | Powers turn sums of exponents into products, from 1 and the base itself |
| `SrpLegacy.BaseIsPower` | crates/pyatv-pairing/src/srp_legacy.rs:204-206 | Adding the modulus before subtracting keeps the base from going negative and leaves `g^b` |
| `SrpLegacy.SecretsAgree` | crates/pyatv-pairing/src/srp_legacy.rs:187-208 | For every group and all secrets the client's premaster secret is the device's |
| `SrpLegacy.HonestDeviceAgrees` | crates/pyatv-pairing/src/srp_legacy.rs:181-235 | A client that knows the password agrees on key and both proofs with a device that computes every hash from the digits of the integers on its own, however it writes its public value, and refuses only a zero one |
| `SrpLegacy.LeadingZerosIgnored` | crates/pyatv-pairing/src/srp_encoding.rs:10-18 | Leading zero bytes of the device's public value change nothing |
| `SrpLegacy.LegacySrpClient.PublicKey` | crates/pyatv-pairing/src/srp_legacy.rs:165-167 | What is sent denotes `g^a` and is in shortest form |
| `SrpLegacy.LegacySrpClient.ProcessChallenge` | crates/pyatv-pairing/src/srp_legacy.rs:181-235 | Stores key and expected proof as specified; a refusal changes nothing |
| `SrpLegacy.LegacySrpClient.VerifyDeviceProof` | crates/pyatv-pairing/src/srp_legacy.rs:262-273 | Accepts exactly the expected proof, and none before a challenge |
| `Tlv8.RoundTripIffDistinct` | crates/pyatv-pairing/src/tlv8.rs:293-354 | A message is read back exactly as written if and only if its tags are distinct, whatever the lengths of its values |
| `Tlv8.FragmentsArePieces` | crates/pyatv-pairing/src/tlv8.rs:293-310 | A value is written as its pieces of 255 bytes and a rest, each behind its tag and its length |
| `Tlv8.CutIsReported` | crates/pyatv-pairing/src/tlv8.rs:320-338 | Whole chunks followed by a cut one are refused at the offset of its header, or with its tag, its length and what there is of it |
| `Tlv8.RefusedIffCut` | crates/pyatv-pairing/src/tlv8.rs:320-338 | The reader refuses exactly the inputs that end within a chunk |
| `Tlv8.DecodeConcatenation` | crates/pyatv-pairing/src/tlv8.rs:320-354 | Reading two messages in a row is merging them; an error in the second is the error of the whole |
| `Tlv8.MergeMeans` | crates/pyatv-pairing/src/tlv8.rs:340-346 | Merging appends, per tag, everything the second list holds under it in order, however often the tag occurs there; tags stay distinct and in order of first appearance |
| `Tlv8.ReadsIffChunks` | crates/pyatv-pairing/src/tlv8.rs:320-354 | The reader accepts exactly sequences of whole chunks and returns each tag once, in order of first appearance, with the values of all its chunks joined in order |
| `Tlv8.ContiguousReadingIff` | crates/pyatv-pairing/src/tlv8.rs:312-354 | Joining only contiguous chunks gives what the reader returns if and only if no tag comes back after another |
| `Tlv8.ScatteredChunksJoin` | crates/pyatv-pairing/src/tlv8.rs:340-346 | Chunks of one tag are joined even with another tag between them |
| `Tlv8.DecodeDistinct` | crates/pyatv-pairing/src/tlv8.rs:320-354 | Everything accepted has distinct tags |
| `Tlv8.PutLaws` | crates/pyatv-pairing/src/tlv8.rs:234-240 | Setting a tag keeps tags distinct and in place, and disturbs no other value |
| `Tlv8.FragmentsLength` | crates/pyatv-pairing/src/tlv8.rs:293-310 | Two header bytes per started 255 bytes, and one empty chunk for an empty value |
| `Tlv8.Tlv8.SetRaw` | crates/pyatv-pairing/src/tlv8.rs:234-240 | Replaces in place or appends |
| `Tlv8.Tlv8.GetRaw` | crates/pyatv-pairing/src/tlv8.rs:251-255 | Finds the value of a tag |
| `Tlv8.Tlv8.Encode` | crates/pyatv-pairing/src/tlv8.rs:293-310 | The nested loops write what the reader gives back as this very message |
| `Tlv8.Tlv8.Decode` | crates/pyatv-pairing/src/tlv8.rs:320-354 | The loop computes the specified entries or error, with distinct tags |
| `Daap.PerformIsBounded` | crates/pyatv-proto-dmap/src/daap.rs:240-274 | For any answers and interference: at most two own requests, two re-logins and four login attempts; each own request carries the id in force when built; a body comes exactly from a final 2xx; nothing follows a missing answer or a 500, to a request or a login, and that failure is returned |
| `Daap.GetIsBounded` | crates/pyatv-proto-dmap/src/daap.rs:170-180 | The same for a whole request from any session id, with two login attempts more if none is open |
| `Daap.LoginKeeps` | crates/pyatv-proto-dmap/src/daap.rs:125-160 | A login makes at most two attempts and leaves the id it returns in force |
| `Daap.ReloginKeeps` | crates/pyatv-proto-dmap/src/daap.rs:267-274 | A re-login asks the device at most twice, and not at all if the id was replaced while it waited for the lock |
| `Daap.DaapRequester.LoginLocked` | crates/pyatv-proto-dmap/src/daap.rs:125-160 | The retry loop follows the specification |
| `Daap.DaapRequester.ReloginUnlessMoved` | crates/pyatv-proto-dmap/src/daap.rs:267-274 | Snapshot, lock, comparison and login in the order of the code |
| `Daap.DaapRequester.Perform` | crates/pyatv-proto-dmap/src/daap.rs:240-261 | The retry loop follows the specification |
| `Daap.DaapRequester.Get` | crates/pyatv-proto-dmap/src/daap.rs:170-180 | From a fresh trace the method keeps that bound; the first login does not look again once it has the lock |
| `DaapTraces.GetIsOrderly` | crates/pyatv-proto-dmap/src/daap.rs:119-274 | For any answers and interference: which event follows which (a rejected request a re-login, a rejected login one more, an accepted login the id read from its body), a rejected request is never last, and the result is what the trace says, with the status of the failing answer |
| `DaapTraces.LoginOrderly` | crates/pyatv-proto-dmap/src/daap.rs:125-160 | A login ends with the id it stored or with the answer that says why not, whose status it reports; it is rejected for good only the second time |
| `DaapTasks.EveryRunIsGood` | crates/pyatv-proto-dmap/src/daap.rs:119-160 | In every interleaving at most one task is inside the login, tasks keep to their bounds, and re-logins that snapshotted an id succeed at most as often as that id came into force |
| `DaapTasks.ReloginsCollapse` | crates/pyatv-proto-dmap/src/daap.rs:267-274 | If ids are never reissued, at most one re-login per snapshotted id succeeds |
| `DaapTasks.SessionHeldWhileLocked` | crates/pyatv-proto-dmap/src/daap.rs:119-160 | While one task logs in, no step of another touches the session id or the lock |
| `DaapTasks.LateRefusalLogsInAgain` | crates/pyatv-proto-dmap/src/daap.rs:263-274 | Two requests built with one id log in twice when the second is refused after the first login |
| `DaapTasks.DocumentedRuleHoldsIff` | crates/pyatv-proto-dmap/src/daap.rs:263-274 | For every reachable refusal: the refused task logs in just when the id it carried is still in force, whatever the others do until its turn, if and only if that id is in force when the refusal comes |
| `DaapTasks.CollapseByCarriedId` | crates/pyatv-proto-dmap/src/daap.rs:263-274 | In runs whose refusals all come in time, the requests that carried an id re-log in successfully at most as often as it came into force, so once if ids are not reissued |
| `DaapTasks.FirstLoginNeverYields` | crates/pyatv-proto-dmap/src/daap.rs:220-225 | In any world, a task that found no session logs in at its turn whatever the others did and whatever id is in force |
| `DaapTasks.ReissueDefeatsCollapse` | crates/pyatv-proto-dmap/src/daap.rs:267-274 | A reissued id lets two re-logins of one snapshot both succeed |
| `DaapTasks.FirstLoginsRepeat` | crates/pyatv-proto-dmap/src/daap.rs:220-225 | Two tasks that found no session both log in |
| `DaapLink.EveryTaskIsRequest` | crates/pyatv-proto-dmap/src/daap.rs:119-274 | In every interleaving, what one task sends, gets and stores is the trace of a single request under some script of answers and interference, and the counters of the task count that trace |
| `DaapLink.BegunIsRequest` | crates/pyatv-proto-dmap/src/daap.rs:119-274 | From any reachable world, that script is the answers and the changes of the session id the run itself holds for the task |
| `Relayer.SearchOrderDistinctIff` | crates/pyatv-core/src/relayer.rs:148-163 | In any state the search order yields each protocol at most once if and only if no protocol but the takeover's holder is listed twice in the priorities |
| `Relayer.ListedOnce` | crates/pyatv-core/src/relayer.rs:131-231 | After any operations on a duplicate-free priority list, exactly the registered protocols are listed, once each, takeover or not |
| `Relayer.DuplicatesShow` | crates/pyatv-core/src/relayer.rs:148-163 | With a duplicate in the priorities some registration is listed twice |
| `Relayer.QueriesAgree` | crates/pyatv-core/src/relayer.rs:168-231 | The instances are the listed protocols looked up in order, and the main protocol and instance are the first of them |
| `Relayer.FirstDeclarerAnswers` | crates/pyatv-core/src/relayer.rs:181-187 | A feature is answered by the first listed protocol that declared it, or by nobody |
| `Relayer.TakeoverMovesToFront` | crates/pyatv-core/src/relayer.rs:148-163 | A takeover moves its holder to the front if registered and keeps all others in order |
| `Relayer.TakeoversLeaveNoTrace` | crates/pyatv-core/src/relayer.rs:254-270 | Takeovers and releases mixed with registrations in any order leave, after a final release, the state of the registrations alone |
| `Relayer.RegistrationsStand` | crates/pyatv-core/src/relayer.rs:131-145 | After any operations, under each prioritised protocol stands exactly what its last registration gave, instance and declared features, and nothing under any other |
| `Relayer.FirstClaimHolds` | crates/pyatv-core/src/relayer.rs:254-270 | Until a release a takeover stays with its holder or with the first to claim it, and a release ends it |
| `Relayer.Relayer.Register` | crates/pyatv-core/src/relayer.rs:131-145 | Refuses a protocol outside the priorities and replaces an earlier registration |
| `Relayer.Relayer.Takeover` | crates/pyatv-core/src/relayer.rs:254-263 | Exclusive: a second claim fails, naming the holder, and changes nothing |
| `Relayer.Relayer.Release` | crates/pyatv-core/src/relayer.rs:268-270 | Clears the takeover whether or not one is held |

## Left out

- CompanionRuns.NextSafe: sockets, deadlines and task cancellation are not modelled as such, only the steps `Expire`, `Cancel` and failed sends they amount to; closing is possible only while nothing waits, as the code's exclusive borrow demands.
- CompanionProtocol.Driver.ExchangeOpack: the payload is given as a dictionary; the refusal of other payloads happens before anything changes. The driver's `start` flag and pair-verify are not modelled.
- CompanionProtocol.Driver.DispatchEvent: the event channel is a list; a receiver that has gone away is not modelled.
- OpackDecoder.Unpack: `LengthOverflow` cannot arise on 64-bit targets and is left out; the size of a value slot is a parameter.
- OpackTables.UnpackTable.Record: the seeded hash is an arbitrary function of the value.
- SrpLegacy.LegacySrpClient.ProcessChallenge: the hash and the 2048-bit group are parameters; constant-time comparison is modelled by equality.
- Daap.DaapRequester.Perform: URLs, headers and the DMAP parser are not modelled; what the parser reads from a login body is a parameter, and any failure to get an answer is one case.
- DaapTasks.EveryRunIsGood: the async mutex is a lock that one task at a time may take; fairness and progress are not claimed.
- Relayer.Relayer.Register: the reader-writer lock is not modelled; each operation is atomic.
- Fixed-nonce calls of the cipher, which touch no counter.
- AEAD, hash and key-derivation internals, UTF-8 validation, exact float arithmetic: foreign code.
- Pair-setup and pair-verify, MRP, the DNS codec, property-list payloads, the facade: not part of this model.
- Typed TLV8 getters, enumerations, name tables, feature lists, error texts, credential strings: settled by reading one branch.
- Command line, JSON and text output, code generation, benches and live-device probes: tooling.
