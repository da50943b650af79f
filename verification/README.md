# Corndogs client: a verified model

Corndogs is a task queue. Its clients talk to it in CBOR payloads, wrapped in an RPC
envelope, framed by a four-byte length, over one TCP connection that many calls share.
This project models the parts of that path where a mistake would lose, mix up or repeat
work, and proves what they promise over every input and every interleaving.

`dafny verify dfyconfig.toml` checks everything.

## What is modelled

**The CBOR codec.** The Go encoder and decoder (`Cbor`, `CborDecode`) are an output that
grows and a position that moves; they are proved against recursive specifications, and
the laws are proved of those: the round trip with its exact condition (`CborRoundTrip`),
stability under extension, prefix-freeness, unique splitting and resource bounds
(`CborLaws`), and canonicalisation (`CborCanonical`). `CborGrammar` writes the items of
RFC 8949 down independently of the code and proves that the decoder accepts exactly those
it should, with the values they stand for. The C codec works on sub-slices with
its own UTF-8 validator (`Utf8`), a bump arena and a doubling buffer (`CStorage`) and
arrays that grow while they are decoded (`CCodec`); `CDecode` proves that both decoders
accept the same language and build the same trees. On top sit the key order of
section 4.2.1 of RFC 8949 (`KeyOrder`), the field machinery of generated records
(`Records`), three representative records (`TaskRecords`) and the response envelope
(`Envelope`).

**Framing.** `Framing` relates Go's blocking `readFrame` to the incremental reassembler
of the TypeScript client.

**The multiplexed transport.** `Transport` is a step system: concurrent `callOnce`s, one
reader per connection, teardowns, `Close`, and a server that handles frames concurrently
and answers in any order. The atomic steps are the regions under the transport's mutex,
single channel operations and single network events. The guarded fields are also a class
whose methods are those regions; its invariant says that each registered id is waiting or
handed out, never both, and its methods agree with the functions the steps are made of.
`TransportInvariant` proves an invariant of every step, `TransportLaws` draws the
conclusions, and `TransportProgress` proves what can get done from every reachable state:
a call gets out, its answer comes back, a teardown reaches everyone. A re-dial may happen between `ensureConn` and registration, so that an id is
registered in the map of one connection while its frame goes out on another; nothing
assumes otherwise, and `StaleWriteIsReachable` shows that such states occur.

**The retry discipline.** `Errors` models the error values, their wrapping and text, and
what `errors.Is`, `errors.As`, `retryable` and the redirect search find in them; `Search`
the string searches; `Retry` the two `Call` loops with their attempts as a log;
`RetryLaws` what follows for every run. `TransportLaws.StreamCallExecutesOnce` and
`ClusterCallExecutesOnce` join the two: whole calls over the step system.

## Where the code and its comments differ

- The C codec says that doubling keeps the abandoned storage below the final size. The
  exact waste is computed, with the exact lengths at which the comment holds
  (`CCodec.GrowthWasteBelowFinalSize`); 2049 elements are a length at which it does not.
- `docs/resilience.md` says to retry when the connection failed before the request was
  sent. `retryable` tests for context errors before `ErrNotApplied`, and a dial that times
  out is one to `errors.Is`, so it ends a `StreamTransport.Call` without a retry and a
  `ClusterTransport.Call` without trying another seed (`RetryLaws.TimedOutDialIsFinal`;
  exactly then, by `RetryLaws.FailedDialInStream` and `RetryLaws.FailedDialInCluster`).
- The same document says to return a ServiceError and an unsupported operation.
  `ClusterTransport.Call` tests the text of every error for a redirect before anything
  else, so it resends either exactly when its message contains "not-leader"
  (`RetryLaws.ServiceErrorIsResent`, `RetryLaws.StatusIsProof`). Messages echo what the
  caller sent, such as a malformed uuid, and the request then goes to the address in them
  (`RetryLaws.InvalidUuidIsFollowed`), or the name of an operation the server does not
  know (`RetryLaws.UnknownOpIsResent`). An uncertain legacy mutation, which is never to be
  replayed, would be replayed after a lost connection whose cause contains that text
  (`RetryLaws.TextCanRunTwice`); no cause that the client words itself does. With unusable
  replies these are all the cases (`RetryLaws.ResentWithoutProof`,
  `RetryLaws.ProofUnlessMentioned`).
- The server puts error texts into its envelope unchecked, and the client rejects an
  envelope whose text is not UTF-8. Such an answer arrives under id 0 and reaches nobody
  (`Envelope.ResponseReadsBack`, `Envelope.BadTextLosesTheAnswer`); the caller waits for its
  context or a teardown.
- A write that fails on a connection that is no longer current leaves its id in the map
  of the current one (`TransportLaws.EndedCallCanStayInMap`). This is harmless to replies.

## Conventions

- Shifts and masks are division, remainder and addition on bounded integers. A float is
  its bit pattern; widening single or half precision is an arbitrary function, so the
  results hold for every such function.
- Go's `utf8.Valid` is taken to be well-formedness by RFC 3629, which is also what the C
  validator is proved to decide.
- Lengths fit Go's `int` (`Fits`), C inputs are below 2^58 bytes (`SLICE_LIMIT`; the frame
  limit is about 2^30), memory is available, and the 64-bit counters do not wrap.
- In `Transport`, `Frame.call` and `Answer.call` record which call a frame belongs to; no
  client step looks at them. Frames and answers may arrive in any order, answers even
  repeatedly, and the sends of a teardown may interleave with everything, which allows
  more than TCP and the code do. A failed write either delivered its whole frame or
  nothing that the server reads as a request.
- What dialing, reading and writing fail with is an `IoErr`: any text, a net timeout, a
  context error, or one of these wrapped. `fmt`'s `%q` is modelled for printable text only.
- The server is truthful: having executed a request it does not answer with status 1, 2
  or 7 or with a redirect in a status. `ClusterAtMostOnce` states its further assumption,
  on texts, as a precondition.
- A run of a `Call` is driven by a `World`: how each attempt ends, whether the context
  outlives each backoff, and what other callers do to the shared routing fields.

## Model

| member | source | states |
|---|---|---|
| `Cbor.Encoder.WriteHead` | clients/corndogs/codec.gen.go:102-118 | appends the shortest head of major type and argument, written byte by byte with shifts |
| `Cbor.Encoder.WriteFloat` | clients/corndogs/codec.gen.go:138-142 | appends 0xfb and the eight bytes of the bit pattern, most significant first |
| `Cbor.Encoder.Write` | clients/corndogs/codec.gen.go:120-165 | appends exactly the bytes that the tree stands for and leaves earlier output alone |
| `Cbor.Encoder.WriteLeaf` | clients/corndogs/codec.gen.go:122-149 | everything but arrays, maps and tags: exactly the bytes that the item stands for |
| `Cbor.Encoder.WriteItems` | clients/corndogs/codec.gen.go:150-154 | the array loop appends the encodings of the items in order |
| `Cbor.Encoder.WriteEntries` | clients/corndogs/codec.gen.go:155-160 | the map loop appends the encodings of the entries in order |
| `Cbor.Encoder.WriteEntry` | clients/corndogs/codec.gen.go:158-159 | appends the key and then the value |
| `CborDecode.Accumulate` | clients/corndogs/codec.gen.go:205-219 | the shift loop computes the big-endian number of its bytes |
| `CborDecode.Decoder.ReadArgument` | clients/corndogs/codec.gen.go:181-224 | gives the argument and moves the position past the head, or fails and leaves the position; both exactly as the positional specification says |
| `CborDecode.Decoder.DecodeItem` | clients/corndogs/codec.gen.go:232-350 | the recursive decoder with its moving position computes the specified item and ends where that item ends; it never leaves the input, and it terminates by nesting room |
| `CborDecode.Decoder.DecodeSimple` | clients/corndogs/codec.gen.go:242-268 | major type 7: the two booleans, null, undefined as null, single and double floats, and nothing else |
| `CborDecode.Decoder.DecodeItems` | clients/corndogs/codec.gen.go:301-318 | the array loop reads exactly the declared number of items, or fails where the first of them fails |
| `CborDecode.Decoder.DecodeEntries` | clients/corndogs/codec.gen.go:319-340 | the map loop reads exactly the declared number of keys and values in turn, or fails where the first fails |
| `CborDecode.DecodeBytes` | clients/corndogs/codec.gen.go:169-179 | one item and nothing after it; trailing bytes are an error |
| `CborRoundTrip.ReadHead` | clients/corndogs/codec.gen.go:102-224 | the shortest head of any 64-bit argument, anywhere in the input, reads back as that major type and argument |
| `CborRoundTrip.DecEncode` | clients/corndogs/codec.gen.go:95-350 | wherever the encoding of a tree occurs in the input, at any depth, the decoder reads the normalised tree and stops at its end, or fails exactly because the tree lies too deep or holds text that is not UTF-8 |
| `CborRoundTrip.RoundTrip` | clients/corndogs/codec.gen.go:95-350 | decode(encode(v)) is v with non-negative cborInt turned into cborUint exactly when v nests at most 64 deep and all its text is UTF-8; otherwise it is an error |
| `CborLaws.DecAgree` | clients/corndogs/codec.gen.go:232-350 | the result of decoding depends only on the bytes consumed |
| `CborLaws.DecExtend` | clients/corndogs/codec.gen.go:232-350 | an item that decodes from b decodes to the same value and length from b + s, for every s |
| `CborLaws.PrefixFree` | clients/corndogs/codec.gen.go:169-179 | no proper prefix of an accepted payload is accepted |
| `CborLaws.UniqueSplit` | clients/corndogs/codec.gen.go:169-179 | two sequences of accepted payloads with the same concatenation are equal |
| `CborLaws.DecBuilt` | clients/corndogs/codec.gen.go:226-350 | a successful decode builds a normalised tree within the depth limit whose nodes and string bytes number at most the bytes consumed, whatever lengths the input declares |
| `CborLaws.DecodedIsBounded` | clients/corndogs/codec.gen.go:226-350 | the same for a whole payload, with depth at most 64, all text UTF-8 and the tree already in normal form |
| `CborCanonical.HeadAgainstShortest` | clients/corndogs/codec.gen.go:102-224 | a head in the input equals the shortest head of its argument exactly when it has that width, and is otherwise different from it and never shorter |
| `CborCanonical.DecReencodes` | clients/corndogs/codec.gen.go:120-350 | every accepted item is a run of tokens, and re-encoding it goes token by token |
| `CborCanonical.Canonicalisation` | clients/corndogs/codec.gen.go:95-350 | for accepted b and c = encode(decode(b)): c decodes to the same tree; c = b exactly when all heads are shortest and there is no single float and no undefined; c is not longer than b if b has no single float |
| `CborCanonical.EncodingIsCanonical` | clients/corndogs/codec.gen.go:95-165 | whatever the encoder writes for an acceptable tree is canonical |
| `CborCanonical.NormEncodes` | clients/corndogs/codec.gen.go:122-129 | cborInt(n) and cborUint(n) have the same encoding, in every position of a tree |
| `CborGrammar.ReadRawHead` | clients/corndogs/codec.gen.go:181-224 | a head of every width that section 3 of RFC 8949 allows reads back as its major type and argument, shortest or not |
| `CborGrammar.HeadWasRaw` | clients/corndogs/codec.gen.go:181-224 | whatever is read as a head is, byte for byte, the head of that major type, width and argument |
| `CborGrammar.ReadsRaw` | clients/corndogs/codec.gen.go:232-350 | every proper item of RFC 8949 (heads of any width, floats of either size, undefined) anywhere in the input decodes to the value it stands for and ends the decoder at its end |
| `CborGrammar.WasRaw` | clients/corndogs/codec.gen.go:232-350 | whatever the decoder accepts, at every position and depth, is such an item with that value |
| `CborGrammar.AcceptsExactly` | clients/corndogs/codec.gen.go:169-350 | decode(b) = v if and only if b is a proper item that stands for v: nesting at most 64, definite lengths, UTF-8 text, negative integers down to -2^63, single floats widened, no half floats and no other simple values |
| `CborGrammar.LeastIsLeast` | clients/corndogs/codec.gen.go:102-118 | no head of the same argument is narrower than the one chosen |
| `CborGrammar.EncodeIsShortest` | clients/corndogs/codec.gen.go:95-165 | the encoder writes exactly the item of the tree in which every head is as short as it can be |
| `KeyOrder.HeadOrder` | clients/corndogs/codec.gen.go:102-118 | of two heads of one major type, the one with the smaller argument sorts first, whatever bytes follow |
| `KeyOrder.KeyBytesOrder` | clients/corndogs/codec.gen.go:102-146 | for text keys of all lengths below 2^64, bytewise order of the encodings is length-first, then bytewise, order of the keys (section 4.2.1 of RFC 8949) |
| `KeyOrder.EncodedKeyOrder` | clients/corndogs/codec.gen.go:143-146 | the same, of the bytes the encoder writes for text |
| `Records.PresentIsDeterministic` | clients/corndogs/codec.gen.go:2913-2932 | whichever optional fields are present, the entries a record encoder appends have text keys that strictly increase in encoded order |
| `Records.LookupPresent` | clients/corndogs/codec.gen.go:408-417 | after the trip, first-match lookup finds each present field under its key and does not find an absent one |
| `Records.FirstEntryCounts` | clients/corndogs/codec.gen.go:408-417 | of several entries with one key, lookup gives the first |
| `Records.AsI64Range` | clients/corndogs/codec.gen.go:426-438 | an integer is read as int64 exactly when it is below 2^63 |
| `Records.RecordTravels` | clients/corndogs/codec.gen.go:95-350 | a record decodes to the map of its normalised fields exactly when every text in it is UTF-8 |
| `Records.I64Survives` | clients/corndogs/codec.gen.go:426-438 | every int64 survives the split into unsigned and negative integers |
| `TaskRecords.TaskRoundTrip` | clients/corndogs/codec.gen.go:503-625 | a Task with UTF-8 text decodes to itself, any other is rejected on arrival; its keys are in deterministic order |
| `TaskRecords.TaskWireNames` | clients/corndogs/codec.gen.go:517-608 | a value is read as a task if and only if it is a map with each field under its own wire name, with the right type, whatever else it holds |
| `TaskRecords.UpdateRoundTrip` | clients/corndogs/codec.gen.go:2913-3036 | UpdateGuardedTaskRequest decodes to itself for every combination of optional fields, so absent stays distinct from present and empty |
| `TaskRecords.UpdateWireNames` | clients/corndogs/codec.gen.go:2934-3036 | the same if-and-only-if for the update request: required fields must be there, and an optional field is absent exactly when its key is |
| `TaskRecords.MapComesBack` | clients/corndogs/codec.gen.go:364-406 | decoding the entries of a map rebuilds the map, whatever order they were written in |
| `TaskRecords.LastEntryCounts` | clients/corndogs/codec.gen.go:388-406 | of several entries with one key, decoding a map keeps the last |
| `TaskRecords.CountsRoundTrip` | clients/corndogs/codec.gen.go:1859-1907 | QueueAndStateCounts decodes to itself for every iteration order of its map |
| `TaskRecords.CountsWireNames` | clients/corndogs/codec.gen.go:1868-1907 | a value is read as counts if and only if it has its three fields under their wire names |
| `Utf8.ReadTails` | clients/c/codec.gen.h:310-314 | the inner loop accepts exactly tail octets and computes the number they continue |
| `Utf8.ShapeOfScalar` | clients/c/codec.gen.h:301-316 | the encoding of a scalar value passes each of the validator tests and is computed back to that value |
| `Utf8.UnitIsScalar` | clients/c/codec.gen.h:301-316 | octets that pass the tests are the encoding of the number computed, which is a scalar value |
| `Utf8.NoUnit` | clients/c/codec.gen.h:305-316 | each reason the validator has to reject rules out every scalar encoding at that point: overlong forms, surrogates, values above U+10FFFF, stray and missing tails |
| `Utf8.Validate` | clients/c/codec.gen.h:298-319 | accepts a string of any length if and only if it is the UTF-8 encoding of some sequence of Unicode scalar values (section 3 of RFC 3629) |
| `CStorage.Rounding` | clients/c/codec.gen.h:161-162 | rounding up to 16 in 64-bit arithmetic gives the aligned size or wraps to less than the size |
| `CStorage.Arena.Alloc` | clients/c/codec.gen.h:159-177 | hands out a new region; all regions so far stay in bounds at 16-multiple offsets, each entirely after those before it; a block is added exactly when the head block has no room, of 4096 bytes or the size if larger; fails only within 31 bytes of the address space |
| `CStorage.Arena.AddBlock` | clients/c/codec.gen.h:165-172 | an empty block at the head leaves all regions as they were |
| `CStorage.Arena.Bump` | clients/c/codec.gen.h:174-176 | takes the next aligned bytes of the head block and nothing else |
| `CStorage.RegionsDisjoint` | clients/c/codec.gen.h:159-177 | no byte of the arena belongs to two regions |
| `CStorage.Buffer.Reserve` | clients/c/codec.gen.h:42-56 | keeps the contents, keeps the storage if there is room, else grows to at least 64 and at most max(64, 2 * need); while sizes stay at or below SIZE_MAX/2 all abandoned allocations together are no larger than the current one |
| `CStorage.Buffer.CopyIn` | clients/c/codec.gen.h:67-67 | copies behind the contents and leaves them |
| `CStorage.Buffer.Push` | clients/c/codec.gen.h:58-62 | the contents grow by exactly the byte, or the buffer is at its limit and unchanged |
| `CStorage.Buffer.Append` | clients/c/codec.gen.h:64-70 | the contents grow by exactly the bytes, or the buffer is at its limit and unchanged; capacity and abandoned storage stay within their bounds over every sequence of writes |
| `CDecode.ReadArgSlice` | clients/c/codec.gen.h:254-285 | reading a head at the front of a slice is reading it at that position of the whole input |
| `CDecode.GoAgreesWithC` | clients/c/codec.gen.h:346-496 | at every position and depth, the slice decoder and the positional decoder give the same tree and consume the same bytes, unless the bytes hold a half-precision float |
| `CDecode.ReadsHalf` | clients/c/codec.gen.h:469-473 | a half-precision float with any bits and anything after it: C reads it as the converted float, Go rejects it |
| `CDecode.SameLanguage` | clients/c/codec.gen.h:346-521 | what Go accepts C accepts with the same tree; what C accepts Go accepts exactly when it holds no half-precision float |
| `CCodec.ReadHeadArg` | clients/c/codec.gen.h:254-285 | computes the argument and the head length, or fails, as specified |
| `CCodec.DecodeValue` | clients/c/codec.gen.h:346-496 | computes the specified item on sub-slices; arena regions stay disjoint and in bounds; a success takes at most 160 arena bytes per byte consumed |
| `CCodec.DecodeNested` | clients/c/codec.gen.h:381-450 | arrays, maps and tags after their head: the specified item on the rest of the slice, with the same arena charges |
| `CCodec.DecodeString` | clients/c/codec.gen.h:368-380 | rejects text exactly if it is not UTF-8, accepts every byte string, and takes at most sixteen arena bytes beyond the string |
| `CCodec.DecodeSimple` | clients/c/codec.gen.h:451-492 | major type 7 after its head was read, with half-precision floats |
| `CCodec.MakeRoom` | clients/c/codec.gen.h:391-396 | after growth slot i exists and all earlier elements are kept |
| `CCodec.TakeSlots` | clients/c/codec.gen.h:384-393 | an allocation of n elements never overflows and costs at most 32 bytes an element |
| `CCodec.DecodeArray` | clients/c/codec.gen.h:381-406 | the growing array holds exactly the items read; what growth abandons is accounted for |
| `CCodec.DecodePair` | clients/c/codec.gen.h:423-432 | one key and one value, each in its own arena slot, in that order |
| `CCodec.DecodeMap` | clients/c/codec.gen.h:407-439 | the growing array of pairs holds exactly the entries read |
| `CCodec.DecodePayload` | clients/c/codec.gen.h:498-521 | one item and nothing after it, in a fresh arena; at most 160 arena bytes per input byte on success, and that plus 33 KiB a level on failure |
| `CCodec.GrowthWaste` | clients/c/codec.gen.h:381-396 | doubling abandons fewer than twice the final number of slots, for every declared length |
| `CCodec.GrowthWasteBelowFinalSize` | clients/c/codec.gen.h:186-193 | the waste is the next doubling of 1024 minus 1024, and so is below the final size, as the comment claims, exactly when the length is within 1024 of that doubling |
| `CCodec.GrowthWasteExceedsFinalSize` | clients/c/codec.gen.h:186-193 | a length at which the comment is wrong: 2049 elements abandon 3072 slots |
| `CCodec.WriteHead` | clients/c/codec.gen.h:74-94 | appends the same head as the Go encoder, or the buffer is at its limit |
| `CCodec.WriteValue` | clients/c/codec.gen.h:603-631 | the C encoder writes the same bytes as the Go encoder, or the buffer is at its limit |
| `CCodec.WriteArray` | clients/c/codec.gen.h:613-618 | the array head and then the items, the same bytes as the Go encoder |
| `CCodec.WriteMap` | clients/c/codec.gen.h:619-625 | the map head and then the entries, the same bytes as the Go encoder |
| `CCodec.WriteTag` | clients/c/codec.gen.h:626-628 | the tag head and then the content, the same bytes as the Go encoder |
| `CCodec.WriteLeaf` | clients/c/codec.gen.h:96-129 | integers, text, byte strings, booleans, null and floats: the same bytes as the Go encoder |
| `CCodec.WriteItems` | clients/c/codec.gen.h:613-618 | the array loop writes the encodings of the items in order |
| `CCodec.WriteEntries` | clients/c/codec.gen.h:619-625 | the map loop writes the encodings of the entries in order |
| `Framing.Reassembler.OnData` | clients/typescript/transport.ts:224-238 | one chunk: delivers what becomes complete and keeps the remainder; an oversized prefix detaches if the socket is still held, and is kept if close gave it up |
| `Framing.Reassembler.Teardown` | clients/typescript/transport.ts:208-222 | clears the buffer and detaches, or does nothing if the socket was given up; delivered frames stay delivered |
| `Framing.Reassembler.GiveUpSocket` | clients/typescript/transport.ts:370-371 | close gives the socket up and leaves the listener, the buffer and the frames |
| `Framing.ReadUint32` | clients/typescript/transport.ts:228-228 | computes the big-endian number of four bytes |
| `Framing.ReadAllAppend` | clients/corndogs/transport.go:399-416 | bytes that arrive later only extend what was read so far |
| `Framing.ReadAllRest` | clients/corndogs/transport.go:399-416 | what a scan leaves over holds no further frame, and is oversized if the scan stopped at it |
| `Framing.ChunkingDoesNotMatter` | clients/typescript/transport.ts:224-238 | for every way of cutting a stream into chunks and every moment of close, the frames delivered are those of repeated readFrame on the whole stream, the remainder is its remainder, and the stop is at the same oversized prefix |
| `Framing.Receive` | clients/typescript/transport.ts:195-238 | a connection from first to last delivers the frames of the whole stream, however its events come |
| `Framing.FrameReadsBack` | clients/corndogs/transport.go:386-416 | one frame written by writeFrame reads back, whatever follows |
| `Framing.CutFrame` | clients/corndogs/transport.go:399-416 | a stream that ends anywhere inside a written frame is an error; only one that ends before it is a clean end |
| `Framing.FrameLimit` | clients/corndogs/transport.go:35-35 | writer and reader share the limit of 1025 MiB, and the length is four bytes with the most significant first |
| `Framing.WireReadsBack` | clients/corndogs/transport.go:386-416 | a stream of written frames reads back as the payloads in order |
| `Search.IndexOf` | clients/corndogs/cluster_transport.go:191-198 | the loop gives the least index at which the substring occurs, or -1 |
| `Search.FindFrom` | clients/corndogs/cluster_transport.go:191-198 | a match at the result and at no smaller index; -1 exactly when there is none |
| `Search.IndexAny` | clients/corndogs/cluster_transport.go:200-209 | the nested loop gives the least index that holds one of the characters, or -1 |
| `Search.RedirectRecovers` | clients/corndogs/cluster_transport.go:159-172 | from pre + "not-leader leader=" + addr + rest the redirect gives exactly addr, where pre lacks the mark, addr has no delimiter and rest is empty or starts with one |
| `Search.RedirectCases` | clients/corndogs/cluster_transport.go:159-172 | a text is a redirect exactly when it contains "not-leader"; without "leader=" it names no address |
| `Search.DelimitersAre` | clients/corndogs/cluster_transport.go:166-168 | an address ends at a blank or at either quote |
| `Search.DialAddr` | clients/corndogs/cluster_transport.go:71-79 | the dialable address holds no slash, for every input; what it is for an address is in the next two rows |
| `Search.DialAddrHost` | clients/corndogs/cluster_transport.go:71-79 | scheme + "://" + host + path gives exactly host |
| `Search.DialAddrPlain` | clients/corndogs/cluster_transport.go:71-79 | without a scheme, host + path gives exactly host |
| `Search.DialAddrIdempotent` | clients/corndogs/cluster_transport.go:71-79 | normalising twice is normalising once |
| `Errors.IsWrapped` | clients/corndogs/errors.go:140-150 | errors.Is sees through the wrapping of uncertain and notApplied to both parts, for each sentinel |
| `Errors.IsSearchesTree` | clients/corndogs/errors.go:148-150 | errors.Is holds exactly if the error or something it wraps, through every kind of wrapping, answers to the target |
| `Errors.FirstClientIsFirst` | clients/corndogs/errors.go:102-106 | errors.As finds the first client error in the order in which the tree is visited |
| `Errors.TextIsKept` | clients/corndogs/client.gen.go:19-24 | the text of whatever an error wraps can be read in its own text, so a redirect is seen through every wrapping |
| `Errors.MessageIsShown` | clients/corndogs/errors.go:28-62 | the text of an error that carries a message ends with that message |
| `Errors.NaturalReadsBack` | clients/corndogs/errors.go:60-62 | the number in a text is the number, in decimal without leading zeros |
| `Errors.TimedOutIs` | clients/corndogs/transport.go:208-208 | an I/O error counts as an ended context exactly when its innermost error is a context error or a timeout of the network |
| `Errors.ServiceArmCode` | clients/corndogs/errors.go:102-112 | the ServiceError arm counts as a service error exactly if it has a code or a message |
| `Errors.ReadsAreReplaySafe` | clients/corndogs/errors.go:114-134 | all nine reads and lookups are replay-safe |
| `Errors.KeyedIsReplaySafe` | clients/corndogs/errors.go:114-134 | all six mutations with a submission key or operation id are replay-safe |
| `Errors.LegacyIsNotReplaySafe` | clients/corndogs/errors.go:114-134 | no legacy mutation is, nor claiming the next task |
| `Errors.StatusIsOneOrTheOther` | clients/corndogs/errors.go:75-91 | every status is either not applied or uncertain, never both; which is which is in `RetryLaws.StatusTable` |
| `Errors.RetryableByKind` | clients/corndogs/transport.go:201-215 | what retryable decides for each error that callOnce can return, in both directions; a request that was never sent may be resent exactly when what stopped it was not a timeout |
| `Errors.NotAppliedRetryable` | clients/corndogs/transport.go:204-215 | notApplied of any error is retryable exactly when that error holds no service error, no ErrUnsupported and no context error, which are tested first |
| `Errors.UncertainRetryable` | clients/corndogs/transport.go:204-215 | uncertain of any error is retryable exactly when the same holds and the operation is replay-safe or the error also holds ErrNotApplied |
| `Errors.LocalKinds` | clients/corndogs/errors.go:140-150 | notApplied and uncertain of any I/O error, timeouts included, say exactly the one thing they were wrapped to say |
| `Errors.UnprovenIsFinal` | clients/corndogs/errors.go:100-146 | an error that proves nothing is never not applied, never lets retryable resend a legacy mutation, and, unless it is a lost connection, anything at all |
| `Errors.RedirectThroughStatus` | clients/corndogs/cluster_transport.go:157-172 | a redirect inside any transport status, through all the wrapping, yields its address and counts as not applied and not uncertain |
| `Retry.StreamCall` | clients/corndogs/transport.go:177-199 | the loop makes exactly the specified attempts and returns how the last one ended |
| `Retry.AttemptsAreLimited` | clients/corndogs/transport.go:194-199 | never more sends than configured, or than three if nothing is; a call whose every attempt fails retryably with time left makes exactly that many |
| `Retry.StreamRunShape` | clients/corndogs/transport.go:177-199 | one to max attempts, all the same request, stopping at the first final one and not before |
| `Retry.ClusterTransport.NextTarget` | clients/corndogs/cluster_transport.go:83-95 | the cached leader and nothing changes, else the next seed and the index advances, else nothing |
| `Retry.ClusterTransport.SetLeader` | clients/corndogs/cluster_transport.go:97-97 | changes the cached leader only |
| `Retry.ClusterTransport.ClearLeader` | clients/corndogs/cluster_transport.go:98-98 | clears the cached leader only |
| `Retry.ClusterTransport.Call` | clients/corndogs/cluster_transport.go:109-143 | the loop makes exactly the specified attempts, returns the specified result and leaves the specified routing fields, whatever other callers do to those fields in between; where the attempts go and what routing is left is in `RetryLaws.RoutingOfRun` |
| `RetryLaws.ClusterRunShape` | clients/corndogs/cluster_transport.go:109-143 | at most seeds + 5 attempts, all the same request, each but the last a redirect or retryable with a live context |
| `RetryLaws.ReturnsLastOutcome` | clients/corndogs/cluster_transport.go:139-142 | with non-empty seed addresses at least one attempt is made and the result is how the last one ended |
| `RetryLaws.WithoutSeeds` | clients/corndogs/cluster_transport.go:113-116 | with neither seeds nor a leader nothing is sent, the error says so, and the routing fields stay |
| `RetryLaws.CachedLeaderFirst` | clients/corndogs/cluster_transport.go:83-88 | a cached leader is tried first, also without seeds |
| `RetryLaws.RoutingOfRun` | clients/corndogs/cluster_transport.go:83-143 | over a whole undisturbed call: every attempt goes to the leader known by then, else to the next seed in turn; at the end a reply has left its address cached, a redirect the address it named or none, a retryable failure none, and a final error the leader that its attempt was made with |
| `RetryLaws.StreamAtMostOnce` | clients/corndogs/transport.go:169-190 | for an operation outside replaySafeOps every attempt but the last was not applied, so at most one executed |
| `RetryLaws.ClusterAtMostOnce` | clients/corndogs/cluster_transport.go:100-143 | the same for the cluster call, if what executed never reads as a redirect |
| `RetryLaws.ResendsHaveAReason` | clients/corndogs/cluster_transport.go:100-143 | for every operation, an attempt that is followed by another was a redirect, not applied, or uncertain and replay-safe, and the next carries identical bytes |
| `RetryLaws.StatusRedirect` | clients/corndogs/errors.go:75-91 | a wrapped status reads as a redirect exactly when its own message does, and is then not applied |
| `RetryLaws.StatusTable` | clients/corndogs/errors.go:64-91 | for every status, message and operation: not applied exactly for 1, 2, 7 or a message with "not-leader", otherwise uncertain; unsupported exactly for 2; retryable exactly if not 2 and not applied or replay-safe |
| `RetryLaws.ResentWithoutProof` | clients/corndogs/cluster_transport.go:122-133 | for every operation, a call is resent against the documented rules in exactly one case: a service error, an unknown operation, an unusable reply or a lost legacy mutation whose text contains "not-leader"; for a legacy mutation the errors without proof among these |
| `RetryLaws.StatusIsProof` | clients/corndogs/cluster_transport.go:122-133 | a transport status is resent only as the rules allow, except that status 2 is resent exactly when its message contains "not-leader"; for a legacy mutation only on proof |
| `RetryLaws.UnknownOpIsResent` | corndogs/server/tcp_rpc.go:125-128 | the answer to an unknown operation repeats its name; if that contains "not-leader", the unsupported operation is sent again |
| `RetryLaws.ProofUnlessMentioned` | clients/corndogs/cluster_transport.go:109-143 | in every run of every operation, a resent attempt was allowed by the rules if and only if its error is not such a one; for a legacy mutation allowed means proven not applied |
| `RetryLaws.ServiceErrorIsResent` | clients/corndogs/cluster_transport.go:122-133 | for every operation, a service error is resent exactly when its message contains "not-leader" |
| `RetryLaws.InvalidUuidIsFollowed` | corndogs/server/implementations/resilience.go:156-158 | the message that rejects a malformed uuid echoes it; for a uuid of "not-leader leader=" and an address, every operation is sent again, with the same bytes, to that address |
| `RetryLaws.FailedDialInStream` | clients/corndogs/transport.go:177-190 | after a failed dial a stream call goes on exactly if it has attempts and time left and the dial did not time out |
| `RetryLaws.FailedDialInCluster` | clients/corndogs/cluster_transport.go:117-137 | after a failed dial a cluster call goes on exactly if the context lives and the dial did not time out, or the error reads as a redirect |
| `RetryLaws.TimedOutDialIsFinal` | clients/corndogs/transport.go:104-119 | a dial that times out is not applied and yet ends both calls after one attempt, for every operation and every text without "not-leader" |
| `RetryLaws.NotAppliedRedirect` | clients/corndogs/cluster_transport.go:159-172 | a not-applied error reads as a redirect exactly when the error inside it does |
| `RetryLaws.TextCanRunTwice` | clients/corndogs/cluster_transport.go:106-130 | for every cause that contains "not-leader", a SubmitTask that executed and was then lost is sent and executes again |
| `RetryLaws.NextAttemptGoes` | clients/corndogs/cluster_transport.go:117-134 | a redirect sends the next attempt to its address, any other failure to the next seed, and a reply caches its address |
| `RetryLaws.RotationGoes` | clients/corndogs/cluster_transport.go:83-143 | with no leader cached and every attempt failing, the attempts go round the seeds from the current index |
| `RetryLaws.RotationIsFair` | clients/corndogs/cluster_transport.go:83-143 | all seeds + 5 attempts are made, a stale leader first, and the rotation counts of any two seeds differ by at most one and are at least one |
| `RetryLaws.EverySeedIsTried` | clients/corndogs/cluster_transport.go:83-143 | every listed seed is tried, also when addresses repeat |
| `Transport.StreamTransport.EnsureConn` | clients/corndogs/transport.go:95-124 | a connection exactly when not closed and there is one or the dial succeeds; never replaces a map, so the waiting ids stay the same |
| `Transport.StreamTransport.Register` | clients/corndogs/transport.go:223-232 | yields a non-zero id that no call ever had, exactly when there is a connection, and keeps every waiter under its own id |
| `Transport.StreamTransport.Claim` | clients/corndogs/transport.go:157-162 | hands a waiter out exactly if it is still waiting; it is then gone for good, and id 0 finds nobody |
| `Transport.StreamTransport.Detach` | clients/corndogs/transport.go:129-137 | hands out all waiters, none of whom was handed out before, exactly when the connection is current; a second teardown of it gets nothing |
| `Transport.StreamTransport.Forget` | clients/corndogs/transport.go:253-255 | takes out one waiting id, if it waits, and moves no other |
| `Transport.StreamTransport.Close` | clients/corndogs/transport.go:324-338 | undisturbed, leaves no connection, hands out every waiter once, and every later ensureConn fails |
| `TransportInvariant.DialKeeps` | clients/corndogs/transport.go:101-123 | dialing keeps the invariant: without a connection no waiter is in a map, so none is dropped |
| `TransportInvariant.NewInMap` | clients/corndogs/transport.go:224-231 | a new id is in no other waiter's way, because it is larger than all before it |
| `TransportInvariant.TornDownKeeps` | clients/corndogs/transport.go:128-145 | a teardown moves exactly the waiters of the map it takes, and only if its connection is current |
| `TransportInvariant.IdMatches` | clients/corndogs/transport.go:149-167 | the waiter that an answer's id finds in the current map is the call that the server answered, whatever connection either is of |
| `TransportInvariant.CancelKeeps` | clients/corndogs/transport.go:252-256 | cancellation keeps the invariant, whether the id is in the map, claimed, or gone with it |
| `TransportInvariant.WriteKeeps` | clients/corndogs/transport.go:242-249 | writing keeps the invariant, also on a connection that is no longer current and also when a failed write was delivered |
| `TransportInvariant.ExecuteKeeps` | corndogs/server/tcp_rpc.go:61-79 | handlers that run concurrently execute each frame at most once |
| `TransportInvariant.AnswerKeeps` | corndogs/server/tcp_rpc.go:87-109 | an answer carries the id of the request it answers, and settles whether that request executed |
| `TransportInvariant.StepKeeps` | clients/corndogs/transport.go:95-260 | every atomic step keeps the invariant |
| `TransportInvariant.RunKeeps` | clients/corndogs/transport.go:95-260 | the invariant holds in every state that any interleaving reaches |
| `TransportLaws.RepliesAreOwn` | clients/corndogs/transport.go:217-260 | any payload that callOnce returns was produced by the server in answer to the very frame that call wrote, under its own id |
| `TransportLaws.OnePlace` | clients/corndogs/transport.go:95-167 | conn is nil exactly when pending is nil, and each registered call is in exactly one of: the current map, one reader, one teardown, sent to once, removed by itself |
| `TransportLaws.ReaderNeverBlocks` | clients/corndogs/transport.go:157-166 | a reader that claimed a waiter can always send to its channel |
| `TransportLaws.TeardownNeverDrops` | clients/corndogs/transport.go:139-144 | a teardown never finds a channel full, so its default arm is never taken |
| `TransportLaws.NoWaiterIsForgotten` | clients/corndogs/transport.go:95-167 | a waiting call can receive, or is in the current map, or a reader or a teardown can send to it now |
| `TransportLaws.ClosedHasNoConnection` | clients/corndogs/transport.go:324-338 | in every interleaving, a closed transport has a connection only while a Close has still to tear it down; after that it has none and no call is in a map |
| `TransportLaws.CallReturns` | clients/corndogs/transport.go:217-260 | the ordinary course from the start: for every payload there is a run in which a call returns it after one execution; from every other state by `TransportProgress.CallCompletes` |
| `TransportLaws.StaleWriteIsReachable` | clients/corndogs/transport.go:218-243 | an id can be registered in the map of one connection while its frame goes out on another |
| `TransportLaws.EndedCallCanStayInMap` | clients/corndogs/transport.go:242-249 | if that write fails, the call ends with its id still in the map |
| `TransportLaws.ErrorsAreClassified` | clients/corndogs/transport.go:217-260 | every failed call ended with one of the errors that the retry rules cover |
| `TransportLaws.DialFailureIsReachable` | clients/corndogs/transport.go:104-119 | a call can end as not applied because of any I/O error of a dial, a timeout included |
| `TransportLaws.NotAppliedForGood` | clients/corndogs/errors.go:43-47 | a call that was told it was not applied has not executed and never will, whatever steps follow |
| `TransportLaws.ExecutesAtMostOnce` | corndogs/server/tcp_rpc.go:61-79 | no request executes twice, and none that was never sent |
| `TransportLaws.RunsAreTruthful` | clients/corndogs/errors.go:43-47 | attempts that ran over the step system never claim to be not applied after executing |
| `TransportLaws.StreamCallExecutesOnce` | clients/corndogs/transport.go:169-260 | a whole Call over the step system, in every interleaving: a legacy mutation executes at most once in total, and only in its last attempt |
| `TransportLaws.ClusterCallExecutesOnce` | clients/corndogs/cluster_transport.go:100-143 | the same for the cluster call over the transports of the nodes it tried |
| `TransportProgress.CallCompletes` | clients/corndogs/transport.go:217-260 | from every reachable state of an open transport, for every truthful answer of the server, there is a run in which a new call executes as that answer supposes and ends with exactly that answer |
| `TransportProgress.CallGetsOut` | clients/corndogs/transport.go:217-243 | from every such state a new call can dial, register and write: it waits in the current map under an id no call had, and its frame is out on the current connection |
| `TransportProgress.ServerAnswers` | corndogs/server/tcp_rpc.go:61-109 | a request on the wire can be executed or not and answered, under its own id |
| `TransportProgress.ReaderClaims` | clients/corndogs/transport.go:156-162 | a reader that takes an answer whose id waits claims that very call, with that outcome whatever it is, and can then deliver it |
| `TransportProgress.AnswerReachesWaiter` | clients/corndogs/transport.go:156-166 | an answer to a waiting call ends it with exactly that outcome |
| `TransportProgress.ConnectionHasReader` | clients/corndogs/transport.go:120-123 | in every interleaving the current connection has a reader that has not ended |
| `TransportProgress.ReaderGetsFree` | clients/corndogs/transport.go:163-166 | a busy reader gets back to reading without anything else having to happen |
| `TransportProgress.TeardownTakesAll` | clients/corndogs/transport.go:128-137 | after a teardown of the current connection there is none, and every call in its map is owed the cause |
| `TransportProgress.LostConnectionReachesWaiter` | clients/corndogs/transport.go:151-154 | a connection that fails ends every call waiting in its map as uncertain, with the cause |
| `TransportProgress.CloseReachesWaiter` | clients/corndogs/transport.go:324-338 | so does Close |
| `TransportProgress.FailedWriteReachesWaiter` | clients/corndogs/transport.go:243-249 | so does a write of another call that fails on the current connection |
| `TransportProgress.CloseIsForGood` | clients/corndogs/transport.go:324-338 | once Close has started, every later state is closed and every later call ends as not applied |
| `TransportProgress.NoConnectionEnds` | clients/corndogs/transport.go:218-222 | a call that gets no connection ends as not applied, with the reason |
| `TransportProgress.LostBeforeRegistering` | clients/corndogs/transport.go:223-231 | a call whose connection is gone when it registers ends as not applied |
| `TransportProgress.FailedWriteEnds` | clients/corndogs/transport.go:243-249 | a failed write ends its call as uncertain, delivered or not, on whichever connection |
| `TransportProgress.CancelledWaitEnds` | clients/corndogs/transport.go:252-256 | an ended context ends the call as uncertain with its reason and takes the id out of the map |
| `Envelope.ParsedIsClassified` | clients/corndogs/transport.go:344-384 | whatever bytes arrive, parseResponse yields a reply, a status, a service error or an unusable-reply error |
| `Envelope.ResponseReadsBack` | corndogs/server/csilrpc/rpc.go:120-136 | parseResponse reads back exactly what the server encoded, under the echoed id if that is below 2^63, exactly when the error and variant texts are UTF-8; otherwise the answer arrives as a failure under id 0 |
| `Envelope.LooseReadsBack` | clients/corndogs/transport.go:344-384 | envelopes whose fields are missing or of any type: a missing, negative or oversized id is 0, a status that is no number is 0, no payload is an empty reply, a payload needs a byte string but no tag |
| `Envelope.SignedKeepsBits` | clients/corndogs/transport.go:377-380 | a code keeps its 64 bits |
| `Envelope.BadTextLosesTheAnswer` | clients/corndogs/transport.go:344-354 | an error text of the one octet 0xff: the status arrives under id 0 instead of the id of the call |
| `Envelope.ServiceErrorReadsBack` | clients/corndogs/codec.gen.go:3663-3712 | a service error crosses the wire as a final client error with its code and message exactly when the message is UTF-8 |

## Left out

- Sockets, TLS, dialing, keep-alives, heartbeats and clocks: they appear as nondeterministic steps and parameters.
- Task storage, clustering, leader election and receipts: the server is a handler that executes a request or does not, and answers it.
- The server's own CBOR decoder and `DecodeRpcRequest`: a third decoder of the same format; requests are taken to arrive as written, or to be answered as malformed.
- The limit of 256 concurrent handlers and the cancellation of handlers when a connection ends: the model allows any number, finished or not.
- The map from addresses to transports in `ClusterTransport` and its `Close`: each attempt names the transport it ran on.
- Scheduling, and with it wake-up order of Go's `select` and fairness: progress is proved as runs that exist from every reachable state, not as something that must happen.
- `csilc_half_to_double` and the numeric meaning of floats.
- The other generated records, and the C record codecs, whose text ends at the first NUL.
- The Python, C# and TypeScript decoders: they keep the last of duplicate keys, where Go and C keep the first.
- Allocation failure and the wording of errors other than the redirect text.
- CCodec.DecodeValue: freeing an arena and the pointers inside decoded values are not modelled; a decoded value is a tree.
- Framing.Reassembler.OnData: what `onFrame` does with a frame is not modelled, only that it receives it.
