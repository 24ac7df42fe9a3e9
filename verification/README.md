# A verified model of the DDC client SDK

The SDK stores and reads files through storage nodes. This project models the parts of it that carry
algorithms or state, and proves what they promise:

- **Messages** (`Wire`, `Codec`, `Messages`, `CodecLaws`, `Rearranging`, `Locality`, `Skipping`, `BinaryIO`,
  `DdcMessages`, `Layouts`, `MessageBytes`, `Tokens`, `TokenBytes`). The generated message classes differ only
  in the field table that each constructor passes on; reader and writer are that table spelled out. `Codec` is
  the reader and `Messages` the writer as functions of any table, `BinaryIO` has both as the loops that run, and
  `DdcMessages` lists the tables of 18 messages. A sequence of field occurrences (`Field`) is the syntax of a
  message on the wire and `Interpret` its meaning. One theorem, `Codec.ReadFields`, says that the reader
  computes the meaning of every legal sequence, at any nesting; the laws in `CodecLaws` and `Rearranging` follow
  from it without looking at bytes again. `MessageBytes` and `TokenBytes` say which bytes and values each
  message has, with the tags as numbers and no table in sight. `Locality` says when a nested read stays inside
  its length, and `Skipping` that every well-formed field nobody knows is skipped to its end.
- **Streams and pieces** (`Streams`, `Log2`, `FileApi`, `FileStorage`, `Download`). Rebuffering, the split of
  large files, the send loop of a raw piece, and the reading generator with its acknowledgements and validator.
- **Routing** (`Shuffle`, `StableSort`, `Routing`, `PingStrategy`, `PingChoices`, `PingRuns`). The shuffle, the two stable
  sorts, the choice of a node, and the ping cache that concurrent calls share, as a world of interleaved events.
- **Retry** (`BalancedNode`). The callback run once per attempt, with its exclude list.
- **Tokens** (`AuthTokens`). Delegation chains, signing, the signers the SDK makes for Web3 wallets, and the
  token created for an operation.
- **Calls** (`WebsocketTransport`). Deferreds and the output stream under events in any order.

Inputs stand for what the code cannot determine: random indices, the clock, the answers of routers and nodes,
the network's events, the hash and signature functions, the random signer. A chain of `await`s is cut into the
steps between them.

The runtime libraries (protobuf-ts, async-retry, the stream and gRPC runtimes) are not part of this model. Their
primitives are stated here: varints, tags, length-delimited fields and skipping after the Protocol Buffers
Encoding guide, with ten-byte varints cut to 32 or 64 bits and errors for an illegal tag, a truncated buffer and a
64-bit number that is no safe integer; a stable sort that reads NaN as equal (section 23.1.3.30 of ECMA-262);
deferreds that settle once; an output stream that refuses messages once closed; attempts that end at the first one
that does not throw.

## Where the code departs from its documentation

- The comments of the token message say that a bucket and a piece are mentioned once in a chain, and that the token
  behind one without `canDelegate` is the last. `AuthToken.from` copies bucket and piece into the new link, and
  delegates from a last token like from any other. `AuthTokens.OneDelegationBreaksRules` is a token with which one
  delegation breaks all of this; `AuthTokens.GrowMentionsOnceIff` and `AuthTokens.GrowDelegationOkIff` say exactly when
  the rules are kept.
- `AuthToken.from` drops all predecessors of a token without a subject. `AuthTokens.GrowWidensIff` says exactly when
  that widens access, as it does in `AuthTokens.TwoDelegationsWiden`.
- A next token should be signed by the subject of the one before. `AuthTokens.StorageNode.CreateAuthToken` keeps that
  if and only if the subject is a registered signer or the user's own key; in `AuthTokens.ForeignSubjectBreaksSigning`
  it is neither.
- The comment in `PingStrategy.marshalNodes` says pings already under way are included so that they are settled.
  They are not awaited: `PingRuns.CountedPingNotAwaited` is a call that returns while a ping it counted is pending, and
  `PingStrategy.ReturnsAtOnceIff` says when a call waits for nothing.
- `Math.log2` is rounded, so that `ceilToPowerOf2` rounds some numbers down: the first is 2^49 + 1
  (`Log2.FirstRoundedDown`), and `Log2.CeilToPowerOf2Iff` names them all. The logarithm is taken as the double nearest
  to the exact one; ECMA-262 leaves that approximation to the engine.
- The part size announced for a multipart piece is rounded to a power of two while the file was cut by the size given:
  `FileStorage.LocatedIffPowerOf2`, and `FileStorage.FiveMegabytesMisplaced` for a size that `store` accepts.
- A call that ends with an OK status may leave its header or message pending for good
  (`WebsocketTransport.PendingIff`, `WebsocketTransport.GoodEndLeavesPending`), and a unary call that is aborted with a primitive reason all four deferreds
  (`WebsocketTransport.UnaryCall.OnSettled`).
- A nested length is never compared with the end of the message around it. `DdcMessages.NestedReadMayOverrun` is a
  token read from bytes whose payload is none; `Locality.StopsAtEndIff` says exactly when a nested read stops at its
  declared end.

## Model

| member | source | states |
|---|---|---|
| Codec.ReadMessage | packages/ddc/src/grpc/auth_token.ts:98-119 | the reading loop ends on every byte string, valid or not, each round moving on or throwing; it never leaves the buffer, though it may pass its own end |
| Codec.ReadFields | packages/ddc/src/grpc/auth_token.ts:157-195 | wherever legal field occurrences of any nesting stand, the loop has their meaning as its effect and goes on right behind them |
| CodecLaws.RoundTrip | packages/ddc/src/grpc/auth_token.ts:92-131 | for every table, reading what was written gives the message back and consumes all bytes |
| CodecLaws.EncodeInjective | packages/ddc/src/grpc/auth_token.ts:198-228 | distinct messages have distinct bytes |
| CodecLaws.DecodeConcat | packages/ddc/src/grpc/file_api.ts:220-247 | reading two messages written behind each other merges the second into the first: last scalar wins, repeated fields append, sub-messages merge, a oneof merges on the same kind and is replaced on another |
| Rearranging.DecodeRearranged | packages/ddc/src/grpc/auth_token.ts:157-195 | at any depth, decoding does not see unknown fields, the order of fields with different numbers, how a repeated enum is split into packed runs and single entries, or over how many occurrences a sub-message is spread |
| Rearranging.DecodeArrangement | packages/ddc/src/grpc/dag_api.ts:354-378 | bytes that carry a message's fields in any such arrangement are read as that message |
| Rearranging.RearrangedMeaning | packages/ddc/src/grpc/auth_token.ts:157-197 | rearranged fields have the same effect on whatever message they are read into |
| Rearranging.SwapRearranged | packages/ddc/src/grpc/auth_token.ts:158-194 | exchanging neighbours that differ in number, and are not of one oneof, is a rearrangement |
| Rearranging.UnknownRearranged | packages/ddc/src/grpc/auth_token.ts:188-193 | so is adding an unknown field anywhere |
| Rearranging.RunRearranged | packages/ddc/src/grpc/auth_token.ts:174-180 | so is cutting a packed run anywhere, or writing its one entry unpacked |
| Rearranging.NestedRearranged | packages/ddc/src/grpc/auth_token.ts:162-164 | so is a rearrangement inside a sub-message, whatever stands around it, other occurrences of its field included |
| Rearranging.SplitRearranged | packages/ddc/src/grpc/auth_token.ts:103-108 | so is writing a singular sub-message in two parts, whatever stands around it |
| Rearranging.RearrangedAmong | packages/ddc/src/grpc/auth_token.ts:157-197 | fields may be rearranged where they stand between any others |
| Rearranging.RearrangedTrans | packages/ddc/src/grpc/auth_token.ts:157-197 | rearrangements may follow each other, and be undone |
| Messages.MergeIntoNew | packages/ddc/src/grpc/common/signature.ts:53-101 | the defaults that the writer omits are those that `create` restores |
| Messages.FieldsApplied | packages/ddc/src/grpc/activity_report/activity_report.ts:246-327 | the fields the writer produces for a message mean merging it into whatever target they are read into |
| Messages.SmallIsWritable | packages/ddc/src/grpc/dag_api.ts:380-395 | a message whose encoding is below two gigabytes never fails to be written |
| BinaryIO.BinaryReader.InternalBinaryRead | packages/ddc/src/grpc/auth_token.ts:157-197 | the loop over a moving position returns or throws what the reading function says and stops at its position |
| BinaryIO.BinaryReader.Switch | packages/ddc/src/grpc/auth_token.ts:160-194 | one round: the field of the tag is replaced, or the unknown field is skipped or refused |
| BinaryIO.BinaryReader.SlotField | packages/ddc/src/grpc/auth_token.ts:174-180 | a packed run pushes until its end is passed, any other wire type pushes once; a sub-message is read into the value already there |
| BinaryIO.BinaryWriter.InternalBinaryWrite | packages/ddc/src/grpc/auth_token.ts:198-228 | appends exactly the encoding to the current chunk, restores the stack of chunks, and fails for no writable message |
| BinaryIO.BinaryWriter.WriteSlot | packages/ddc/src/grpc/cns_api.ts:306-323 | one field: nothing for a default or absent value, else its tag and value |
| BinaryIO.BinaryWriter.WritePacked | packages/ddc/src/grpc/auth_token.ts:211-217 | a packed run is forked, filled and joined behind its length |
| DdcMessages.TablesValid | packages/ddc/src/grpc/auth_token.ts:139-149 | the field tables of the messages meet what the laws ask of a table |
| MessageBytes.SignatureBytes | packages/ddc/src/grpc/common/signature.ts:45-102 | what the fields may hold, and the bytes with tags 8, 18, 26; defaults are left out |
| MessageBytes.AuthTokenBytes | packages/ddc/src/grpc/auth_token.ts:85-132 | the bytes with tags 10 and 18 before the lengths of signature and payload |
| MessageBytes.PayloadBytes | packages/ddc/src/grpc/auth_token.ts:138-229 | what the fields may hold, and the bytes with tags 10, 18, 24, 32, 42, 48, 58; absent fields are left out, and the operations are one run |
| MessageBytes.ActivityRequestBytes | packages/ddc/src/grpc/activity_report/activity_report.ts:217-328 | likewise for the ten fields of an activity request |
| MessageBytes.ActivityAcknowledgmentBytes | packages/ddc/src/grpc/activity_report/activity_report.ts:334-398 | likewise for an acknowledgement |
| MessageBytes.PutRawPieceRequestBytes | packages/ddc/src/grpc/file_api.ts:206-260 | one of metadata and content at most, and its bytes |
| MessageBytes.PutRawPieceMetadataBytes | packages/ddc/src/grpc/file_api.ts:266-337 | likewise for the metadata of a raw piece |
| MessageBytes.PutRawPieceContentBytes | packages/ddc/src/grpc/file_api.ts:343-384 | likewise for a chunk of a raw piece |
| MessageBytes.PutMultiPartPieceRequestBytes | packages/ddc/src/grpc/file_api.ts:437-509 | likewise for a multipart piece, each part hash behind a tag of its own |
| MessageBytes.GetFileRequestBytes | packages/ddc/src/grpc/file_api.ts:562-616 | one of request and acknowledgement at most, and its bytes |
| MessageBytes.GetFileRequestBodyBytes | packages/ddc/src/grpc/file_api.ts:622-686 | likewise for the request of a file |
| MessageBytes.GetFileRangeBytes | packages/ddc/src/grpc/file_api.ts:692-741 | likewise for a range |
| MessageBytes.GetFileResponseBytes | packages/ddc/src/grpc/file_api.ts:747-801 | one of proof and data at most, and its bytes; empty data is written |
| MessageBytes.GetFileProofBytes | packages/ddc/src/grpc/file_api.ts:807-848 | likewise for a proof |
| MessageBytes.DagNodeBytes | packages/ddc/src/grpc/dag_api.ts:337-394 | likewise for a DAG node, each link and tag behind a tag of its own |
| MessageBytes.DagLinkBytes | packages/ddc/src/grpc/dag_api.ts:400-457 | likewise for a link |
| MessageBytes.DagTagBytes | packages/ddc/src/grpc/dag_api.ts:463-512 | likewise for a tag |
| MessageBytes.CnsRecordBytes | packages/ddc/src/grpc/cns_api.ts:261-324 | likewise for a name record |
| Codec.NumbersRead | packages/ddc/src/grpc/auth_token.ts:165-183 | what any 64 bits are read as by each kind of number, and which are refused |
| Codec.UnknownRefused | packages/ddc/src/grpc/auth_token.ts:187-190 | a reader told to throw refuses every unknown field |
| Skipping.SkipsExactly | packages/ddc/src/grpc/auth_token.ts:187-193 | every well-formed value of any wire type, groups in groups included, is skipped exactly to its end |
| Skipping.UnfamiliarLegal | packages/ddc/src/grpc/auth_token.ts:187-193 | so that every such field may stand in a message that does not know it |
| DdcMessages.NestedReadMayOverrun | packages/ddc/src/grpc/auth_token.ts:98-119 | seven bytes decode to a token whose payload takes its subject from behind its declared end, though the declared bytes alone are no payload |
| Locality.StopsAtEndIff | packages/ddc/src/grpc/auth_token.ts:157-197 | a nested read stops exactly at its declared end if and only if the declared bytes, read alone, are a message, and then it is that message |
| Locality.RunStopsAtEndIff | packages/ddc/src/grpc/auth_token.ts:174-178 | the same for a packed run |
| Locality.MessageLocal | packages/ddc/src/grpc/auth_token.ts:98-119 | for every byte string, reading it alone and reading it inside a longer buffer agree, unless the latter ends behind it |
| Tokens.TokenRoundTrip | packages/ddc/src/grpc/auth_token.ts:92-131 | every in-range token, of any depth and with any optional fields, is read back from its bytes |
| Tokens.ToBinaryInjective | packages/ddc/src/grpc/auth_token.ts:150-228 | distinct tokens have distinct bytes |
| TokenBytes.TokenIs | packages/ddc/src/grpc/auth_token.ts:121-131 | the bytes of every in-range token over its named fields, of any depth |
| TokenBytes.PayloadIs | packages/ddc/src/grpc/auth_token.ts:198-228 | the bytes of its payload: tags 10 to 58, the operations as one run behind its length, nothing for none |
| TokenBytes.UnpackedRead | packages/ddc/src/grpc/auth_token.ts:174-180 | a payload whose operations are written one by one is read as the same |
| Streams.ChunksShape | packages/ddc/src/streams/createStream.ts:31-53 | chunks concatenate to the data; all but the last have the full size and the last is not empty |
| Streams.ChunksUnique | packages/ddc/src/streams/createStream.ts:31-53 | no other sequence of chunks has that shape and that concatenation |
| Streams.Rechunk | packages/file-storage/src/FileStorage.ts:118 | cutting a stream that was cut before gives what cutting the data gives |
| Streams.ChunkSizer.Transform | packages/ddc/src/streams/createStream.ts:36-43 | only full chunks are enqueued and what is seen and not enqueued stays buffered, shorter than a chunk |
| Streams.ChunkSizer.Flush | packages/ddc/src/streams/createStream.ts:45-51 | what was delivered in all is the data seen, cut to size |
| Streams.PipeThrough | packages/ddc/src/streams/createStream.ts:31-53 | the output depends on nothing but the concatenation of the input |
| Streams.CreateContentStream | packages/ddc/src/streams/createStream.ts:89-112 | content is cut to the chunk size, or passed on as it comes |
| Log2.CeilToPowerOf2Iff | packages/ddc/src/FileApi/FileApi.ts:39 | the result is the least power of two not below the argument, for all safe integers but those just above a power of two from 2^49 on, which are rounded down to it |
| Log2.FirstRoundedDown | packages/ddc/src/FileApi/FileApi.ts:39 | up to 2^49 none is rounded down, 2^49 + 1 is |
| Log2.RoundsDownIff | packages/ddc/src/FileApi/FileApi.ts:39 | exactly which logarithms the nearest double takes down to an integer |
| FileApi.PutRawPiece | packages/ddc/src/FileApi/FileApi.ts:140-208 | pieces of unknown size, of none, or above 128 MB are refused; else the size and the chunks are sent until the limit is reached |
| FileApi.PutMultipartPiece | packages/ddc/src/FileApi/FileApi.ts:91-108 | parts and total size are sent as they are given |
| FileApi.SentChunksBound | packages/ddc/src/FileApi/FileApi.ts:180-199 | what is sent is a prefix of the content, all of it up to the limit, and less than one longest chunk beyond it |
| FileApi.WrappedMessages | packages/ddc/src/FileApi/FileApi.ts:181-199 | content wrapped by the call goes out in messages of at most the recommended size |
| FileStorage.StoreLarge | packages/file-storage/src/FileStorage.ts:116-132 | piece i has the bytes of the file from i times the part size on, and its offset; the root names the answers to the pieces in their order, the file size and the part size |
| FileStorage.Store | packages/file-storage/src/FileStorage.ts:160-178 | buffer sizes outside 4 to 128 MB are refused; files above the part size are split so, others stored whole |
| FileStorage.PartsLayout | packages/file-storage/src/FileStorage.ts:116-132 | the number of parts is the size divided by the part size rounded up, part i holds the bytes from i times the part size, and together they are the file |
| FileStorage.LocatedIffPowerOf2 | packages/ddc/src/FileApi/FileApi.ts:91-108 | for a file of several parts, byte j is byte j mod size of part j div size for every j, with the part size that is announced, if and only if the part size it was cut by is a power of two |
| FileStorage.FiveMegabytesMisplaced | packages/file-storage/src/FileStorage.ts:160-178 | a part size that is accepted and with which some byte is not found there |
| FileStorage.PartsSentWhole | packages/ddc/src/FileApi/FileApi.ts:147-199 | every part passes the size check and is sent completely |
| Download.FileValidator.Update | packages/ddc/src/validators/CidValidator.ts:29-39 | an enabled validator is fed the chunk, a disabled one nothing |
| Download.FileValidator.Prove | packages/ddc/src/validators/FileValidator.ts:22-24 | the last proof decides, by being empty or not |
| Download.FileValidator.Validate | packages/ddc/src/validators/FileValidator.ts:26-32 | throws exactly if enabled, without range and proof, and the hash of the bytes fed differs from the CID's |
| Download.ToDataStream | packages/ddc/src/FileApi/FileApi.ts:277-329 | delivers the data messages, acknowledges after each the total so far, feeds the validator their concatenation, and completes exactly if nothing was to be checked or the hash matches |
| Shuffle.ShuffleInPlace | packages/ddc/src/routing/RandomStrategy.ts:5-13 | the array ends up in the order that the drawn indices determine |
| Shuffle.DrawnLast | packages/ddc/src/routing/RandomStrategy.ts:6-10 | the element drawn first stands last, and the rest is drawn from what is left |
| Shuffle.ShuffledPermutes | packages/ddc/src/routing/RandomStrategy.ts:5-13 | that order is a permutation |
| Shuffle.Reaches | packages/ddc/src/routing/RandomStrategy.ts:6-10 | every permutation is reached by some draws |
| Shuffle.ChoicesRecovered | packages/ddc/src/routing/RandomStrategy.ts:6-10 | and, for distinct elements, by no others: the order gives the draws back |
| StableSort.VerdictIsOrder | packages/ddc/src/routing/PingStrategy.ts:104-116 | subtracting latency groups, with infinity for unknown and NaN read as equal, is a consistent order |
| StableSort.SortIsStable | packages/ddc/src/routing/NodeTypeStrategy.ts:61-66 | the sort is sorted, a permutation, and keeps equal keys in order |
| StableSort.StableSortUnique | packages/ddc/src/routing/NodeTypeStrategy.ts:61-66 | nothing else is, so any stable sort gives this result |
| StableSort.SortTwice | packages/ddc/src/routing/PingStrategy.ts:104-116 | sorting by priority and then by latency orders by the pair, ties as before |
| Routing.MarshalOrder | packages/ddc/src/routing/PingStrategy.ts:79-117 | the marshalled nodes are those that serve the operation, each as often as given: known latencies before unknown ones, by groups of 100 ms, then by priority, then as shuffled |
| Routing.GetNodeMinimal | packages/ddc/src/routing/Router.ts:82-89 | a node is handed out exactly if one that serves the operation is not excluded, and then none of those is faster, or as fast and preferred |
| PingStrategy.StepKeeps | packages/ddc/src/routing/PingStrategy.ts:61-77 | every event keeps one ping per URL and lets a record only settle once |
| PingStrategy.RunKeeps | packages/ddc/src/routing/PingStrategy.ts:36-99 | over any interleaving no URL is pinged twice, no record is lost, none changes its outcome, and latency comes from an answered ping only |
| PingRuns.RecordSince | packages/ddc/src/routing/PingStrategy.ts:36-77 | behind every latency lies the answered ping that had it, and behind every settled ping the event that settled it |
| PingChoices.CountedAre | packages/ddc/src/routing/PingStrategy.ts:27-34 | a call counts, once each, the nodes serving its operation whose ping has not failed |
| PingChoices.PlanIs | packages/ddc/src/routing/PingStrategy.ts:81-99 | it pings at once ten less the counted ones, and leaves two to the timer: of the nodes without a record, those of the best priorities |
| PingRuns.ReturnedCall | packages/ddc/src/routing/PingStrategy.ts:79-117 | over any interleaving from the empty cache, a call that has returned began, planned and returned in this order, every ping it started had settled by then, and its nodes are the applicable ones it was given by latency group and priority for the latencies known then |
| PingStrategy.ReturnsAtOnceIff | packages/ddc/src/routing/PingStrategy.ts:61-99 | an uninterrupted call awaits nothing if and only if it counts enough pinged nodes, settled or not, or every applicable node has a record |
| PingRuns.CountedPingNotAwaited | packages/ddc/src/routing/PingStrategy.ts:61-99 | a run from the empty cache in which a call returns while a ping it counted is pending |
| PingStrategy.ThresholdReached | packages/ddc/src/routing/PingStrategy.ts:79-99 | an uninterrupted call over distinct URLs reaches the ping threshold unless every applicable node has a record |
| PingStrategy.PingCache.EnqueuePing | packages/ddc/src/routing/PingStrategy.ts:61-77 | starts a ping only for a URL without a record |
| PingStrategy.PingCache.PlanPings | packages/ddc/src/routing/PingStrategy.ts:81-89 | enqueues the pinged nodes and as many new ones as the threshold lacks, and remembers the new ones |
| PingStrategy.PingCache.ReturnNodes | packages/ddc/src/routing/PingStrategy.ts:99-117 | sets the background timer and sorts by the latencies known now |
| BalancedNode.RetryCallback.Run | packages/ddc/src/nodes/BalancedNode.ts:118-172 | one attempt updates the exclude list and the last errors; on a node it returns on success, throws for the seven codes to be tried again, and bails otherwise, with an error that names code, node and call |
| BalancedNode.RunEnds | packages/ddc/src/nodes/BalancedNode.ts:115-172 | every attempt of every run ends so, a run goes on only after a failure to be tried again or without a node, and stops early at nothing else |
| BalancedNode.AttemptKeeps | packages/ddc/src/nodes/BalancedNode.ts:118-172 | the exclude list stays free of duplicates and made of nodes handed out; the last errors are the latest of the history |
| BalancedNode.RunSafe | packages/ddc/src/nodes/BalancedNode.ts:106-181 | any run: no attempt after one that did not throw, no more than allowed, and a node-less attempt throws the latest retryable node error, else the latest router error |
| BalancedNode.Rotation | packages/ddc/src/nodes/BalancedNode.ts:115-148 | n failing nodes: the first n attempts visit all in some order p, and attempts n+2k+1 and n+2k+2 both visit p[k mod n] for every k, for any choices of the router |
| BalancedNode.RunVisits | packages/ddc/src/nodes/BalancedNode.ts:115-172 | the visits that rotate are the attempts of a run under an honouring router, one for each try left |
| AuthTokens.LinkWidensIff | packages/ddc/src/auth/AuthToken.ts:178-191 | when a new link gives access its parent's chain did not |
| AuthTokens.GrowKeepsRules | packages/ddc/src/grpc/auth_token.ts:37-57 | any number of delegations keeps every token but the last with a subject, operations, bucket, piece and the permission to delegate unchanged, the expiry no later, and thirty days if there was none |
| AuthTokens.GrowDelegationOkIff | packages/ddc/src/grpc/auth_token.ts:43-45 | the token behind one that may not be delegated from stays the last, unless one delegation is made from it and it has a subject |
| AuthTokens.GrowMentionsOnceIff | packages/ddc/src/grpc/auth_token.ts:47-61 | a bucket, or a piece, mentioned at most once stays so, unless one delegation is made from a token with a subject that mentions it |
| AuthTokens.OneDelegationBreaksRules | packages/ddc/src/auth/AuthToken.ts:178-191 | a token that keeps these rules, and one delegation from it that breaks them |
| AuthTokens.GrowWidensIff | packages/ddc/src/auth/AuthToken.ts:178-191 | delegation widens access if and only if it drops predecessors that restrict bucket or piece beyond the token itself |
| AuthTokens.TwoDelegationsWiden | packages/ddc/src/auth/AuthToken.ts:178-191 | a token that keeps the rules, and two delegations from it that widen access |
| AuthTokens.AuthToken.Sign | packages/ddc/src/auth/AuthToken.ts:154-158 | the signature is the signer's over the token's bytes; the token then counts as signed unless it names another subject |
| AuthTokens.RootTokenIs | packages/ddc/src/auth/sdkToken.ts:36-45 | the root token has all three operations on all buckets for thirty days, may not be delegated from, and names the random signer of a Web3 wallet |
| AuthTokens.SignerRegistry.CreateSdkSigner | packages/ddc/src/auth/sdkToken.ts:11-26 | files the random signer under its address and disturbs no other entry |
| AuthTokens.SignerRegistry.GetSdkSigner | packages/ddc/src/auth/sdkToken.ts:28-30 | finds a signer by owner and address |
| AuthTokens.StorageNode.GetRootToken | packages/ddc/src/nodes/StorageNode.ts:103-107 | asks for the root token once and keeps the outcome, a failure too; for a Web3 wallet the subject is a registered signer |
| AuthTokens.StorageNode.CreateAuthToken | packages/ddc/src/nodes/StorageNode.ts:109-120 | the result is signed; a signed token is returned as it is, so that the call is idempotent; otherwise the next link, by which the chain stays signed by its subjects if and only if the subject is a registered signer or the user's own key; it throws if and only if there is no root token, no payload or nobody who can sign |
| AuthTokens.ForeignSubjectBreaksSigning | packages/ddc/src/nodes/StorageNode.ts:116-119 | a token for a foreign key whose next link its subject does not sign |
| WebsocketTransport.ClientStreamingCall.OnHeaders | packages/ddc/src/transports/WebsocketTransport.ts:105-113 | every deferred has the first outcome any event had for it; failing headers settle the header only |
| WebsocketTransport.ClientStreamingCall.OnEnd | packages/ddc/src/transports/WebsocketTransport.ts:119-126 | likewise for the end of the call |
| WebsocketTransport.ClientStreamingCall.OnAbort | packages/ddc/src/transports/WebsocketTransport.ts:97-103 | likewise for an abort |
| WebsocketTransport.FirstWins | packages/ddc/src/transports/WebsocketTransport.ts:90-126 | a settled deferred keeps its outcome whatever comes later |
| WebsocketTransport.PendingIff | packages/ddc/src/transports/WebsocketTransport.ts:90-126 | exactly when each deferred is still pending; never after a failed end or an abort |
| WebsocketTransport.GoodEndLeavesPending | packages/ddc/src/transports/WebsocketTransport.ts:119-126 | a call that ends with an OK status, and whose header and message stay pending |
| WebsocketTransport.OneTerminal | packages/ddc/src/transports/WebsocketTransport.ts:170-213 | the output stream gets one terminal notification, last, once the call ended or was aborted, and none before |
| WebsocketTransport.DuplexCall.OnMessage | packages/ddc/src/transports/WebsocketTransport.ts:198-200 | messages reach the stream in order until it is closed |
| WebsocketTransport.DuplexCall.OnEnd | packages/ddc/src/transports/WebsocketTransport.ts:202-213 | the first end or abort closes the stream, later ones do not touch it |
| WebsocketTransport.DuplexCall.CompleteInput | packages/ddc/src/transports/WebsocketTransport.ts:222-226 | finishing the input is ignored once the call is over |
| WebsocketTransport.UnaryCall.OnSettled | packages/ddc/src/transports/WebsocketTransport.ts:285-309 | all deferreds settle, except the message of an OK output that has none, and all four after an abort with a primitive reason |

## Left out

- Strings are their UTF-8 bytes, so a string field that is no valid UTF-8 is not an error here.
- Unknown fields are skipped or refused, not kept and written again.
- A target message that a throwing reader has changed halfway is not observable in the model, as messages are values there.
- Log2.CeilToPowerOf2Iff: for safe integers only, since a number above them stands for several integers.
- Codec.Legal: asks a packed run to be shorter than two gigabytes, because its length is read as a signed number.
- ClusterNodes and bucket caches of `BlockchainStrategy`, `StaticStrategy`: look-ups.
- `Router.getSdkToken`: the chained promise is a memo, modelled only by the root token that a node is given.
- SS58, base58 and base32 texts: addresses and CIDs are compared by the bytes they encode.
- `toIterable` and the pull source of `createContentStream`: a stream is the sequence of its chunks.
- Errors of the network during `putRawPiece` and `getFile`, which end the loops early.
- The choice of the error that `async-retry` finally reports, and its delays.
- PingStrategy.ThresholdReached: speaks of a call that no other event interrupts between counting and planning, since an interleaved rejection or ping changes the count.
- The blockchain package, DAG and CNS operations of `StorageNode`, and logging.
