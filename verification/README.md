# Wakaama verification

Dafny models of the parts of Wakaama (an LwM2M and CoAP stack in C) whose correctness is hardest to see from
the code, with proofs of what they are for: codecs that undo each other, block-wise transfer as a protocol,
reliable transactions, and the state machines that run for the life of a client. Constants follow the default
configuration: LwM2M 1.1, TLV, SenML-CBOR, client and server mode.

Files, from the bottom up:

- `Bytes`, `Decimal`, `Uri`, `Data`: byte buffers, decimal text, LwM2M paths, the resource tree and the decoding of
  its values.
- `Tlv`: the LwM2M TLV format, with its separate size pass.
- `Coap`, `CoapMessage`, `CoapRoundTrip`, `CoapFrames`, `CoapCodec`: CoAP options, whole messages, the round trip, what
  the parser makes of any datagram, and the loops over buffers with the size estimate.
- `Cbor`, `SenmlRecords`, `SenmlCborWriter`, `SenmlCborReader`, `SenmlCborRoundTrip`, `SenmlLabels`, `SenmlRebuild`,
  `SenmlDocument`, `SenmlCborCodec`: CBOR items, regrouping of path/value records into a tree, the SenML-CBOR
  serializer and parser as functions on bytes, what the parser makes of any record, the round trip of whole documents,
  and the loops over buffers.
- `Block`, `BlockRuns`, `Block1Sender`, `BlockTransfer`: the receiver of block-wise transfers, its runs, the Block1
  sender, and the two joined by channels that lose and repeat messages.
- `Transaction`, `TransactionRuns`, `TransactionTiming`: retransmission, callbacks and shared user data over runs.
- `Registration`, `Observe`, `ObserveRuns`, `ObserveHistory`: registration attempts, observations and notifications over
  runs, and which notifications a history of events calls for.
- `SortedList`, `RegisterMessage`, `LinkFormat`: the intrusive sorted list, the payload and query of a register request,
  and the payload as a reader of links sees it.

A loop or an object of the source is a method or a class here, proved against a function; the main results are
lemmas about these functions, over all inputs or all runs. Writers of buffers share one contract, `Bytes.Wrote`:
what lies before the write position is kept, the promised bytes follow, anything behind them may have been used as
scratch space. Clocks, sessions, object callbacks and the network are parameters. Every inductive lemma names its
own induction.

Where the code and what one would expect of it part ways, the model follows the code, and a lemma says exactly when:

- `Tlv.RoundTrip`: empty containers; `CoapRoundTrip.RoundTrip`: set but empty lists, block sizes, stale fields,
  separators at the ends of a query; `SenmlDocument.NormalIsSame`: what a SenML-CBOR document does not keep.
- `SenmlDocument.DocumentOverruns` and `Cbor.StaysInside`: contents are copied behind the end of the buffer where only
  their head fits, so a long text value overruns (`SenmlDocument.LongResourceOverruns`);
  `SenmlDocument.EmptyResourceDocument`: the last digit of a path is cut off.
- `SenmlDocument.ResourcesPicked`: asked for one resource of a larger tree, the serializer may write all its siblings.
- `CoapCodec.SizeIsExact`, `CoapCodec.LargeMaxAgeOverruns`, `CoapCodec.LongQueryOverruns`: the size estimate.
- `Cbor.ShortestHead`: four arguments are not written or read as they should be; `SenmlRecords.InstanceTwice`: a repeated
  resource instance appears twice.
- `Decimal.ReadUnsignedWraps`: 2^64 reads as 0; `Uri.OverflowIsLarge`: digits that overflow an `int`;
  `Registration.BackoffIsKept`: the doubling shift is undefined behind attempt 31.
- `BlockTransfer.OvertakingCompletesEarly`, `BlockTransfer.SkippedBlockIsAcknowledged`: reordered blocks;
  `Block1Sender.SizeChange`: a smaller block size asked for behind block 0.
- `TransactionRuns.SettledExactly`, `TransactionRuns.RemovePeerLeaksExactly`: dropped peers.
- `ObserveRuns.RequestJoinsBelow`: a request above something observed; `Observe.MinimumPeriodKept`: pmin above pmax.
- `RegisterMessage.ObjectsLengthExact`: an OSCORE object; `SortedList.NewIdIsLeastUnused`: a full list.

## Model

| member | source | states |
|---|---|---|
| `Decimal.ParseUnsigned` | core/utils.c:105-132 | the accumulating loop returns what the reading function says, including refusals |
| `Decimal.ReadUnsignedExact` | core/utils.c:105-132 | a numeral is read as its value exactly when it is below 2^64 |
| `Decimal.ReadUnsignedWraps` | core/utils.c:121-129 | 2^64 passes the overflow test and is read as 0 |
| `Decimal.TextToUnsignedRoundTrip` | core/utils.c:105-132 | every 64-bit number is read back from its digits |
| `Decimal.TextToIntExact` | core/utils.c:60-103 | a signed text below 2^64 is read as its number exactly when that fits 64 bits, and what is no numeral is refused |
| `Data.DecodeBoolExact` | data/data.c:524-583 | exactly a truth value, the digit 0 or 1 as text and the byte 0 or 1 stand for a truth value |
| `Decimal.PrintUnsigned` | core/utils.c:235-265 | writes exactly the digits at the start of the room, 0 exactly when they do not fit |
| `Uri.TextRoundTrip` | core/uri.c:225-357 | every path of up to four identifiers below 65535 is read back from its text |
| `Uri.StringToUri` | core/uri.c:225-292 | the parser's loops return what the reading function says, and overflow exactly when some number on the way does |
| `Uri.ReadNumber` | core/uri.c:57-83 | the digit loop, including its refusals and the overflow of its `int` |
| `Uri.OverflowIsLarge` | core/uri.c:57-83 | a number overflows exactly when its digits stand for more than an `int` holds, and is their value otherwise |
| `Uri.PathsDoNotOverflow` | core/uri.c:225-292 | no text that is read as a path overflows |
| `Uri.UriToString` | core/uri.c:294-357 | prints the whole text of the URI, or -1 exactly when it does not fit |
| `Tlv.EncodeIntDecodes` | data/tlv.c:68-102 | every int64 decodes to itself, and from no shorter field |
| `Tlv.EncodeUnsignedDecodes` | data/tlv.c:104-138 | every uint64 decodes to itself, and from no shorter field |
| `Tlv.HeaderDecodes` | data/tlv.c:192-343 | a header is decoded to the identifier, type and body length it was made for, whatever follows |
| `Tlv.HeaderIsShortest` | data/tlv.c:192-279 | every header that is decoded to an identifier and a length is at least as long as the one that is written, whose unused bits are zero |
| `Tlv.RoundTrip` | data/tlv.c:281-403 | the parser restores shape, identifiers, kinds and leaf values of an encodable forest exactly when it has no empty container, and otherwise gives up |
| `Tlv.TypesOnWire` | data/tlv.c:220-279 | along the encoding, at every depth, the headers carry the types of the tree: 0x40 for a leaf below a multiple resource or of a resource instance, 0xC0 for any other leaf, 0x80 for a multiple resource, 0x00 for an instance |
| `Tlv.NodeRoundTrip` | data/tlv.c:345-403 | the first node is cut out of a buffer whatever follows it |
| `Tlv.GetLength` | data/tlv.c:406-498 | the size pass loop computes the length function |
| `Tlv.CreateHeader` | data/tlv.c:220-279 | writes the header bytes and returns their number |
| `Tlv.SerializeNode` | data/tlv.c:500-645 | writes one node where the size pass expects it, -1 exactly when the size pass says so |
| `Tlv.Serialize` | data/tlv.c:500-645 | allocates exactly the computed length and fills it with the encoding, for every forest |
| `Tlv.ParseBuffer` | data/tlv.c:345-403 | the parsing loop returns what the parsing function says |
| `Coap.OptionHeaderReads` | coap/er-coap-13/er-coap-13.c:109-162 | delta and length, with one- and two-byte extensions, are read back whatever follows |
| `Coap.IntRoundTrip` | coap/er-coap-13/er-coap-13.c:164-184 | integer options are read back from the bytes written for them |
| `Coap.ComputeLog2` | coap/er-coap-13/er-coap-13.c:83-94 | the shift loop finds the highest set bit |
| `Coap.BlockRoundTrip` | coap/er-coap-13/er-coap-13.h:297-307 | number, more flag and size of every expressible block are read back |
| `Coap.BlockOfIsValid` | coap/er-coap-13/er-coap-13.c:942-957 | every received Block option describes an expressible block |
| `Coap.AnyBlockReads` | coap/er-coap-13/er-coap-13.h:297-307 | whatever the size of a block, the peer reads the largest power of two within it up to 2048; from 4096 on the size spills over into the more flag |
| `CoapRoundTrip.RoundTrip` | coap/er-coap-13/er-coap-13.c:624-985 | parsing a serialized packet restores it exactly when its fields agree with its option bitmap, it has no Proxy-Uri, its query loses no separator and an Empty message is empty |
| `CoapRoundTrip.QueryRoundTrip` | coap/er-coap-13/er-coap-13.c:185-226 | a query that is split and merged again is the same exactly when it does not begin with a separator and ends in an even number of them |
| `CoapRoundTrip.ParsedIsConsistent` | coap/er-coap-13/er-coap-13.c:714-985 | every parsed packet has fields that agree with its option bitmap |
| `CoapFrames.AnyDatagram` | coap/er-coap-13/er-coap-13.c:714-985 | every datagram is refused for its header, for its first option that is refused, or for its end, each with its code, or else is the packet that its options tell, field by field |
| `CoapFrames.UnknownOption` | coap/er-coap-13/er-coap-13.c:962-971 | an option that is not known, behind the options of any message, makes it 4.02 if its number is odd, and changes nothing but the bitmap otherwise |
| `CoapFrames.Framed` | coap/er-coap-13/er-coap-13.c:778-838 | every sequence of bytes is some options and an end, or something that no option is the beginning of |
| `CoapCodec.SizeTold` | coap/er-coap-13/er-coap-13.c:514-620 | the estimate in one sum over the contents of all options, with five bytes for each option or value |
| `CoapCodec.SizeIsExact` | coap/er-coap-13/er-coap-13.c:514-620 | a message stays within the size estimate exactly when its options, told from their lengths, spare at least nothing in total; only four integer options, by one byte, and a query can be longer than estimated |
| `CoapCodec.SizeBound` | coap/er-coap-13/er-coap-13.c:514-620 | with integer options below 2^24 and a query of few or short parts, a message never outgrows the size estimate |
| `CoapCodec.LargeMaxAgeOverruns` | coap/er-coap-13/er-coap-13.c:514-620 | a larger Max-Age as the only option overruns the estimate by one byte |
| `CoapCodec.IntOptionAllowance` | coap/er-coap-13/er-coap-13.c:164-184 | one integer option stays within its allowance exactly when its value is below 2^24 or its delta below 13 |
| `CoapCodec.QuerySpare` | coap/er-coap-13/er-coap-13.c:589-592 | what the estimate spares for a query: every part of 13 bytes or more costs a byte, of 269 or more two |
| `CoapCodec.LongQueryOverruns` | coap/er-coap-13/er-coap-13.c:589-592 | a query as the only option overruns the estimate exactly when its parts are too many and too long |
| `CoapCodec.SerializeSplit` | coap/er-coap-13/er-coap-13.c:185-226 | the loop that splits a query writes the parts the function describes |
| `CoapCodec.SerializeOptions` | coap/er-coap-13/er-coap-13.c:658-679 | the option writers, in order, produce the option bytes with their deltas |
| `CoapCodec.SerializeMessage` | coap/er-coap-13/er-coap-13.c:624-711 | writes exactly the message, Location-Query and Proxy-Uri included, and clears the lists it freed |
| `CoapCodec.BuildDatagram` | core/packet.c:877-905 | a buffer of the estimated size holds the whole message exactly when the options spare enough, and is overrun otherwise |
| `CoapCodec.ParseMessage` | coap/er-coap-13/er-coap-13.c:714-985 | the option loop returns what the parsing function says |
| `Cbor.HeadRoundTrip` | data/cbor.c:57-191 | type and argument of every item head are read back, in all five widths |
| `Cbor.ShortestHead` | data/cbor.c:57-353 | no head that is read as the same type and argument is shorter than the written one, exactly when the argument is none of 31, 255, 65535 and 2^32 - 1 |
| `Cbor.SingularRoundTrip` | data/cbor.c:193-283 | every value is read back, and no byte more, with signs and link types as the wire keeps them |
| `Cbor.TagIsSkipped` | data/cbor.c:193-230 | one semantic tag before any value is skipped |
| `Cbor.TagsAreRefused` | data/cbor.c:193-230 | two tags are refused |
| `Cbor.SerializeHead` | data/cbor.c:293-353 | writes the head, 0 exactly when it does not fit |
| `Cbor.PutSingular` | data/cbor.c:520-586 | writes the item, refuses it, or runs behind the end of the buffer, each exactly when the room says so |
| `Cbor.StaysInside` | data/cbor.c:552-563 | a string stays inside the buffer exactly when all of it fits or not even its head does |
| `Cbor.ReadSingular` | data/cbor.c:193-283 | the tag-skipping loop returns what the reading function says |
| `Cbor.LinkRoundTrip` | core/utils.c:172-195 | every object link is read back from its text |
| `SenmlRecords.FindDataItem` | data/senml_common.c:267-281 | the search loop finds the first typed node with the identifier |
| `SenmlRecords.ConvertRecords` | data/senml_common.c:23-99 | the loop over the records builds the tree the function describes, or fails with it |
| `SenmlRecords.RefusedExactly` | data/senml_common.c:53-81 | a record is refused exactly when a value lies on the way to its path, where the source would read the value as a list of children |
| `SenmlRecords.AddRecordEffect` | data/senml_common.c:53-81 | a record where nothing lies adds its leaf, extends the branches above it in order, and changes nothing else |
| `SenmlRecords.RecordAgain` | data/senml_common.c:23-99 | a record where something lies replaces that and everything below it, or clears it when it has no value, and changes nothing else |
| `SenmlRecords.InstanceTwice` | data/senml_common.c:70-75 | a second record of a resource instance is added beside the first |
| `SenmlRecords.Regroup` | data/senml_common.c:23-99 | for prefix-free valued records in any order: one leaf per record at its path, no others, distinct siblings in the order of first mention |
| `SenmlCborRoundTrip.ItemRoundTrip` | data/senml_cbor.c:68-369 | one serialized record is parsed to its path and value, taking over or setting the base name |
| `SenmlCborRoundTrip.PairsRoundTrip` | data/senml_cbor.c:102-280 | the label loop sees exactly the labels and values that were written |
| `SenmlLabels.RecordTold` | data/senml_cbor.c:68-367 | any record with any labels: refused unless each label is known, has a value of its kind and is not given again; otherwise path and value come from the pairs that give them and the base in force |
| `SenmlLabels.SumTold` | data/senml_cbor.c:313-364 | a base value is added in 64 bits to a number of the record's own type, stands in for a missing value, and refuses any other |
| `SenmlCborRoundTrip.ReadsParse` | data/senml_cbor.c:397-440 | a sequence of serialized records is parsed to the records, up to the end of the buffer |
| `SenmlCborRoundTrip.TreeReads` | data/senml_cbor.c:633-693 | the flattened records of a tree resolve, through base name and relative names, to the paths of its nodes |
| `SenmlRebuild.Rebuild` | data/senml_common.c:23-99 | the records of a tree, in the order they are written, build the tree behind what is already there |
| `SenmlRebuild.RebuildNested` | data/senml_common.c:23-99 | below a base path they build the tree inside its containers |
| `SenmlDocument.RoundTrip` | data/senml_cbor.c:695-781 | for requests without path, for an object or an instance: parsing the document of a tidy tree under the same request gives the siblings that the request leads to, all of them in normal form, exactly when there are any |
| `SenmlDocument.ResourceRoundTrip` | data/senml_cbor.c:695-781 | for requests for a resource or resource instance: the node at the path is parsed back in normal form |
| `SenmlDocument.NormalIsSame` | data/senml_cbor.c:371-395 | the normal form is the tree itself exactly when it has no non-negative INTEGER, no CORE_LINK and no multiple resource without instances |
| `SenmlDocument.EmptyDocument` | data/senml_cbor.c:750-768 | for requests up to an instance a document without nodes is refused, except under a request for the root |
| `SenmlDocument.EmptyResourceDocument` | data/senml_cbor.c:750-768 | for requests for a resource or resource instance the last character of the path is cut off; what the parser makes of that, exactly |
| `SenmlDocument.TargetExact` | data/senml_common.c:300-437 | the serializer picks exactly the siblings that the identifiers of the request lead to, and gives up exactly when one is missing |
| `SenmlDocument.TargetIsAll` | data/senml_common.c:300-437 | siblings at the level below the request are picked as they are |
| `SenmlDocument.PickedIsSelected` | data/senml_common.c:101-209 | below one object the serializer picks what the parser selects for the same request |
| `SenmlDocument.ResourcesPicked` | data/senml_common.c:386-424 | for a resource or resource instance: the instances below a first multiple resource, or else all siblings |
| `SenmlDocument.MixedRefused` | data/senml_common.c:308-326 | siblings of different upper kinds serve no request |
| `SenmlDocument.TidyFits` | data/senml_cbor.c:695-748 | for a tidy tree no name stands in the way, and the document is written whole exactly when its bytes fit, with one byte more for a link at the end |
| `SenmlDocument.DocumentOverruns` | data/senml_cbor.c:695-748 | serializing runs behind the end of the buffer exactly when it reaches a string whose head fits and whose contents do not, or a link with no byte left |
| `SenmlDocument.LongValueOverruns` | data/cbor.c:552-563 | a document with one text or opaque value overruns exactly when it is longer than the buffer |
| `SenmlDocument.LongResourceOverruns` | data/cbor.c:552-563 | the document of every resource with a text or opaque value of 1024 bytes or more overruns |
| `SenmlCborCodec.ReadItem` | data/senml_cbor.c:68-369 | the label loop returns what the parsing function says |
| `SenmlCborCodec.ReadDocument` | data/senml_cbor.c:397-455 | the record loop returns what the parsing function says |
| `SenmlCborCodec.SerializeRecord` | data/senml_cbor.c:566-631 | writes one record, with the outcome its pieces come to; a name that cannot be composed is refused |
| `SenmlCborCodec.SerializeNode` | data/senml_cbor.c:633-693 | writes and counts the records of a node and everything below it, or stops as their pieces do |
| `SenmlCborCodec.Serialize` | data/senml_cbor.c:695-781 | the result is the document of the picked nodes, or of the first of them when these fill the 1024 bytes exactly; it is an error or an overrun only if the pieces of the document come to that, or for a name that cannot be composed |
| `Block.HandleFrame` | coap/block.c:187-275 | a block touches no other transfer's entry and keeps identifiers unique |
| `Block.BlockStore.Find` | coap/block.c:75-88 | the search loop finds the entry of the identifier |
| `Block.BlockStore.Delete` | coap/block.c:110-136 | removes exactly that entry |
| `Block.BlockStore.HandleBlock` | coap/block.c:187-275 | the new list, status and output are those of the block function, in every branch |
| `BlockRuns.RunHoldsAccepted` | coap/block.c:187-275 | over any incoming blocks, each entry is the concatenation of the blocks accepted since its last block 0, with their count |
| `BlockRuns.AcceptedOffsets` | coap/block.c:239-275 | block n lies at offset n times its block size |
| `BlockRuns.AnswersOverRuns` | coap/block.c:187-275 | after any run, status and output of every block are told from the blocks accepted before it |
| `Block1Sender.SlicesPartition` | core/packet.c:348-366 | the slices of a payload join to it, with `more` false on exactly the last |
| `Block1Sender.SizeChange` | core/packet.c:368-392 | after an acknowledgement with another size the blocks from the next on carry exactly the rest exactly when the size stays, or the block was the first and is divided by the smaller size |
| `Block1Sender.RetryShrinks` | core/packet.c:410-432 | a retry uses the suggested size, or half of it when it is the current one, and is given up when it would be larger or below 16 |
| `Block1Sender.RetryChainDecreases` | core/packet.c:410-432 | whatever sizes the peer suggests, retries use strictly smaller expressible sizes |
| `Block1Sender.RetryChainTerminates` | core/packet.c:410-432 | no chain makes more than seven retries |
| `Block1Sender.RetriesFollowChain` | core/packet.c:410-432 | the retries of a chain are blocks of the payload at the sizes of the chain, and after a refused block 0 each starts a transfer of the whole payload |
| `Block1Sender.ChangeToBlock1Size` | core/packet.c:394-408 | the largest power of two within the peer's Size option, at least 16, capped by the own block size |
| `BlockTransfer.TransferIsSafe` | core/packet.c:577-786 | over every run with loss and repetition, whatever the receiver completes is the sender's payload, it refuses nothing, and the sender is at most one block ahead |
| `BlockTransfer.LosslessTransferCompletes` | core/packet.c:766-786 | without losses one round per block delivers the payload once and ends the transfer |
| `BlockTransfer.OvertakingCompletesEarly` | coap/block.c:232-274 | whatever the payload and the list, a receiver that holds the blocks up to k completes with blocks missing on the last block n exactly when n > k + 1 |
| `BlockTransfer.SkippedBlockIsAcknowledged` | coap/block.c:232-274 | another block n is acknowledged without being stored exactly when n > k + 1, repetitions of block 0 aside |
| `Transaction.RemoveMidAt` | coap/transaction.c:277-283 | with distinct message IDs, removal by ID removes the transaction that was meant |
| `Transaction.TransactionList.FreeUserData` | coap/transaction.c:517-527 | frees exactly when no other listed transaction has the same user data |
| `Transaction.TransactionList.Send` | coap/transaction.c:364-449 | new list and trace are those of the send function, in every branch |
| `Transaction.TransactionList.Step` | coap/transaction.c:451-495 | the walk that removes while it iterates is the step function |
| `Transaction.TransactionList.HandleResponse` | coap/transaction.c:285-362 | the walk over the list is the response function |
| `Transaction.ResponseTable` | coap/transaction.c:285-362 | what a response does, case by case, to the first transaction it concerns and to all others |
| `Transaction.TokenEndsRequest` | coap/transaction.c:118-149 | a message with the token of a listed request of the peer ends exactly that request: one callback more, no longer listed, the others as before |
| `Transaction.UnrelatedIsIgnored` | coap/transaction.c:285-362 | a message with neither token nor ID of anything listed for the peer changes nothing |
| `TransactionRuns.LifecycleOverRuns` | coap/transaction.c:285-449 | over every run a callback runs at most once and not while listed, user data is freed at most once and not while referenced; both happen exactly once if no peer is dropped that still has transactions |
| `TransactionRuns.ApplyKeeps` | core/packet.c:248-366 | every event keeps the lifecycle invariant, block clones that share user data included |
| `TransactionRuns.RemovePeerLeaks` | coap/transaction.c:532-545 | dropping a peer leaves everything settled exactly when nothing is listed for it |
| `TransactionRuns.RemovePeerLeaksExactly` | coap/transaction.c:532-545 | it skips the callbacks of exactly its transactions, and leaks exactly the user data that only these refer to |
| `TransactionRuns.SettledExactly` | coap/transaction.c:532-545 | after every run all callbacks have run and all unreferenced user data is freed exactly when no peer with a listed transaction was dropped |
| `TransactionTiming.ScheduleOverRuns` | coap/transaction.c:364-449 | over every run at most COAP_MAX_RETRANSMIT + 1 copies are sent, and after k copies the untouched deadline is t0 + 2 * (2^k - 1), within COAP_MAX_TRANSMIT_WAIT |
| `TransactionTiming.StepOnSchedule` | coap/transaction.c:451-495 | a step leaves what is not due alone, sends one more copy of what is, and ends what has had its copies |
| `Registration.RegistrationTerminates` | core/registration.c:530-629 | between a start and the next one at most max(1, attempts) * max(1, sequences) requests are sent and the 8-bit counters do not wrap |
| `Registration.NextKeepsValid` | core/registration.c:530-826 | the counters tell exactly how many requests were sent, after every event |
| `Registration.RefusalIsFinal` | core/registration.c:530-629 | a refusal ends the registration exactly when the last request was used up or a limit could not be read |
| `Registration.BackoffIsKept` | core/registration.c:592-617 | the next request leaves exactly when the doubling delay, or that of a new sequence, is over, if and only if the delay is doubled up to attempt 31 at most and stays within 64 bits |
| `Registration.RegisteredExactly` | core/registration.c:638-722 | a server is registered exactly when a request of it was answered with Created and it was not forgotten since |
| `Registration.RegisteredSince` | core/registration.c:638-722 | its time is that of the answer, and nothing but forgetting it changes that |
| `Registration.PendingExactly` | core/registration.c:725-826 | it waits for an answer exactly when a request got out and nothing settled it since |
| `Registration.FirstRequest` | core/registration.c:1018-1081 | after a start the first request leaves exactly when the delay is over |
| `Registration.Defaults` | core/registration.c:379-528 | five attempts one, two, four and eight minutes apart in one sequence, unless the Server object says otherwise; never more than 254 |
| `Registration.Server.Start` | core/registration.c:1018-1081 | resets the counters of a server that is idle or failed, and schedules it |
| `Registration.Server.Step` | core/registration.c:2055-2081 | one request when the hold-off is over, with its counters |
| `Registration.Server.HandleReply` | core/registration.c:638-722 | the new state is that of the reply function and stays valid |
| `Observe.ObserveContext.HandleRequest` | core/observe.c:117-159 | finds or makes observation and watcher, and modifies that watcher only |
| `Observe.ObserveContext.Cancel` | core/observe.c:246-295 | removes the first watcher that is meant, and its observation if nobody else watches |
| `Observe.ObserveContext.Clear` | core/observe.c:297-332 | unlinking while walking removes the observations below the path |
| `Observe.ObserveContext.ValueChanged` | core/observe.c:471-515 | tags the active watchers of every related path |
| `Observe.ObserveContext.Step` | core/observe.c:517-846 | list, message IDs and notifications are those of the step function |
| `Observe.StepObserved` | core/observe.c:587-836 | the inner loop, with its early end when serialization fails |
| `Observe.ClearedMembers` | core/observe.c:297-332 | exactly the observations below the path go |
| `Observe.MinimumPeriodKept` | core/observe.c:745-774 | every notification keeps pmin, whatever the values, exactly when pmax is unset or not below it |
| `ObserveRuns.StructureOverRuns` | core/observe.c:117-332 | in every reachable state each observation has a watcher, each server watches it once, and no two are of the same path |
| `ObserveRuns.RequestJoinsBelow` | core/observe.c:57-76 | a request is entered at its path exactly when nothing below the path is observed; otherwise it goes to a watcher of something below |
| `ObserveRuns.NotificationSpacing` | core/observe.c:587-841 | over every run with time in order, successive notifications of a watcher are at least pmin apart |
| `ObserveRuns.MaximumPeriodKept` | core/observe.c:763-774 | a step at or after pmax notifies if the resource can be read and serialized |
| `ObserveRuns.StepEffect` | core/observe.c:587-841 | a step does nothing to a watcher, or sends one notification that was due and records its time |
| `ObserveHistory.NotifiedExactly` | core/observe.c:587-841 | over every run in which a server keeps its watcher, a step notifies it exactly when the history of changes, notifications and requests says that a notification is owed and the value can be read and serialized |
| `ObserveHistory.ChangeIsNotified` | core/observe.c:471-603 | a new watcher is notified at the first step after a change that touches its path |
| `ObserveHistory.FollowStep` | core/observe.c:334-515 | every event changes a watcher as the history says |
| `ObserveHistory.RequestExact` | core/observe.c:117-159 | a request changes the watcher of its server at the entry it is taken to, and no other |
| `ObserveHistory.CancelExact` | core/observe.c:246-295 | a cancellation takes away the first watcher that last sent the message ID, and leaves all others |
| `ObserveHistory.StepExact` | core/observe.c:587-841 | a step notifies a watcher exactly when it is due and the value can be read and serialized, with the message ID of its place among the notifications |
| `ObserveHistory.MidsConsecutive` | core/observe.c:800-841 | a step uses one message ID for each notification, in 16 bits |
| `SortedList.ListIsSet` | core/list.c:21-105 | lists built from fresh identifiers are strictly sorted and hold what a set would |
| `SortedList.InsertedSorted` | core/list.c:21-44 | adding a fresh identifier keeps the order and adds nothing else |
| `SortedList.FindIsMembership` | core/list.c:47-58 | stopping at the first larger identifier misses nothing |
| `SortedList.NewIdIsLeastUnused` | core/list.c:107-122 | the new identifier is the least unused one exactly when there is one |
| `SortedList.List.Add` | core/list.c:21-44 | relinking puts the node in its place and keeps all others |
| `SortedList.List.Find` | core/list.c:47-58 | finds a node exactly when the identifier is in the list |
| `SortedList.List.Remove` | core/list.c:70-105 | unlinks exactly the node with the identifier and returns it |
| `SortedList.List.NewIdentifier` | core/list.c:107-122 | the counting loop computes the new identifier |
| `RegisterMessage.ObjectsLengthExact` | core/objects.c:801-860 | the size pass agrees with the writer exactly when there is no OSCORE object |
| `RegisterMessage.GetPayloadBufferLength` | core/objects.c:779-874 | the computed length is the text and a NUL |
| `RegisterMessage.AppendObject` | core/objects.c:905-970 | one object's entries: template, version in place of its slash, instances that copy the template |
| `RegisterMessage.GetPayload` | core/objects.c:876-990 | with enough room the whole text is written, without its last comma |
| `RegisterMessage.RegisterPayload` | core/objects.c:779-990 | a buffer of the computed length is filled but for two bytes |
| `LinkFormat.PayloadTells` | core/objects.c:876-990 | behind its first link the payload is read back as the versions and instances of all objects but Security, in order |
| `RegisterMessage.GetQueryLength` | core/registration.c:69-145 | the computed length is the query and a NUL |
| `RegisterMessage.GetQuery` | core/registration.c:147-253 | with enough room the whole query is written and terminated |
| `RegisterMessage.RegisterQuery` | core/registration.c:69-253 | the writer fills a buffer of the computed length exactly |
| `LinkFormat.QueryTold` | core/registration.c:147-253 | the query, byte by byte, for all names, numbers, bindings and lifetimes |

## Left out

- Floating point in text, TLV and CBOR: needs an IEEE 754 model. A CBOR float is refused after its head; thresholds of
  observations are compared as reals.
- JSON and SenML-JSON, text and opaque formats, base64, and printing signed numbers: easier members of the same kind.
- Memory allocation failures, logging, sockets, DTLS and sessions.
- Overflow of `int` and `size_t` sums of lengths of 2^31 bytes and more, and of differences of times.
- What is written behind the end of a buffer: an overrun ends the model of the call that runs into it.
- Cbor.ReadSingular: floats are refused, see above; so are they in SenmlCborCodec.ReadItem and SenmlCborCodec.ReadDocument.
- SenmlCborCodec.ReadItem: an empty text label is refused, where the source reads the byte before a null pointer; a name
  with a number that overflows (Uri.OverflowIsLarge) is refused, where the source's behaviour is undefined.
- The raw Block1 variant, the rename of an expected Block2 message ID, and an entry of one kind matched as the other.
- BlockTransfer.TransferIsSafe: the block size stays constant and the channel keeps the order of messages; the code does
  not support reordering (OvertakingCompletesEarly).
- Timeouts that steps hand back to the caller, tokens, media types and the bodies of notifications.
- TransactionRuns.LifecycleOverRuns: message IDs of listed transactions are distinct, each transaction has a callback,
  and callbacks end with `transaction_free_userData`, as those of the library do, without touching the list otherwise.
- Registration order and blocking among several servers, and registration updates; another server's outcome reaches a
  server only as a start. The limits do not change during a registration.
- Merging of attributes in `observe_setParameters`: a request replaces them.
- SenML times are read for validity and then ignored, as the conversion does. Arrays of nodes are values, so sharing of
  buffers between the parsed input and the tree is not visible.
- SenmlRecords.ConvertRecords: identifiers below a node that already holds a value are refused here, where the source
  reads the value as a list of children; RefusedExactly says when.
- SenmlDocument.RoundTrip: the tree is tidy (levels, distinct siblings, identifiers below 65535); a document holds fewer
  than 2^31 records.
- Discover, the server's parsing of registrations, bootstrap and management requests.
