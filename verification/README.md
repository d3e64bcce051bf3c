# Verified model of clickhouse-c-rs

This project models the parts of the Rust crate whose behaviour is decided in
Rust, and proves what they are for. `dafny verify dfyconfig.toml` checks all of
it.

| part | files |
|---|---|
| Byte pump of the asynchronous client over the transport-independent protocol machine | `Protocol`, `Pump`, `PumpSafety`, `PumpPeer`, `PumpDecoding`, `PumpProgress`, `PumpStream`, `AsyncClient` |
| C header scanner of the build script | `CText`, `CComments`, `CIntegers`, `CEnums`, `CEnumValues`, `CEnumRoundTrip`, `CEnumCases`, `CFunctions`, `CDefines` |
| Column trees: checks, meaning, encoding, accessors | `Columns`, `ColumnChecks`, `ColumnEncoding`, `ColumnViews`, `StringView` |
| Block builder | `BlockBuilder` |
| Allocator bridge | `AllocBridge` |
| Payload ownership | `Ownership` |
| Query options | `QueryOpts` |

`Outcomes` holds the result types and sequence helpers they share.

## How the pump is modelled

`Pump` is a small-step system in which every `await` on the stream is a step
boundary. What comes next at an `await` (how many bytes a write takes, whether a
flush or read fails, which chunk arrives, whether the future is dropped) is an
`Action` chosen by an adversary, and every list of actions is a run. The
whole-run theorems are about all such lists. The state keeps the history of the
run, among it the bytes read off the stream and those of them the core took.
`PumpPeer` adds a peer that answers once it has received everything queued for
it, and bytes in flight in both directions. `AsyncClient` has the same client
as objects whose methods loop and update fields. Its transport keeps a record of
its answers and its core a count of failed copies. Every method's run of `Pump`
grows by exactly what the answers since its start mean (`Follows`): each write was
of the whole queue, each read for a full buffer. `Valid` says that the object is
where that run ends, so the theorems apply to the methods. An operation goes on
after an answer that passes (`Unhindered`), is ended by the last one exactly when
that one does not (`EndedBy`), and gives up on a failed copy (`Refused`).

The C core behind `IolessClient` is a parameter, a `Machine`. Its contract,
`Lawful`, is what the Rust comments and documentation state of steps: a step
looks only at submitted bytes, a decided step stays decided, and a step that
needs input resumes where it stopped. Of sends they state that these append to
the output queue. `Frames` is a concrete machine that keeps half-read
frames and meets the contract; `Acks` is one that answers every byte.

Assumed of a stream: a write accepts at most the bytes it is given, a write or
read whose future is dropped moved no bytes, and a completed flush delivers
everything written before it.

## Findings

Where the code falls short of what it is for, with the exact condition.

- A future dropped (or a flush failing) between the last write and the flush
  leaves bytes unflushed until some later drain writes again, because `wrote` is
  a local of one drain. A read is awaited with unflushed bytes if and only if
  that happened (`UnflushedReadExactlyWhenTorn`); with a peer that answers once
  it has everything, that is the only way for the two to wait for each other
  (`MutualWaitNeedsATear`, `MutualWaitExactlyWhenTorn`). `DroppedFlushBlocksBoth`
  and `FramesWaitForEachOther` show that it happens.
- `read_more` takes a chunk off the stream before the core copies it, so a chunk
  the core has no memory for is lost although the client stays usable. The core
  has taken everything read if and only if no copy failed
  (`EverythingReadIsTaken`); after one failure the client has decoded what it
  read if and only if the chunk would not have decided its receive
  (`LostChunkLosesEvents`, and `FramesLoseAnEvent` for a concrete machine).
- An event decoded by a step that also queued output is lost when the last drain
  is cut. What a client has delivered and still holds are the decoded events
  without exactly those (`LostEventsExactly`, `LostIsHeld`);
  `DroppedDeliveryLosesEvent` and `AcksLoseAnEvent` show that it happens for
  machines that answer what they receive.
- `parse_enum_body` splits at every comma, reads integer literals only, and knows
  no preprocessor. `enum { A = 1 << 2, B }` gives only B, as 0, where C has 4 and
  5 (`ShiftIsNotRead`); `enum { A = F(1, 2), B }` gives a constant `2)` and B as
  1 (`CommaInvents`); a `#define` line before B becomes part of its name
  (`DirectiveInName`). The list is C's if and only if the script makes of every
  enumerator exactly what C makes of it (`ListsAgreeExactly`); for one value
  without a comma that is being read as its C value (`GivenValueIsRight`).
  `ConstantAgreesExactly` says when a single constant has its C value.
- `parse_enum_body` increments past the value it has just recorded, so an enum
  holding the largest 64-bit value overflows although C compilers accept it
  (`LargestValueStops`). `EnumRoundTrip` shows that this is the only such case.
  The model follows builds with overflow checks, where the script stops.
- A leading zero does not make a literal octal: it is read as decimal, which is
  its value in C if and only if every digit before the last is zero
  (`LeadingZeroIsDecimal`; `TenForEight` for "010").
- An unterminated block comment leaves its last character in the output
  (`UnterminatedBlockLeaks`).
- On a target whose `usize` is narrower than 64 bits the string accessor
  truncates the last offset before its debug check. The check says whether all
  rows are inside the data, except exactly for non-decreasing offsets whose last
  one does not fit `usize` and is truncated to one within the slab
  (`DebugCheckIsExact`); `TruncationPassesTheCheck` gives such a node for every
  narrower target.
- The allocator bridge passes a new size on unchecked. For a held block, heap
  and caller stay in step if and only if the system has no room or the size,
  rounded up to the alignment, fits a signed machine number (`ResizeBound`).

## Conventions

- Header text is ASCII and a character stands for a byte.
- `usize` is a parameter: at least 16 and at most 64 bits. Slices are no longer
  than the largest signed machine number, as Rust guarantees.
- Nullable and tuple nodes have the row count of their inner column and first
  child. That is decided by the C library.
- A new protocol client has nothing queued before its handshake. That is decided
  by the C library.
- Sending does not change what is decoded. A failed copy of input takes none of
  it and is reported as out of memory. A step on given bytes does not fail on one
  occasion and succeed on another, for lack of memory or otherwise. All three are
  decided by the C library.
- `ALIGN` is 16, the alignment of a 128-bit integer on current targets.
- Clearing a packet frees whatever the packet still refers to, and a packet
  that would block refers to nothing. Both are decided by the C library.

## Model

| member | source | states |
|---|---|---|
| Protocol.StepAhead | src/ioless.rs:19-26 | under the contract, stepping on the bytes at hand before the rest has arrived leads to the same state, remaining input and verdict as stepping once on all of them |
| Frames.FramesLawful | src/ioless.rs:146-215 | a decoder that consumes half frames meets the contract, so it is not vacuous |
| PumpSafety.BytesAreConserved | src/async_client.rs:175-195 | in every run, with failures and futures dropped at any await, wire bytes followed by the queue are all bytes ever queued, operation by operation, in order |
| PumpSafety.ReadsOnlyAfterDraining | src/async_client.rs:197-211 | a read is awaited only with an empty queue, a write only with a non-empty one |
| PumpSafety.QueueHoldsOneOperation | src/async_client.rs:115-133 | without queueing through `core()`, the queue is a suffix of the latest operation's output and all earlier packets are on the wire whole, so packets never interleave and an interrupted one is completed first |
| PumpSafety.UnflushedReadExactlyWhenTorn | src/async_client.rs:175-211 | a read is awaited with unflushed bytes if and only if an earlier drain was cut between its last write and its flush and nothing was flushed since |
| PumpSafety.UndisturbedRunsNeverStall | src/async_client.rs:197-211 | if no future is dropped and no write or flush fails, no read is awaited with unflushed bytes, whatever the partial writes and chunks |
| PumpSafety.DroppedFlushStalls | src/async_client.rs:190-193 | for every machine and from every quiet state, dropping a send before its flush and receiving leads to a read with unflushed bytes |
| PumpSafety.HandshakeReachesQuiet | src/async_client.rs:96-113 | such quiet states are reached by the handshake of any machine that queues a Hello and an addendum |
| PumpSafety.FramesStall | src/async_client.rs:175-195 | a concrete machine has a run that awaits a read with unflushed bytes |
| PumpSafety.SuccessMeansDrained | src/async_client.rs:115-151 | an operation reporting success leaves an empty queue, and everything flushed if and only if no drain is torn |
| PumpPeer.MutualWaitNeedsATear | src/async_client.rs:175-211 | with a peer that answers once it has everything queued for it, in every joint run: client and peer wait for each other only if a drain was torn, also when the transport delivers ahead of a flush |
| PumpPeer.MutualWaitExactlyWhenTorn | src/async_client.rs:190-193 | with a transport that delivers on a flush only, a client awaiting a read with nothing in flight and its peer wait for each other if and only if a drain is torn |
| PumpPeer.MutualWaitIsStuck | src/async_client.rs:213-219 | then only an early delivery, dropping the receive or a failing or closed transport can happen |
| PumpPeer.DroppedFlushBlocksBoth | src/async_client.rs:190-193 | for every machine and from every quiet joint state, dropping a send before its flush and receiving makes both wait |
| PumpPeer.HandshakeWithPeer | src/async_client.rs:96-113 | quiet joint states are reached by the handshake of any machine that is answered once its Hello has arrived |
| PumpPeer.FramesWaitForEachOther | src/async_client.rs:175-195 | a concrete machine and its peer come to wait for each other |
| PumpDecoding.DecodesTheWholeStream | src/async_client.rs:138-219 | every decision of every run, under any chunks, partial writes, failures and drops, is the one taken by a decoder with all bytes the core took, and any that follow, in front of it |
| PumpDecoding.ChunkingIndependence | src/async_client.rs:138-219 | of two runs over one stream, wherever they are, one has decoded a prefix of what the other has |
| PumpDecoding.WholeDecodingIsUnique | src/async_client.rs:197-211 | a stream has at most one complete list of decisions: a handshake, receives if it succeeded, up to the step its bytes do not decide |
| PumpDecoding.DecodesExactlyTheStream | src/async_client.rs:197-219 | a run that used up a stream, and awaits more of it or had its handshake refused, has decoded exactly that list |
| PumpDecoding.EofOnlyWhenInputIsMissing | src/async_client.rs:213-219 | awaiting a read with the bytes of the stream used up, the whole-stream decoder needs input too |
| PumpDecoding.MissingInputNeverDecides | src/async_client.rs:197-211 | a step that the whole stream does not decide after the decisions of one run is decided by no run |
| PumpDecoding.CallsAreForced | src/async_client.rs:96-151 | the steps made are one handshake and, only if it succeeded, receives, in every run |
| PumpStream.SameStreamSameEvents | src/async_client.rs:138-219 | any two runs that used up the same stream have decoded the same events, however it was split and whatever was dropped or failed |
| PumpStream.SameStreamSameDeliveries | src/async_client.rs:138-219 | when a ready receive step queues nothing, a run that used up the stream and awaits more has handed over exactly the events of its complete list |
| PumpStream.EverythingReadIsTaken | src/async_client.rs:213-219 | in every run the core has taken all bytes read off the stream if and only if no copy ran out of memory |
| PumpStream.ReadsAreDecoded | src/async_client.rs:213-219 | a client that lost no chunk and awaits a read has decoded exactly what it read |
| PumpStream.LostChunk | src/async_client.rs:213-219 | for every machine and from every quiet state, a receive whose chunk is not taken, repeated, awaits a read with nothing decided and the chunk gone |
| PumpStream.LostChunkLosesEvents | src/async_client.rs:213-219 | the client then has decoded what it read if and only if the chunk would have left the receive undecided |
| PumpStream.FramesLoseAnEvent | src/async_client.rs:213-219 | a concrete machine has a run that awaits a read although what it read decides an event |
| PumpProgress.NoEventIsLost | src/async_client.rs:138-151 | when a ready receive step queues nothing, a connected client has handed over exactly the events it decoded, whatever was dropped |
| PumpProgress.LostEventsExactly | src/async_client.rs:197-204 | for any machine and run, the events delivered and then held are the decoded ones, in order, without those at the positions in `Lost`, which are as many as last drains were cut; nothing is lost if and only if none was cut |
| PumpProgress.LostIsHeld | src/async_client.rs:204 | cutting a drain that holds an event adds to `Lost` exactly the position of that event, the last one decoded |
| PumpProgress.DroppedDeliveryLosesEvent | src/async_client.rs:204 | from every idle state whose next receive is decided and queues output, dropping it loses its event |
| PumpProgress.AcksLoseAnEvent | src/async_client.rs:204 | a machine that meets the contract and answers what it receives has a run in which a connected, idle client has not delivered all it decoded |
| PumpProgress.EveryAnswerDescends | src/async_client.rs:175-219 | every answer of the transport decreases remaining input, stage and queue length lexicographically |
| PumpProgress.OperationsTerminate | src/async_client.rs:175-219 | against every infinite schedule of answers over a finite input, an operation ends after finitely many |
| AsyncClient.IolessClient.Submit | src/ioless.rs:110-122 | input is appended, or nothing changes and memory ran out |
| AsyncClient.IolessClient.PendingOut | src/ioless.rs:124-137 | the queue, unchanged |
| AsyncClient.IolessClient.ConsumeOut | src/ioless.rs:139-144 | the first bytes leave the queue; more than it holds empties it |
| AsyncClient.IolessClient.Step | src/ioless.rs:146-215 | one step of the machine on the buffered input, with its output queued last |
| AsyncClient.IolessClient.Send | src/ioless.rs:162-196 | the request's output queued last |
| AsyncClient.AsyncClient.constructor | src/async_client.rs:96-110 | the client stands at the start of the small-step system; the read buffer has the size asked for, or 8192 bytes for zero |
| AsyncClient.AsyncClient.WriteOnce | src/async_client.rs:177-189 | one loop turn: one write of the whole queue; bytes move from queue to wire, and it goes on exactly if the transport took some, otherwise the operation ends as that answer says |
| AsyncClient.AsyncClient.FlushOnce | src/async_client.rs:190-194 | after a drain that wrote: one flush; everything on the wire is flushed, or the operation ends as that answer says |
| AsyncClient.AsyncClient.DrainOut | src/async_client.rs:175-195 | it succeeds if and only if every write took at least a byte and the flush passed, however partial the writes; otherwise it ends as the last answer says; bytes are conserved, success leaves the queue empty and flushed, and the run is exactly what the transport answered |
| AsyncClient.AsyncClient.ReadMore | src/async_client.rs:213-219 | one read for a full buffer: it succeeds if and only if something was read and copied; it reports out of memory if and only if the copy failed, and then the chunk is gone; otherwise it ends as the answer says and no byte moves |
| AsyncClient.AsyncClient.Deliver | src/async_client.rs:204 | the event is handed over if and only if the last drain succeeds; otherwise the outcome is what the last answer says |
| AsyncClient.AsyncClient.PumpUntilReady | src/async_client.rs:197-211 | at most one step is decided, as a whole-stream decoder decides it and leaving the client where that decoder stands; if the transport let everything pass and every copy succeeded, its event or failure is the outcome; otherwise the outcome is what the last answer says or out of memory; end of stream only when that decoder needs input; terminates |
| AsyncClient.AsyncClient.CompleteHandshake | src/async_client.rs:111-112 | the handshake ends as a whole-stream decoder ends it unless an answer or a failed copy says otherwise, with that outcome; a completed one leaves nothing queued |
| AsyncClient.AsyncClient.RecvEvent | src/async_client.rs:138-151 | from any state left by earlier operations, dropped ones included, the outcome is what a decoder gets from all input still to come if and only if the transport let everything pass and every copy succeeded, and otherwise what the last answer says, or out of memory; a closed transport gives `Eof`, and only if that decoder needs input |
| AsyncClient.AsyncClient.Send | src/async_client.rs:115-133 | the packet is queued only once everything earlier is on the wire; if the transport lets everything pass it succeeds exactly when the request can be encoded, with the packet on the wire and flushed; otherwise the outcome is what the last answer says |
| CComments.StripComments | build.rs:352-375 | the loop computes the specification `Strip` |
| CComments.StripLeavesNoOpener | build.rs:352-375 | no comment opener is left, unterminated comments included |
| CComments.UnchangedIffNoOpener | build.rs:352-375 | text is left alone exactly when it holds no opener |
| CComments.StripIsIdempotent | build.rs:383 | stripping twice is stripping once |
| CComments.StripRemovesComments | build.rs:352-375 | comments written between any pieces of code are removed and nothing else, a last one that never closes included |
| CComments.EveryTextIsSpelled | build.rs:352-375 | every text is such a spelling, so this says what stripping does to all of them |
| CComments.UnterminatedBlockLeaks | build.rs:361-368 | a block comment that never closes leaves its last character |
| CComments.DeclarationsAreStripped | build.rs:297-304 | the declarations part holds no opener and no guard, so stripping it again changes nothing |
| CComments.DeclarationsOfHeader | build.rs:297-304 | the declarations of a header written with comments anywhere are its code up to the first guard, or all of it |
| CIntegers.ParseLiteral | build.rs:464-472 | every 64-bit value is read back from its decimal spelling and every non-negative one from its hexadecimal spelling, with any suffix and padding |
| CIntegers.SpellingIsRead | build.rs:464-472 | every spelling is read as the value it spells, in any mixture of digit cases, signs, leading zeros, suffixes and padding, and as nothing if that is not a 64-bit integer |
| CIntegers.ParseExactly | build.rs:464-472 | a text is read as a value if and only if it is a spelling of it: padding, "0x" or "0X" or nothing, a sign or none, digits whose positional value it is, suffix letters, padding, within 64 bits |
| CIntegers.LeadingZeroIsDecimal | build.rs:464-472 | an octal literal, with any sign, digits, suffix and padding, is read as decimal if that is in range and else not at all; it gets its C value if and only if every digit before the last is zero |
| CIntegers.TenForEight | build.rs:470-471 | "010" is ten where C has eight |
| CText.CharClasses | build.rs:377-379 | the character classes of the scanners, character by character |
| CText.TrimCuts | build.rs:444 | trimming takes off blanks on both sides and nothing else, and leaves none there |
| CText.SplitExactly | build.rs:443 | the pieces hold no comma and joined by commas they are the text |
| CEnums.ParseEnumBody | build.rs:440-462 | the loop computes the specification `ParseBody`, stopping on overflow |
| CEnums.KeywordIsWholeWord | build.rs:388-392 | the keyword is found exactly where the whole identifier starting there is `enum` |
| CEnums.MatchBrace | build.rs:413-424 | the nesting loop finds the closing brace exactly when there is one |
| CEnums.CloseIsFirstBalance | build.rs:413-424 | that brace is the first place where opening and closing braces balance, and there is none exactly if they balance nowhere |
| CEnums.ScanHeader | build.rs:394-410 | tag and position after the keyword |
| CEnums.ScanEnum | build.rs:388-425 | a block is found exactly at a whole keyword whose header leads to a closed brace, and the scan goes on after it |
| CEnums.ExtractEnums | build.rs:382-438 | the cursor loop with its jumps computes the specification `Enums` over the stripped text |
| CEnumValues.CountersAgreeExactly | build.rs:442-459 | the script goes on counting from C's value if and only if all enumerators so far were counted as in C, or after the last one that was not the two stand at the same value |
| CEnumValues.ConstantAgreesExactly | build.rs:448-459 | a constant has its C value if and only if the value read is the one given or, for one that is counted, the counters agree before it |
| CEnumValues.ListsAgreeExactly | build.rs:440-462 | the extracted list is C's if and only if, after C's constants so far, the script adds for each enumerator exactly what C adds |
| CEnumValues.EntryExactly | build.rs:444-458 | a piece, trimmed, is nothing, a name to be counted, or split at its first equals sign into a name and the text of a value; one whose value is not read is skipped |
| CEnumRoundTrip.GivenValueIsRight | build.rs:448-455 | for a value without a comma that holds if and only if it is read as its C value |
| CEnumCases.ShiftIsNotRead | build.rs:451-453 | `A = 1 << 2, B` gives B = 0, where C has A = 4, B = 5 |
| CEnumCases.CommaInvents | build.rs:443 | `A = F(1, 2), B` gives `2)` = 0 and B = 1, whatever A is in C |
| CEnumCases.DirectiveInName | build.rs:456-458 | `A = 1,` and a line `#define N 7` before B give a constant named by the line and B |
| CEnumCases.LargestValueStops | build.rs:454-455 | `enum { A = 9223372036854775807 }` stops the script |
| CEnumRoundTrip.PiecesMean | build.rs:440-462 | any pieces are read as the constants their entries list; reading stops exactly when one is the largest 64-bit value |
| CEnumRoundTrip.BodyMeans | build.rs:440-462 | the text between the braces of any enumerator list is read as the constants `Meaning` assigns to it, under the same exact condition |
| CEnumRoundTrip.BlockExactly | build.rs:388-433 | a block with tag, body and rest is found if and only if the text is "enum", whitespace, the tag or nothing, whitespace, a brace, a body whose braces balance, a closing brace and the rest, the keyword and the tag being whole identifiers |
| CEnumRoundTrip.EnumRead | build.rs:388-433 | one written enum, tagged or not, is read as its block in front of the rest |
| CEnumRoundTrip.FillerSkipped | build.rs:387-435 | text whose enum keywords lead to no brace yields nothing |
| CEnumRoundTrip.EnumRoundTrip | build.rs:382-462 | any list of enums in any spacing, with any brace-free enumerator texts, filler and comments anywhere, is extracted block by block, None if and only if some constant is the largest 64-bit value; the blocks are C's if and only if the script makes of every enumerator exactly what C does |
| CEnumRoundTrip.InventoryRoundTrip | build.rs:245-252 | a header with comments anywhere and any implementation behind its guard gives the blocks of its declarations in the inventory, with the same two exact conditions |
| CFunctions.ScanDeclaredFunctions | build.rs:307-332 | the jumping scan returns, in order and with multiplicity, what a look at every position returns |
| CFunctions.ListedExactly | build.rs:306-332 | a name is listed if and only if it stands somewhere as a whole identifier starting with "chc_" and not with "chc__", followed by spaces, tabs, newlines, carriage returns or form feeds, or nothing, and then an opening parenthesis |
| CFunctions.FunctionsOfTwo | build.rs:306-332 | what is listed of two texts that do not run into each other is what is listed of each, in order |
| CFunctions.FunctionsRoundTrip | build.rs:306-332 | declarations written in filler that declares nothing are listed in order and with multiplicity |
| CFunctions.NothingInside | build.rs:319-321 | the jump over an identifier misses nothing |
| CDefines.ExtractDefine | build.rs:474-491 | the loop computes the specification: the first defining line decides |
| CDefines.ReadDefine | build.rs:476-488 | a macro line in any spacing is a writing of the macro and gives its value |
| CDefines.WritingIsRead | build.rs:476-488 | a line that defines one macro, with any text after the name, says of another nothing and of that one what its text is read as |
| CDefines.SilentExactly | build.rs:476-487 | a line says nothing about a macro if and only if it is not padding, "#define", a gap, that whole name and whatever follows |
| CDefines.OtherMacroIsSilent | build.rs:482-487 | a line that defines any other macro says nothing, also if one name starts with the other |
| CDefines.NoDirectiveIsSilent | build.rs:478-480 | neither does a line with anything but the directive after its padding |
| CDefines.LinesOf | build.rs:476 | a file is cut at its newlines, a carriage return before one goes with it, and a last line without an end counts if it is not empty |
| CDefines.EveryTextHasLines | build.rs:476 | every text is such a file |
| CDefines.FirstDefineAfter | build.rs:476-490 | the first line that is a writing of the macro decides, also when its value does not parse; earlier lines that are not and later lines make no difference |
| CDefines.NoDefine | build.rs:476-490 | without such a line there is no value |
| CDefines.DefineRoundTrip | build.rs:474-491 | a macro written in a file with any comments, line ends, earlier lines that are no writing of it and later lines is read with its value |
| Columns.RowsAreBounded | src/builder.rs:302-304 | an accepted tree has at most as many rows as the largest slice has bytes, so a saturated offset never matches |
| Columns.ArrayRow | src/builder.rs:79-90 | an array row is the slice of the element rows between its neighbouring ends |
| Columns.ArrayPartitionsElements | src/builder.rs:79-90 | the rows of an array column in order are exactly the rows of its element column |
| ColumnChecks.ValidateOffsets | src/builder.rs:291-305 | Ok exactly for as many non-decreasing offsets as rows, with the last one saturated |
| ColumnChecks.ValidateString | src/builder.rs:307-310 | Ok exactly if moreover the true last offset is within the data, at any `usize` width |
| ColumnChecks.ValidateLowCardinalityKeys | src/builder.rs:312-344 | Ok exactly for a width of 1, 2, 4 or 8, the exact slab length over unbounded numbers, and every key inside the dictionary |
| ColumnChecks.BuildFixed | src/builder.rs:36-53 | Ok exactly if the width is positive and the unbounded product of rows and width is within the data; the node is sound |
| ColumnChecks.BuildString | src/builder.rs:55-65 | Ok exactly for one non-decreasing end per row, the last within the data; the node is sound |
| ColumnChecks.BuildNullable | src/builder.rs:67-77 | Ok exactly if the null map has one entry per inner row; the node is sound |
| ColumnChecks.BuildArray | src/builder.rs:79-90 | Ok exactly for one non-decreasing end per row, the true last one equal to the element row count; saturation never admits another; the node is sound |
| ColumnChecks.BuildLowCardinality | src/builder.rs:92-108 | Ok exactly for a width of 1, 2, 4 or 8, a slab of rows times width and keys inside the dictionary; a negative width is an error; the node is sound |
| ColumnChecks.BuildTuple | src/builder.rs:110-143 | Ok exactly for at least one child, scratch of the same length and equal row counts; the scratch then points to the children, and on a row mismatch only the pointers before it are set |
| ColumnEncoding.EndAt | src/builder.rs:57-59 | cumulative ends cut a concatenation back into its parts |
| ColumnEncoding.TwoByteKeys | src/builder.rs:320 | which byte of a two-byte key is the low one, in either byte order |
| ColumnEncoding.KeyReadsBack | src/builder.rs:318-323 | a key written in its width and byte order is decoded to itself |
| ColumnEncoding.EncodingReadsBack | src/builder.rs:41-143 | at any nesting, encoded values, nullable dictionaries with key zero for null included, form a tree meeting every constructor's condition whose rows are those values |
| ColumnEncoding.KeyZeroIsNull | src/builder.rs:92-108 | the dictionary of a nullable column of low cardinality is one filler, at entry zero, and the distinct values, and exactly the null rows have key zero |
| ColumnViews.ViewsExactly | src/block.rs:272-394 | of an accepted tree each accessor answers exactly for its own layout: the bytes of the rows without the slack of a longer slab, offsets, null map, or keys |
| ColumnViews.ReadRowIsRow | src/block.rs:272-394 | a reader with the declared type and only the accessors gets exactly the rows of any accepted tree of that type |
| ColumnViews.EncodedValuesAreRead | src/block.rs:272-394 | values encoded and read through the accessors come back |
| StringView.ViewStaysInside | src/block.rs:289-313 | for any offsets, the returned data is the prefix of the slab that the low bits of the last offset claim, or all of it |
| StringView.MissingExactly | src/block.rs:296-311 | when the accessor returns nothing |
| StringView.RowsInsideExactly | src/block.rs:284-313 | every row is inside the data if and only if the offsets do not decrease and stay within capacity |
| StringView.DebugCheckIsExact | src/block.rs:300-304 | for every published node, the debug check says whether all rows are inside, unless and only unless the offsets do not decrease and the last one passes `usize` and is truncated to one within the slab |
| StringView.TruncationPassesTheCheck | src/block.rs:300-305 | on every narrower target some node passes the check with a row outside |
| StringView.RowsMakeUpTheData | src/block.rs:289-313 | then the rows concatenate to exactly the returned data and are the rows of the tree |
| BlockBuilder.FirstCallSetsRowCount | src/builder.rs:202-228 | after any calls the block holds exactly the columns that agree with the first call's row count, in order |
| BlockBuilder.Builder.Reserve | src/builder.rs:223-224 | growing may move the columns to another buffer, contents kept |
| BlockBuilder.Builder.Push | src/builder.rs:202-228 | the raw view is the current buffer with the accepted columns after every call; a rejected call changes nothing |
| AllocBridge.CheckedAlloc.TakeBlock | src/alloc.rs:136-153 | the block leaves the live map; a wrong layout or unknown block is remembered |
| AllocBridge.CheckedAlloc.Alloc | src/alloc.rs:162-171 | null, or an address not in use, recorded with its layout |
| AllocBridge.CheckedAlloc.Dealloc | src/alloc.rs:173-178 | the block leaves the live map under the layout check |
| AllocBridge.CheckedAlloc.Realloc | src/alloc.rs:180-193 | the block moves to the answered address with the new size, stays on failure, or, for a size no layout describes, is gone and the allocator panics |
| AllocBridge.LayoutIs | src/alloc.rs:58-65 | a size has the sixteen-byte layout of at least one byte, unless rounded up it passes the largest signed machine number |
| AllocBridge.Bridge.Alloc | src/alloc.rs:66-72 | the system is asked exactly when a layout has the size, and its answer is what the caller gets; otherwise null; effect on heap and ledger; they stay in step |
| AllocBridge.Bridge.Realloc | src/alloc.rs:74-92 | for any arguments, whether the system is asked, the effect on heap and ledger, null pointers and release by size zero included; with a held block's own size they stay in step unless it is resized too far |
| AllocBridge.Bridge.Free | src/alloc.rs:94-103 | for any arguments, the effect on heap and ledger; with a held block's own size, or null, they stay in step |
| AllocBridge.ResizeBound | src/alloc.rs:83-91 | resizing a held block passes on its own layout and the new size as it is; heap and ledger stay in step if and only if the system has no room or the size rounded up fits a signed machine number |
| AllocBridge.RunsSimulate | src/alloc.rs:58-194 | over every run of a caller honest about sizes, under any failures and address reuse: nothing stops it but resizing too far, and until then live blocks are the ledger with sizes raised to one, no layout is ever wrong, and the heap is clean if and only if the ledger is empty |
| AllocBridge.WrongSizeIsNoticed | src/alloc.rs:94-103 | a wrong size on release is noticed exactly when it differs once raised to one, and does nothing when no layout has it |
| AllocBridge.UnknownBlockIsNoticed | src/alloc.rs:136-153 | releasing or resizing a block the allocator does not know is noticed whenever a layout has the size presented, and changes nothing else |
| Ownership.CSide.PacketClear | src/sys.rs:655 | the packet's object, if any, is freed |
| Ownership.TakeBlock | src/client.rs:594-601 | the pointer leaves the packet, null or not |
| Ownership.TakeException | src/client.rs:603-610 | the pointer leaves the packet unless null |
| Ownership.TakeHandshakeException | src/client.rs:468-478 | a rejection's exception is freed |
| Ownership.EventFromRaw | src/client.rs:562-592 | the event with its payload, or an error leaving the packet as it is |
| Ownership.RecvEvent | src/client.rs:361-372 | blocking and transport-independent receive, freeing only live objects: its effect is `Receive`, which the next four rows spell out |
| Ownership.ReceiveByKind | src/client.rs:566-590 | a packet of kind data, totals, extremes, log, profile events or exception gives its object to the event and nothing is freed |
| Ownership.ReceiveFrees | src/client.rs:566-592 | the object of a packet of any other kind is freed; the six other known kinds give an event without one, an unknown one an error |
| Ownership.ReceiveNothing | src/client.rs:594-610 | a packet without an object is an error for the kinds that take one along and for unknown ones, and else an event |
| Ownership.ReceiveFails | src/ioless.rs:201-215 | a call that fails frees what its packet holds and reports its error; one that would block is a wait for input without a transport and an error with one |
| Ownership.ReceiveSettles | src/ioless.rs:201-215 | after a receive the object is the event's or has been freed; an event comes out exactly of a successful call with a known kind and the object that kind owns, and any other outcome is named |
| Ownership.EverythingIsFreedOnce | src/client.rs:361-372 | over every run of receives, handshakes and drops each object handed over is freed exactly once or owned by a held event; with no events nothing is live |
| QueryOpts.OwnStrings | src/query.rs:128-137 | one terminated buffer per string in order, or the first string with a null |
| QueryOpts.PointAll | src/query.rs:139-157 | the shared iterator gives settings then parameters their own positions |
| QueryOpts.New | src/query.rs:128-183 | fails exactly when some string holds a null byte, naming kind and byte position of the first; otherwise every setting and parameter reads back as its own, up to the null |

## Left out

- CEnumRoundTrip.EnumRoundTrip: does not cover enumerators holding a brace, as in a character constant, which end the block early or not at all; and when the text of one enumerator makes more constants than C has there, all of them named as C could name them (`F(x, P, Q, y == 2)`), it says what is extracted but not when that is C's.
- CEnumRoundTrip.InventoryRoundTrip: does not cover the same enumerators.
- The C library: type names, block and packet encoding, compression, hashing. It appears only through the contracts named above.
- TCP, TLS, file descriptors, clocks, deadlines and cancellation tokens.
- Calls through `core()` other than sends: the small-step system lets a caller queue through it, not submit or step.
- Characters beyond ASCII in headers, where the build script turns each byte into a character of its own.
- Builds of the build script without overflow checks, where an enum holding the largest 64-bit value wraps instead of stopping.
- Generated file contents: sorting, formatting, count sentinels and the scan of Rust items.
- Memory contents across a reallocation, which the allocator behind the bridge copies, and what follows once it has panicked in a call from C.
- What C makes of enumerators other than bare names and integer literals, their expressions and preprocessor lines: it is part of the written enum, not computed.
- Null and short slabs in accessors other than the string one: the slab is as long as its node says.
- `Block::validate`, which is one call into the C library per column, and the layout for empty `Nothing` columns, which no constructor builds.
- Error messages and the row numbers in them.
- Pointer provenance, pinning, lifetimes and thread markers.
