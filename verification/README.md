# Verification of the seams wallet's hard core

This Dafny project models the parts of the repository whose correctness is hardest to see by reading, and proves it
for every input, every run or every interleaving.

**From circuit to slot schedule to garbled execution.** The artifact verifier rewrites a Boolean circuit so that gates
overwrite a small arena of slots: `derive_schedule_bytes` is a register allocator that frees operands before it picks
a destination. `Circuits` and `Schedules` hold the two evaluators and the general theorem that any schedule which
spares needed wires computes its circuit, for every type of value. `Allocation` and `Allocator` show that the derived
schedule is such a schedule, that none of its consistency checks can fail, and that its slot count is optimal.
`IrCodec`, `ScheduleCodec`, `Layouts`, `PackedBits` and `Bundle` cover the byte formats. `Blocks` and `Garbling` model the
half-gates kernel, with AES under the fixed key an arbitrary function; because the allocation theorem does not care what
a value is, the same theorem carries bits, zero labels and active labels, and `GarbledCircuits` and `PassiveRuntime`
follow a garbled run over reused slots down to the decoded output bytes. `PassiveRuntime` is the unframed runtime, which
the crate compiles for its tests only; `StreamRuntime` is the resumable one that ships, proved to give the same labels
however the tables are cut into frames.

**The one-use presignature pool.** `EcdsaPool` is the lifecycle crate, `PoolLifecycle` the SigningWorker's adapter with
its nine commands. `PoolSafety` proves one use over every run with a lifecycle crate that may answer anything, differently
every time; `PoolGuarantees` adds what needs the shipped crate (revisions, retries, exactly when every command
succeeds), and `PoolKeys` what its keys and bindings tell apart.
`PoolStore` lifts one use to any number of workers that interleave reads and version-checked writes of the row, and
`PoolUse` shows that one use is not none: what can be admitted can be reserved and consumed.

**The credit-window transport.** `Duplex` is one endpoint with its envelopes and polling loops, `DuplexSystem` two of them
joined by ordered channels in every interleaving, each side between calls or inside one, and `DuplexCalls` shows that the
endpoint's calls are runs of those steps. `DuplexProgress` says exactly when a side that cannot go on by itself can still
be served, and what a completed exchange leaves untaken. `DuplexLimits` gives four honest runs that mark where the
guarantees stop: acknowledgements are sent on receipt, so the window does not bound the queue of untaken messages; two
senders can strand each other for that reason; a sender may wait for ever on a peer that is done; and a completed flush
does not prevent a later message from staying untaken.

**Four smaller cores.** `Framing` (the hash-chained table stream), `PresignSessions` and `PresignRuns` (live presignature
sessions), `CssStripper`, `CssScanners`, `CssProperties`, `CssLosses`, `CssMarks` and `CssText` (the wallet build's CSS
stripper against an independent lexer) and `VoiceCapture` (the capture rules of the step-up preview).

Hashing is an arbitrary function into 32 bytes. Where a claim needs it not to collide, the lemma says so for exactly the
inputs that are hashed. Validators, JSON, base64, clocks, randomness and the cryptographic presign session are arbitrary
functions passed in. Proofs that would otherwise be slow hide definitions they do not need.

These properties do not hold for every input or run, and are stated with their exact condition:

- The frame encoder accounts for all AND gates if and only if the chunk size is a multiple of 32 or one frame suffices
  (`Framing.OrdinalsAddUp`).
- A message between honest endpoints is refused if and only if it is data and eight messages are pending
  (`DuplexSystem.OnlyPendingRefuses`, reached in `DuplexLimits.HonestMessageCanBeRefused`).
- A side inside `send` on a full window, or flushing, can still be acknowledged if and only if it has room for the data that
  comes before the next acknowledgement, and that acknowledgement is in flight or its peer gets to the data the side waits
  on: the peer is between calls, or receives what it expects, or sends and is not refused, or flushes or awaits with room
  and does not end first (`DuplexProgress.StuckGoesOnIfHopeful`; it fails in `DuplexLimits.BlockedSenderCanBeAbandoned` and
  `DuplexLimits.SenderCanStrandItsPeer`).
- Nothing is left untaken when A's `peer_completion` returns if and only if B sent nothing beyond what A had received at its
  flush (`DuplexProgress.ReturnLeavesLateMessages`; it fails in `DuplexLimits.ReturnCanLeaveMessages`).
- The stripper copies all text as written if and only if no declaration has an escaped whitespace before its colon, with at
  most whitespace and comments that leave nothing behind between them (`CssLosses.AllTextIsWritten`; it fails in
  `CssLosses.AnEscapedSpaceIsDropped`).
- It writes everything in source order if and only if no separator it writes has an opening brace between it and the next
  text (`CssMarks.OrderIsKept`; it fails in `CssMarks.ASemicolonMoves`).
- An outcome of the pool adapter passes its own validation, with a crate that may answer anything, if and only if it does
  not come from a consume that the crate answered with another binding (`PoolSafety.OnlyAChangedBindingIsInvalid`; it fails
  in `PoolSafety.ARebindingCrateIsCaught`).
- Garbling succeeds if and only if the schedule reads written slots and has distinct, filled output slots, and evaluating if
  besides the frames make up the stream (`StreamRuntime.GarbleStream`, `StreamRuntime.EvaluateStream`).

Two comments disagree with their code, and the model follows the code: `voiceCapture.ts` speaks of speech starting after
100 ms of sound, while frames of 16 ms make that 112 ms (`VoiceCapture.SpeechStartsAtSevenFrames`); and
`rolldown.config.ts` says that escapes are copied as written.

## Model

| member | source | states |
|---|---|---|
| `Circuits.EvaluateIr` | tools/ed25519-yao-verifier/verify_artifacts.py:871-884 | On inputs of the right width the growing wire array ends as the denotational run of the circuit, and the output bytes are its output wires; any other width is refused |
| `Circuits.LastUseIsLast` | tools/ed25519-yao-verifier/verify_artifacts.py:664-669 | The last use of a wire is a gate that reads it and no later gate does; outputs are used after every gate; an unused wire has no reader at all |
| `Liveness.AllGatesLive` | tools/ed25519-yao-verifier/verify_artifacts.py:579-595 | The worklist terminates on every acyclic gate list and answers true exactly when every gate has a path to some output |
| `Liveness.LiveWireIsUsed` | tools/ed25519-yao-verifier/verify_artifacts.py:579-595 | A wire on a path to an output has a last use |
| `Schedules.EvaluateSchedule` | tools/ed25519-yao-verifier/verify_artifacts.py:887-902 | On inputs of the right width the overwritten slot array ends as the slot run from the zero-filled arena; any other width is refused |
| `Schedules.SlotsHoldNeededWires` | tools/ed25519-yao-verifier/verify_artifacts.py:695-719 | Before every gate, every wire that is still read later sits unharmed in its slot, for every value type and gate meaning |
| `Schedules.OperandsAgree` | tools/ed25519-yao-verifier/verify_artifacts.py:695-711 | The two slots a scheduled gate reads hold the two wires its circuit gate reads, even if its destination is one of them |
| `Schedules.AllocationPreservesMeaning` | tools/ed25519-yao-verifier/verify_artifacts.py:660-738 | Any schedule that never overwrites a needed wire computes the outputs of its circuit, for every value type, gate meaning, input and leftover slot contents |
| `Schedules.AllocationNeedsLiveSlots` | tools/ed25519-yao-verifier/verify_artifacts.py:662-719 | No schedule that keeps needed wires apart has fewer slots than wires are live after any one gate |
| `Allocation.ArenaIsPartitioned` | tools/ed25519-yao-verifier/verify_artifacts.py:671-713 | At every loop step free slots and held slots are disjoint, held slots are pairwise distinct, and together they are exactly 0..next_slot |
| `Allocation.PartitionCoversSlots` | tools/ed25519-yao-verifier/verify_artifacts.py:671-713 | The slots held and the slots free add up to next_slot |
| `Allocation.ArenaHoldsExactly` | tools/ed25519-yao-verifier/verify_artifacts.py:671-713 | At every loop step the wires that hold slots are exactly the ones created and not yet used for the last time |
| `Allocation.SlotsArePermanent` | tools/ed25519-yao-verifier/verify_artifacts.py:695-713 | A wire never moves from the slot it was first given |
| `Allocation.DerivedAllocates` | tools/ed25519-yao-verifier/verify_artifacts.py:660-719 | The derived schedule keeps inputs in the first slots and never overwrites a slot whose wire is read later |
| `Allocation.DerivedScheduleIsCorrect` | tools/ed25519-yao-verifier/verify_artifacts.py:660-738 | Running the derived schedule gives exactly the outputs of the circuit, for every value type, gate meaning and input |
| `Allocation.OutputSlotsAreDistinct` | tools/ed25519-yao-verifier/verify_artifacts.py:715-719 | Distinct output wires end in distinct slots |
| `Allocation.SlotCountIsPeak` | tools/ed25519-yao-verifier/verify_artifacts.py:662-720 | With every gate live, the slot count is exactly the greater of the input count and the peak number of simultaneously live wires |
| `Allocation.DerivedSlotCountIsOptimal` | tools/ed25519-yao-verifier/verify_artifacts.py:662-720 | With every gate live, no allocation of the circuit uses fewer slots than the derived one |
| `Allocator.LastUses` | tools/ed25519-yao-verifier/verify_artifacts.py:662-669 | The table filled gate by gate and then by outputs is the last use of every wire |
| `Allocator.InitialSlots` | tools/ed25519-yao-verifier/verify_artifacts.py:671-682 | The starting slots, heap and member set stand for the starting arena: unused inputs free, the others in place |
| `Allocator.PopLeast` | tools/ed25519-yao-verifier/verify_artifacts.py:704-706 | heappop returns the least element and leaves the rest |
| `Allocator.SlotAllocator.Release` | tools/ed25519-yao-verifier/verify_artifacts.py:685-693 | A wire at its last use gives its slot back; the duplicate-free-slot check cannot fail, and the missing-operand check fails exactly when the wire holds no slot, which DeriveSchedule shows never to happen |
| `Allocator.SlotAllocator.Place` | tools/ed25519-yao-verifier/verify_artifacts.py:704-710 | The next wire takes the least free slot, or a new one when none is free |
| `Allocator.DeriveSchedule` | tools/ed25519-yao-verifier/verify_artifacts.py:660-720 | The mutable allocator returns the derived schedule on every acyclic circuit; none of its consistency checks can fail |
| `Bytes.Reader.Take` | tools/ed25519-yao-verifier/verify_artifacts.py:394-400 | Returns the next bytes and advances, or reports truncation and stays |
| `Bytes.Reader.Integer` | tools/ed25519-yao-verifier/verify_artifacts.py:402-403 | The integer read is the one whose fixed-width big-endian encoding is next |
| `Bytes.BigEndianRoundTrip` | tools/ed25519-yao-verifier/verify_artifacts.py:402-403 | Decoding a fixed-width big-endian encoding gives the number back |
| `Bytes.FromBigEndianRoundTrip` | tools/ed25519-yao-verifier/verify_artifacts.py:402-403 | Re-encoding a decoded field gives the bytes back |
| `IrCodec.ParseIr` | tools/ed25519-yao-verifier/verify_artifacts.py:529-576 | Accepts exactly the frozen encodings of acyclic, canonical, distinct-output circuits without dead gates and with the announced counts, and returns the circuit encoded |
| `IrCodec.GateBytesInjective` | tools/ed25519-yao-verifier/verify_artifacts.py:550-552 | A nine-byte gate record determines its gate |
| `ScheduleCodec.MinimalWidthIsMinimal` | tools/ed25519-yao-verifier/verify_artifacts.py:598-607 | The chosen width is the least number of bytes that holds every slot |
| `ScheduleCodec.ScheduleBytesLength` | tools/ed25519-yao-verifier/verify_artifacts.py:630-631 | The emitted bytes have exactly the length the parser computes from the header |
| `ScheduleCodec.EncodeSchedule` | tools/ed25519-yao-verifier/verify_artifacts.py:723-738 | The buffer grown field by field is the schedule encoding |
| `ScheduleCodec.DeriveScheduleBytes` | tools/ed25519-yao-verifier/verify_artifacts.py:660-738 | Fails exactly on a changed slot count, zero slots or a count too large for its header field, never on a slot; otherwise returns the encoding of the derived schedule |
| `ScheduleCodec.EncodableIfCountsFit` | tools/ed25519-yao-verifier/verify_artifacts.py:721-738 | A schedule with slots in range can be written exactly when its three counts fit: slots always fit the minimal width |
| `ScheduleCodec.SlotGateBytesInjective` | tools/ed25519-yao-verifier/verify_artifacts.py:637-641 | A gate record at one width determines opcode, operands and destination |
| `ScheduleCodec.DerivedGatesAccepted` | tools/ed25519-yao-verifier/verify_artifacts.py:642-646 | Every per-gate check of the parser passes on the derived gates |
| `ScheduleCodec.ReadSchedule` | tools/ed25519-yao-verifier/verify_artifacts.py:610-651 | Parsing the bytes of any schedule that passes the structural checks gives that schedule back |
| `ScheduleCodec.ParseSchedule` | tools/ed25519-yao-verifier/verify_artifacts.py:610-657 | For a parsed circuit, accepts exactly the frozen bytes of its derived schedule and returns the derived schedule |
| `Layouts.IrHeaderBytes` | tools/ed25519-yao-verifier/verify_artifacts.py:533-540 | Where magic, component, bit order, schema digests and counts stand in the bytes of a circuit |
| `Layouts.IrGateBytes` | tools/ed25519-yao-verifier/verify_artifacts.py:550-552 | Gate g stands at byte 86 + 9 g: its operation as 1, 2 or 3, then its two wires |
| `Layouts.IrOutputBytes` | tools/ed25519-yao-verifier/verify_artifacts.py:569 | Output i stands four bytes wide behind the gates |
| `Layouts.ScheduleHeaderBytes` | tools/ed25519-yao-verifier/verify_artifacts.py:723-730 | Where magic, component, slot width, circuit digest and counts stand in the bytes of a schedule |
| `Layouts.ScheduleGateBytes` | tools/ed25519-yao-verifier/verify_artifacts.py:731-735 | Gate g stands behind g others of 1 + 3 width bytes: operation, left, right and destination slot |
| `Layouts.ScheduleOutputBytes` | tools/ed25519-yao-verifier/verify_artifacts.py:736-737 | Output i stands behind the gates, one slot wide |
| `Bundle.EvaluatePair` | tools/ed25519-yao-verifier/verify_artifacts.py:951-955 | For a bundled component and any input bytes the comparison of the two evaluators cannot fail; it succeeds exactly when the circuit outputs pack, and returns them packed |
| `PackedBits.BitsToBytes` | tools/ed25519-yao-verifier/verify_artifacts.py:912-920 | Refused exactly when the wires do not fill bytes or eight of them collect to more than a byte; otherwise each byte collects its eight wires |
| `PackedBits.BitsArePacked` | tools/ed25519-yao-verifier/verify_artifacts.py:912-920 | Wires that carry bits in whole bytes are never refused, and bit i of the packed bytes is wire i |
| `Bundle.FormsAgree` | tools/ed25519-yao-verifier/verify_artifacts.py:871-902 | The two evaluators agree on every input of every acyclic circuit |
| `Blocks.XorArrays` | crates/ed25519-yao/src/passive.rs:117-125 | The byte loop computes the exclusive or of two blocks |
| `Blocks.ConditionalXor` | crates/ed25519-yao/src/passive.rs:92-99 | The block is changed by the other block when the choice bit is set and is otherwise left as it was |
| `Blocks.DoubleArray` | crates/ed25519-yao/src/passive.rs:339-350 | The byte loop computes the doubled block |
| `Blocks.DoubleIsShiftAndReduce` | crates/ed25519-yao/src/passive.rs:339-350 | On the 128-bit integer, doubling is a left shift by one that on overflow drops the top bit and adds 0x87, the doubling of section 2.3 of RFC 5297 |
| `Blocks.DoubleIsLinear` | crates/ed25519-yao/src/passive.rs:339-350 | Doubling distributes over exclusive or |
| `Blocks.DoubleIsInjective` | crates/ed25519-yao/src/passive.rs:339-350 | Different blocks have different doubles |
| `Garbling.TweakIsInjective` | crates/ed25519-yao/src/passive.rs:214-241 | Domain, ordinal below 2^63 and half are determined by the tweak |
| `Garbling.TweakIsReadBack` | crates/ed25519-yao/src/passive.rs:231-241 | The first eight bytes of a tweak read as a number are the domain; the last eight are twice the ordinal plus one for the evaluator's half |
| `Garbling.HashInputIsInjective` | crates/ed25519-yao/src/passive.rs:316-327 | Under one tweak different labels reach the cipher as different inputs |
| `Garbling.HashInputKeepsTweaksApart` | crates/ed25519-yao/src/passive.rs:316-327 | One label reaches the cipher as different inputs under different tweaks |
| `Garbling.HashInputIsAffine` | crates/ed25519-yao/src/passive.rs:316-327 | The inputs of two labels differ by the double of what the labels differ by, and the zero label's input is the tweak itself |
| `Garbling.HashMasksTheCipher` | crates/ed25519-yao/src/passive.rs:330-338 | The hash of a label and the answer of the cipher differ by exactly what the cipher was asked |
| `Garbling.QuestionsDiffer` | crates/ed25519-yao/src/passive.rs:231-327 | Garbling or evaluating, one label is never asked twice of the cipher: other domain, ordinal or half, other input |
| `Garbling.LabelsAskDifferently` | crates/ed25519-yao/src/passive.rs:316-327 | The two labels of a wire are two different questions at every gate |
| `Garbling.GarbleAndAsks` | crates/ed25519-yao/src/passive.rs:478-518 | Garbling depends on the cipher only at both labels of the left wire under the garbler's tweak and both of the right under the evaluator's |
| `Garbling.EvaluateAndAsks` | crates/ed25519-yao/src/passive.rs:542-561 | Evaluating depends on it only at the active left label under the garbler's tweak and the active right label under the evaluator's |
| `Garbling.RowsAreMasked` | crates/ed25519-yao/src/passive.rs:478-518 | Added to the two hashes of its wire, the garbler's half of a table gives the offset if the right selection bit is set and zero if not, and the evaluator's half gives the left label |
| `Garbling.SelectionBitIsParity` | crates/ed25519-yao/src/passive.rs:113-115 | The selection bit is the lowest bit of the label as a number |
| `Garbling.SelectionBitOfActive` | crates/ed25519-yao/src/passive.rs:113-115 | Because the low bit of the offset is one, the selection bit of an active label is the zero label's flipped by the value |
| `Garbling.TableRoundTrip` | crates/ed25519-yao/src/passive.rs:417-437 | Table encoding and decoding are inverse to each other |
| `Garbling.FreeXor` | crates/ed25519-yao/src/passive.rs:470-472 | For all labels and values, the evaluator's XOR label stands for the exclusive or |
| `Garbling.FreeInvert` | crates/ed25519-yao/src/passive.rs:474-476 | For all labels and values, the label passed through an inverter stands for the negation |
| `Garbling.GarblerHalfGate` | crates/ed25519-yao/src/passive.rs:478-518 | The garbler's half computes the left value and the right permutation bit |
| `Garbling.EvaluatorHalfGate` | crates/ed25519-yao/src/passive.rs:542-561 | The evaluator's half computes the left value and the masked right value |
| `Garbling.HalfGatesAnd` | crates/ed25519-yao/src/passive.rs:478-561 | For all labels, offset, tweaks, cipher and values, the evaluator's AND label stands for the conjunction |
| `GarbledCircuits.TableIsAtRank` | crates/ed25519-yao/src/passive/runtime.rs:422-438 | The evaluator's cursor finds the table of every AND gate at its place in the stream |
| `GarbledCircuits.LabelsCarryValues` | crates/ed25519-yao/src/passive.rs:383-561 | On every wire of every circuit, for any ordinal numbering both sides share, the evaluator's label is the zero label plus the plain value times the offset |
| `GarbledCircuits.SlotTablesAreWireTables` | crates/ed25519-yao/src/passive/runtime.rs:318-371 | Walking the slots of any allocation emits the very tables that walking the wires emits |
| `GarbledCircuits.SlotRunCarriesOutputs` | crates/ed25519-yao/src/passive/runtime.rs:318-461 | Over the slots of any allocation the evaluator ends with the active labels of the circuit's plain outputs |
| `GarbledCircuits.SelectionBitsDecode` | crates/ed25519-yao/src/passive.rs:113-161 | Over the derived slots, the selection bits of the two parties' output labels differ exactly in the outputs that are one |
| `GarbledCircuits.GarbledRunMatchesIr` | tools/ed25519-yao-verifier/verify_artifacts.py:871-884 | Decoding the garbled run over the derived slots gives the bytes of the IR evaluator, for every circuit, labels, offset, cipher and input bits |
| `PassiveRuntime.AllocationsAreRunnable` | crates/ed25519-yao/src/passive/runtime.rs:479-496 | In an allocation with distinct output slots every operand slot has been written before it is read, and every output slot is full |
| `PassiveRuntime.InstallInputs` | crates/ed25519-yao/src/passive/runtime.rs:463-477 | The inputs fill the first slots and every other slot is empty |
| `PassiveRuntime.TakeOutputs` | crates/ed25519-yao/src/passive/runtime.rs:483-492 | Fails exactly on an empty or repeated output slot; otherwise returns the output wires in order |
| `PassiveRuntime.GarbleFixed` | crates/ed25519-yao/src/passive/runtime.rs:317-382 | Fails exactly on a wrong input count, an operand slot never written or bad output slots; otherwise tables and zero labels are those of the slot run, and the table-cursor check cannot fail |
| `PassiveRuntime.EvaluateFixed` | crates/ed25519-yao/src/passive/runtime.rs:384-461 | Also demands one table per AND gate, and then never runs past the stream; the output labels are those of the slot run |
| `PassiveRuntime.LabelsEqual` | crates/ed25519-yao/src/passive/runtime.rs:494-503 | The branch-free comparison is equality of labels |
| `PassiveRuntime.DecodeOutputLabels` | crates/ed25519-yao/src/passive/runtime.rs:251-279 | Refused exactly when counts differ, do not fill bytes, or some label is neither of the two its wire can carry; otherwise each bit, low bit first, says whether its label is the one label |
| `PassiveRuntime.DerivedRunSucceeds` | crates/ed25519-yao/src/passive/runtime.rs:318-461 | On the derived schedule nothing is missing, the stream has the length the evaluator demands, and its outputs are the active labels of the plain outputs |
| `PassiveRuntime.GarbleEvaluateDecode` | crates/ed25519-yao/src/passive/runtime.rs:251-461 | Garble, evaluate, decode: for every circuit with distinct outputs in whole bytes nothing fails and the decoded bits are the circuit's outputs |
| `StreamRuntime.GarblerMachine.Advance` | crates/ed25519-yao/src/passive/stream_runtime.rs:199-285 | Garbles until a chunk is full or the gates are done: what was emitted and the chunk are always the tables of the slot run so far, a chunk is full or the last, the outputs are handed over exactly after all tables, and it fails only on a schedule that does not run |
| `StreamRuntime.GarblerMachine.Resume` | crates/ed25519-yao/src/passive/stream_runtime.rs:298-302 | The chunk counts as emitted and the buffer is empty; nothing else changes |
| `StreamRuntime.GarbleStream` | crates/ed25519-yao/src/passive/stream_runtime.rs:171-335 | Frame by frame: fails exactly on a wrong input count, another stream size or a schedule that does not run; otherwise the frames carry the tables of the slot run, each full but the last, as many as the receipt must show, and the labels are those of the slot run |
| `StreamRuntime.EvaluatorMachine.ProcessNonAndGates` | crates/ed25519-yao/src/passive/stream_runtime.rs:497-527 | Evaluates up to the next AND gate and stops there, consuming no table |
| `StreamRuntime.EvaluatorMachine.AcceptFrame` | crates/ed25519-yao/src/passive/stream_runtime.rs:533-597 | Accepts a frame that starts where the last ended, is as long as it says and has no table too many, and then has consumed exactly its payload |
| `StreamRuntime.EvaluatorMachine.Advance` | crates/ed25519-yao/src/passive/stream_runtime.rs:455-495 | Asks for a frame exactly while AND gates remain, and then hands over the outputs of the slot run on the tables consumed |
| `StreamRuntime.EvaluateStream` | crates/ed25519-yao/src/passive/stream_runtime.rs:429-624 | Succeeds exactly when the schedule runs and the frames make up its stream with none left over, however they are cut, and then gives the labels of the unframed evaluation |
| `StreamRuntime.StreamedRun` | crates/ed25519-yao/src/passive/stream_runtime.rs:78-624 | Both machines and decoding: for every circuit with distinct outputs in whole bytes and every frame size nothing fails and the decoded bits are the circuit's outputs |
| `PoolBindings.BindingDigest` | crates/router-ab-cloudflare/src/ecdsa_pool_lifecycle.rs:1167-1175 | The hasher fed domain, lengths and fields digests the domain-separated encoding |
| `PoolBindings.FieldsInjective` | crates/router-ab-cloudflare/src/ecdsa_pool_lifecycle.rs:1167-1175 | The length-prefixed encoding of field lists of any number is injective |
| `PoolBindings.BindingInputInjective` | crates/router-ab-cloudflare/src/ecdsa_pool_lifecycle.rs:1167-1175 | Under one domain equal hash inputs come from equal fields |
| `PoolBindings.DomainsSeparate` | crates/router-ab-cloudflare/src/ecdsa_pool_lifecycle.rs:26-34 | No hash input of one of the nine domains is one of another |
| `PoolKeys.KeyExactly` | crates/router-ab-cloudflare/src/ecdsa_pool_lifecycle.rs:1098-1142 | A pool key exists exactly for a valid scope and a named pair none of whose digests is zero |
| `PoolKeys.PartsAreApart` | crates/router-ab-cloudflare/src/ecdsa_pool_lifecycle.rs:1098-1142 | Where the hash separates what the keys hash, no digest is two parts of keys, and equal parts name equal texts |
| `PoolKeys.KeysIdentify` | crates/router-ab-cloudflare/src/ecdsa_pool_lifecycle.rs:1098-1142 | Where the hash separates, equal keys mean equal pair id, scope digest, activation, wallet, key epoch and activation epoch |
| `PoolKeys.RecordsWithOneKey` | crates/router-ab-cloudflare/src/ecdsa_pool_lifecycle.rs:699-745 | Where the hash separates, two valid records with one key are of one pair, scope digest and wallet |
| `PoolKeys.BindingExactly` | crates/router-ab-cloudflare/src/ecdsa_pool_lifecycle.rs:1144-1165 | A reservation binding exists exactly when the scope has a digest and neither hash is zero |
| `PoolKeys.BindingOfTwoPairs` | crates/router-ab-cloudflare/src/ecdsa_pool_lifecycle.rs:1144-1165 | The request part of a binding does not depend on the pair; the reservation part does, where the hash separates |
| `PoolKeys.PutExactly` | crates/router-ab-cloudflare/src/ecdsa_pool_lifecycle.rs:448-468 | PutAvailable into an empty slot succeeds exactly on material that passes its checks, has its times in order and a key; it stores that material at revision zero |
| `PoolKeys.PutAgainExactly` | crates/router-ab-cloudflare/src/ecdsa_pool_lifecycle.rs:448-468 | PutAvailable into a taken slot succeeds exactly when the slot holds what putting it first would store, and says that nothing was stored |
| `PoolSafety.ReserveIsLegal` | crates/router-ab-cloudflare/src/ecdsa_pool_lifecycle.rs:747-806 | Whatever the lifecycle crate answers, a reservation is valid and binds the very shares that were available under the same identity |
| `PoolSafety.ConsumeIsLegal` | crates/router-ab-cloudflare/src/ecdsa_pool_lifecycle.rs:809-871 | Whatever the crate answers, consuming returns the reserved material and leaves a valid record without material, or a valid tombstone |
| `PoolSafety.DestructionIsLegal` | crates/router-ab-cloudflare/src/ecdsa_pool_lifecycle.rs:874-913 | Whatever the crate answers, destroying or recovering starts from a reservation and leaves a valid tombstone of the same identity |
| `PoolSafety.RemovalIsLegal` | crates/router-ab-cloudflare/src/ecdsa_pool_lifecycle.rs:916-1004 | Whatever the crate answers, expiring, retiring and relocating start from material and leave a valid tombstone of the same identity |
| `PoolSafety.ChangesNeedTheCurrentRevision` | crates/router-ab-cloudflare/src/ecdsa_pool_lifecycle.rs:1067-1086 | Compare and swap, whatever the crate answers: a command that changes a record was aimed at its identity and current revision |
| `PoolSafety.ApplyIsLegal` | crates/router-ab-cloudflare/src/ecdsa_pool_lifecycle.rs:442-665 | Whatever the crate answers, every answer is a legal change of the stored record, matches its lifecycle and persists a valid record |
| `PoolSafety.OnlyAChangedBindingIsInvalid` | crates/router-ab-cloudflare/src/ecdsa_pool_lifecycle.rs:393-426 | Whatever the crate answers, an outcome fails its own validation exactly when the command consumes a reservation and the crate's answer to consume carries another binding |
| `PoolSafety.ARebindingCrateIsCaught` | crates/router-ab-cloudflare/src/ecdsa_pool_lifecycle.rs:393-426 | Such a crate exists: the shipped one with the binding of its consumed records changed gives, wherever consuming succeeds, an outcome that validation refuses |
| `PoolSafety.StoredRecordsAreValid` | crates/router-ab-cloudflare/src/ecdsa_pool_lifecycle.rs:699-744 | In every run, with a crate that may answer differently each time, every record persisted passes validate |
| `PoolSafety.SpentRecordsStay` | crates/router-ab-cloudflare/src/ecdsa_pool_lifecycle.rs:621-645 | Consumed records and tombstones hold no material and are never left |
| `PoolSafety.ReservationsStay` | crates/router-ab-cloudflare/src/ecdsa_pool_lifecycle.rs:503-520 | A reservation stays as it is until it is consumed or destroyed |
| `PoolSafety.IdentityIsFixed` | crates/router-ab-cloudflare/src/ecdsa_pool_lifecycle.rs:1067-1086 | Scope and pair id of a stored record never change |
| `PoolSafety.AllReservationsAgree` | crates/router-ab-cloudflare/src/ecdsa_pool_lifecycle.rs:493-535 | All Reserved answers of a run carry one and the same record, hence the same request digest, signing digest and contribution |
| `PoolSafety.AtMostOneConsumption` | crates/router-ab-cloudflare/src/ecdsa_pool_lifecycle.rs:536-564 | A run answers Consumed at most once |
| `PoolSafety.ConsumptionReturnsTheReservation` | crates/router-ab-cloudflare/src/ecdsa_pool_lifecycle.rs:536-564 | A Consumed answer returns the material of the Reserved answers, one of which precedes it and none of which follows it |
| `PoolGuarantees.ApplyAdvances` | crates/router-ab-ecdsa-pool/src/lib.rs:156-161 | Every answer leaves the record alone or advances its revision by exactly one |
| `PoolGuarantees.StoredRecordsFit` | crates/router-ab-ecdsa-pool/src/lib.rs:146-411 | In every run the revision is that of the state (0, 1, 2; a tombstone 1 or 2) and the clock readings and the lease are in order |
| `PoolGuarantees.RevisionsGrow` | crates/router-ab-ecdsa-pool/src/lib.rs:146-161 | In every run revisions never go back, and grow whenever the record changes |
| `PoolGuarantees.RacersCannotBothWin` | crates/router-ab-cloudflare/src/ecdsa_pool_lifecycle.rs:1067-1086 | In every run at most one of the commands planned on one revision changes the record |
| `PoolGuarantees.AttemptTombstonesTellWhy` | crates/router-ab-cloudflare/src/ecdsa_pool_lifecycle.rs:874-913 | When destroying or recovering succeeds, the tombstone records the given reason, or a rejected binding for any other request, with time and attempt |
| `PoolGuarantees.DestructionExactly` | crates/router-ab-cloudflare/src/ecdsa_pool_lifecycle.rs:874-913 | DestroyReserved and RecoverInterrupted succeed exactly when aimed at a reservation that was made by then, however long its lease still runs, and destroying only if its request has a binding |
| `PoolGuarantees.RemovalTombstonesTellWhy` | crates/router-ab-cloudflare/src/ecdsa_pool_lifecycle.rs:916-957 | Expiring, relocating and retiring record reason, time and attempt; expiring early and retiring for a reason other than an epoch are refused |
| `PoolGuarantees.RemovalExactly` | crates/router-ab-cloudflare/src/ecdsa_pool_lifecycle.rs:599-665 | Expire, InvalidateForRelocation and Retire succeed exactly when aimed at live material that exists by then, Expire once the material or its lease has run out, Retire for an epoch's reason; a relocation also answers on what is terminal, and at the revision before its own tombstone |
| `PoolGuarantees.ReserveExactly` | crates/router-ab-cloudflare/src/ecdsa_pool_lifecycle.rs:503-537 | Reserve succeeds exactly when it repeats the reservation, or is aimed at available material that was made by then and outlasts the request, and the lease does not overflow |
| `PoolGuarantees.ReservationHolds` | crates/router-ab-cloudflare/src/ecdsa_pool_lifecycle.rs:747-806 | A reservation binds the shares that were available, and its lease ends after a minute or with the request or the material, whichever is first |
| `PoolUse.AdmittedMaterialCanBeUsed` | crates/router-ab-cloudflare/src/ecdsa_pool_lifecycle.rs:442-665 | Material that can be admitted can be put, reserved and, until the reservation runs out, consumed by the reserving request with the admitted shares |
| `PoolGuarantees.CrateOutcomesAreValid` | crates/router-ab-cloudflare/src/ecdsa_pool_lifecycle.rs:393-426 | With the shipped crate the outcome's own validation never refuses |
| `PoolGuarantees.ReserveRetryIsIdempotent` | crates/router-ab-cloudflare/src/ecdsa_pool_lifecycle.rs:503-520 | A Reserve that was answered, sent again with any contribution and clock reading, returns the stored record unchanged |
| `PoolGuarantees.ReserveCopiesTheRequest` | crates/router-ab-cloudflare/src/durable_object/mod.rs:1307-1345 | The bound material carries the request's digests, contribution and expiry |
| `PoolGuarantees.RelocationRetryIsIdempotent` | crates/router-ab-cloudflare/src/ecdsa_pool_lifecycle.rs:615-646 | A relocation that destroyed material, sent again, returns its tombstone unchanged |
| `PoolGuarantees.PutReservedIsPutThenReserve` | crates/router-ab-cloudflare/src/ecdsa_pool_lifecycle.rs:469-492 | Admitting reserved material is admitting it and then reserving it: the same success and the same answer |
| `PoolGuarantees.ConsumeExactly` | crates/router-ab-ecdsa-pool/src/lib.rs:373-411 | A Consume aimed at a reservation is refused before the reservation time, takes the material exactly when the binding matches before lease and expiry, and otherwise burns it with the reason that applies |
| `PoolGuarantees.BindingPinsTheRequest` | crates/router-ab-cloudflare/src/ecdsa_pool_lifecycle.rs:1144-1165 | Where the hash separates the two inputs, requests with one reservation binding are one request |
| `PoolGuarantees.OnlyTheReservingRequestConsumes` | crates/router-ab-cloudflare/src/ecdsa_pool_lifecycle.rs:809-871 | Where the hash separates the two inputs, only the reserving request can consume the material |
| `PoolStore.CommitKeepsInvariant` | crates/router-ab-cloudflare/src/signing_worker/private_d1.rs:1429-1497 | A version-checked write, an answer from a terminal row and a conflict all keep the answers those of a serial run |
| `PoolStore.EveryInterleavingIsSerial` | crates/router-ab-cloudflare/src/signing_worker/private_d1.rs:1411-1502 | For any number of workers reading, computing and writing back in any interleaving, the answers are those of a serial run of the commands answered |
| `PoolStore.OneUse` | crates/router-ab-cloudflare/src/signing_worker/private_d1.rs:1411-1502 | In every interleaving all Reserved answers carry one record, at most one answer is Consumed, and it follows them with that record's material |
| `Duplex.EnvelopeRoundTrip` | crates/ed25519-yao-cloudflare-bench/src/ml_dsa.rs:236-239 | Every envelope an endpoint sends decodes to the message sent |
| `Duplex.EnvelopeIsCanonical` | crates/ed25519-yao-cloudflare-bench/src/ml_dsa.rs:268-339 | An envelope that is accepted is the encoding of the message it means |
| `Duplex.EnvelopeBytes` | crates/ed25519-yao-cloudflare-bench/src/ml_dsa.rs:236-239 | The bytes of each envelope: the kind, the counter with its lowest byte first, the payload or report |
| `Duplex.DecodesExactly` | crates/ed25519-yao-cloudflare-bench/src/ml_dsa.rs:268-340 | Which envelopes are read, by length, first byte and, for a completion, whether it is JSON |
| `Duplex.PollAcceptsTheMessage` | crates/ed25519-yao-cloudflare-bench/src/ml_dsa.rs:268-283 | Polling an envelope a peer sent is accepting the message in it, with the replies on the wire |
| `Duplex.Transport.AcceptData` | crates/ed25519-yao-cloudflare-bench/src/ml_dsa.rs:285-317 | In sequence and with room it queues the payload and acknowledges; otherwise it refuses and changes nothing |
| `Duplex.Transport.AcceptAck` | crates/ed25519-yao-cloudflare-bench/src/ml_dsa.rs:319-332 | Only the next acknowledgement of something sent is accepted |
| `Duplex.Transport.AcceptCompletion` | crates/ed25519-yao-cloudflare-bench/src/ml_dsa.rs:334-340 | Accepts one completion that is small enough and parses, and keeps its report |
| `Duplex.Transport.Poll` | crates/ed25519-yao-cloudflare-bench/src/ml_dsa.rs:268-283 | Takes one event and hands it to the matching check |
| `Duplex.Transport.Send` | crates/ed25519-yao-cloudflare-bench/src/ml_dsa.rs:229-251 | Polls until there is credit and then puts exactly one DATA envelope on the wire, or refuses an oversized payload untouched |
| `Duplex.Transport.Receive` | crates/ed25519-yao-cloudflare-bench/src/ml_dsa.rs:253-266 | Polls until a message or the completion is there, takes the oldest message and checks its length |
| `Duplex.Transport.Flush` | crates/ed25519-yao-cloudflare-bench/src/ml_dsa.rs:342-350 | Polls until everything is acknowledged, and succeeds exactly when nothing is left untaken |
| `Duplex.Transport.PeerCompletion` | crates/ed25519-yao-cloudflare-bench/src/ml_dsa.rs:352-360 | Flushes, polls until the completion is there, and takes it |
| `DuplexSystem.SideStepKeepsFlow` | crates/ed25519-yao-cloudflare-bench/src/ml_dsa.rs:229-332 | Every step of one side keeps both directions in order |
| `DuplexSystem.NextKeepsInvariant` | crates/ed25519-yao-cloudflare-bench/src/ml_dsa.rs:573-645 | Every step of the pair keeps the invariant |
| `DuplexSystem.OnlyLackReads` | crates/ed25519-yao-cloudflare-bench/src/ml_dsa.rs:229-360 | A side reads from its channel only inside a call that lacks credit, a message, acknowledgements or the completion, one message at a time |
| `DuplexSystem.WindowAndOrder` | crates/ed25519-yao-cloudflare-bench/src/ml_dsa.rs:229-332 | In every state of every interleaving acknowledged <= next_received <= sent <= acknowledged + 8 both ways, and taken followed by pending is a prefix of what the peer sent |
| `DuplexSystem.Conservation` | crates/ed25519-yao-cloudflare-bench/src/ml_dsa.rs:233-332 | In every state sent minus acknowledged is the DATA in flight plus the ACKs in flight, both ways |
| `DuplexSystem.OnlyPendingRefuses` | crates/ed25519-yao-cloudflare-bench/src/ml_dsa.rs:285-340 | Between honest endpoints a polled message is refused exactly when it is DATA and eight messages are pending; the sequence, acknowledgement and completion checks never refuse |
| `DuplexSystem.CompletionMeansDelivered` | crates/ed25519-yao-cloudflare-bench/src/ml_dsa.rs:588-645 | When A's peer_completion has returned, B is done, every message either way was received and acknowledged, and B has taken all of A's |
| `DuplexSystem.TheReportIsReturned` | crates/ed25519-yao-cloudflare-bench/src/ml_dsa.rs:334-360 | In every run, what A's peer_completion has returned is the report that B completed with |
| `DuplexSystem.TheReportWasSent` | crates/ed25519-yao-cloudflare-bench/src/ml_dsa.rs:334-370 | And some earlier step of the run is the one in which B put exactly that report on the wire |
| `DuplexProgress.StuckIsServed` | crates/ed25519-yao-cloudflare-bench/src/ml_dsa.rs:233-235 | A side inside send on a full window, or flushing unacknowledged, accepts the next message for it exactly when it is not DATA with eight pending; with none in flight everything it waits for is DATA its peer has not received, eight messages if the window is full |
| `DuplexProgress.StuckGoesOnIfHopeful` | crates/ed25519-yao-cloudflare-bench/src/ml_dsa.rs:229-360 | In every reachable state, whatever is in flight: a stuck side gets another acknowledgement in some continuation if and only if it has room for the DATA before the next ACK and an ACK is in flight or its peer is receptive; otherwise it neither sends nor is acknowledged in any continuation. Receptive is read off the peer's call, queue, credit and inbox |
| `DuplexProgress.HopelessForEver` | crates/ed25519-yao-cloudflare-bench/src/ml_dsa.rs:229-360 | A stuck side without hope keeps its counters and its log for ever, and stays without hope |
| `DuplexProgress.AbandonedForEver` | crates/ed25519-yao-cloudflare-bench/src/ml_dsa.rs:233-235 | Once B is done and nothing is in flight for A, nothing more is acknowledged in any continuation, and an A with a full window never sends again |
| `DuplexProgress.TakenStays` | crates/ed25519-yao-cloudflare-bench/src/ml_dsa.rs:352-360 | Once A awaits the completion, what its program has taken never changes |
| `DuplexProgress.FlushEnded` | crates/ed25519-yao-cloudflare-bench/src/ml_dsa.rs:342-360 | Every run in which A is past its flush has a step at which the flush returned, and A has taken nothing since |
| `DuplexProgress.ReturnLeavesLateMessages` | crates/ed25519-yao-cloudflare-bench/src/ml_dsa.rs:342-360 | In every run in which A's peer_completion returns, what is left queued is exactly what B sent beyond what A had received when its flush ended; nothing is left exactly when B sent nothing more |
| `DuplexCalls.SendIsSteps` | crates/ed25519-yao-cloudflare-bench/src/ml_dsa.rs:229-251 | On a peer's envelopes send is the call, polls, and one step that puts the DATA on the wire, or the polls reach where nothing can be polled |
| `DuplexCalls.ReceiveIsSteps` | crates/ed25519-yao-cloudflare-bench/src/ml_dsa.rs:253-266 | receive is the call, polls while nothing is there, and one step that takes the oldest message if it has the expected length |
| `DuplexCalls.FlushIsSteps` | crates/ed25519-yao-cloudflare-bench/src/ml_dsa.rs:342-350 | flush is polls while acknowledgements are outstanding, and succeeds exactly when the side has flushed |
| `DuplexCalls.PeerCompletionIsSteps` | crates/ed25519-yao-cloudflare-bench/src/ml_dsa.rs:352-360 | peer_completion is a flush, polls for the completion, and the step that returns it; the value returned is the report held before the call or one that was in the channel |
| `DuplexCalls.LoopIsPolls` | crates/ed25519-yao-cloudflare-bench/src/ml_dsa.rs:268-283 | A loop that polls is a sequence of poll steps up to where it ends, and fails exactly where nothing is there or the next message is refused |
| `DuplexCalls.EverythingInFlightFits` | crates/ed25519-yao-cloudflare-bench/src/ml_dsa.rs:229-370 | Every message in flight in every run is within its size bound |
| `DuplexLimits.HonestMessageCanBeRefused` | crates/ed25519-yao-cloudflare-bench/src/ml_dsa.rs:290-294 | Two endpoints that only send reach a state in which the bound on pending messages refuses an in-sequence message |
| `DuplexLimits.ReturnCanLeaveMessages` | crates/ed25519-yao-cloudflare-bench/src/ml_dsa.rs:342-360 | A run in which A's peer_completion returns while a message from B is still queued; ReturnLeavesLateMessages says exactly when |
| `DuplexLimits.BlockedSenderCanBeAbandoned` | crates/ed25519-yao-cloudflare-bench/src/ml_dsa.rs:233-235 | A reachable state in which A is inside send with a full window, all eight messages are in flight, B is done, and no continuation serves A |
| `DuplexLimits.SenderCanStrandItsPeer` | crates/ed25519-yao-cloudflare-bench/src/ml_dsa.rs:233-294 | A reachable state in which both sides are inside send on a full window, B refuses A's next message because it holds eight, and no continuation serves either |
| `Framing.OrdinalsAddUp` | tools/ed25519-yao-verifier/generate_phase5_stream_kats.py:242-243 | The frames account for all AND gates exactly when the chunk size is a multiple of 32 or there is at most one frame |
| `Framing.EncodeFrames` | tools/ed25519-yao-verifier/generate_phase5_stream_kats.py:202-244 | On any table of any family it succeeds exactly when every number fits its field and no full frame cuts a gate's table in two; then every frame has its offset, ordinal, chained header, payload and digest |
| `Framing.PackableMeansAllFit` | tools/ed25519-yao-verifier/generate_phase5_stream_kats.py:216-219 | The numbers fit exactly when sequence, ordinal, record count and length of every single frame do |
| `Framing.FramesPartitionTheTable` | tools/ed25519-yao-verifier/generate_phase5_stream_kats.py:89-99 | The payloads in order are the table, and headers and payloads together are exactly body_bytes |
| `Framing.FramesAreContiguous` | tools/ed25519-yao-verifier/generate_phase5_stream_kats.py:209-241 | Each frame starts where the one before ends, in bytes, AND gates and sequence |
| `Framing.ManifestPinsOpening` | tools/ed25519-yao-verifier/generate_phase5_stream_kats.py:178-199 | A manifest determines family, gate domain and pre-stream transcript |
| `Framing.ManifestLayout` | tools/ed25519-yao-verifier/generate_phase5_stream_kats.py:178-199 | What each byte range of a manifest holds: magic, version and tags, protocol and claim identifiers, session, circuit, schedule and pre-stream transcript |
| `Framing.ManifestNumbers` | tools/ed25519-yao-verifier/generate_phase5_stream_kats.py:178-199 | The numbers read back from a manifest at their offsets are gate domain, table and body sizes, frame count, chunk size, AND count and header size |
| `Framing.HeaderLayout` | tools/ed25519-yao-verifier/generate_phase5_stream_kats.py:212-230 | A header reads back magic, version and type, sequence, ordinal, record count and length, then the chained digest and the payload digest |
| `Framing.HeaderPinsPayload` | tools/ed25519-yao-verifier/generate_phase5_stream_kats.py:212-230 | Where the hash does not collide on the two digested inputs, equal headers mean equal manifest digest, sequence, payload and predecessor |
| `Framing.KindsSeparate` | tools/ed25519-yao-verifier/generate_phase5_stream_kats.py:73-74 | Three fixed characters tell the six kinds of hash input apart: transcript step, manifest, chain start, payload, frame and final transcript |
| `Framing.ChainPinsFrames` | tools/ed25519-yao-verifier/generate_phase5_stream_kats.py:212-239 | Under one manifest, equal chained digests determine every earlier header and payload |
| `Framing.FinalTranscriptPinsTheStream` | tools/ed25519-yao-verifier/generate_phase5_stream_kats.py:247-266 | If the hash does not collide on what the two streams feed it, equal final transcripts mean equal manifests, frame counts, headers, payloads and tables |
| `Framing.StepPins` | tools/ed25519-yao-verifier/generate_phase5_stream_kats.py:73-74 | If the hash does not collide on the two inputs, a transcript step determines its predecessor and message |
| `PresignSessions.SessionMap.Create` | crates/router-ab-cloudflare/src/ecdsa_presign_session.rs:123-180 | Drops expired sessions, refuses a live duplicate, and stores the new session only after its first message was accepted |
| `PresignSessions.SessionMap.Step` | crates/router-ab-cloudflare/src/ecdsa_presign_session.rs:183-291 | Refuses an invalid batch or wrong authority untouched; otherwise removes the session, and puts it back only when the batch continues |
| `PresignSessions.Feed` | crates/router-ab-cloudflare/src/ecdsa_presign_session.rs:237-251 | Messages are fed in order up to the first failure, and finished triples start the presign stage at once |
| `PresignRuns.StepLeavesOthers` | crates/router-ab-cloudflare/src/ecdsa_presign_session.rs:183-291 | A step leaves every other session id alone |
| `PresignRuns.StepOutcomes` | crates/router-ab-cloudflare/src/ecdsa_presign_session.rs:183-291 | A step that fails after the authority check removes the session, one that completes removes it, one that continues keeps its terms, and a refused one changes nothing |
| `PresignRuns.StepExactly` | crates/router-ab-cloudflare/src/ecdsa_presign_session.rs:183-291 | A step on a present session succeeds exactly on a valid batch with its terms, in time and stage, whose messages feed and which then continues or hands out a storable presignature; an invalid batch or another authority changes nothing, any other failure removes exactly the session |
| `PresignRuns.CompletionHandsOutThePresignature` | crates/router-ab-cloudflare/src/ecdsa_presign_session.rs:237-287 | The put of a completing step carries the encodings of R, k and sigma, of 33, 32 and 32 bytes, that side by side are what take gave, with the id of R and the scope and expiry of the terms |
| `PresignRuns.ContinuingStoresTheSession` | crates/router-ab-cloudflare/src/ecdsa_presign_session.rs:237-291 | A continuing step stores the session fed with the batch and polled, and answers with that poll |
| `PresignRuns.BatchesCompose` | crates/router-ab-cloudflare/src/ecdsa_presign_session.rs:237-251 | Feeding two batches in a row is feeding them as one, failures included |
| `PresignRuns.FedSessionsAreSettled` | crates/router-ab-cloudflare/src/ecdsa_presign_session.rs:237-251 | If starting the presign stage leaves finished triples behind, no fed session is left with finished triples |
| `PresignRuns.CreateLeavesLive` | crates/router-ab-cloudflare/src/ecdsa_presign_session.rs:155-180 | A create removes expired sessions only, changes no live one, and replaces an id only after it expired |
| `PresignRuns.CreateExactly` | crates/router-ab-cloudflare/src/ecdsa_presign_session.rs:123-180 | A create whose session starts succeeds exactly when its id is free or expired; it stores the polled session under its terms, answers with the poll, and leaves no expired session |
| `PresignRuns.SessionsComeFromCreates` | crates/router-ab-cloudflare/src/ecdsa_presign_session.rs:128-179 | In every run a live session goes back to a successful create whose scope, authority and expiries it has had ever since |
| `PresignRuns.OneCompletionPerCreate` | crates/router-ab-cloudflare/src/ecdsa_presign_session.rs:252-287 | Between two completions of one id there is a successful create |
| `PresignRuns.CompletionKeepsTerms` | crates/router-ab-cloudflare/src/ecdsa_presign_session.rs:252-287 | A completion hands out the authority, scope and material expiry of its create, before the ceremony expires |
| `PresignRuns.CompletionKeepsThePresignature` | crates/router-ab-cloudflare/src/ecdsa_presign_session.rs:252-287 | In every run a completion hands out the presignature that take gave, under the scope and expiry of its create |
| `CssLosses.StrippingKeepsText` | packages/wallet/rolldown.config.ts:298-371 | For every input every non-blank character outside comments, between-token whitespace and separators is written exactly once and in order, and no two characters are brought together except at a colon, brace or semicolon |
| `CssLosses.StepReadsALexeme` | packages/wallet/rolldown.config.ts:323-368 | One turn of the loop depends on the text only through the lexeme the independent lexer finds there |
| `CssLosses.OnlyTheDroppedIsLost` | packages/wallet/rolldown.config.ts:295-371 | For every input, whitespace inside strings, url() and escapes included, the characters copied are exactly the text but for what is dropped, once each and in order; what is dropped is text: whitespace behind a backslash, with nothing but whitespace, or comments that leave nothing behind, before the colon that starts a value |
| `CssLosses.AllTextIsWritten` | packages/wallet/rolldown.config.ts:295-297 | The text is copied as written if and only if no declaration has such an escape right before its colon |
| `CssLosses.AnEscapedSpaceIsDropped` | packages/wallet/rolldown.config.ts:311-314 | On a, backslash, space, colon, b the space is dropped, so the promise that escapes are copied as written fails |
| `CssMarks.MarksStandForSeparators` | packages/wallet/rolldown.config.ts:310-371 | The semicolons written are, in order, the separators that end a statement with no closing brace before the next text; each stands in source order with every character and every other one, but for opening braces it is written behind |
| `CssMarks.OrderIsKept` | packages/wallet/rolldown.config.ts:348-364 | Everything is written in source order if and only if no separator that is written has an opening brace between it and the next text |
| `CssMarks.AMarkStandsBetween` | packages/wallet/rolldown.config.ts:310-364 | Between text before a written separator and text other than an opening brace behind it stands its semicolon |
| `CssMarks.ASemicolonMoves` | packages/wallet/rolldown.config.ts:348-358 | A semicolon right before a block is written inside the block |
| `CssProperties.KeptIsIncreasing` | packages/wallet/rolldown.config.ts:298-371 | The positions kept are strictly increasing |
| `CssProperties.StepKeepsInvariant` | packages/wallet/rolldown.config.ts:323-368 | After every lexeme the pass agrees with an independent lexer on position, parenthesis depth and token starts, and has brought nothing together |
| `CssProperties.TrimmedKeeps` | packages/wallet/rolldown.config.ts:311-314 | Trimming around the value's colon brings nothing together and empties no segment |
| `CssLosses.TrimmingLosesTheDoomed` | packages/wallet/rolldown.config.ts:311-314 | Trimming around the value's colon loses the escaped whitespace right before the colon, if there is one, and no other character |
| `CssText.Stripper.Append` | packages/wallet/rolldown.config.ts:305-309 | Appends text, after one space if whitespace was pending inside a segment |
| `CssText.Stripper.EndSegment` | packages/wallet/rolldown.config.ts:310-322 | Writes the trimmed segment, after a pending semicolon, and starts a new one; valueStart is the index of a colon of the segment |
| `CssText.Stripper.Advance` | packages/wallet/rolldown.config.ts:323-368 | One turn of the loop is one lexeme of the pass, and keeps valueStart on a colon |
| `CssText.StripCssCommentsAndWhitespace` | packages/wallet/rolldown.config.ts:298-371 | Terminates on every input and returns the text of pieces that are source characters, spaces, semicolons and empty comments, with the guarantees of NothingIsBroughtTogether, OnlyTheDroppedIsLost and MarksStandForSeparators |
| `CssScanners.CommentEnds` | packages/wallet/rolldown.config.ts:326-333 | A comment ends right behind the first comment end after its opening, or with the text if there is none |
| `CssScanners.StringEnds` | packages/wallet/rolldown.config.ts:336-340 | A string ends at the first quote of its kind with an even number of backslashes before it, and runs to the end of the text exactly if there is none |
| `CssScanners.UrlBegins` | packages/wallet/rolldown.config.ts:344 | An unquoted url begins at the letters url in any case and a parenthesis, exactly if its address starts within sixteen units behind whitespace only |
| `CssScanners.UrlEnds` | packages/wallet/rolldown.config.ts:345-347 | It ends right behind the first closing parenthesis, or with the text if there is none |
| `CssScanners.SpacesAreTheseUnits` | packages/wallet/rolldown.config.ts:334 | Whitespace is the white space and line terminators of ECMAScript |
| `CssScanners.CommentLexeme` | packages/wallet/rolldown.config.ts:326-333 | At a slash and a star the pass takes a comment up to the first star and slash after both |
| `CssScanners.StringLexeme` | packages/wallet/rolldown.config.ts:336-340 | At a quote it takes a string with its closing quote, or all the rest |
| `CssScanners.UrlLexeme` | packages/wallet/rolldown.config.ts:344-347 | At an unquoted url not glued to a word it takes all up to the closing parenthesis, or all the rest |
| `CssScanners.OtherLexemes` | packages/wallet/rolldown.config.ts:334-367 | Elsewhere it takes one unit, two behind a backslash: whitespace is blank, a semicolon outside parentheses separates, the rest is text |
| `CssProperties.NothingIsBroughtTogether` | packages/wallet/rolldown.config.ts:326-332 | No two characters that were apart touch in the output, except at a colon, brace or semicolon |
| `VoiceCapture.VoicedAfter` | examples/voiceid-step-up-mock/voiceCapture.ts:37-42 | A new frame makes voiced exactly the frames that were, and once its run is three long, the last three |
| `VoiceCapture.SpeechStartsAtSevenFrames` | examples/voiceid-step-up-mock/voiceCapture.ts:43 | Speech has started exactly when some run of sound has lasted seven frames, that is 112 ms |
| `VoiceCapture.AudibleMeans` | examples/voiceid-step-up-mock/voiceCapture.ts:31-33 | A frame is audible exactly when it comes after thirteen others, has a level of at least 0.006, and is at least 2.5 times the room level |
| `VoiceCapture.OverMeans` | examples/voiceid-step-up-mock/voiceCapture.ts:44-46 | A capture is over exactly after 500 frames, or once speech has started and 94 frames follow the last voiced one |
| `VoiceCapture.QuietRoomIsLearned` | examples/voiceid-step-up-mock/voiceCapture.ts:35 | After calibration a steady quiet room is learned geometrically: its distance from the room level shrinks by 2% a frame |
| `VoiceCapture.SoundLeavesTheRoom` | examples/voiceid-step-up-mock/voiceCapture.ts:34-35 | After calibration sound never moves the room level, however long it lasts |
| `VoiceCapture.CalibrationIsTheMean` | examples/voiceid-step-up-mock/voiceCapture.ts:34 | While calibrating, the room level is the exact mean of the levels heard |
| `VoiceCapture.BackgroundStaysInRange` | examples/voiceid-step-up-mock/voiceCapture.ts:34-35 | From the first frame on the room level stays within the levels heard |
| `VoiceCapture.Capture.Push` | examples/voiceid-step-up-mock/voiceCapture.ts:28-47 | After any pushes: a frame is voiced exactly when it lies in an audible run of at least three frames, first and last are the least and greatest voiced index, speech, room level and end follow the rules, and the capture has ended by frame 500 |
| `VoiceCapture.Capture.MarkSpeech` | examples/voiceid-step-up-mock/voiceCapture.ts:58-62 | Marks the frame and keeps first and last the least and greatest voiced index |

## Left out

- Duplex.Transport.AcceptData: refuses a message whose 32-bit sequence number would overflow, where the source panics or wraps as the build profile has it; the delivery metrics are left out.
- Duplex.Transport.Send: refuses to send once the 32-bit counter is exhausted, where the source panics or wraps as the build profile has it; the delivery metrics and timings are left out.
- DuplexCalls.LoopIsPolls: requires that a report in the channel parses as JSON; the steps bound its size but do not say how the peer serialises it.
- DuplexSystem.CompletionMeansDelivered: says nothing about errors and closed sockets; a side that fails simply takes no further step.
- Framing.EncodeFrames: the table is arbitrary instead of the generator's byte pattern.
- Framing.FinalTranscriptPinsTheStream: the role messages after the stream are covered only through one transcript step.
- PoolLifecycle.Apply: errors are told apart from successes, but which error code is returned is not modelled.
- PoolStore.EveryInterleavingIsSerial: a worker may retry for ever, where the database gives up after three conflicts; sealing of rows and the cleanup index are left out.
- PassiveRuntime.GarbleFixed: overflow of the table length in machine words and the arena size metric are not modelled.
- Allocator.PopLeast: the heap is the multiset of its elements; the layout of the heap's array is not modelled.
- CssText.StripCssCommentsAndWhitespace: the regular expressions are written out as predicates on code units.
- VoiceCapture.Capture.Push: levels are exact reals, so rounding, infinities and NaN are outside the model.
- VoiceCapture.CalibrationIsTheMean: levels are exact reals; in floating point the mean is only approximate.
- VoiceCapture.BackgroundStaysInRange: levels are exact reals; rounding of the weighted mean is outside the model.
- Blocks.ConditionalXor: the two blocks are different objects; constant-time behaviour and zeroization are not modelled.
- AES and SHA-256 internals, label and key randomness, oblivious transfer, and every secrecy claim.
- StreamRuntime.EvaluateStream: frames come as values; their wire form, validation and receipts belong to other files of the crate, and byte and call counters other than those the machines compare are left out.
- The role protocol and manifests of the ed25519-yao crate.
- In the artifact verifier: directories and file descriptors, the bundle index, the benchmark manifest and the JSON corpora.
- Linked-device presign sessions, pool admission receipts, wallet relocation snapshots and the service transports of the Cloudflare crate.
- The Worker request handling, authentication and reports of the benchmark crate.
- The rest of the wallet build, and the microphone, waveform and user interface code: file copying and display, with little state of their own.
