# Verification model of the oif-starknet solver

The solver watches Hyperlane7683 contracts on several chains for `Open` events, fills each order on its
destination chain and settles it there. This project models the parts of it that carry state, arithmetic
or a wire format, and proves what they promise for every input, every answer of the outside world and
every interleaving.

- **Listeners.** `ListenerRuns` is a transition system of one network's listener: launch, backfill,
  polling, chunks that fail, persists that fail, crashes, power losses, restarts, a state file that is reset, and a
  head that moves as it likes. `Listener` has the two chunk loops, the per-chunk processing and the
  resume rule as methods on a class; `ListenerRefinement` shows that every call of a loop is a stretch
  of a run of that system. `SolverState` is the state file, `StateFileRuns` its concurrent updates, step by
  step, with crashes and power losses between the steps; `StateFileRefinement` links the two.
- **Wire format.** `OrderEncoder` is the hand-written ABI encoder, `AbiSpec` the encoding function of the
  "Formal Specification of the Encoding" section of the Solidity Contract ABI Specification it is proved
  against, `FeltDecoder` the event decoder, `WireRoundTrip` both together, `WireShapes` events of every other
  shape, `EndToEnd` the way of an order from the tool to the destination settler. `StarknetUtil`, `Hex`,
  `Types`, `EvmOrder`, `Bytes` and `Integers` are the conversions they use.
- **Fill and settle.** `HandlerProtocol` is a transition system of several goroutines filling orders:
  handler lookup step by step, the fill under the handler's mutex, and the destination contract.
  `HandlerRuns` holds its theorems, `HandlerRefinement` the link to the handler class. `HyperlaneEvm`,
  `HyperlaneStarknet` and `Solver` are the handlers and the orchestrator as classes; `OrderStatus`,
  `DestinationChain`, `Approvals`, `Handlers` and `Intents` hold what they share, `Journal` the gating rule
  their sends have to keep, `Settlements` what a finished call means, `Deliveries` logs that show what it does
  not, `Rules` the profitability rule.

What the outside world does is a parameter: the node's head and logs, the answers of each contract call
(`DestinationChain.Reply`), what becomes of a transaction, file system failures, context cancellation, the
balance rule's verdict and whether a client can be made. `Runs` defines runs of a transition system.

## Model

| member | source | states |
|---|---|---|
| ListenerRuns.PositiveStartNeverSkips | solver/solvercore/solvers/hyperlane7683/listener_base.go:71-264 | In every run with a positive start block, every block between the first cursor and any cursor the listener works from or would resume from has been passed through a successful chunk, although the persisted block may go down |
| ListenerRuns.RelativeStartCanSkip | solver/solvercore/solvers/hyperlane7683/listener_base.go:209-255 | With a start block of zero or below, a crash and a restart at a later head jump over the blocks in between: a concrete run for every such configuration |
| ListenerRuns.NeverSkipsIffPositiveStart | solver/solvercore/solvers/hyperlane7683/listener_base.go:206-255 | No run skips a block if and only if the configured start block is positive |
| ListenerRuns.NoGapUnlessALaunchJumpsAhead | solver/solvercore/solvers/hyperlane7683/listener_base.go:209-255 | Run by run, for every start block: blocks are passed over exactly by the launches that resume above what is covered |
| ListenerRuns.StartBlockIsNeverProcessed | solver/solvercore/solvers/hyperlane7683/listener_base.go:91-95 | The configured start block is where the cursor stands, so no run ever processes it or a block below it |
| ListenerRuns.PersistedBlockGoesDownIff | solver/solvercore/solvers/hyperlane7683/listener_base.go:101-122 | In every run, a step lowers the persisted block exactly if it resets the file to a lower default, loses power and comes back with a lower earlier file, or persists a polling chunk that ends below it; a backfill chunk never does |
| ListenerRuns.FirstPollChunkLowersIff | solver/solvercore/solvers/hyperlane7683/listener_base.go:91-122 | For the first chunk of a poll that is: the polling cursor plus the chunk size, cut at the safe block, is below the persisted block |
| ListenerRuns.PersistedBlockGoesUp | solver/solvercore/solvers/hyperlane7683/listener_base.go:104-192 | From a state between two processes the persisted block never goes down, relaunches included, as long as the file is not reset, power is not lost, no backfill chunk succeeds and no polling chunk fails |
| ListenerRuns.CanGoDownIff | solver/solvercore/solvers/hyperlane7683/listener_base.go:104-188 | Without resets and power losses some run lowers the persisted block if and only if two blocks can ever be safe above the first cursor, as in every configuration but those next to the largest uint64 |
| ListenerRuns.BrokenBackfillLowers | solver/solvercore/solvers/hyperlane7683/listener_base.go:173-187 | For every start block, zero and below included, and every chunk size that fits below the largest uint64: a run in which the first poll after an interrupted backfill lowers the persisted block by one |
| ListenerRuns.BrokenPollLowers | solver/solvercore/solvers/hyperlane7683/listener_base.go:104-125 | For every start block and every chunk size of which two fit below the largest uint64: a run without any backfill chunk in which a poll fails at its third chunk and the next one lowers the persisted block by a whole chunk |
| ListenerRuns.PowerLossLowers | solver/solvercore/config/solver_state.go:232-240 | A power loss after two persisted chunks, before the second rename is on disk, lowers the persisted block by a chunk: a run for every start block and every such chunk size |
| ListenerRuns.ResolveStartClamps | solver/solvercore/solvers/hyperlane7683/listener_base.go:40-67 | The wrapping uint64 subtraction and its clamp are max(0, current - abs(start)) for every non-positive int64, the minimum included |
| ListenerRefinement.PollIsARun | solver/solvercore/solvers/hyperlane7683/listener_base.go:71-127 | One poll is a run of the whole-run system that ends with exactly the cursor, persisted block and processed blocks that the polling method promises |
| ListenerRefinement.BackfillIsARun | solver/solvercore/solvers/hyperlane7683/listener_base.go:145-192 | One backfill is a run that ends with exactly what the backfill method promises |
| ListenerRuns.StepKeepsInv | solver/solvercore/solvers/hyperlane7683/listener_base.go:71-264 | Whatever the start block, a step keeps every cursor, and what a restart would resume from, covered if and only if it is not a relaunch whose resolved start block exceeds what is covered; with a positive start block no relaunch is |
| Listener.NewListenerConfig | solver/solvercore/base/listener.go:40-63 | The chunk size and the poll interval are never zero: 9 blocks and 10 seconds stand in for them; the chunk size is what makes the chunk loops end |
| Listener.ResolveCommonListenerConfig | solver/solvercore/solvers/hyperlane7683/listener_base.go:201-264 | The cursor is the larger of the persisted block and the resolved start block; it fails exactly when a needed head, the state or the network's entry is missing |
| Listener.FreshStateFileAddsNothing | solver/solvercore/config/solver_state.go:52-93 | The default block written for a network never moves the cursor away from the resolved start block |
| Listener.EvmListener.GroupByBlock | solver/solvercore/solvers/hyperlane7683/listener_evm.go:164-169 | The map holds for each block exactly that block's logs in the order returned |
| Listener.EvmListener.HandleBlock | solver/solvercore/solvers/hyperlane7683/listener_evm.go:176-199 | The handler gets every log that parses as often as the block holds it, no other log, and in the order of the block |
| Listener.ParsedPicks | solver/solvercore/solvers/hyperlane7683/listener_evm.go:176-199 | The logs handed over are those at increasing positions, and these are all positions of a log that parses |
| Listener.EvmListener.ProcessBlocks | solver/solvercore/solvers/hyperlane7683/listener_evm.go:171-210 | Blocks are handled one by one in order, each exactly once, up to any block but the largest uint64, at which the loop of the source never ends |
| Listener.EvmListener.ProcessBlockRange | solver/solvercore/solvers/hyperlane7683/listener_evm.go:141-211 | All of a range or nothing: an unanswered query delivers nothing and leaves the cursor |
| Listener.EvmListener.Persist | solver/solvercore/solvers/hyperlane7683/listener_base.go:119-121 | The file afterwards, whatever it was: with success only this network has the new block; otherwise the old file, or the defaults where there was no readable one |
| SolverState.UpdateMeans | solver/solvercore/config/solver_state.go:113-136 | A readable file keeps its networks and every other block, changes the named one exactly when a read and the save succeed and the network is known, and stays readable; an unreadable one becomes the defaults with the new block, the defaults, or stays |
| SolverState.DefaultsAre | solver/solvercore/config/solver_state.go:52-93 | The default state knows exactly the configured networks, each at its start block, or at 0 if that is negative |
| Listener.EvmListener.PollRange | solver/solvercore/solvers/hyperlane7683/listener_base.go:101-122 | Deliveries, visited blocks and file are those of the partitioning chunks up to the first unanswered one, whenever the counter gets that far without wrapping around |
| Listener.EvmListener.ProcessCurrentBlockRange | solver/solvercore/solvers/hyperlane7683/listener_base.go:71-127 | A poll covers the blocks above the cursor up to the confirmation window and moves the cursor only when every chunk was answered |
| Listener.EvmListener.BackfillRange | solver/solvercore/solvers/hyperlane7683/listener_base.go:172-188 | The same for the overlapping backfill chunks, with the base cursor moving chunk by chunk |
| Listener.EvmListener.CatchUpHistoricalBlocks | solver/solvercore/solvers/hyperlane7683/listener_base.go:145-192 | A backfill leaves the polling cursor alone and the base cursor at the last answered chunk's end |
| Listener.AfterChunksMeans | solver/solvercore/solvers/hyperlane7683/listener_base.go:104-122 | Chunk by chunk, a loop hands over all logs, marks all blocks, ends at the last block and leaves in a file that knows the network the last block whose persist succeeded |
| Listener.FarRangesEnd | solver/solvercore/solvers/hyperlane7683/listener_base.go:104-108 | Both chunk loops end without wrap-around whenever the range ends a chunk size below 2^64 |
| Listener.WrappedCountersGoOn | solver/solvercore/solvers/hyperlane7683/listener_base.go:104-108 | Past that a counter that wraps around is below the end of the range again, and a block loop up to 2^64 - 1 never leaves its range |
| Listener.OfBlockOfChain | solver/solvercore/solvers/hyperlane7683/listener_evm.go:164-169 | Grouping a range's logs by block undoes their concatenation |
| Listener.DeliveriesAreScan | solver/solvercore/solvers/hyperlane7683/listener_evm.go:164-210 | With a node that returns all logs of a range, any chunking and grouping delivers the one-by-one scan of the visited blocks |
| Listener.PollVisitsOnce | solver/solvercore/solvers/hyperlane7683/listener_base.go:104-108 | Polling chunks partition the range |
| Listener.PollVisitsPrefix | solver/solvercore/solvers/hyperlane7683/listener_base.go:104-117 | Whatever the node answers, a poll visits an initial stretch of the range, each block once |
| Listener.PollRefinesScan | solver/solvercore/solvers/hyperlane7683/listener_base.go:91-126 | A poll's handler calls are those of a one-by-one scan of the range |
| Listener.PollDeliversChainLogs | solver/solvercore/solvers/hyperlane7683/listener_base.go:91-126 | With a node that returns every log, all of which parse, a poll hands over exactly the chain's logs of the range, in chain order |
| Listener.SafeBlocks | solver/solvercore/solvers/hyperlane7683/listener_base.go:71-89 | A block is safe exactly if the head has reached it and, once the head is past the confirmation window, that many blocks lie on top of it |
| Listener.PollChunkSizes | solver/solvercore/solvers/hyperlane7683/listener_base.go:104-108 | A polling chunk is not empty, stays in the range and has at most the configured number of blocks |
| Listener.BackfillChunkSizes | solver/solvercore/solvers/hyperlane7683/listener_base.go:172-188 | A backfill chunk stays in the range and has at most one block more, the one it shares with the next |
| Listener.BackfillMultiplicity | solver/solvercore/solvers/hyperlane7683/listener_base.go:165-188 | A complete backfill ends at the safe block and visits every block once, the inner chunk borders exactly twice |
| SolverState.SolverStateFile.SaveSolverStateLocked | solver/solvercore/config/solver_state.go:210-242 | At whichever of its six steps a save fails, the target is the old one and the temporary file is gone; only the rename touches the target, and a success is the whole new state |
| SolverState.SolverStateFile.WriteAndRename | solver/solvercore/config/solver_state.go:226-242 | From the open temporary file on: nothing is renamed over the target that was not written whole and synced |
| SolverState.SolverStateFile.ReadSolverStateLocked | solver/solvercore/config/solver_state.go:159-207 | Exactly when three attempts give the state, and when an absent, empty or corrupt file becomes the default state |
| SolverState.SolverStateFile.UpdateLastIndexedBlock | solver/solvercore/config/solver_state.go:113-136 | Exactly when it succeeds and what the file is afterwards, for a readable, absent, empty or corrupt file |
| StateFileRuns.NoLostUpdateIff | solver/solvercore/config/solver_state.go:96-242 | In every interleaving of calls, failing steps, crashes and power losses between any two steps the target is the initial state with exactly the saved updates applied in order, if and only if the mutex guards the calls, the state goes through a temporary file, and that is synced where power can be lost; updates that a power loss undid are not among the saved ones |
| StateFileRuns.KeepsReportedIff | solver/solvercore/config/solver_state.go:210-242 | Whatever call once returned without an error stays in the file if and only if the mutex guards the calls, the state goes through a temporary file, and power is never lost; the sync does not make up for that |
| StateFileRuns.PowerLossUndoesAnUpdate | solver/solvercore/config/solver_state.go:232-240 | A run in which an update is written, synced, renamed and reported, and a power loss brings the old bytes back, as the directory is not synced |
| StateFileRuns.SurvivesIff | solver/solvercore/config/solver_state.go:210-242 | Where power can be lost, the first i saved updates survive every further run if and only if the oldest version that may still be on disk holds them |
| StateFileRuns.TargetIsWholeIff | solver/solvercore/config/solver_state.go:210-242 | Whatever step a crash falls on, partial writes included, the target is a whole state if and only if it is written through a temporary file that is synced before the rename where power can be lost; the mutex does not matter |
| StateFileRuns.WritingInPlaceTearsTheFile | solver/solvercore/config/solver_state.go:224-242 | Writing the target directly: a run that crashes with an empty target |
| StateFileRuns.WithoutSyncPowerLossTearsTheFile | solver/solvercore/config/solver_state.go:232-240 | Renaming an unsynced file: a run that loses power and comes back with an empty target |
| StateFileRuns.WithoutMutexAnUpdateIsLost | solver/solvercore/config/solver_state.go:96-136 | A concrete interleaving of two whole saves that loses an update without the mutex, temporary files and syncs notwithstanding |
| StateFileRuns.ReplayAt | solver/solvercore/config/solver_state.go:122-129 | A network's block is the last one saved for it; a network nothing was saved for keeps its block |
| StateFileRefinement.UpdateIsARun | solver/solvercore/config/solver_state.go:113-136 | On a readable file one UpdateLastIndexedBlock, whichever reads fail and at whichever step its save does, is a run of the configuration with mutex, temporary file and sync; the update is saved and reported exactly if the call succeeds, and the target has the bytes of the file the method promises |
| OrderEncoder.DecodeEncoded | solidity/src/libs/OrderEncoder.sol:4-17 | Decoding the specification's encoding of OrderData gives the order back, for every order and every data length |
| OrderEncoder.LeftPad | solver/cmd/tools/open-order/starknet_order.go:589-596 | The last size bytes, or zeros in front |
| OrderEncoder.LeftPaddedIsLowBytes | solver/cmd/tools/open-order/starknet_order.go:589-596 | Padding a number's shortest form gives its low bytes, whatever its size |
| OrderEncoder.FeltToBytes32 | solver/cmd/tools/open-order/starknet_order.go:598-618 | A felt as a 32-byte big-endian word |
| OrderEncoder.U32Word | solver/cmd/tools/open-order/starknet_order.go:627-634 | A uint32 as a 32-byte big-endian word |
| OrderEncoder.WriteWord | solver/cmd/tools/open-order/starknet_order.go:636-638 | Appends exactly one word |
| OrderEncoder.EncodeRaw | solver/cmd/tools/open-order/starknet_order.go:640-667 | The bytes written word by word are the fourteen words of the order |
| OrderEncoder.RawBytesAreWords | solver/cmd/tools/open-order/starknet_order.go:640-667 | Those words are the formal ABI encoding of the order, 448 bytes |
| OrderEncoder.U256ToBytes32 | solver/cmd/tools/open-order/starknet_order.go:620-625 | A 256-bit word of the magnitude modulo 2^256, zero for nil |
| OrderEncoder.EncodeStarknetOrderData | solver/cmd/tools/open-order/starknet_order.go:588-691 | The felts are the Cairo Bytes form of the formal ABI encoding, and the order a settler decodes from them has each member of the tool's order under its own name: amounts by magnitude modulo 2^256, the fill deadline modulo 2^32, no data |
| OrderEncoder.RawLayout | solver/cmd/tools/open-order/starknet_order.go:640-667 | Word by word, the numbers that the fourteen words of the bytes spell, under the names of the order |
| OrderEncoder.EncoderWritesTheOrder | solver/cmd/tools/open-order/starknet_order.go:588-691 | A Solidity contract decodes the encoder's bytes into the twelve fields, amounts modulo 2^256, deadline modulo 2^32 and no data |
| OrderEncoder.PackRaw | solver/cmd/tools/open-order/starknet_order.go:669-681 | The inlined packing loop computes the same words as BytesToU128Felts |
| StarknetUtil.PackingIsLossless | solver/pkg/starknetutil/starknetutil.go:234-248 | Size and words determine the bytes, for every length, a partial last chunk included |
| StarknetUtil.BytesToU128Felts | solver/pkg/starknetutil/starknetutil.go:234-248 | The loop yields those words, from which the bytes can be read back |
| StarknetUtil.U256RoundTrip | solver/pkg/starknetutil/starknetutil.go:188-207 | Splitting a number into two u128 felts and combining them gives it back modulo 2^256 |
| StarknetUtil.U256HalvesRoundTrip | solver/pkg/starknetutil/starknetutil.go:123-136 | Combining two u128 halves and splitting gives the halves back |
| StarknetUtil.ConvertSolidityOrderIDForStarknet | solver/pkg/starknetutil/starknetutil.go:211-231 | Right and left 16 bytes of the 32-byte id; of a longer number its first 32 bytes; an error exactly for text that is no number |
| StarknetUtil.OrderIdFeltsAre | solver/pkg/starknetutil/starknetutil.go:211-231 | The halves add up to the number of the id, or of its first 32 bytes |
| Types.GetOrderIDBytes | solver/solvercore/types/types.go:160-175 | The loop computes the bytes spelled by 64 digits, zeros for any other shape |
| Types.OrderIdRoundTrip | solver/solvercore/solvers/hyperlane7683/listener_starknet.go:256-261 | Two u128 felts, 32 bytes and hexadecimal text: the Starknet handler gets the felts back from the text, GetOrderIDBytes and the EVM handler the bytes |
| Types.ToBytes32 | solver/solvercore/types/address_utils.go:69-110 | 64, 62 and 40 digit texts become right-aligned 32 bytes, everything else is an error |
| Types.AddressConversionsAgree | solver/solvercore/types/address_utils.go:33-56 | Whenever a text is an EVM address, it is the last 20 bytes of its bytes32 form |
| Types.EventAddressRoundTrip | solver/solvercore/solvers/hyperlane7683/listener_evm.go:271-273 | A printed bytes32 read as an EVM address keeps its last 20 bytes, and padding them gives it back if and only if the first 12 were zero |
| Types.SameTokenIff | solver/solvercore/types/address_utils.go:33-56 | Two printed tokens are the same contract exactly when their last 20 bytes agree |
| EvmOrder.HexToBytes32 | solver/cmd/tools/open-order/evm_order.go:864-879 | The number spelled by the digits, modulo 2^256, in 32 bytes; the program ends exactly on other text |
| EvmOrder.ConversionsToBytes32Agree | solver/solvercore/types/address_utils.go:69-110 | On the texts both accept, the tool's and the solver's conversion to bytes32 agree |
| EvmOrder.AddressNumbers | solver/solvercore/types/address_utils.go:33-110 | The numbers that address texts of 40, 62 and 64 digits denote as an address and as 32 bytes, and which texts are errors |
| FeltDecoder.Decoder.ReadFelt | solver/solvercore/solvers/hyperlane7683/listener_starknet.go:278-282 | One felt and the cursor behind it, or a panic exactly at the end |
| FeltDecoder.Decoder.ReadU256 | solver/solvercore/solvers/hyperlane7683/listener_starknet.go:294-298 | Two felts, the low one first: the first plus 2^128 times the second |
| FeltDecoder.Decoder.DomainToChainID | solver/solvercore/solvers/hyperlane7683/listener_starknet.go:426-434 | The chain id, as an int64, of the first network that has the domain; the domain itself exactly if none has it |
| FeltDecoder.ChainOfFirst | solver/solvercore/solvers/hyperlane7683/listener_starknet.go:426-434 | The first network with a domain, whatever comes behind it, decides the chain id |
| FeltDecoder.AddressSpells | solver/solvercore/solvers/hyperlane7683/listener_starknet.go:300-311 | An address text is 0x and 64 lower-case digits that spell the felt |
| FeltDecoder.OrderIs | solver/solvercore/solvers/hyperlane7683/listener_starknet.go:238-266 | A decoded order member by member: which felts its user, chain, deadlines and id are, and where its arrays start |
| FeltDecoder.OutputArrayIs | solver/solvercore/solvers/hyperlane7683/listener_starknet.go:313-341 | Every output's token, amount, recipient and chain from its own five felts, the amount low half first |
| FeltDecoder.InstructionArrayIs | solver/solvercore/solvers/hyperlane7683/listener_starknet.go:343-362 | Every instruction's chain and settler from its own two felts, and the same origin data for all |
| FeltDecoder.Decoder.ReadOutput | solver/solvercore/solvers/hyperlane7683/listener_starknet.go:313-332 | Five felts in the order token, amount, recipient, domain |
| FeltDecoder.Decoder.ReadOutputs | solver/solvercore/solvers/hyperlane7683/listener_starknet.go:334-341 | An output array is read with the cursor behind it, or the decoder panics exactly when the event ends too early |
| FeltDecoder.Decoder.ParseOriginData | solver/solvercore/solvers/hyperlane7683/listener_starknet.go:364-414 | The rebuilt bytes depend on the absolute indices 22 on only, it panics exactly on fewer than twelve fields, and where it was called is recorded |
| FeltDecoder.Decoder.CollectFields | solver/solvercore/solvers/hyperlane7683/listener_starknet.go:371-385 | Exactly the fields that the word count and the length of the event allow |
| FeltDecoder.Decoder.ReadFillInstruction | solver/solvercore/solvers/hyperlane7683/listener_starknet.go:343-362 | Domain and settler from the cursor, origin data from the fixed indices |
| FeltDecoder.Decoder.ReadFillInstructions | solver/solvercore/solvers/hyperlane7683/listener_starknet.go:416-423 | The instruction loop moves two felts per instruction; the cursor at every call of parseOriginData |
| FeltDecoder.Decoder.DecodeResolvedOrder | solver/solvercore/solvers/hyperlane7683/listener_starknet.go:238-266 | The decoder computes the order the felts denote, panics exactly when they denote none, and its cursor at every call of parseOriginData is the one CursorsOf tells |
| WireRoundTrip.CursorAtOriginData | solver/solvercore/solvers/hyperlane7683/listener_starknet.go:364-369 | On every serialised event the decoder's cursor at its first call of parseOriginData is 11 + 5(m + n), where the size and word count lie, so index 21 is right exactly when there are two outputs |
| WireRoundTrip.DecodeSingleInstruction | solver/solvercore/solvers/hyperlane7683/listener_starknet.go:238-423 | With one instruction and two outputs every decoded field is the serialised one, up to domain mapping, 32-bit deadlines and the rebuilt origin data |
| WireRoundTrip.SeenOrderIs | solver/solvercore/solvers/hyperlane7683/listener_starknet.go:238-266 | Member by member, which serialised felt each member of what the decoder returns comes from, token, amount and recipient of every output included |
| WireRoundTrip.DecodedChain | solver/solvercore/solvers/hyperlane7683/listener_starknet.go:426-434 | Every output of a decoded event has the chain id of the first network with its serialised domain |
| WireRoundTrip.DecodedInstruction | solver/solvercore/solvers/hyperlane7683/listener_starknet.go:343-362 | And so has its instruction, whose settler is the serialised one |
| WireRoundTrip.UnknownDestination | solver/solvercore/solvers/hyperlane7683/listener_starknet.go:426-434 | A domain that no network has becomes the chain id |
| WireRoundTrip.HeaderCells | cairo/src/erc7683/interface.cairo:217-244 | Where the header and the three lengths lie in a serialised event |
| WireRoundTrip.ReceivedCells | cairo/src/erc7683/interface.cairo:217-244 | Where the five felts of every output to receive lie |
| WireRoundTrip.OrderAtEvent | cairo/src/erc7683/interface.cairo:217-244 | Everything in front of the instructions is decoded correctly whatever the number of outputs |
| WireRoundTrip.OriginDataIsRebuilt | solver/solvercore/solvers/hyperlane7683/listener_starknet.go:371-413 | Bytes 32 to 384 between three constant words, or a panic on fewer |
| WireShapes.OriginDataNumbers | solver/solvercore/solvers/hyperlane7683/listener_starknet.go:371-413 | The rebuilt bytes word by word: 32, then eleven numbers each spelled by two felts, then the offset and zero |
| WireRoundTrip.OriginDataRoundTripsIff | solver/solvercore/solvers/hyperlane7683/listener_starknet.go:364-414 | Emitted bytes come back if and only if they are 448 bytes with the words 0x20, 0x180 and 0 in place |
| WireRoundTrip.WireRoundTrip | solver/cmd/tools/open-order/starknet_order.go:588-691 | An event carrying the encoder's bytes is decoded into exactly those bytes, and a Solidity settler reads the order from them |
| WireRoundTrip.SecondInstructionIsMisread | solver/solvercore/solvers/hyperlane7683/listener_starknet.go:416-423 | With two or more instructions the second one's chain and settler are the first one's byte size and word count |
| WireShapes.OriginDataIsIff | solver/solvercore/solvers/hyperlane7683/listener_starknet.go:364-414 | Of whatever felts, the decoder makes an encoded order exactly if it finds twelve fields and the felts 25 to 46 spell the words 2 to 23 of that order |
| WireShapes.DecodedRightIffTwoOutputs | solver/solvercore/solvers/hyperlane7683/listener_starknet.go:364-414 | An event with one instruction, the encoder's bytes and up to six outputs is decoded right exactly if there are two outputs, one of each kind or not |
| WireShapes.SevenOutputsCanSpell | solver/solvercore/solvers/hyperlane7683/listener_starknet.go:364-414 | Six is where that stops: an event with seven outputs that is decoded right |
| WireShapes.DecodedRightIffSpelled | solver/solvercore/solvers/hyperlane7683/listener_starknet.go:364-414 | With any number of outputs, exactly if the word count found is large enough and the felts at the fixed indices happen to spell the order |
| WireShapes.FewOutputsPanic | solver/solvercore/solvers/hyperlane7683/listener_starknet.go:371-385 | With less than two outputs the decoder panics on the encoder's bytes |
| WireShapes.ThreeOutputsAreMisread | solver/solvercore/solvers/hyperlane7683/listener_starknet.go:364-414 | One output spent and two received: never decoded right; decoded into other bytes exactly if the last output's domain, which is read as word count, is at least 23, else a panic |
| HyperlaneStarknet.FillCalldata | solver/solvercore/solvers/hyperlane7683/hyperlane_starknet.go:141-161 | The calldata is the two halves of the order's id, size and number of the packed words, the words and two zeros, and reads back, by Cairo's deserialisation, as id, origin data and empty filler data |
| EndToEnd.FillsCarryTheOrder | solver/solvercore/solvers/hyperlane7683/solver.go:118-157 | Every fill that ProcessIntent sends for an event with the order tool's bytes and two outputs carries exactly those bytes, and a Solidity settler decodes the order that was written |
| EndToEnd.SentFillCarriesTheOrderIff | solver/solvercore/solvers/hyperlane7683/listener_starknet.go:364-414 | With up to six outputs a fill that is sent carries the order exactly if there are two |
| EndToEnd.EvmFillCarriesTheOrder | solver/solvercore/solvers/hyperlane7683/hyperlane_evm.go:125-134 | What HyperlaneEVM.Fill promises to send for such an event decodes as the order |
| HandlerProtocol.StepKeepsLocks | solver/solvercore/solvers/hyperlane7683/solver.go:233-243 | Every step keeps the read-write lock held by exactly the goroutines inside it |
| HandlerProtocol.StepKeepsMutexes | solver/solvercore/solvers/hyperlane7683/hyperlane_evm.go:66-68 | Every step keeps a handler's mutex held by exactly the goroutine in its critical section |
| HandlerProtocol.StepKeepsMap | solver/solvercore/solvers/hyperlane7683/solver.go:230-263 | With locked lookup every step keeps the map consistent with its stores, with what was handed out and with what is in hand |
| HandlerProtocol.StepKeepsFills | solidity/src/Base7683.sol:231-241 | Every step keeps at most one successful fill per order |
| HandlerProtocol.StepKeepsSends | solver/solvercore/solvers/hyperlane7683/hyperlane_evm.go:87-150 | With locked lookup, sends that fail only if nothing was sent, and waits that fail only with the process, every step keeps that whoever has checked a status knows all earlier fills to have reverted |
| HandlerRuns.DoubleCheckedLocking | solver/solvercore/solvers/hyperlane7683/solver.go:230-263 | Under every interleaving a chain's map entry is set at most once and never changed, and all callers are given the same handler |
| HandlerRuns.OneFillerPerChain | solver/solvercore/solvers/hyperlane7683/hyperlane_evm.go:66-68 | At any time at most one goroutine is inside Fill or Settle on a chain |
| HandlerRuns.NeverDoubleSends | solver/solvercore/solvers/hyperlane7683/hyperlane_evm.go:66-150 | The solver's own guarantee: with locked lookup, sends that fail only if nothing was sent, and waits that fail only with the process, a fill is sent only after every earlier fill of the order has reverted |
| HandlerRuns.AtMostOneFill | solidity/src/Base7683.sol:231-241 | The contract's guarantee, whatever the solver does: over all redeliveries and interleavings at most one of the solver's fills of an order succeeds |
| HandlerRuns.LosingTrackDoubleSends | solver/solvercore/solvers/hyperlane7683/hyperlane_evm.go:131-150 | A send that reports an error although the transaction got out, or a wait that fails while the process lives on, lets a redelivery send a second fill over the pending first one: a concrete run for each |
| HandlerRuns.UnlockedDoubleSends | solver/solvercore/solvers/hyperlane7683/solver.go:266-280 | The unlocked Starknet lookup lets two goroutines make two handlers and send two fills of one order: a concrete run |
| HandlerRuns.NeverDoubleSendsIff | solver/solvercore/solvers/hyperlane7683/solver.go:230-280 | With several goroutines no run sends a fill over a pending or successful one if and only if lookup is locked, no failed send got out, and no wait fails while the process lives; shutting down is allowed |
| HandlerRefinement.FillIsARun | solver/solvercore/solvers/hyperlane7683/hyperlane_evm.go:66-150 | One Fill that no other goroutine interrupts, whatever it reads and whatever becomes of its transaction, a wait cut short by a shutdown included, is a run of the protocol with the same read and the same send |
| HandlerRefinement.FillLeavesATrace | solver/solvercore/solvers/hyperlane7683/hyperlane_evm.go:87-150 | What HyperlaneEVM.Fill promises is such a trace: one read, at most one send after a read that lets it, and the action that goes with them |
| Journal.SendsAreGated | solver/solvercore/solvers/hyperlane7683/solver.go:71-116 | In a log that keeps the rule every fill follows, in its own call, list approval, passed rules and a read other than FILLED or SETTLED at the same settler on the same chain, with no send or read between; every settle follows such a read of FILLED |
| Journal.SettledSendsNothing | solver/solvercore/solvers/hyperlane7683/hyperlane_evm.go:174-181 | In such a log nothing is sent in a call whose reads fail or say SETTLED |
| Journal.OneSettlePerFilledRead | solver/solvercore/solvers/hyperlane7683/hyperlane_evm.go:174-181 | In a log that keeps the rule at most one settle is sent for every read that says FILLED, over all calls |
| Deliveries.EveryRedeliverySettles | solidity/src/Base7683.sol:250-266 | A settle leaves the status FILLED: n deliveries of a filled order keep the rule, each ends done, and n settles are sent |
| Settlements.DoneWasReadFilled | solver/solvercore/solvers/hyperlane7683/solver.go:159-185 | A done order was read as FILLED at the settler and chain of each settle, with no read between |
| Settlements.SettledOrderIsNeverDone | solver/solvercore/solvers/hyperlane7683/hyperlane_evm.go:97-101 | For an order that never reads as anything but SETTLED, whatever reads fail, nothing is sent and ProcessIntent does not succeed |
| Settlements.SettledStaysNeverDone | solver/solvercore/solvers/hyperlane7683/hyperlane_evm.go:102-105 | If the fill's read says SETTLED and no later read there goes back to FILLED, the call is never done, whatever other reads say or fail |
| Deliveries.SettledThenFilledIsDone | solver/solvercore/solvers/hyperlane7683/hyperlane_evm.go:102-105 | A log in which the status goes back from SETTLED to FILLED and the order ends done: the condition cannot be dropped |
| Settlements.PastUnknownDoneIff | solver/solvercore/solvers/hyperlane7683/hyperlane_evm.go:174-258 | An order that the fill finds FILLED or SETTLED ends done exactly if at every instruction the settle's last read says FILLED and its transaction then counts or is skipped |
| Deliveries.DoneTakesEffectIffEvm | solver/solvercore/solvers/hyperlane7683/hyperlane_starknet.go:172-182 | That a done order was really filled and every instruction really settled is certain if and only if all its legs are on EVM chains |
| Settlements.RevertedCountsAsDone | solver/solvercore/solvers/hyperlane7683/hyperlane_starknet.go:172-182 | A Starknet log that keeps the gating rule and ends an order as done with a reverted fill and a reverted settle |
| Solver.Hyperlane7683Solver.ProcessIntent | solver/solvercore/solvers/hyperlane7683/solver.go:71-116 | Whatever the chains answer no send breaks the rule, and fills go to the first instruction's settler only; done means exactly that lists and rules accepted, that the order then counted as filled, and that every instruction after that counted as settled at the first instruction's settler; no instructions means a panic; an order whose fill reads SETTLED is not done unless a later read goes back to FILLED, and if it never reads as anything else nothing is sent; an order that spends at least what it receives, in sums that fit, stops at the rules and nothing is sent, and one that receives more passes them |
| Solver.Hyperlane7683Solver.Fill | solver/solvercore/solvers/hyperlane7683/solver.go:118-157 | The first instruction decides; success exactly when the order was read as filled or settled there, or its fill counts as a success: mined, or on Starknet reverted too; never Complete |
| Solver.Hyperlane7683Solver.SettleOrder | solver/solvercore/solvers/hyperlane7683/solver.go:159-185 | Success exactly when every instruction counted as settled in order, each on its own chain at the first instruction's settler |
| Solver.Hyperlane7683Solver.ExecuteChainOperation | solver/solvercore/solvers/hyperlane7683/solver.go:189-227 | Chain detection, handler retrieval and operation: what the log says of that chain and settler decides the result, both ways |
| Solver.Hyperlane7683Solver.SettledAtItsOwnIff | solver/solvercore/solvers/hyperlane7683/hyperlane_evm.go:161-169 | A done order had an instruction settled at its own settler and chain exactly if that settler is the first instruction's, and on Starknet the chain the handler's |
| Solver.Hyperlane7683Solver.AllSettledAtTheirOwnIff | solver/solvercore/solvers/hyperlane7683/solver.go:168-181 | Every instruction is settled at its own settler exactly if all agree with the first; with one instruction on an EVM chain they do |
| Solver.Hyperlane7683Solver.SecondSettlerIsPassedOver | solver/solvercore/solvers/hyperlane7683/solver.go:126-181 | Two instructions with two settlers: whenever the order is done, the second was settled at the first one's settler and nothing was filled at its own |
| Solver.TwoSettlers | solver/solvercore/solvers/hyperlane7683/hyperlane_evm.go:161-169 | There are such settlers: two texts that denote different addresses |
| Solver.Hyperlane7683Solver.GetEVMHandler | solver/solvercore/solvers/hyperlane7683/solver.go:230-263 | Creates at most this chain's entry, keeps all others, and returns the stored one |
| Solver.Hyperlane7683Solver.GetStarknetHandler | solver/solvercore/solvers/hyperlane7683/solver.go:266-280 | An existing Starknet handler is kept whatever the chain id |
| Solver.Hyperlane7683Solver.EvaluateAll | solver/solvercore/solvers/hyperlane7683/rules.go:64-78 | Panics exactly on an order without instructions; otherwise passes exactly with a balance, outputs in both lists, and amounts to receive that add up to more than those to spend, modulo 2^256 |
| Solver.Hyperlane7683Solver.FittingOrderIsAcceptedIff | solver/solvercore/solvers/hyperlane7683/rules.go:242-264 | An order whose two sums fit 256 bits is accepted exactly with a balance, outputs in both lists, and more to receive than to spend |
| Solver.KindOfFirst | solver/solvercore/solvers/hyperlane7683/solver.go:289-315 | A chain is the first network with its id, and Starknet exactly if that network is |
| Solver.KindOfNone | solver/solvercore/solvers/hyperlane7683/solver.go:289-315 | A chain that no network has is an error |
| Intents.MatchesAllowBlockItem | solver/solvercore/solvers/hyperlane7683/solver.go:341-365 | An item matches exactly when one recipient of an order by that sender fits it |
| Intents.IsAllowedIntent | solver/solvercore/solvers/hyperlane7683/solver.go:318-338 | Allowed exactly when no block item covers the order and the allow list is empty or covers it |
| Intents.ListenerOrdersAreCoveredIff | solver/solvercore/solvers/hyperlane7683/listener_evm.go:253-261 | Of the orders the listeners deliver, an item covers exactly those of its sender and of the listener's own chain, and none if it names a recipient address |
| Rules.Total | solver/solvercore/solvers/hyperlane7683/rules.go:242-253 | The accumulated uint256 sum is the exact sum modulo 2^256 |
| Rules.EvaluateProfitability | solver/solvercore/solvers/hyperlane7683/rules.go:209-283 | Passes exactly when both lists are non-empty and the sums modulo 2^256 compare strictly; the profit subtractions never underflow |
| Rules.PassesIffProfitable | solver/solvercore/solvers/hyperlane7683/rules.go:255-262 | That is the true profit test whenever both sums wrap equally often, in particular when they fit, and otherwise which list is larger |
| Rules.DecidesRightIff | solver/solvercore/solvers/hyperlane7683/rules.go:242-262 | For non-empty lists the decision is the profit test of the true sums exactly if both wrap equally often or the remainders compare as the wraps do; a losing order passes exactly if what is spent wraps more and leaves less, a profitable one is refused exactly if what is received wraps more and leaves no more |
| Rules.LosingOrderCanPass | solver/solvercore/solvers/hyperlane7683/rules.go:242-262 | Two amounts of fitting size make a losing order pass |
| HyperlaneEvm.HyperlaneEVM.Fill | solver/solvercore/solvers/hyperlane7683/hyperlane_evm.go:66-150 | One status read; nothing sent on an error, FILLED or SETTLED; otherwise one fill with the right value and all allowances in place, sent whenever the chain answers well; signer value restored |
| HyperlaneEvm.HyperlaneEVM.FillResultIs | solver/solvercore/solvers/hyperlane7683/hyperlane_evm.go:107-150 | At most one fill, at the first instruction's settler, with its data, the native amount or the signer's value, and the action by the receipt; it is sent whenever the tokens to approve are addresses and the chain answers well |
| HyperlaneEvm.HyperlaneEVM.FillIsCovered | solver/solvercore/solvers/hyperlane7683/hyperlane_evm.go:344-387 | When a fill is sent the settler may spend every amount of the order on its chain |
| HyperlaneEvm.HyperlaneEVM.Settle | solver/solvercore/solvers/hyperlane7683/hyperlane_evm.go:153-258 | Succeeds exactly after a FILLED read with the live-Starknet skip or a quoted and mined settle; signer value restored on every path |
| HyperlaneEvm.HyperlaneEVM.SettleResultIs | solver/solvercore/solvers/hyperlane7683/hyperlane_evm.go:183-258 | After a FILLED read, by the domain of the first network with the origin's chain id: nothing to send, or one settle with the quoted gas that has to be mined |
| Handlers.DomainOfFirst | solver/solvercore/solvers/hyperlane7683/hyperlane_evm.go:326-341 | The origin's domain is that of the first network with its chain id |
| HyperlaneEvm.HyperlaneEVM.EnsureTokenApproval | solver/solvercore/solvers/hyperlane7683/hyperlane_evm.go:412-541 | Exactly when an approval succeeds, and what it does to the one allowance, a lost transaction included |
| HyperlaneEvm.HyperlaneEVM.SetupApprovals | solver/solvercore/solvers/hyperlane7683/hyperlane_evm.go:344-387 | All requested approvals on success, those of the first few outputs on failure, failure only for a reason |
| HyperlaneStarknet.HyperlaneStarknet.Fill | solver/solvercore/solvers/hyperlane7683/hyperlane_starknet.go:100-182 | The same gates; what is sent reads back as the order's id and origin data; a reverted transaction counts as a fill |
| HyperlaneStarknet.HyperlaneStarknet.FillResultIs | solver/solvercore/solvers/hyperlane7683/hyperlane_starknet.go:130-182 | At most one fill, at the first instruction's settler, whose calldata reads back as the halves of the order's id, the origin data and nothing else; the action by whether there is a receipt |
| HyperlaneStarknet.HyperlaneStarknet.CanSendIff | solver/solvercore/solvers/hyperlane7683/hyperlane_starknet.go:322-361 | What it takes for a fill to be sent when the chain answers well: an id that is a number, and tokens that exist with amounts that are u256 |
| HyperlaneStarknet.HyperlaneStarknet.FillIsCovered | solver/solvercore/solvers/hyperlane7683/hyperlane_starknet.go:322-361 | When no approval reverts, the settler may spend every amount of the order on its chain once the fill is sent |
| HyperlaneStarknet.HyperlaneStarknet.Settle | solver/solvercore/solvers/hyperlane7683/hyperlane_starknet.go:185-267 | Sent exactly after a FILLED read, a quote and an ETH allowance that covers it or an approval that counts; success exactly if the transaction was mined, reverted or not |
| HyperlaneStarknet.HyperlaneStarknet.SettleResultIs | solver/solvercore/solvers/hyperlane7683/hyperlane_starknet.go:205-267 | After a FILLED read one settle with the quoted gas exactly if the origin is known, the id is a number and the ETH allowance or its approval is enough; any receipt counts |
| HyperlaneStarknet.HyperlaneStarknet.RevertedSettleCounts | solver/solvercore/solvers/hyperlane7683/hyperlane_starknet.go:257-266 | A settle that can be paid and reverts is reported as done |
| HyperlaneStarknet.HyperlaneStarknet.EnsureTokenApproval | solver/solvercore/solvers/hyperlane7683/hyperlane_starknet.go:477-527 | As on an EVM chain, but a token without code is an error, and a reverted approval counts although it does nothing |
| HyperlaneStarknet.HyperlaneStarknet.SetupApprovals | solver/solvercore/solvers/hyperlane7683/hyperlane_starknet.go:322-361 | On success all requested approvals were sent, on failure those of the first few outputs; the allowances are those of the approvals that did not revert |
| Approvals.AllowanceIsMax | solver/solvercore/solvers/hyperlane7683/hyperlane_evm.go:466-475 | A series of "approve if short" calls leaves the larger of the initial allowance and the largest amount |
| Approvals.LargestIsLargest | solver/solvercore/solvers/hyperlane7683/hyperlane_evm.go:358-380 | The largest amount bounds every listed one and is one of them |
| Approvals.ApprovalsReachTheLargest | solver/solvercore/solvers/hyperlane7683/hyperlane_evm.go:344-387 | After setupApprovals each token's allowance is max(initial, largest amount spent of it on the destination chain); other chains' tokens and other spenders are unchanged |
| Approvals.ApprovalsCover | solver/solvercore/solvers/hyperlane7683/hyperlane_evm.go:344-387 | After it the settler may spend each output's amount of a token on the destination chain |
| Approvals.LargestSpentIs | solver/solvercore/solvers/hyperlane7683/hyperlane_evm.go:358-380 | The largest amount spent of a token is that of an output in this token on the destination chain, and no other such output has more |
| Approvals.RequestedIff | solver/solvercore/solvers/hyperlane7683/hyperlane_evm.go:358-380 | Approvals can be asked for exactly if every token that needs one is an address |
| Approvals.AllowanceSufficesIff | solver/solvercore/solvers/hyperlane7683/hyperlane_starknet.go:492-527 | Where approvals may revert: a token ends with enough allowance exactly if it had enough or an approval of its largest amount took effect |
| Approvals.ApprovalsSufficeIff | solver/solvercore/solvers/hyperlane7683/hyperlane_starknet.go:322-361 | After a successful Starknet setupApprovals the fill can spend all it needs of a token exactly under that condition |
| DestinationChain.StatusWordsAreExact | solver/solvercore/solvers/hyperlane7683/hyperlane_evm.go:389-409 | The hard-coded hashes are the contract's bytes32 constants "FILLED" and "SETTLED" and nothing else reads as such |
| DestinationChain.StarknetStatusIsExact | solver/solvercore/solvers/hyperlane7683/hyperlane_starknet.go:364-375 | A Starknet answer reads as FILLED or SETTLED exactly if its first felt spells that name, as UNKNOWN exactly if it is empty or zero, and not at all exactly if the call failed |
| OrderStatus.Client.WaitForOrderStatus | solver/solvercore/solvers/hyperlane7683/hyperlane_evm.go:544-586 | Number of reads, total pause and result for every number of attempts, none included, every answer and every cancellation |
| OrderStatus.Client.WaitResultIs | solver/solvercore/solvers/hyperlane7683/hyperlane_evm.go:555-586 | How the wait ends: with the expected status, cancelled, or with what the read after the last attempt gives |
| OrderStatus.Client.ReadsKeepCleared | solver/solvercore/solvers/hyperlane7683/hyperlane_evm.go:555-586 | Status reads never break the gating rule, and the last one counts |
| OrderStatus.Client.MissesMeans | solver/solvercore/solvers/hyperlane7683/hyperlane_evm.go:555-577 | The loop stops at the first read of the expected status or the first cancellation before the last attempt |
| OrderStatus.Client.WaitIsBoundedAndFinds | solver/solvercore/solvers/hyperlane7683/hyperlane_evm.go:544-586 | At most n + 1 reads and delay * (2^(n-1) - 1) of pauses; without cancellation the expected status is returned exactly if one of the reads saw it |
| OrderStatus.PausedClosedForm | solver/solvercore/solvers/hyperlane7683/hyperlane_evm.go:572-575 | Doubling pauses add up to delay * (2^k - 1) |
| OrderStatus.Client.AwaitFilled | solver/solvercore/solvers/hyperlane7683/hyperlane_evm.go:174-181 | A settle goes on exactly if its last read said FILLED |

## Where the code differs from its documentation

The model follows the code.

- The configured start block is documented as the block to start at; the code uses it as the cursor, so
  the first block processed is the next one (`StartBlockIsNeverProcessed`).
- A start block of zero or below is resolved against the head of every launch, so a restart can jump over
  blocks (`RelativeStartCanSkip`).
- `parseOriginData` reads fixed indices and does not move the cursor; orders with other than two outputs
  or with several instructions are decoded from the wrong place (`CursorAtOriginData`,
  `DecodedRightIffTwoOutputs`, `FewOutputsPanic`, `ThreeOutputsAreMisread`, `SecondInstructionIsMisread`). The
  repository's own contract never emits such an event: cairo/src/basic_swap7683.cairo:294-317 always gives
  one output of each kind and one instruction.
- The persisted block is described as the last one indexed; an aborted backfill or an aborted poll leaves it
  above the polling cursor, and the next poll lowers it (`BrokenBackfillLowers`, `BrokenPollLowers`,
  `PersistedBlockGoesDownIff`).
- The state file is replaced atomically, but its directory is not synced after the rename: a power loss can
  bring an older whole state back, with the updates since then undone together, although their calls returned
  without an error (`PowerLossUndoesAnUpdate`, `KeepsReportedIff`, `SurvivesIff`).
- An order that is already SETTLED is reported as needing nothing, but `Fill` answers "settle" for it and
  `Settle` then fails because the status is not FILLED (`SettledStaysNeverDone`, `SettledOrderIsNeverDone`,
  `PastUnknownDoneIff`).
- A settle leaves the destination's status FILLED (solidity/src/Base7683.sol:243-266 says so), and nothing else
  keeps the solver from settling again: every redelivery of a filled order can send one more settle
  (`EveryRedeliverySettles`, `OneSettlePerFilledRead`).
- The Starknet handler waits for receipts and throws them away (hyperlane_starknet.go:175, 260, 467 and 522),
  while a reverted transaction has one, as deploy-sn-mock-erc20/main.go:182-189 shows: a reverted fill goes on
  to the settle, a reverted settle is a success, and a reverted approval counts (`RevertedCountsAsDone`,
  `RevertedSettleCounts`, `DoneTakesEffectIffEvm`, `ApprovalsSufficeIff`). The EVM handler looks at the status.
- Fill and settle loop over all instructions "single and multiple", but a handler takes the settler and the
  origin data of the first one only, and the fill returns after the first (`SecondSettlerIsPassedOver`,
  `AllSettledAtTheirOwnIff`).
- A wait for an EVM receipt ends without one only when its context does, and that is the context of the whole
  process (cmd/solver/solver.go:42, solver_manager.go:267). What can make the EVM handler fill twice is a send
  that reports an error although the transaction got out (`LosingTrackDoubleSends`, `NeverDoubleSendsIff`).
- `Fill`'s own error for an empty instruction list is never reached from `ProcessIntent`: `EvaluateAll`
  indexes the first instruction before. The action "complete" is never answered by a handler.
- The allow and block lists name a destination chain and a recipient address; the listeners fill in the
  name of their own, the origin, chain and "*" (`ListenerOrdersAreCoveredIff`).
- The comment in `rules.go` asks for MaxSpent above MinReceived; the code asks for the opposite.

## Left out

- PollRange: ranges on which the loop counter wraps around before the first unanswered chunk (`PollEnds` says which); the loop of the source then goes on from low block numbers (`WrappedCountersGoOn`).
- ProcessCurrentBlockRange: the same, for the range up to the safe block.
- BackfillRange: ranges on which the counter wraps around (`BackfillEnds`), for the same reason.
- CatchUpHistoricalBlocks: the same, for the range up to the safe block.
- ProcessBlocks: toBlock = 2^64 - 1, at which the loop of the source never ends.
- ProcessBlockRange: the same, if the node answers the query.
- PollIsARun: a cursor of 2^64 - 1, whose successor wraps to zero, is outside the whole-run system.
- NeverDoubleSendsIff: stated for two or more goroutines, as there is one listener per network; a single goroutine cannot race with itself on an unlocked lookup.
- NoLostUpdateIff: a call that finds the file unreadable fails in the run system; that the code replaces it by the defaults is modelled in `SolverState` only, and in the runs of this theorem the file always is readable. Formats are a parameter; the one of the code is indented JSON.
- UpdateIsARun: a readable file and a call that others do not interrupt; interleavings are the runs of `StateFileRuns`.
- GetStarknetHandler: after a failed attempt the source keeps a nil pointer that no longer compares as nil, where the model would try again; the panic that follows the attempt has ended the process by then.
- FillIsARun: a Fill that other goroutines do not interrupt; interleavings are the runs of `HandlerProtocol`.
- DecodeResolvedOrder: the panics of a failed allocation for an absurd array length are not told apart from those of reading past the event's end.
- Fill: the Starknet handler's method assumes origin data shorter than 2^64 bytes, as every Go slice is.
- ListenerOrdersAreCoveredIff: sender addresses are compared as text, as in the code; that a sender has one spelling only is not claimed.
- In `HandlerProtocol` a status read answers with the latest mined state; nodes that lag behind each other are not modelled, and neither is a restart of the whole process.
- `ListenerRuns` is about one network; the networks share only the state file, which `StateFileRuns` treats.
- The Starknet listener's block loop groups and replays as the EVM one does and is not modelled again; its events query asks for a single page of 128 events and never follows a continuation token, so its completeness is an assumption.
- RPC transport, transaction building, nonces, gas, signing and receipts beyond success or failure.
- The balance rule, token formatting, environment and network configuration, logging and the command line tools other than the order encoder and hexToBytes32.
- Keccak hashes, go-ethereum's own ABI packing, the generated bindings, `utils.HexToFelt` and the hexadecimal library functions beyond what `Hex` and `Types` define; a sign in `utils.HexToBN` input is not modelled.
- The contracts themselves: only the destination's status machine and the ABI of the order.
- `base/solver.go`, which repeats the list logic around placeholders.
- Wall-clock sleeps: pauses are numbers, and fixed delays have no effect.
