# KV-cache migration: a Dafny model

This project models how a migration moves a KV cache from a source runtime into a target's paged cache, and the
arithmetic, codecs and state machines around that path. It proves, for all inputs and all runs:

- **Migration protocol.** The target daemon is a state machine over the messages of one connection. It never checks
  coverage, only a count, ranges and duplicates; coverage is a pigeonhole theorem, and it holds exactly when the
  announced count fits in 64 bits. Commit safety is an invariant over every message sequence. Over the byte stream, an
  honest raw transfer commits exactly when its longest chunk fits a frame, and the target's cache then gives back a
  layer's tensor exactly when blocks with equal hashes were equal blocks.
- **Paging.** Four Rust layout conversions, the Python blocking and the in-place scatter into a live paged cache in four
  physical layouts. All of them put token `t` on page `t / T`, slot `t mod T`, and each conversion undoes its partner.
- **Wire formats.** Binary frames, payload-chunk messages and WebSocket framing, each with its decoder proved to be the
  exact inverse of its encoder, over streams as well as single messages.
- **Quantisers.** E4M3 with a computed scale and packed int4, with error bounds over all real slices and the exact set
  of magnitudes on which the E4M3 bound fails.
- **Negotiation, decision, orchestration, replay audit.** Optimal choice with tie-breaking, a single crossover, the
  reachable histories, admission bounds and circuit breaker, and an audit closed under every sequence of completions.

`dafny verify dfyconfig.toml` checks everything.

## How the files fit together

| files | what they hold |
|---|---|
| `Common`, `Radix` | machine words, big-endian integers, mixed-radix offsets |
| `Layout` | canonical and paged tensors, the four conversions of `layout.rs` |
| `Header`, `Binding`, `Messages` | what the two ends exchange, and the checks on it |
| `Daemon` | the connection as a state machine, coverage and commit safety |
| `Connection` | the daemon's code, with the injector and the orchestrator it changes, proved to follow `Daemon` |
| `Link` | length-prefixed messages, and the daemon on a byte stream |
| `Migration`, `Simulation` | the sender, its streaming loop and the end-to-end theorems |
| `Frames`, `ChunkWire`, `Tunnel`, `Negotiation` | transport |
| `E4M3`, `Int4` | quantisers |
| `Decision`, `StateMachine`, `Orchestrator` | crates/orchestrator |
| `Replay` | tool replay audit |
| `Bridge`, `PagedCache` | the Python adapters |

Code that updates fields or buffers step by step is a class or a method with loops, proved against a function or a
predicate; the theorems are about that function or predicate.

## Where the code does not do what one would expect

Each of these is proved, with the condition under which the expected property does hold.

- The loop bound `n_layers * 2 * blocks` is a 64-bit product that wraps in a release build, so a header whose count wraps
  is let through without coverage (`Daemon.CoverageByCounting`, `Daemon.WrappedCountCommits`). The wire format allows up
  to 2^32 layers, and then the context limit rules this out (`Migration.ContextBoundsChunks`).
- A frame may be 500 MiB and its length is a u32, so an honest run with a larger block is given up while streaming; the
  header is accepted all the same (`Migration.HonestRunCommits`, `Migration.LargeBlockIsRefused`). No peer can get such a
  header past streaming (`Link.NothingLands`).
- Staging is keyed by block hash, so the highest-numbered block of a hash wins (`Migration.HighestBlockWins`). The
  simulator's constant tokens make all full blocks collide (`Header.ConstantTokensCollide`), so its own run restores a
  tensor exactly when its full blocks were equal (`Migration.SimulatorRestoresExactly`).
- The daemon injects before it looks at the last message (`Migration.InjectionPrecedesCommit`), and it compares the context
  limit with the capability claim only, never with the header (`Daemon.ClaimIsNotCompared`).
- `normalize_canonical_kv_tensor` relabels a four-dimensional shape without moving data, which is the transposition it
  stands for only when there is at most one head or one token (`Migration.RelabelIsTranspose`).
- E4M3 writes exponent field 0 as a normal number and reads it as a subnormal one, which breaks the intended error on
  [16/2048, 29/2048) and (30/2048, 31/2048) of the scale and nowhere else (`E4M3.RestoredExactly`).
- The quota is checked for each request alone and against its size modulo 2^64 (`Orchestrator.AdmissionBounds`,
  `Orchestrator.WrappedSizePasses`). A success or failure recorded for no live migration frees a slot in use: n of them
  let n migrations too many in, and no more (`Orchestrator.StraysBreakTheLimit`).
- The failure counter is a u32 that wraps: a breaker stays shut only until then (`Orchestrator.BreakerStaysShut`,
  `Orchestrator.FailuresReopenBreaker`).
- The decision's bit count wraps at 64 bits. The code then says yes too often, never too rarely (`Decision.NeverMissed`,
  `Decision.AnswersExactly`), so that one more token, or choosing fp8, can turn a yes into a no
  (`Decision.WrapAroundBreaksClosure`).
- Chunk, name and codec lengths are cast to u32: a chunk message reads back as itself exactly when they fit
  (`ChunkWire.RoundTrip`).

## Conventions

- An f32 on the raw path is its 32-bit pattern; in the quantisers, the decision and the Python caches floats are reals,
  so rounding, NaN and infinities are not modelled there.
- CRC32, SHA-256, UTF-8, JSON, the bytes of an f32 and the FP8 and qatq payload decoders are function parameters. A
  round trip assumes only the inverse it needs (`ChunkWire.Faithful`, `Int4.Stores`); the frame theorems also that ASCII
  takes a byte a character and that no JSON text of a chunk is shorter than its binary form (`Link.Plain`).
- A header envelope carries what opening and parsing it gives: a header, or nothing.
- Preconditions state what makes the original panic or raise: a block size of 0, a buffer shorter than its shape, a page
  id out of range. Negative page ids count from the end, as in Python. Lengths of buffers that exist in memory are not
  wrapped.

## Model

| member | source | states |
|---|---|---|
| Common.TwoBytes | crates/transport/src/lib.rs:746-759 | a two-byte field, in plain arithmetic: the first byte counts most |
| Common.FourBytes | crates/transport/src/lib.rs:731-744 | the same for four bytes |
| Common.EightBytes | crates/transport/src/lib.rs:761-774 | the same for eight bytes |
| Common.DivCeilExactly | crates/usxf-core/src/validation.rs:31-31 | the number of blocks is the least whose room covers all tokens |
| Radix.StridesAreFlat | crates/transpiler/src/layout.rs:37-47 | the stride sums of the Rust loops are the nested offsets that the Python flat reader computes |
| Radix.Flat3Decodes | adapters/vllm_live_runtime_registry.py:545-553 | indices inside the dimensions land inside a flat three-dimensional buffer, and the offset determines them |
| Radix.Flat3Covers | adapters/vllm_live_runtime_registry.py:545-553 | every position of a flat three-dimensional buffer is the offset of indices inside the dimensions |
| Radix.Flat4Decodes | adapters/vllm_live_runtime_registry.py:545-553 | the same for four dimensions: in range, and decodable |
| Radix.Flat4Covers | adapters/vllm_live_runtime_registry.py:545-553 | the same for four dimensions: onto the buffer |
| Layout.PositionDecodes | crates/transpiler/src/layout.rs:21-62 | a slot (block, head, dim, token) lies inside the paged buffer and is determined by its position, for keys and values |
| Layout.PositionCovers | crates/transpiler/src/layout.rs:126-166 | every position of the paged buffer holds a slot, so the offset map is a bijection |
| Layout.BlockedMeaning | crates/transpiler/src/layout.rs:33-56 | a slot of a token of the context holds that token's canonical element, any other slot holds zero |
| Layout.BlockedExactly | crates/transpiler/src/layout.rs:33-56 | the same in plain indices: the written-out stride sums of a key and of a value cell, the token b * S + o, the canonical offset |
| Layout.SlotExactly | crates/transpiler/src/layout.rs:95-110 | a token's slot is block t / S, offset t mod S |
| Layout.LayoutRoundTrip | crates/transpiler/src/layout.rs:21-226 | unpaging a paged tensor is the identity, for every shape and block size, keys and values |
| Layout.PagedRoundTrip | crates/transpiler/src/layout.rs:21-226 | paging an unpaged buffer restores it if and only if its padding was zero |
| Layout.PaddingInLastBlock | crates/transpiler/src/layout.rs:44-52 | cells past the end of the context lie in the last block only |
| Layout.RustOffsets | crates/transpiler/src/layout.rs:37-47 | the three stride sums of the loops are the key, value and canonical positions |
| Layout.CanonicalToVllmKey | crates/transpiler/src/layout.rs:21-62 | fails exactly on a shape that is not three-dimensional, otherwise the paged key tensor, data and shape |
| Layout.CanonicalToVllmValue | crates/transpiler/src/layout.rs:126-166 | the same for values |
| Layout.VllmToCanonicalKey | crates/transpiler/src/layout.rs:66-122 | fails exactly on a wrong rank, block size or too few blocks, otherwise the canonical key tensor, data and shape |
| Layout.VllmToCanonicalValue | crates/transpiler/src/layout.rs:170-226 | the same for values |
| Header.TokenBlockHashes | crates/usxf-core/src/validation.rs:66-77 | as many hashes as the header check demands: ceil(tokens / block size) |
| Header.ValidateHeader | crates/usxf-core/src/validation.rs:7-56 | accepts exactly version 1.1, batch 1, at least one token, the fewest blocks that hold all tokens, an MLA spec where needed, and two sha256 prefixes |
| Header.BlockHashMeaning | crates/usxf-core/src/validation.rs:66-77 | hash b is the hash of exactly the tokens of block b |
| Header.ConstantTokensCollide | crates/cli/src/main.rs:1415-1417 | for every hash function: a constant context has distinct block hashes if and only if it is one block, or one full block and a shorter one the hash tells apart; two full blocks always collide |
| Binding.SpanHashesExact | crates/cli/src/main.rs:951-964 | the hashes for a span are those of exactly the blocks that hold one of its tokens, a non-empty run |
| Binding.NoSpanNoHashes | crates/cli/src/main.rs:951-954 | a span that is empty or starts past the context has no hashes |
| Binding.ToBindingKeeps | crates/cli/src/main.rs:547-578 | every field of the binding is the manifest's, but the spans' block hashes, which are the header's |
| Binding.EnsureSha256 | crates/cli/src/main.rs:892-901 | accepts exactly the prefix and 64 hexadecimal digits |
| Binding.BlankExactly | crates/cli/src/main.rs:913-915 | a text is blank if and only if it is white space throughout |
| Binding.ValidateManifest | crates/cli/src/main.rs:966-1023 | what a loaded manifest has been checked for, field by field |
| Binding.ValidateSpan | crates/cli/src/main.rs:1061-1117 | accepts a span from any peer exactly when its fields, range, tokenizer and block hashes pass |
| Binding.ValidateBinding | crates/cli/src/main.rs:1025-1130 | accepts a binding from any peer exactly when every required hash, path, span and artifact passes |
| Binding.SpanAcceptedExactly | crates/cli/src/main.rs:547-578 | a loaded span, with the header's hashes put in, passes the daemon's span check if and only if it ends inside the context, agrees on the tokenizer and its blocks have well-formed hashes |
| Binding.BindingAcceptedExactly | crates/cli/src/main.rs:1025-1130 | the binding built from a loaded manifest passes the daemon's validator if and only if the manifest has the required hashes, non-blank paths, a span, and every span is acceptable |
| Messages.DecimalInjective | crates/cli/src/main.rs:1500-1501 | a layer number is determined by its decimal text |
| Messages.DecimalExactly | crates/cli/src/main.rs:1500-1501 | a layer number's text reads back as it, in decimal digits without a leading zero |
| Messages.NamesAreDistinct | crates/cli/src/main.rs:414-462 | a tensor name determines its layer and whether it is a key or a value; only key names end in ".key" |
| Messages.RawRoundTrip | crates/cli/src/main.rs:1294-1305 | decoding the raw bytes gives back the words |
| Messages.EncodeRaw | crates/cli/src/main.rs:1294-1305 | four bytes a word, the first counting most |
| Messages.DecodeRaw | crates/cli/src/main.rs:305-312 | one word per complete group of four bytes, the first counting most |
| Messages.LongestName | crates/cli/src/main.rs:1500-1501 | the last layer's value tensor has the longest name of all chunks |
| Daemon.AllKeys | crates/cli/src/main.rs:250-254 | a header announces exactly layers x 2 x blocks different chunks |
| Daemon.ReceiveExactly | crates/cli/src/main.rs:255-346 | one turn of the loop, in the message's own fields: it accepts exactly a chunk with a matching checksum, a block and layer of the header, that layer's name, not seen before, decoding by the header's scheme to one block of floats; and then exactly that tensor is added, in the shape of its kind |
| Daemon.BadChunkEnds | crates/cli/src/main.rs:255-349 | any other message while streaming ends the connection: no answer, nothing recorded, the cache as it was |
| Daemon.OnlyCheckedChunksLand | crates/cli/src/main.rs:254-391 | over every run: only chunks with a matching checksum are acknowledged, and whatever is injected is the decoded payload of such a chunk sent for that block and name |
| Daemon.ReceiveKeepsInv | crates/cli/src/main.rs:254-350 | an accepted chunk adds one new announced key; every received chunk stays staged under its block's hash, with one block's floats in the right shape, and nothing else is staged |
| Daemon.CoveredBySize | crates/cli/src/main.rs:414-462 | received chunks cover the header if and only if there are as many as it announces |
| Daemon.CoverageByCounting | crates/cli/src/main.rs:250-350 | chunks in any order that survive the loop contain every announced (block, layer, tensor) exactly once, if and only if the announced count fits in 64 bits |
| Daemon.StepKeepsInv | crates/cli/src/main.rs:180-412 | every message keeps the connection invariant: phases, replies, recorded outcome, cache |
| Daemon.Reachable | crates/cli/src/main.rs:180-412 | the invariant holds after every message sequence |
| Daemon.CommitSafety | crates/cli/src/main.rs:180-412 | whatever a peer sends: the injector changes only after the receiving loop ran its count and no offered binding was refused, by exactly the staged blocks and only under the header's hashes; a rejected binding changes nothing and records a failure; success is answered only with every header hash present |
| Daemon.InjectedIsCovered | crates/cli/src/main.rs:388-406 | injection implies full coverage, and with a layer the verification cannot fail, when the count fits |
| Daemon.BoundBlocksInstalled | crates/cli/src/main.rs:355-406 | when a commit follows an offered binding, every block hash its spans name is in the cache |
| Daemon.WrappedCountCommits | crates/cli/src/main.rs:254-406 | a header whose count wraps to zero commits without a single chunk when its blocks are already cached, and is not covered |
| Daemon.WrappedHeader | crates/cli/src/main.rs:254-254 | such a header passes validation: one block of 2^63 layers |
| Daemon.OpeningExactly | crates/cli/src/main.rs:186-247 | anything but a capability request, and then anything but a valid header, ends the connection with exactly the answers given so far; otherwise streaming begins |
| Daemon.LongContextRefused | crates/cli/src/main.rs:199-225 | a claim above 131072 tokens is refused and whatever follows has no effect |
| Daemon.CommitVerdict | crates/cli/src/main.rs:393-411 | a commit request succeeds if and only if every header hash was in the cache or came with a received chunk; unless the count wrapped, that is if there is a layer or the cache already held every hash |
| Daemon.ClaimIsNotCompared | crates/cli/src/main.rs:186-247 | two claims within the limit lead to the same connection, whatever the header's sequence length |
| Connection.KvConnector.InjectBlockTensors | crates/injector/src/lib.rs:72-103 | sets the block's tensors and changes no other block |
| Connection.KvConnector.VerifyContinuation | crates/injector/src/lib.rs:106-120 | true if and only if every expected hash is in the cache |
| Connection.InjectStaged | crates/cli/src/main.rs:388-391 | injecting the staged map in any order is overriding the cache with it |
| Connection.ValidateMetadata | crates/cli/src/main.rs:414-462 | the checks in order accept exactly a new announced chunk, and give its block hash and the extended set |
| Connection.ReadChunk | crates/cli/src/main.rs:255-341 | checksum, metadata, decoding, length and shape accept exactly what the state machine does and give its tensor |
| Connection.OpenConnection | crates/cli/src/main.rs:186-247 | the code of the capability and header exchange ends where the state machine does, on every inbox |
| Connection.ReceiveChunks | crates/cli/src/main.rs:250-350 | the receiving loop ends in the state machine's state, with its staged map and replies, on every inbox |
| Connection.CheckBinding | crates/cli/src/main.rs:352-386 | the optional binding step ends where the state machine does |
| Connection.FinishConnection | crates/cli/src/main.rs:388-411 | injection and commit end in the state machine's outcome, cache, replies and recorded result |
| Connection.HandleConnection | crates/cli/src/main.rs:180-412 | the whole handler refines the state machine: cache, replies, result and orchestrator counters, for every inbox |
| Migration.NormalizeExactly | crates/cli/src/main.rs:1231-1247 | exactly three dimensions, or four with a batch of one, pass; the shape that results; the data is never changed |
| Migration.RelabelIsTranspose | crates/cli/src/main.rs:1231-1247 | relabelling [1, heads, seq, dim] as [seq, heads, dim] is a transposition if and only if heads or seq is at most one |
| Migration.ChunkIsAccepted | crates/cli/src/main.rs:254-350 | the daemon accepts a new honest chunk that reaches it and decodes exactly the floats sent, in the shape of their kind |
| Migration.ChunkArrivesExactly | crates/transport/src/lib.rs:568-604 | an honest chunk reaches the daemon, in front of any other bytes, if and only if 21 bytes, its name and four bytes a float are at most 500 MiB |
| Migration.SentExactly | crates/cli/src/main.rs:1499-1571 | the stream in order: message 2 * (layer * blocks + b) is the key chunk and the next the value chunk of block b, with its number, layer, name, checksum and the floats of that block |
| Migration.AcksExactly | crates/cli/src/main.rs:346-346 | one acknowledgement for each chunk, with its number |
| Migration.StagedFromWire | crates/cli/src/main.rs:1499-1571 | after any number of layers whose frames fit, the daemon has received and staged, under every hash, the last block sent with it, for every tensor |
| Migration.ContextBoundsChunks | crates/cli/src/main.rs:250-250 | within the context limit the chunk count cannot wrap |
| Migration.HonestRunCommits | crates/cli/src/main.rs:1329-1680 | an honest KV-only byte stream commits if and only if the longest chunk fits a frame; then the whole final state: one acknowledgement per chunk, success recorded, the cache overridden by exactly the staged blocks; otherwise the cache is unchanged, nothing is recorded and no success answered |
| Migration.LargeBlockIsRefused | crates/transport/src/lib.rs:592-595 | a concrete accepted header, within the context limit and with distinct hashes, whose 4 GiB chunks are refused |
| Migration.InjectionPrecedesCommit | crates/cli/src/main.rs:388-411 | any last message but a binding leaves the same cache as the commit request, with nothing answered or recorded |
| Migration.BoundRunCommitsExactly | crates/cli/src/main.rs:352-411 | with a binding from a loaded manifest the stream commits if and only if its frames fit and the manifest was ready for the header; an unready one is rejected, a failure is recorded and the cache keeps what it had |
| Migration.HighestBlockWins | crates/cli/src/main.rs:342-345 | after a stream whose frames fit, under each block hash lies the highest-numbered block with that hash, whatever the cache held before |
| Migration.PagedFidelity | crates/cli/src/main.rs:342-345 | after a stream whose frames fit, the paged tensor reassembled from the cache equals the one sent if and only if blocks with equal hashes were equal |
| Migration.PaddingLands | crates/transpiler/src/layout.rs:44-52 | after a stream whose frames fit, whatever the hashes, the reassembled tensor is zero past the end of the context |
| Migration.EveryCellLands | crates/cli/src/main.rs:342-391 | cell by cell in written-out indices: under each block's hash, key cell [head][d][o] and value cell [head][o][d] are the extracted element [token][head][d] of the last block with that hash, zero past the context, under the layer's names and in block shape |
| Migration.FidelityExactly | crates/cli/src/main.rs:254-406 | an honest stream commits if and only if its frames fit, and then unpaging the target's cache gives back the extracted data itself if and only if blocks with equal hashes were equal |
| Migration.EndToEndFidelity | crates/cli/src/main.rs:1499-1571 | with pairwise distinct block hashes it does so for every layer's key and value, if and only if the frames fit |
| Migration.SimulatorRestoresExactly | crates/cli/src/main.rs:1415-1571 | the simulator's own constant-token run restores a tensor if and only if all its full blocks were equal to the last full one |
| Simulation.PageTensor | crates/cli/src/main.rs:1500-1509 | normalising and paging a layer's tensor pages exactly the extracted data |
| Simulation.MakeChunk | crates/cli/src/main.rs:1512-1567 | a chunk carries exactly block b of the paged tensor, with its checksum |
| Simulation.StreamLayer | crates/cli/src/main.rs:1499-1571 | the block loop sends a layer's key and value chunks in order |
| Simulation.StreamLayers | crates/cli/src/main.rs:1499-1571 | the streaming loops send exactly the honest chunk sequence |
| Simulation.SendAll | crates/cli/src/main.rs:1378-1672 | the sender writes exactly the honest byte stream |
| Simulation.Migrate | crates/cli/src/main.rs:1329-1680 | sender's code against daemon's code over bytes: it succeeds if and only if the frames fit, the cache ends as the theorems describe, other blocks are untouched, and the orchestrator records a success or nothing |
| Decision.Evaluate | crates/orchestrator/src/decision.rs:13-55 | the byte count is exact modulo 2^64, and while the bit count does not wrap the answer is the cost comparison |
| Decision.EvaluateExactly | crates/orchestrator/src/decision.rs:13-55 | the size from layers, heads, dimension, tokens and bytes per element of each scheme; prefill and transfer seconds with their constants; the comparison |
| Decision.BudgetSign | crates/orchestrator/src/decision.rs:13-55 | a transfer can pay exactly from 12321 tokens on |
| Decision.NeverMissed | crates/orchestrator/src/decision.rs:13-55 | whatever wraps, the code never says no where the exact rule says yes |
| Decision.AnswersExactly | crates/orchestrator/src/decision.rs:13-55 | on every link the code answers by the exact rule if and only if the context is below 12321 tokens or its bit count fits in 64 bits |
| Decision.MonotoneInLink | crates/orchestrator/src/decision.rs:13-55 | more bandwidth never turns a yes of the code into a no, for any size |
| Decision.MonotoneInCodecExactly | crates/orchestrator/src/decision.rs:13-55 | a one-byte codec never turns a yes of the code into a no, on any link, if and only if the context is below 12321 tokens or its wrapped bit count is no larger, which holds below the 64-bit limit |
| Decision.ClosedExactly | crates/orchestrator/src/decision.rs:13-55 | on every link a longer context keeps the code's yes if and only if the shorter is below 12321 tokens or has no fewer wrapped bits per second of budget |
| Decision.RecommendedAsQuadratic | crates/orchestrator/src/decision.rs:13-55 | the comparison is a quadratic in the token count with the transfer cost per token as its coefficient |
| Decision.SingleCrossover | crates/orchestrator/src/decision.rs:13-55 | the lengths where the exact rule recommends migration are exactly those from one positive threshold on |
| Decision.CodeHasSingleCrossover | crates/orchestrator/src/decision.rs:13-55 | so are the code's own answers, up to any length whose bit count fits in 64 bits |
| Decision.WrapAroundBreaksClosure | crates/orchestrator/src/decision.rs:13-55 | a concrete model for which one more token, and also choosing fp8, turns a yes of the code into a no |
| StateMachine.RunsAreJourneys | crates/orchestrator/src/state.rs:41-89 | every sequence of requests leaves a prefix of the happy path, possibly rolled back: no repeats, at most six entries |
| StateMachine.JourneysAreRuns | crates/orchestrator/src/state.rs:41-89 | every such history is reached by the run that asks for its states |
| StateMachine.JourneyExactly | crates/orchestrator/src/state.rs:41-89 | the histories spelled out state by state |
| StateMachine.MigrationStateMachine.constructor | crates/orchestrator/src/state.rs:24-31 | starts idle with one history entry |
| StateMachine.MigrationStateMachine.TransitionTo | crates/orchestrator/src/state.rs:41-89 | succeeds exactly along the table; appends one timed entry on a real transition and changes nothing otherwise |
| Orchestrator.MigrationOrchestrator.InitiateMigration | crates/orchestrator/src/lib.rs:28-62 | counts a migration in exactly when concurrency, breaker and quota all pass, otherwise changes nothing |
| Orchestrator.MigrationOrchestrator.RecordFailure | crates/orchestrator/src/lib.rs:65-70 | one fewer active (never below zero), one more failure modulo 2^32 |
| Orchestrator.MigrationOrchestrator.RecordSuccess | crates/orchestrator/src/lib.rs:73-78 | one fewer active (never below zero), failures cleared |
| Orchestrator.CountersTrackLive | crates/orchestrator/src/lib.rs:28-78 | over every run the counter stays within the limit and lags the live migrations by at most the stray results |
| Orchestrator.AdmissionBounds | crates/orchestrator/src/policy.rs:33-80 | live migrations are bounded by limit and stray results; each is within the quota by its true size if and only if that is below 2^64, and then together they hold at most that many quotas; without strays limit x quota |
| Orchestrator.WrappedSizePasses | crates/orchestrator/src/policy.rs:45-59 | a request whose true size is a multiple of 2^64 passes every quota |
| Orchestrator.StraysBreakTheLimit | crates/orchestrator/src/lib.rs:65-78 | that bound is met: n stray successes let n migrations too many in, each for a whole quota |
| Orchestrator.BreakerExactly | crates/orchestrator/src/policy.rs:71-80 | over every run the breaker is tripped if and only if the failures since the last recorded success, modulo 2^32, reach the threshold |
| Orchestrator.BreakerStaysShut | crates/orchestrator/src/lib.rs:28-78 | a tripped breaker admits nothing until a success is recorded or the counter wraps |
| Orchestrator.FailuresReopenBreaker | crates/orchestrator/src/lib.rs:65-70 | it does wrap: enough further failures, without a success, leave a breaker that admits again |
| Replay.DefaultsExactly | examples/agent-memory-graph/local_agent.py:349-380 | absent fields: an unknown side effect, a status that needs the user, the node's own policy before the graph's before asking |
| Replay.SafeExactly | examples/agent-memory-graph/local_agent.py:349-428 | which calls may be imported, in the literal side effects, statuses, policies and approvals |
| Replay.RetriesExactly | examples/agent-memory-graph/local_agent.py:349-428 | which calls run again by themselves, likewise |
| Replay.AuditNode | examples/agent-memory-graph/local_agent.py:349-428 | the cascade of updates accepts, retries, skips or rejects a call exactly by a closed rule on status, side effect, policy and approval |
| Replay.AuditMembers | examples/agent-memory-graph/local_agent.py:349-428 | the audit holds exactly the verdicts on the tool calls |
| Replay.AgentGraph.AuditToolReplaySafety | examples/agent-memory-graph/local_agent.py:349-428 | the loop computes one verdict per tool call in order; all safe if and only if the graph is importable |
| Replay.AgentGraph.ImportAllowed | examples/agent-memory-graph/local_agent.py:541-545 | import is let through if and only if every tool call is safe |
| Replay.AgentGraph.MarkToolCallCompleted | examples/agent-memory-graph/local_agent.py:1603-1610 | changes only the first node with the id, if it is a tool call, and fails otherwise |
| Replay.MarkKeepsImportable | examples/agent-memory-graph/local_agent.py:1603-1610 | completing any call keeps an importable graph importable and completed calls completed |
| Replay.ClosedUnderResume | examples/agent-memory-graph/local_agent.py:349-428 | after any sequence of completions every entry of the audit is safe, and every call completed before or marked on the way has a no_replay entry in every later audit |
| Replay.MutatingCallsWait | examples/agent-memory-graph/local_agent.py:349-428 | an external_write or unknown call never retries automatically, also when its policy is the graph's default |
| Frames.EncodeBinaryFrame | crates/transport/src/lib.rs:434-455 | fails exactly above the bound, otherwise the frame's wire form |
| Frames.WireExactly | crates/transport/src/lib.rs:434-455 | a frame byte by byte: magic, version, kind, flags, stream, index, length, checksum, payload |
| Frames.DecodeBinaryFrame | crates/transport/src/lib.rs:457-506 | succeeds exactly on the buffers some frame within the bound encodes to, and returns that frame |
| Frames.WireIsPrefixFree | crates/transport/src/lib.rs:434-506 | a byte stream starts with at most one frame |
| Frames.ReadField | crates/transport/src/lib.rs:731-775 | reads a big-endian field and moves past it, or fails exactly when too few bytes are left |
| Frames.RecvBinaryFrame | crates/transport/src/lib.rs:528-565 | succeeds exactly when the stream starts with a frame within the bound, and takes exactly that frame |
| Frames.ReceiveFrames | crates/transport/src/lib.rs:528-565 | repeated receives split the stream into frames and a remainder that starts with none |
| Frames.StreamIsUnique | crates/transport/src/lib.rs:528-565 | what is received off a concatenation of frames is that list of frames, with nothing left |
| Frames.ReceiveSent | crates/transport/src/lib.rs:434-565 | frames within the bound, encoded one after the other and received, are exactly those frames |
| Frames.BinaryFrameValidator.Accept | crates/transport/src/lib.rs:400-431 | accepts exactly a frame within the bound whose (stream, index) was not accepted before, and remembers it |
| Frames.NoFrameTwice | crates/transport/src/lib.rs:400-431 | over every run no (stream, index) pair is accepted twice |
| Frames.NoFrameLost | crates/transport/src/lib.rs:400-431 | a frame within the bound is refused only because its pair was accepted |
| Frames.ValidateAll | crates/transport/src/lib.rs:400-431 | a fresh validator over a list accepts exactly the specified frames |
| ChunkWire.BodyExactly | crates/transport/src/lib.rs:641-652 | a chunk byte by byte: block, layer, name, checksum, data and the optional codec, with their lengths |
| ChunkWire.BodyReads | crates/transport/src/lib.rs:625-663 | the bytes of a chunk whose lengths fit read back as its fields |
| ChunkWire.ReadsIsBody | crates/transport/src/lib.rs:677-729 | bytes that read as fields are the bytes of those fields |
| ChunkWire.ReadingIsUnique | crates/transport/src/lib.rs:677-729 | a reading is unique, so a missing codec trailer is never confused with a present one |
| ChunkWire.EncodeMessage | crates/transport/src/lib.rs:625-663 | a chunk's kind byte and body, or a kind byte and JSON |
| ChunkWire.DecodePayloadChunk | crates/transport/src/lib.rs:677-729 | succeeds exactly on bytes that read as fields with a meaning, and returns it |
| ChunkWire.DecodeMessage | crates/transport/src/lib.rs:665-675 | dispatches on the kind byte and succeeds exactly on bytes that stand for a message |
| ChunkWire.OnlyFittingRoundTrips | crates/transport/src/lib.rs:625-729 | if a chunk message reads back as itself its lengths fit in 32 bits |
| ChunkWire.RoundTripExactly | crates/transport/src/lib.rs:625-729 | the bytes of a chunk message stand for it if and only if name, data and codec lengths fit in 32 bits |
| ChunkWire.RoundTrip | crates/transport/src/lib.rs:625-729 | so the decoder gives back what the encoder wrote in exactly those cases |
| Link.SendMessage | crates/transport/src/lib.rs:568-581 | the encoded message behind its length modulo 2^32, four bytes in network order |
| Link.RecvMessage | crates/transport/src/lib.rs:584-604 | takes exactly one message off the stream, or fails exactly when the length is above 524288000, the stream is shorter or the bytes do not decode |
| Link.NextOfFrame | crates/transport/src/lib.rs:568-604 | a frame gives back its message and leaves what follows if and only if it is within the limit and the message decodes |
| Link.ChunkCarried | crates/transport/src/lib.rs:568-604 | a chunk gets through if and only if its encoding is at most 500 MiB |
| Link.WiredDelivers | crates/transport/src/lib.rs:568-604 | messages that get through one by one get through as a stream, whatever follows |
| Link.ReceiveAll | crates/transport/src/lib.rs:584-604 | repeated receives give exactly the messages before the first refused frame |
| Link.OnlyTransferableHeadersLand | crates/cli/src/main.rs:254-412 | whatever bytes a peer sends, the daemon gets past streaming only for a header whose longest raw chunk fits a frame |
| Link.NothingLands | crates/cli/src/main.rs:254-412 | behind any other header no bytes change the cache, record an outcome or are answered with success |
| Tunnel.MaskingFlipsKeyBits | adapters/production_transport_proxy.py:106-106 | a bit of a masked byte differs from the payload's if and only if that bit of the key byte at its position modulo four is set |
| Tunnel.MaskedTwice | adapters/production_transport_proxy.py:91-129 | masking is its own inverse for every key (section 5.3 of RFC 6455) |
| Tunnel.FrameBytes | adapters/production_transport_proxy.py:91-107 | a frame byte by byte: 0x82, mask bit and shortest length in network order, key, masked payload |
| Tunnel.LengthExactly | adapters/production_transport_proxy.py:119-123 | the length a receiver reads, from seven bits or from two or eight bytes |
| Tunnel.ParseExactly | adapters/production_transport_proxy.py:110-129 | when bytes are refused for opcode or mask, when they give a payload, which bytes that is and what is left |
| Tunnel.ParseOfFrame | adapters/production_transport_proxy.py:91-129 | a frame parses to its payload and leaves what follows when the mask expectation agrees, and is refused when it does not |
| Tunnel.ShortestForm | adapters/production_transport_proxy.py:91-107 | no byte string the receiver takes for a payload is shorter than the frame sent (section 5.2 of RFC 6455) |
| Tunnel.TunnelIsTransparent | adapters/production_transport_proxy.py:132-154 | for every split into chunks and every key the receiving pipe forwards the original stream, and with the wrong mask expectation nothing |
| Tunnel.Socket.RecvExact | adapters/production_transport_proxy.py:26-35 | the next bytes however recv fragments them, or end of file exactly when too few arrive |
| Tunnel.Socket.SendWsFrame | adapters/production_transport_proxy.py:91-107 | sends exactly one frame of the payload, in the clear or with the bits of the key sent before it flipped |
| Tunnel.Socket.RecvWsFrame | adapters/production_transport_proxy.py:110-129 | the payload carried by the bytes consumed, with the bits of their key flipped if masked, leaving the rest of the stream |
| Tunnel.PipeTcpToWs | adapters/production_transport_proxy.py:132-143 | sends frames of at most 65536 bytes whose payloads concatenate to the whole source stream |
| Tunnel.PipeWsToTcp | adapters/production_transport_proxy.py:146-154 | forwards exactly the payloads at the front of the stream |
| Tunnel.TunnelDirection | adapters/production_transport_proxy.py:157-165 | frames are masked exactly from the client side, and the target is sent exactly the source stream |
| Negotiation.SortSorts | crates/transport/src/lib.rs:325-377 | the offers sorted are the same offers in descending priority |
| Negotiation.FirstOfSorted | crates/transport/src/lib.rs:325-377 | the first of the best offers comes first |
| Negotiation.CompatibleExactly | crates/transport/src/lib.rs:334-338 | a pair is compatible if and only if the modes are equal and both sides have binary framing and mutual TLS |
| Negotiation.BestExactly | crates/transport/src/lib.rs:358-367 | against every compatible pair, the smaller of the chosen two priorities is larger than the smaller of its two, or equal and the chosen pair comes no later |
| Negotiation.NegotiateTransport | crates/transport/src/lib.rs:325-377 | fails if and only if no pair is compatible; otherwise the best pair's merged profile and both reasons, with every source mode considered |
| Negotiation.AgreedExactly | crates/transport/src/lib.rs:340-356 | every agreed limit is one side's and at most both, the rest is the source's |
| Negotiation.AgreedKeepsAlive | crates/transport/src/lib.rs:325-377 | keepalive stays below the idle timeout when both sides have it so |
| Negotiation.NegotiationIsSymmetric | crates/transport/src/lib.rs:325-377 | swapping the sides gives the same smaller priority |
| Negotiation.AgreementIsSymmetric | crates/transport/src/lib.rs:325-377 | swapping the sides does not change whether they agree |
| E4M3.Round | crates/transpiler/src/quant.rs:81-81 | the nearest integer, halves away from zero |
| E4M3.DecodeExactly | crates/transpiler/src/quant.rs:100-114 | all 256 codes: steps of 1/512 up to code 15, doubling every eight codes, code 127 no number, the upper half negative |
| E4M3.PowerIsExact | crates/transpiler/src/quant.rs:87-94 | a power of two in the normal range, and so the result of a carry, is restored exactly |
| E4M3.NormalBound | crates/transpiler/src/quant.rs:51-114 | from 1/64 up a magnitude is restored within a sixteenth of itself and half a step of its power of two, never as NaN |
| E4M3.TinyBound | crates/transpiler/src/quant.rs:51-114 | below 1/128 a magnitude is restored within 1/1024 |
| E4M3.BandValue | crates/transpiler/src/quant.rs:67-108 | between them the mantissa is written as normal and restored as subnormal |
| E4M3.LargestIsExact | crates/transpiler/src/quant.rs:62-65 | 448 is restored exactly |
| E4M3.Saturates | crates/transpiler/src/quant.rs:62-65 | beyond 448 the largest value of that sign is restored |
| E4M3.RestoredExactly | crates/transpiler/src/quant.rs:51-114 | every value up to 448 is restored with its sign, and within the intended error if and only if it lies outside two bands |
| E4M3.ComputeOptimalScale | crates/transpiler/src/quant.rs:189-202 | the loop computes max abs over the slice divided by the representable maximum, 1 for a zero slice |
| E4M3.ScaleFits | crates/transpiler/src/quant.rs:189-202 | the scale is positive and takes the largest magnitude exactly to the representable maximum |
| E4M3.MaxAbsIsMet | crates/transpiler/src/quant.rs:189-202 | the maximum is the magnitude of an element |
| E4M3.SliceRestoredExactly | crates/transpiler/src/quant.rs:189-212 | over every slice with its own scale: same length, signs kept, no NaN, the largest element exact, every other within its error if and only if outside the two bands |
| Int4.NibbleExactly | crates/transpiler/src/quant.rs:377-390 | a coefficient is the nearest multiple held to seven either way, plus eight; restoring subtracts eight and scales |
| Int4.NibbleError | crates/transpiler/src/quant.rs:377-390 | for values the scale was computed for the clamp never bites and the error is at most half a step |
| Int4.QuantizeI4 | crates/transpiler/src/quant.rs:317-340 | byte by byte: length, scale, and element i rounded to the scale in the high nibble if even, the low if odd; 8 + ceil(n/2) bytes |
| Int4.DequantizeI4 | crates/transpiler/src/quant.rs:342-375 | succeeds exactly on well-formed payloads of the expected length, element by element |
| Int4.WellFormedExactly | crates/transpiler/src/quant.rs:343-366 | well formed byte by byte: the expected length in network order, a positive scale, the right size |
| Int4.RestoredExactly | crates/transpiler/src/quant.rs:367-390 | element i from the high nibble if even, the low if odd, less eight, times the scale |
| Int4.OnlyItsLength | crates/transpiler/src/quant.rs:342-366 | a payload is accepted for an expected length if and only if it is its own and fits in 32 bits |
| Int4.RoundTrip | crates/transpiler/src/quant.rs:317-390 | decoding an encoded slice, odd or even, restores every element within half its scale, max abs / 14 when non-zero; any other expected length is refused |
| Bridge.CanonicalTensorData | adapters/vllm_runtime_bridge.py:71-95 | accepts exactly a three-dimensional shape with as many values, and places value [t][h][d] from its flat offset |
| Bridge.KeyToBlocks | adapters/vllm_runtime_bridge.py:99-114 | cell [b][h][d][o] is token b * block_size + o of the context, zero past its end; at least one block |
| Bridge.ValueToBlocks | adapters/vllm_runtime_bridge.py:118-133 | the same with offset and dimension swapped |
| PagedCache.PreparedExactly | adapters/vllm_live_runtime_registry.py:605-618 | elements of nested blocks: key [b][h][d][t], value [b][h][t][d] |
| PagedCache.PreblockedExactly | adapters/vllm_live_runtime_registry.py:511-553 | dimensions and elements of flat tensors, with the offsets written out |
| PagedCache.LayoutExactly | adapters/vllm_live_runtime_registry.py:322-341 | which of the four layouts a cache shape has, or none, or a division by an empty page |
| PagedCache.PagingCollapses | adapters/vllm_live_runtime_registry.py:322-374 | blocking and then splitting puts token g on logical page g / T, slot g mod T, whatever the block size, in all four layouts |
| PagedCache.WriteRow | adapters/vllm_live_runtime_registry.py:597-676 | writes one head's key and value row and no other cell |
| PagedCache.WriteToken | adapters/vllm_live_runtime_registry.py:635-671 | writes all heads of a token to its slot and no other cell |
| PagedCache.WriteBlockByHead | adapters/vllm_live_runtime_registry.py:620-633 | head by head, fills exactly one page with a block |
| PagedCache.WriteCombinedCache | adapters/vllm_live_runtime_registry.py:597-676 | for every cell, its content is that of the last token landing on it, or unchanged; also when page ids repeat |
| PagedCache.LandsOnce | adapters/vllm_live_runtime_registry.py:562-565 | with distinct pages every token is the only one on its slot |
| PagedCache.ElementLands | adapters/vllm_live_runtime_registry.py:344-374 | with distinct pages every source element is at the position the index computation gives |
| PagedCache.OtherPagesKeep | adapters/vllm_live_runtime_registry.py:597-676 | a page no block resolves to keeps its content |
| PagedCache.SamplePoints | adapters/vllm_live_runtime_registry.py:287-319 | between one and three different points inside the layer, the first element among them |
| PagedCache.ProbeExactly | adapters/vllm_live_runtime_registry.py:412-428 | the probe of an element matches if and only if what its token holds is within a millionth of it, key and value |
| PagedCache.CombinedSlotSamples | adapters/vllm_live_runtime_registry.py:384-437 | reports a match if and only if every sampled element is found where the layout puts it |
| PagedCache.InstallLayer | adapters/vllm_live_runtime_registry.py:597-676 | over distinct pages every element is readable and pages no id names are unchanged |
| PagedCache.RegisterLayer | adapters/vllm_live_runtime_registry.py:597-676 | with distinct in-range ids token b * S + t is in slot g mod T of page ids[g / T], from the end if negative; pages no id names are unchanged and the probe always matches |
| PagedCache.InstallCanonical | adapters/vllm_runtime_bridge.py:99-133 | blocking and scattering together: canonical element [g][h][d] of key and value is in slot g mod T of page ids[g / T], slots past the context are zero, other pages unchanged |

## Left out

- The AES-GCM and Ed25519 envelope, SHA-256, CRC32, zstd, lz4 and the qatq crate: foreign code, kept as parameters or absent.
- FP8 end to end: the sender's scale is not transmitted and the daemon decodes with a constant, so only the quantise and dequantise pair under a shared scale is modelled.
- E5M2 and the compression statistics: the same shape as E4M3 with easier claims, and counters.
- IEEE rounding, NaN and infinities in the quantisers, the decision and the probe: arithmetic is over reals.
- TLS and WebSocket handshakes, threads and phase timeouts: I/O.
- The sender's reading of acknowledgements, and manifests, timing and environment reports: they do not change what is transferred.
- JSON-command injector and extractor: shell commands; the mock backend is modelled.
- The writer for separate key and value caches, prefix-cache seeding and runtime introspection: they depend on objects that are not part of this model.
- The nested-list branch of `_canonical_tensor_data`: it passes its input on.
- Graph builders, vector memory and framework adapters of the example agent: constant data.
- Decision.CodeHasSingleCrossover: states that no wrap-around suffices for the single crossover; the exact condition is pairwise, in Decision.ClosedExactly.
- Decision.Evaluate: a bandwidth of zero gives no finite transfer time and a no; the f64 negative zero is not told apart.
- Migration.EndToEndFidelity: assumes the raw codec, an extractor that delivered every layer in the header's shape, at most 2^32 layers, a block of fewer than 2^64 floats, and that capability, header, binding and commit messages fit a frame as JSON, whose length is a foreign function.
- Tunnel.PipeWsToTcp: what the socket buffer holds after an error or a close is not stated, because the pipe ends there.
- PagedCache.WriteCombinedCache: the cache is a five-dimensional array; a page id out of range, which raises in the original after part of the cache was written, is a precondition.
