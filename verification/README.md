# Ohmy miner: a verified model

Ohmy is a GPU miner for Ethereum Classic. A pool connection delivers jobs, a generator fills the
dataset (DAG) of the job's epoch in GPU memory, search kernels hash nonces against it, and the hits go
back to the pool as shares. This project models the algorithms and state machines of the miner and
proves what they are for. `dafny verify dfyconfig.toml` checks all of it.

## How it is laid out

- **Keccak.** `Words` (64-bit words as bit sequences), `KeccakF` (the permutation as coded),
  `KeccakInverse` (it is a bijection), `Fips202` (Algorithms 1 to 6 of FIPS 202, bit by bit, and the
  proof that the code computes them, round constants and rotations included), `KeccakCycle` (the
  24-cycle behind the in-place rho and pi), `Sponge` (Algorithms 8 and 9), `SpongeLaws` (what they keep
  apart), `KeccakHost` (the block-wise code on arrays), `KeccakDag` (the byte-streaming code), `Hashes`
  (both hashes on byte strings).
- **Search.** `SearchKernel` (threads interleaved in any order, publishing hits through one atomic
  counter), `NonceSweep` (the launch arithmetic of both kernels), `KernelHash` (what one thread computes,
  in both versions of the code, and what a whole launch leaves behind), `SyncSearch` (the blocking search
  of the mining loop: its launch and what the host collects from it).
- **Pipeline.** `Pipeline` (the N-stream state machine against a device that executes queued commands
  whenever it likes), `PipelineHost` (the objects of the host, proved against that machine).
- **Pool.** `Framing` (cutting a receive buffer into JSON objects), `HexUtils` (hexadecimal texts),
  `JobFlow` (jobs, datasets, searches and shares as a state machine), `ShareCounts` (its share counters),
  `JobFlowHost` (its four objects).
- **Epochs and datasets.** `Ethash` (seed chain, sizes, narrowings), `DagBatches` (filling the dataset),
  `Hashimoto` (the host's search function and its check).
- **Helpers.** `Arithmetic`, `Octets`, `Options`.

Code that works in place is modelled by methods on arrays and objects, each proved against a function;
what the function means is then proved in lemmas. `hide` statements only keep proofs short.

## Results worth knowing

- The block-wise and the byte-streaming Keccak agree with FIPS 202 and with each other on every message,
  and the permutation is invertible. `keccak_dev.cuh` repeats the text of `keccak.cpp` for the device and
  shares its model.
- The one-nonce launcher serves a request correctly exactly up to 2^32 nonces. The batched one does so
  exactly while its 64-bit sum does not wrap, its thread count is below 2^31 and its rounded-up range has
  at most 2^32 nonces; this is stated for all requests whose signed addition does not overflow. Past these
  bounds nonces are repeated or missed. With one nonce a thread, 2^31 nonces are already too many: the
  thread count becomes negative and nothing is launched.
- The kernels compute dataset offsets in 32 bits. This is exact up to seed epoch 7937. Past it the
  kernels stay in bounds and still agree, but see only the first 2^28 pairs.
- `generateDagGpu` ends exactly when there are at most 2^32 - 2^20 items.
- While the engine has a job, the device holds the dataset generated for that job's epoch, whatever
  failed before, and that epoch is the one of the job's seed hash. Every share carries the texts of one
  and the same `mining.notify`, where they read as hashes, as job ID and header hash, and its mix digest is the kernel's digest of its
  own nonce over the dataset of that message's seed hash. The last part is proved from the launch: through
  the threads' stores, the collection and the printing of the share.
- The parts both sides of such a proof share have laws of their own. The mixing step is injective in each
  word, since the FNV prime is odd, and the messages that are hashed are the only ones that consist of
  their parts.

## Where the code and its comments or documents differ

The model follows the code.

- A header or seed hash that does not parse is only logged (`src/network/stratum_client.cpp:508-515`);
  the job is used with whatever the buffer held. `DecodeJob` keeps this.
- An unknown seed hash becomes epoch 0 (`src/network/stratum_client.cpp:519-523`).
- The kernel accepts a result equal to the target (`src/cuda/kernels/search_kernel.cu:117`), while
  `docs/ETHASH.md` asks for one below it.
- `docs/ETHASH.md` gives the cache size as growing with every epoch; at epoch 390 the code falls back to
  the size of epoch 195 (`src/core/ethash.cpp:157-160`).
- The scanner's comment says that an incomplete object waits for more data
  (`src/network/stratum_client.cpp:406-409`), but its buffer is local, so the rest is lost.
- The dataset kernel writes word numbers and does not use the cache (`src/cuda/dag_kernel.cu:126-130`).
  A launch error there is printed, not reported (`src/cuda/dag_kernel.cu:6-11`), so "generated for an
  epoch" means filled by the generation call for it.
- `verifySolution` never recomputes the mix digest.

## Model

| member | source | states |
|---|---|---|
| Words.Rotl | src/core/keccak.cpp:29-31 | the two shifts joined by or fetch bit z from position (z - n) mod 64 |
| Words.RotlZero | src/core/keccak.cpp:29-31 | rotation by 0, as lane 0 needs it, is the identity |
| Words.LowBitAt | src/core/keccak.cpp:8-17 | bit z of a literal is the one of weight 2^z |
| Words.OfNatValue | src/core/keccak.cpp:8-17 | a literal below 2^64 is the number its word stands for, and no other word stands for it |
| KeccakF.PiSourceTarget | src/core/keccak.cpp:67-71 | the lane map of the scratch array is a permutation: its explicit inverse undoes it on both sides |
| KeccakInverse.MixSquared | src/core/keccak.cpp:53-58 | on column parities, applying theta's action of step d and rotation n twice is the action of step 2d and rotation 2n |
| KeccakInverse.MixTo64 | src/core/keccak.cpp:53-58 | six squarings turn theta's action into one that does not rotate |
| KeccakInverse.MixCubed | src/core/keccak.cpp:53-58 | that action has order three |
| KeccakInverse.MixInjective | src/core/keccak.cpp:53-58 | theta's action on column parities is injective |
| KeccakInverse.ThetaInverseOfTheta | src/core/keccak.cpp:51-63 | theta is undone by adding to the columns the spread of the recovered parities |
| KeccakInverse.ThetaOfThetaInverse | src/core/keccak.cpp:51-63 | and the other way round, so theta is onto |
| KeccakInverse.RhoPiInverses | src/core/keccak.cpp:65-71 | rho and pi together are undone on both sides |
| KeccakInverse.ChiInverses | src/core/keccak.cpp:73-78 | chi is undone on both sides |
| KeccakInverse.RoundInverses | src/core/keccak.cpp:50-82 | every round is undone on both sides |
| KeccakInverse.PermuteIsPermutation | src/core/keccak.cpp:49-83 | Keccak-f[1600] as coded is a bijection on all 25-lane states |
| KeccakInverse.PermuteInjective | src/core/keccak.cpp:49-83 | no two states are mapped to one |
| Fips202.RoundConstantsAreGenerated | src/core/keccak.cpp:8-17 | the table of round constants is what the shift register of FIPS 202, Algorithms 5 and 6, generates |
| Fips202.TurnsAreTriangular | src/cuda/dag_kernel.cu:34-37 | the t-th rotation amount is (t+1)(t+2)/2 modulo 64 |
| Fips202.RhoIsRotation | src/core/keccak.cpp:19-26 | rotating each lane by its tabulated offset is the walk of Algorithm 2 |
| Fips202.ThetaIsStandard | src/core/keccak.cpp:51-63 | theta on lanes is Algorithm 1 on bits |
| Fips202.PiIsStandard | src/core/keccak.cpp:65-71 | the scratch array holds Algorithm 3 after Algorithm 2 |
| Fips202.ChiIsStandard | src/core/keccak.cpp:73-78 | chi on lanes is Algorithm 4 on bits |
| Fips202.RcBitAt | src/core/keccak.cpp:8-17 | bit 2^j - 1 of the round constant is rc(j + 7*round) for j up to 6, all other bits are zero |
| Fips202.RoundKeyBits | src/core/keccak.cpp:8-17 | the word added in each of the 24 rounds has exactly the bits of Algorithm 6 |
| Fips202.IotaIsStandard | src/core/keccak.cpp:81 | iota on lanes is Algorithm 6 on bits |
| Fips202.PermuteIsStandard | src/core/keccak.cpp:49-83 | the 24 rounds are Keccak-p[1600, 24] of section 3.3, for every state |
| KeccakCycle.CycleTables | src/cuda/dag_kernel.cu:34-42 | at every step the two device tables agree with pi and with the rotation offsets of the lane they move |
| KeccakCycle.CycleCovers | src/cuda/dag_kernel.cu:39-42 | the cycle visits every lane but lane 0 |
| Sponge.PadFills | src/core/keccak.cpp:105-111 | pad10*1 always completes the last block |
| Sponge.UnpadPad | src/core/keccak.cpp:105-111 | the message is recovered from its padded form |
| Sponge.PaddingInjective | src/core/keccak.cpp:105-111 | two messages with the same padded blocks are equal, for every rate |
| Sponge.PaddedBlockBits | src/core/keccak.cpp:105-111 | the bytes 0x01, zeros and 0x80 of the last block are pad10*1 of section 5.1, also when they share a byte |
| Sponge.AddByteExtends | src/cuda/dag_kernel.cu:93-94 | shifting one byte into a lane extends an absorbed prefix by that byte |
| Sponge.SetByteAdds | src/core/keccak.cpp:96-99 | overwriting state bytes with sums is adding the block |
| SpongeLaws.AddBlockTwice | src/core/keccak.cpp:113-116 | adding a block to the state is undone by adding it again |
| SpongeLaws.StateIsItsBits | src/core/keccak.cpp:119-120 | the state is the sum of its own output bits, so the output order is the order of absorption |
| SpongeLaws.AbsorbInParts | src/core/keccak.cpp:94-103 | whole blocks can be absorbed first and the rest later |
| SpongeLaws.PaddingShape | src/core/keccak.cpp:105-111 | the padding is a one, zeros and a one, completes the block, and no shorter one does |
| SpongeLaws.ShortHash | src/core/keccak.cpp:85-121 | the hash of a message that fits into one block is the beginning of the once-permuted padded block |
| SpongeLaws.ShortMessagesDiffer | src/core/keccak.cpp:85-121 | two messages that fit into one block never meet in the same state |
| KeccakHost.ColumnParities | src/core/keccak.cpp:53-55 | the first loop computes the five column parities |
| KeccakHost.ColumnSpreads | src/core/keccak.cpp:56-58 | the second loop computes what theta adds to each column |
| KeccakHost.ThetaInPlace | src/core/keccak.cpp:51-63 | the three loops leave theta of the old state |
| KeccakHost.RhoPiToScratch | src/core/keccak.cpp:65-71 | the nested loops fill the scratch array with rho and pi of the state |
| KeccakHost.ChiFromScratch | src/core/keccak.cpp:73-78 | the nested loops overwrite the state with chi of the scratch array |
| KeccakHost.KeccakF1600 | src/core/keccak.cpp:49-83 | the array ends up permuted by all 24 rounds |
| KeccakHost.XorIntoState | src/core/keccak.cpp:113-116 | the byte loop adds a block to the state and leaves the rest alone |
| KeccakHost.AddMessageBlock | src/core/keccak.cpp:95-99 | going through the byte buffer adds one message block to the state |
| KeccakHost.PadLastBlock | src/core/keccak.cpp:105-111 | the cleared buffer receives the rest of the message and both padding bits |
| KeccakHost.CopyOut | src/core/keccak.cpp:119-120 | the output bytes are the first bytes of the state |
| KeccakHost.Keccak | src/core/keccak.cpp:85-121 | for every message the output is the sponge of FIPS 202, sections 4 and 5, on the message bits, with rate 1600 - 16*outputLen |
| KeccakDag.RhoPiAlongCycle | src/cuda/dag_kernel.cu:60-66 | walking the cycle with one carried lane leaves what the scratch array of the host code holds |
| KeccakDag.ChiByRows | src/cuda/dag_kernel.cu:68-76 | chi row by row with a five-lane copy equals chi of the old state |
| KeccakDag.KeccakF1600 | src/cuda/dag_kernel.cu:22-82 | the device permutation leaves the same state as the host's |
| KeccakDag.PadWords | src/cuda/dag_kernel.cu:102-104 | the two shifted padding words are the padded last block |
| KeccakDag.Keccak512 | src/cuda/dag_kernel.cu:85-111 | the hash fed byte by byte is the same sponge, for every length |
| KeccakDag.BothHashes | src/cuda/dag_kernel.cu:85-111 | on every message the byte-streaming hash and the block-wise hash return the same 64 bytes |
| Hashes.HashBytes | src/core/keccak.cpp:123-137 | the block-wise sponge computes the hash functions the other modules reason about |
| Hashes.KeccakIsSponge | src/core/keccak.cpp:85-121 | read as bits, the digest of every byte string is the sponge of its bits |
| Hashes.MessagesStayDistinct | src/core/keccak.cpp:85-121 | two byte strings with the same bits are equal, so reading bytes as bits merges no messages |
| Hashes.ByteBits | src/core/keccak.cpp:95-99 | bit z of a byte is the one of weight 2^z |
| SearchKernel.InvRun | src/cuda/kernels/search_kernel.cu:117-135 | under every interleaving the counter is the number of slot numbers taken, each taken once by a hit, and every slot holds exactly the stores its one owner has made so far |
| SearchKernel.FinishedRun | src/cuda/kernels/search_kernel.cu:117-135 | when all threads are done the count is the number of hits, slots below count and limit hold complete records of distinct hits, and all other slots are as they were |
| SearchKernel.GridFitsCounter | src/cuda/kernels/search_kernel.cu:118 | a launch on fewer than 2^32 nonces cannot overflow the 32-bit counter |
| SearchKernel.LimitRespected | src/cuda/kernels/search_kernel.cu:118-119 | at every moment the slots at or above the limit are untouched |
| SearchKernel.OneWriterPerSlot | src/cuda/kernels/search_kernel.cu:259-272 | two stores into one slot, at any two moments, are by the same thread |
| NonceSweep.NoRepeatsIfFits | src/cuda/kernels/search_kernel.cu:178-183 | no nonce occurs twice in a launch if the last thread's 32-bit product does not wrap |
| NonceSweep.RepeatsIfTooBig | src/cuda/kernels/search_kernel.cu:178-183 | and if it does, some nonce occurs twice, so the bound is exact |
| NonceSweep.TestsInterval | src/cuda/kernels/search_kernel.cu:178-183 | without wrap-around a launch covers one contiguous interval and nothing else |
| NonceSweep.BaseServes | src/cuda/kernels/search_kernel.cu:532-533 | the one-nonce launcher covers a request without repeats exactly up to 2^32 nonces, rounding up to a multiple of 1024 |
| NonceSweep.FarNonceMissed | src/cuda/kernels/search_kernel.cu:31 | the nonce 2^32 places after the start is never reached by the one-nonce kernel |
| NonceSweep.BatchedServes | src/cuda/kernels/search_kernel.cu:431-435 | if the int addition does not overflow, the batched launcher covers a request without repeats exactly when its 64-bit sum does not wrap, its thread count is below 2^31, and its rounded-up range has at most 2^32 nonces |
| NonceSweep.CutTotalMisses | src/cuda/kernels/search_kernel.cu:434 | a thread count that is cut down to an int leaves nonces out or repeats some |
| NonceSweep.RequestedHitFound | src/cuda/kernels/search_kernel.cu:259-272 | every hit of a served request is a hit of some thread |
| NonceSweep.RecordsAreHits | src/cuda/kernels/search_kernel.cu:117-135 | the records below the count are exactly the records of the launch's hits |
| NonceSweep.KernelsAgree | src/cuda/kernels/search_kernel.cu:179-272 | whatever the two interleavings, the batched and the one-nonce kernel leave the same records for the requested nonces |
| KernelHash.MixItems | src/cuda/kernels/search_kernel.cu:77-82 | the inner loop mixes all 128 bytes of a pair into the 32 words |
| KernelHash.FirstMix | src/cuda/kernels/search_kernel.cu:50-64 | both halves of the first mix are the little-endian words of Keccak-512 of the one message made of header and nonce |
| KernelHash.PairIndexValue | src/cuda/kernels/search_kernel.cu:69-71 | the mix word of the access picks the pair: alone when the access number meets the seed word, otherwise with the prime times their exclusive or |
| KernelHash.NextMix | src/cuda/kernels/search_kernel.cu:66-83 | access i mixes in the pair that the first word of that hash, i and the mix so far pick |
| KernelHash.MixPairChanges | src/cuda/kernels/search_kernel.cu:77-82 | word w of a pair goes into word w of the mix, and changing either changes the result there |
| KernelHash.BaseAccesses | src/cuda/kernels/search_kernel.cu:66-83 | 64 accesses with two 32-bit item offsets mix in the pairs the offsets reach, in bounds for every dataset |
| KernelHash.BatchedAccesses | src/cuda/kernels/search_kernel.cu:204-226 | 64 accesses with one 32-bit and one 64-bit offset do the same |
| KernelHash.BaseOffsets | src/cuda/kernels/search_kernel.cu:74-75 | both nested 32-bit products wrap alike: the second item always lies eight words after the first |
| KernelHash.ReachedInside | src/cuda/kernels/search_kernel.cu:71-75 | a wrapped offset still points at a whole pair inside the dataset |
| KernelHash.AllPairsReached | src/cuda/kernels/search_kernel.cu:38-75 | every pair is its own target exactly up to 2^28 pairs |
| KernelHash.JobDatasetReached | src/cuda/kernels/search_kernel.cu:38-75 | for every epoch a job can have, all pairs of its dataset are counted and reached |
| KernelHash.CompressMix | src/cuda/kernels/search_kernel.cu:85-93 | each digest word folds four consecutive mix words |
| KernelHash.CompressOrder | src/cuda/kernels/search_kernel.cu:85-93 | alone, the four words of a group count with the third, second, first and zeroth power of the prime |
| KernelHash.CompressChanges | src/cuda/kernels/search_kernel.cu:85-93 | changing one word of a group changes its digest word |
| KernelHash.FinalInputReads | src/cuda/kernels/search_kernel.cu:95-106 | the bytes hashed last are the words of the mix digest, then the seed hash |
| KernelHash.ResultOf | src/cuda/kernels/search_kernel.cu:95-106 | the result is Keccak-256 of the one message made of the 64 accesses' compressed mix and the seed hash |
| KernelHash.OrderPrefix | src/cuda/kernels/search_kernel.cu:108-115 | the first differing byte decides the order of two big-endian numbers |
| KernelHash.CompareWithBreak | src/cuda/kernels/search_kernel.cu:108-115 | the loop that breaks computes the order of the two 256-bit numbers |
| KernelHash.CompareWithGuard | src/cuda/kernels/search_kernel.cu:247-256 | the loop guarded by its result computes the same order |
| KernelHash.BaseNonce | src/cuda/kernels/search_kernel.cu:47-117 | the one-nonce kernel computes mix digest, result and hit of its nonce |
| KernelHash.BatchedNonce | src/cuda/kernels/search_kernel.cu:186-259 | the batched kernel computes the same three |
| KernelHash.LaunchRecordsGenuine | src/cuda/kernels/search_kernel.cu:47-135 | whatever the interleaving, a finished launch leaves only records whose digests are those of their nonces and whose result is at most the target, and misses no nonce with such a result while the count is within the limit |
| SyncSearch.LaunchServes | src/cuda/kernels/kernel_launcher.cpp:18-61 | whatever the settings, the ten million nonces of a search are covered without repeats and cannot overflow the counter |
| SyncSearch.CollectSolutions | src/cuda/device_manager.cu:343-362 | the host copies the records below the count and the limit, digest words as bytes |
| SyncSearch.SearchIsGenuine | src/cuda/device_manager.cu:260-362 | however the device interleaves the threads, every collected solution carries the digests of its nonce over the dataset, and its result is at most the target |
| SyncSearch.SearchIsComplete | src/cuda/device_manager.cu:260-362 | while no more than sixteen nonces win, a solution is collected for every winning one |
| DagBatches.StoreWord | src/cuda/dag_kernel.cu:121-130 | a step of a thread fills one word of its item, or nothing past the last item |
| DagBatches.LaunchKernel | src/cuda/dag_kernel.cu:149-155 | however the stores of the threads interleave, exactly the words of the batch are filled, each once |
| DagBatches.GenerateDagGpu | src/cuda/dag_kernel.cu:134-161 | up to 2^32 - 2^20 items the loop ends, writes each word once, and leaves word k equal to k |
| DagBatches.BatchesEnd | src/cuda/dag_kernel.cu:145 | the wrapping counter ever reaches the number of items exactly under that bound |
| DagBatches.JobDatasetsEnd | src/dag/dag_generator.cpp:52 | every job's dataset is below that bound |
| Pipeline.ReadyIsIdle | src/cuda/pipeline/search_executor.cpp:96-104 | in a reachable state a stream whose event is complete has nothing left to execute |
| Pipeline.InvRun | src/cuda/pipeline/search_executor.cpp:75-182 | every run of ticks and device steps keeps the streams, the pending counts, the returned records and the hash total consistent with what was launched |
| Pipeline.HashesConserved | src/cuda/pipeline/search_executor.cpp:123-138 | credited hashes plus pending counts equal everything launched, modulo 2^64, in every run |
| Pipeline.CollectedOnce | src/cuda/pipeline/search_executor.cpp:104-138 | the launching ticks of a stream return the records of its batches one after another, each once; only the last batch is still out |
| Pipeline.BusyStreamUntouched | src/cuda/pipeline/search_executor.cpp:96-99 | no tick touches the host or device buffers of a stream that still has commands to execute |
| Pipeline.KernelReadsItsInputs | src/cuda/pipeline/pipeline_manager.cpp:205-222 | when a kernel executes, the device buffers hold the inputs staged for its batch and a cleared counter |
| Pipeline.TickLaunches | src/cuda/pipeline/search_executor.cpp:141-173 | a tick that finds its stream idle launches there, and only there, a batch with the inputs, nonces and count it was given |
| Pipeline.TickReturnsBatch | src/cuda/pipeline/search_executor.cpp:104-121 | a tick that finds a pending batch complete returns exactly the first records, up to the limit, of the batch last launched on the stream |
| Pipeline.RoundRobin | include/ohmy/cuda/pipeline/pipeline_manager.hpp:85 | k ticks move the poll k streams on, whatever the device does, so N ticks poll each of N streams once |
| Pipeline.CollectedWithinOneRound | src/cuda/pipeline/search_executor.cpp:96-179 | a finished batch is collected when its stream's turn comes, within N ticks, and once |
| PipelineHost.ChooseStreamCount | src/cuda/pipeline/pipeline_manager.cpp:57-73 | an override from two to eight is honoured, a larger one gives eight, a smaller one two, and without one any ordinary amount of memory gives eight |
| PipelineHost.PipelineManager.AdvanceStream | include/ohmy/cuda/pipeline/pipeline_manager.hpp:85 | the index moves to the next stream, cyclically |
| PipelineHost.PipelineManager.StageWork | src/cuda/pipeline/pipeline_manager.cpp:205-222 | only the named stream changes: its host buffers hold the work and the four transfers are queued in order |
| PipelineHost.PipelineManager.LaunchBatch | src/cuda/pipeline/search_executor.cpp:146-173 | only the named stream changes: events and kernel are queued, the kernel not without a dataset |
| PipelineHost.PipelineManager.CollectResults | src/cuda/pipeline/pipeline_manager.cpp:224-236 | after both copies and the synchronisation the stream is idle and the host count is returned |
| PipelineHost.CopySolutions | src/cuda/pipeline/search_executor.cpp:113-120 | solution i carries record i of the host buffer and the label of the collecting tick |
| PipelineHost.SearchExecutor.CollectBatch | src/cuda/pipeline/search_executor.cpp:104-138 | the finished batch is read back up to the limit and its count credited once |
| PipelineHost.SearchExecutor.RunAsyncTick | src/cuda/pipeline/search_executor.cpp:75-182 | the tick on the objects is the tick of the state machine, counters included; solution i carries its i-th record and the caller's label |
| PipelineHost.CallerGetsBatch | src/cuda/pipeline/search_executor.cpp:104-138 | in every run, a tick that collects a completed batch hands the caller exactly the records the device found for that batch, each once and in order |
| Framing.ScanBuffer | src/network/stratum_client.cpp:368-438 | the receive loop hands on exactly the frames of the buffer, and its position moves forward every time |
| Framing.FindClosingBrace | src/network/stratum_client.cpp:382-405 | the brace count reaches zero exactly when the object has an end, and then the scan stops just after it |
| Framing.JsonNeutral | src/network/stratum_client.cpp:389-405 | scanning any JSON value inside an object returns the scanner to the depth it came with, whatever braces, quotes and escapes its strings hold |
| Framing.ObjectFound | src/network/stratum_client.cpp:382-405 | a printed object is found whole, whatever follows |
| Framing.PrefixNotFound | src/network/stratum_client.cpp:406-409 | no proper prefix of a printed object is taken for an object |
| Framing.FramesOfDocument | src/network/stratum_client.cpp:368-438 | objects printed with brace-free gaps are handed on exactly, in order, and the scan goes on with what follows |
| Framing.FramesOfTruncatedDocument | src/network/stratum_client.cpp:406-409 | if the last object is cut short, all earlier ones are handed on and nothing of it is |
| HexUtils.HexToHash | src/utils/hex_utils.cpp:23-53 | the parser accepts exactly what its function accepts; a rejected text leaves the buffer as it was or overwritten up to the bad pair |
| HexUtils.ConvertPairs | src/utils/hex_utils.cpp:40-50 | the loop succeeds exactly on digits and otherwise stops at the first bad pair |
| HexUtils.HexDigitValues | src/utils/hex_utils.cpp:10-15 | the sixteen digits have their values in either case, and nothing else has one |
| HexUtils.StripPrefixExactly | src/utils/hex_utils.cpp:26-29 | a leading "0x" or "0X" goes, once, and nothing else |
| HexUtils.HashIsItsNumeral | src/utils/hex_utils.cpp:23-53 | exactly the texts with at most two digits a byte are accepted, and they read as the number they denote whatever prefix, padding and case |
| HexUtils.SameHashSameNumeral | src/utils/hex_utils.cpp:23-53 | two accepted texts give the same hash exactly when they denote the same number |
| HexUtils.HashToHex | src/utils/hex_utils.cpp:87-100 | the printing loop gives two digits a byte, with the prefix if asked for |
| HexUtils.PrintedHashAt | src/utils/hex_utils.cpp:87-100 | byte i is printed as its two lower-case digits, after "0x" where that is asked for |
| HexUtils.HashRoundTrip | src/utils/hex_utils.cpp:87-115 | every hash is read back from its printed form, with and without prefix |
| HexUtils.HexToUint64 | src/utils/hex_utils.cpp:117-139 | accepts one to sixteen digits, never loses a bit in its shifts, and states what a rejected text leaves behind |
| HexUtils.DigitsLength | src/utils/hex_utils.cpp:148 | a printed number has at most n digits exactly when it is below 16^n |
| HexUtils.Uint64RoundTrip | src/utils/hex_utils.cpp:117-151 | every 64-bit number is read back from its printed form, with and without prefix |
| HexUtils.NonceRoundTrip | src/network/stratum_client.cpp:243-245 | the nonce of a share has sixteen digits and is read back |
| Ethash.EpochFromSeedHash | src/core/ethash.cpp:192-198 | the scan computes the first epoch whose seed is the given hash, or the sentinel |
| Ethash.CacheSeed | src/core/ethash.cpp:38-45 | the seed loop computes Keccak-256 applied epoch times to zero |
| Ethash.SeedEpochIsLeast | src/core/ethash.cpp:192-198 | the result is the least r below 2000 with that seed, and the sentinel exactly when there is none; the seed recomputed from r is the pool's |
| Ethash.EpochRecovered | src/core/ethash.cpp:192-198 | the epoch of a chain seed is recovered exactly when the chain has not met that seed before |
| Ethash.ChainGoesOn | src/core/ethash.cpp:192-198 | the chain starts at zero, and n places on it is the seed hashed n times |
| Ethash.JobEpochIsSeeds | src/network/stratum_client.cpp:519-525 | the epoch of a job is the first below 2000 whose chain seed is the job's, and zero exactly if there is none |
| Ethash.SizesFollowBlocks | src/core/ethash.cpp:118-135 | sizes follow block/30000 before block 11700000 and block/60000 from it on |
| Ethash.SizesAreWhole | src/core/ethash.cpp:139-170 | rounding loses nothing, and a dataset is 64 times its cache |
| Ethash.EpochLimits | src/dag/dag_generator.cpp:50-52 | for which epochs each narrowing of sizes, item and pair counts and pair offsets is exact |
| Ethash.JobSizesAreExact | src/cuda/kernels/search_kernel.cu:38-75 | for every seed hash a pool can send, all narrowings on the way to the dataset are exact and every pair read lies inside it |
| Octets.LowBytesValue | src/core/ethash.cpp:243 | the appended nonce bytes, least significant first, denote the nonce |
| Ethash.SeedInputReads | src/core/ethash.cpp:241-243 | the first message hashed is the header, then the nonce, least significant byte first |
| Octets.XorBits | src/cuda/kernels/keccak_dev.cuh:100-102 | a bit of an exclusive or is set exactly when the two bits differ |
| Octets.XorLaws | src/cuda/kernels/keccak_dev.cuh:100-102 | exclusive or is symmetric, has zero as its unit, and undoes itself |
| Octets.PrimeUndone | src/cuda/kernels/keccak_dev.cuh:100-102 | multiplying by the FNV prime modulo 2^32 loses nothing: its inverse recovers the word |
| Octets.FnvValue | src/cuda/kernels/keccak_dev.cuh:100-102 | mixing with zero multiplies by 16777619, mixing into zero gives the word, and the two act by exclusive or |
| Octets.FnvInjective | src/cuda/kernels/keccak_dev.cuh:100-102 | mixing is injective in each argument, so a changed dataset word changes the mixed word |
| Octets.WordIsLittleEndian | src/cuda/kernels/search_kernel.cu:58-64 | a word is read from its four bytes, least significant first |
| Octets.WordsOfBytes | src/cuda/kernels/search_kernel.cu:100-103 | words stored as bytes are read back as the same words |
| Hashimoto.ItemInside | src/core/ethash.cpp:249-251 | the 32-bit byte offset of an item never leaves the dataset; it wraps every 2^26 items |
| Hashimoto.ItemsExact | src/core/ethash.cpp:249-251 | all offsets are exact exactly up to 2^26 items, that is 4 GiB |
| Hashimoto.DagItemsCount | src/core/ethash.cpp:239 | below 2^32 items all whole items are counted |
| Hashimoto.FirstMix | src/core/ethash.cpp:241-247 | the mix starts as the words of Keccak-512 of the one message made of header and nonce |
| Hashimoto.ItemIndexValue | src/core/ethash.cpp:250 | the mix word of the access picks the item: alone when the access number meets the low half of the nonce, otherwise with the prime times their exclusive or |
| Hashimoto.MixItemChanges | src/core/ethash.cpp:251-254 | word w of an item goes into mix word w, and changing either changes the result there |
| Hashimoto.NextMix | src/core/ethash.cpp:249-255 | access i mixes in the item that the low half of the nonce, i and the mix so far pick |
| Hashimoto.CompressValue | src/core/ethash.cpp:258-261 | digest word i takes mix words i and i + 8, in this order, and changes with either |
| Hashimoto.ComputedOf | src/core/ethash.cpp:258-269 | the digest is the compressed mix of 64 accesses, the result Keccak-256 of the one message made of header, nonce and digest |
| Hashimoto.ComputeHashimoto | src/core/ethash.cpp:223-270 | the loops compute the host's mix digest and result; without a dataset both are zero |
| Hashimoto.VerifySolution | src/core/ethash.cpp:201-221 | accepts exactly a value below the target that is Keccak-256 of header, nonce and mix digest |
| Hashimoto.ResultValueReads | src/core/ethash.cpp:209-213 | the value compared is the number whose eight bytes, least significant first, start the result |
| Hashimoto.ComputedPasses | src/core/ethash.cpp:201-270 | what the search computes passes the check exactly when its value is below the target, and no other result for its digest passes |
| Hashimoto.NothingComputed | src/core/ethash.cpp:232-236 | the zero hashes of a missing dataset pass only for a target above zero and if that very input hashes to zero |
| JobFlow.JobEpochIsSmall | src/network/stratum_client.cpp:518-524 | no job has the sentinel epoch |
| JobFlow.JobFromTexts | src/network/stratum_client.cpp:497-533 | a notification with three texts and no bad flag gives a job: the ID is its first text, the seed hash what its second reads as, the header hash what its third does, and the epoch that of the seed hash |
| JobFlow.PrintedJobDecodes | src/network/stratum_client.cpp:504-515 | a notification whose second and third texts are printed hashes decodes to a job with that ID, that seed hash and that header hash |
| JobFlow.DifficultyFromParams | src/network/stratum_client.cpp:551-564 | an integer is taken modulo 2^64, a real number rounded, and anything else counts as 1 |
| JobFlow.GenerationKeeps | src/dag/dag_generator.cpp:38-191 | a present dataset is kept, a failed generation leaves the device buffer and its epoch, and a finished one replaces both |
| JobFlow.JobTaken | src/core/mining_engine.cpp:83-95 | client and engine take a readable notification's job; it stands exactly if its dataset is there or is built and set up |
| JobFlow.UnreadableIgnored | src/network/stratum_client.cpp:497-546 | an unreadable notification changes nothing at all, and neither does one on a closed connection |
| JobFlow.DifficultyTaken | src/network/stratum_client.cpp:566-580 | a difficulty is kept for later jobs, sets the target of the current one to (2^64 - 1) / difficulty, and reaches the engine if it is registered |
| JobFlow.DagInvRun | src/core/mining_engine.cpp:83-159 | every run keeps engine, generator and device consistent about which dataset belongs to which epoch |
| JobFlow.DatasetFitsJob | src/core/mining_engine.cpp:83-95 | in every reachable state with a job the device holds the whole dataset generated for the job's epoch, this epoch is that of the job's seed hash, and the kernels reach all of it |
| JobFlow.LinkInvRun | src/network/stratum_client.cpp:497-540 | the client's job, and the engine's while it has one, are always that of the newest readable notification, except for the target |
| JobFlow.ShareVerifies | src/network/stratum_client.cpp:238-271 | a pool reading a share finds the job's ID and header hash and, recomputing its nonce, the same mix digest |
| JobFlow.SubmittedVerify | src/core/mining_engine.cpp:161-193 | submitting appends verifying shares and nothing else |
| JobFlow.SearchFinds | src/core/mining_engine.cpp:275-282 | what a search returns to the engine was found by the kernel for its job on the device's dataset |
| JobFlow.SearchIsPossible | src/core/mining_engine.cpp:275-288 | the result of every finished launch is an event of the state machine |
| JobFlow.SharesOfSearch | src/core/mining_engine.cpp:238-288 | every share of a search carries the first and the third text of the newest readable notification as ID and header hash, and the kernel's digest over the dataset of the epoch of its second |
| JobFlow.ShareTraced | src/network/stratum_client.cpp:245-253 | every share ever sent goes back to one search, and all it carries to the texts of one notification |
| ShareCounts.AnswersCounted | src/core/mining_engine.cpp:161-193 | of a batch as many solutions count as accepted as there are accepting replies on the open connection, and all others as rejected |
| ShareCounts.SharesInOrder | src/core/mining_engine.cpp:161-193 | the shares of a batch are those of the solutions sent, one each and in order, with their nonces and digests |
| ShareCounts.SharesAccounted | src/core/mining_engine.cpp:184-191 | in every run the first counter is the number of accepting replies and the second that of all other solutions found, modulo 2^32 |
| JobFlowHost.DagGenerator.Generate | src/dag/dag_generator.cpp:38-191 | every outcome of a generation: what it returns and what it leaves in the four fields |
| JobFlowHost.DagGenerator.FreeHostMemory | src/dag/dag_generator.cpp:209-223 | only the host placeholder goes |
| JobFlowHost.DeviceManager.InitDeviceZeroCopy | src/cuda/device_manager.cu:196-237 | pointer and size are kept unless the first call throws, also when a later one does |
| JobFlowHost.StratumClient.ProcessNotification | src/network/stratum_client.cpp:480-585 | client and engine change together as the state machine says, or, when a parameter throws, not at all |
| JobFlowHost.StratumClient.ProcessMessages | src/network/stratum_client.cpp:329-438 | the messages of a receive take effect one after another; a hang-up closes the connection |
| JobFlowHost.StratumClient.SubmitSolution | src/network/stratum_client.cpp:238-318 | sends the one share the state machine says, or none, and says whether it was accepted |
| JobFlowHost.MiningEngine.Register | src/core/mining_engine.cpp:70-77 | only from then on does the engine hear of jobs |
| JobFlowHost.MiningEngine.InitializeDag | src/core/mining_engine.cpp:132-159 | the new dataset reaches the device only if it was generated, and the epoch is recorded only then |
| JobFlowHost.MiningEngine.OnJobReceived | src/core/mining_engine.cpp:83-95 | the job is taken, and given up again if its dataset cannot be had |
| JobFlowHost.MiningEngine.OnDifficultyUpdate | src/core/mining_engine.cpp:97-98 | the difficulty is recorded and nothing else of the engine's state changes |
| JobFlowHost.MiningEngine.CountSubmission | src/core/mining_engine.cpp:184-191 | one submission counts one accepted or one rejected share |
| JobFlowHost.MiningEngine.ProcessSolutions | src/core/mining_engine.cpp:161-193 | the submission loop is the submission of the state machine |
| JobFlowHost.MiningEngine.RunOnce | src/core/mining_engine.cpp:201-288 | one pass: messages, then a search only with a job and a difficulty |
| JobFlowHost.MiningEngine.Run | src/core/mining_engine.cpp:195-329 | the loop repeats passes until the connection is lost or an exception escapes |
| JobFlowHost.PassIsRun | src/core/mining_engine.cpp:201-288 | a pass of the loop is a run of its events |
| JobFlowHost.LoopIsRun | src/core/mining_engine.cpp:195-329 | the whole loop is one run of the events of the passes it makes |
| JobFlowHost.LoopDatasetFits | src/core/mining_engine.cpp:195-329 | whenever the loop stops without an exception and has a job, the device holds the dataset of the epoch of the job's seed hash |
| JobFlowHost.LoopShareTraced | src/core/mining_engine.cpp:195-329 | every share the loop has sent goes back to one search and one notification |

## Left out

- CUDA runtime calls, memory management, sockets, logging, configuration and environment variables are outcomes chosen by the environment, or absent; a thrown CUDA error ends the mining loop.
- Words.Rotl: with a count of 0 the source shifts by the full word width, which C++ leaves undefined; the model takes it as the identity that the device and all common compilers give.
- KeccakHost.Keccak: output lengths up to 66 bytes, where the output fits into one block; the program uses 32 and 64.
- KeccakDag.Keccak512: the digest is returned instead of written through a pointer.
- NonceSweep.BatchedServes: requests whose thread count lies, as an int, within 511 below 2^31 are excluded, since the signed addition that follows overflows there and C++ leaves the outcome open. The conversion to int itself wraps, as it does on all supported compilers.
- The texture and warp kernels compute other functions of the nonce; only the base and the optimized kernel agree.
- Shared-memory loading of header and seed inside a block is atomic here; `KernelHash` takes them as given.
- HexUtils.HexToHash: one method stands for the 32-byte and the 64-byte parser, which differ in their length only.
- HexUtils.ConvertPairs: `(high << 4) | low` is written as 16*high + low, which is the same for two digits.
- The rest of `calculateCache` and `calculateDatasetItem`: they do not follow the Ethash definition, and the generator's kernel does not use their result.
- The agreement of `computeHashimoto` with the kernels: mix width, compression and final input differ.
- Hashimoto.ComputeHashimoto: a dataset whose item count is a multiple of 2^32 divides by zero in the source and is excluded.
- KernelHash.BaseAccesses: likewise for a pair count that is a multiple of 2^32.
- `targetFromDifficulty`: only difficulties 1 and 2 are implemented, so a search may use any target.
- JobFlowHost.StratumClient.ProcessNotification: parsing text into JSON values is not part of the model; a message comes with its "params" as an array of typed values, and one whose "params" is no array counts as ignored. A missing "params" key is not modelled.
- JobFlowHost.StratumClient.SubmitSolution: what else arrives while it waits for the answer is lost, as in the source; the worker name and the rendering of the message as JSON are left out.
- JobFlowHost.DagGenerator.Generate: the old GPU buffer, which the source does not free, and disk caching are not part of the model.
- Reassembly of objects across receive calls: the scanner's buffer is local, so framing is stated for one buffer.
- `PipelineManager::queueSearch` and `getResults` are stubs; `cleanup` only frees memory.
- Hash accounting above `runAsyncTick`: `searchAsync` adds every count a second time (`src/cuda/device_manager.cu:417`).
- PipelineHost.SearchExecutor.RunAsyncTick: nothing is promised about the label matching the launch, since the source takes it at collection.
- The records of a stream's very first tick: the device counter has no initial value then.
- Elapsed times, hash rates, device statistics and memory profiling.
- Several GPUs: no code assigns their nonce ranges.
