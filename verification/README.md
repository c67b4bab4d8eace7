# Optick and concurrencpp, verified

A Dafny model of four parts of the repository, with proofs about them:

- the DEFLATE codec of `sdk/optick/src/optick_miniz.cpp` (RFC 1951, in the zlib wrapping of RFC 1950): the LZ77 parser, the
  Huffman code construction, the block writer, the bit stream, the table-driven decoder and Adler-32;
- the thread pool, the idle worker set and the one-thread-per-task executor of `sdk/concurrencpp/source/executors`;
- the chunked `MemoryPool` of `sdk/optick/src/optick_memory.h`;
- the ring of GPU timestamp queries of `sdk/optick/src/optick_gpu.h` and `sdk/optick/src/optick_gpu.d3d12.cpp`.

`dafny verify dfyconfig.toml` checks everything.

## How it is built

The codec is imperative where the source is: arrays, loops, wrapped 16- and 32-bit arithmetic, and classes for the
compressor, its operation buffer, the bit writer, the bit reader and the decoder. Each method is proved against functions on
sequences, and the theorems are about those functions. The chain runs

`Parser` (input to operations) → `LzCodeBuffer` (operations to bytes) → `CodeTables` (counts to codes) → `BitWriter` (fields
to bits) → `Encoder` (blocks to a stream) → `BitReader`, `HuffTable`, `Decompressor` (and back),

and ends in `RoundTrip.CompressAndInflate`: whatever is given to the compressor, in whatever pieces, with whatever flags and
flushes in between, decompresses to itself, and after every sync flush it does so far. In the other direction,
`RoundTrip.Inflate` accepts nothing but what `Deflated` says a stream is. Nothing is assumed about the sizes involved: `LimitCost`, `TableCost` and
`BlockSize` bound every block well below the output buffer, by comparing the codes made from the counts with a flat code and
showing that limiting them to 15 bits costs at most one bit each time a symbol is used.

The executors are transition systems: one step for each atomic operation, blocking wait or section under a lock, taken in any
order by any number of threads. Theorems speak of every state of every run.

| file | about |
|---|---|
| `Pow2` (module `Powers`), `Wrappers`, `Slots` | powers of two and remainders, options, task slots |
| `TwoQueue`, `HuffmanOptimal`, `HuffmanTree` | the order of merges, why it is optimal, the shape of the tree |
| `MinimumRedundancy`, `LengthLimit`, `RadixSort`, `HuffmanTable` | the in-place algorithms, up to a whole code table |
| `LimitCost`, `TableCost`, `BlockSize` | what the limit costs, and how large a block can get |
| `Canonical`, `HuffmanTrie`, `HuffmanDecoder` | canonical codes, the decoder's fast table and overflow tree |
| `BitStream`, `BitWriter`, `BitReader` | fields, and the two ends of the bit stream |
| `CodeLengthPacking`, `BlockFormat`, `BlockWriter`, `BlockReader`, `Inflater` | headers and blocks, written and read |
| `Deflated` | what a stream means, bit by bit, as a reference for the decoder |
| `LzOps`, `LzCodes`, `LzDictionary`, `LzChains`, `LzParser` | literals and matches, their buffer, the dictionary, its hash chains, the lazy parser |
| `Compressor`, `RoundTrip`, `Adler32` | the compressor between calls, the whole session, the checksum |
| `ThreadPool`, `PoolFaults`, `IdleSet`, `IdleSearch`, `Donation`, `ThreadExecutor` | the executors |
| `MemoryPool`, `QueryRing` | the chunked pool, the ring of queries |

## Model

| member | source | states |
|---|---|---|
| RoundTrip.CompressAndInflate | sdk/optick/src/optick_miniz.cpp:1880-1987 | A whole session, any input in any pieces, any search and parsing flags, sync flushes or none between the pieces, with or without the zlib wrapping: unless the receiver has refused a buffer, decompressing what was handed on succeeds and gives back exactly the input; and what was handed on takes at most 1.42 bytes for each byte of input and 600 for each flush |
| RoundTrip.SyncAndInflate | sdk/optick/src/optick_miniz.cpp:1880-1946 | After a sync flush the session need not end: what has been handed on by then ends in the bytes 0, 0, 255, 255 and already decompresses to all input given so far, after which the decoder asks for more; the same bound on its length |
| RoundTrip.DecodesWhatWasEncoded | sdk/optick/src/optick_miniz.cpp:2384-2848 | The same from the state of a finished compressor: the bytes it has handed on decompress, checksum included, to the bytes it was fed |
| RoundTrip.DecodesSoFar | sdk/optick/src/optick_miniz.cpp:1315-1327 | The same from the state of a compressor that has just flushed |
| RoundTrip.Inflate | sdk/optick/src/optick_miniz.cpp:2384-2856 | On any input whatever, the decoder is done only if the input stands for what it returns, as sections 2.2 of RFC 1950 and 3.2 of RFC 1951 define it bit by bit (`Deflated.Encodes`): a valid header, blocks of which the last and no other is final, the byte boundary, and with zlib the Adler-32 checksum of the output; conversely, on a stream made of well-formed blocks, padding and the right checksum it is done and returns what the blocks mean, and where that stream stops behind a block it has returned what they mean when it asks for more |
| Compressor.Encoder.Compress | sdk/optick/src/optick_miniz.cpp:1880-1946 | Between calls the blocks written mean exactly the input parsed and the checksum is that of the input taken; when output is clear all input has been taken, and has been written out to the byte on a sync flush; when it is pending some progress has been made; output is refused only if the receiver has refused one of the buffers of this call; after a finishing call the stream is complete with exactly one final block, the last |
| Compressor.Encoder.FlushBlock | sdk/optick/src/optick_miniz.cpp:1235-1370 | Exactly one block is added for the waiting operations, with the meaning of the waiting bytes; on a sync flush exactly one empty stored block follows, no bit is left pending and the output ends in 0, 0, 255, 255; at the end padding and checksum follow; the output never reaches the end of its buffer, as the source asserts, so that everything sent has been handed on, and it grows by no more than 1.4 bytes for each byte and 600 |
| Compressor.Encoder.WriteBlock | sdk/optick/src/optick_miniz.cpp:1240-1300 | Whichever of the stored, fixed and dynamic forms is chosen, taken back and replaced, what is in the stream afterwards is one well-formed block that expands to the waiting bytes; unless raw blocks are asked for, it is the compressed block of the waiting operations, or a stored one where that would have taken at least as many bytes as it stands for, but one; while the dictionary has the bytes, no block takes more than the stored form |
| Compressor.Encoder.WriteFitting | sdk/optick/src/optick_miniz.cpp:1226-1233 | A compressed block always fits the output buffer with room for what comes after it |
| Compressor.Encoder.WriteStored | sdk/optick/src/optick_miniz.cpp:1270-1288 | The bytes a stored block takes from the circular dictionary are the input's, in order, behind the length and its complement |
| LzParser.Parser.ParseStep | sdk/optick/src/optick_miniz.cpp:1767-1845 | After every round of lazy matching the recorded operations expand to exactly the input parsed, one byte less while a match is saved, and the dictionary with its mirrored start still holds what the positions say; the round takes the best match the search comes to, unless it is not worth it, a saved match gives way only to a longer one, and the operations recorded are those of this rule |
| LzParser.Parser.Feed | sdk/optick/src/optick_miniz.cpp:1723-1764 | Bytes go into the dictionary and its mirror image at any wrap, lookahead and dictionary together never outgrow it, and every position that three bytes have come in for is on the hash chain of those three bytes, behind the one before it with the same hash |
| LzDictionary.FindMatch | sdk/optick/src/optick_miniz.cpp:1441-1483 | A match longer than the one given really repeats earlier input at the distance reported, within the maximal distance and length, for arbitrary chain contents; and no position the chain leads to has a longer one, until the chain ends or the number of probes allowed has been used |
| LzParser.Parser.BestIsLongest | sdk/optick/src/optick_miniz.cpp:1723-1793 | Hash chains and search together: no match of three bytes or more anywhere in the dictionary is longer than the one found, if fewer positions with the same hash lie in between than probes are allowed, and none of them is divisible by 65536 |
| LzChains.LongestFound | sdk/optick/src/optick_miniz.cpp:1441-1483 | The same for any tables in which every position is linked to the one before it with the same hash |
| LzChains.OneLink | sdk/optick/src/optick_miniz.cpp:1457-1459 | A link leads on to the position before with the same hash if and only if the number of that position is not divisible by 65536 |
| LzChains.StartIsMissed | sdk/optick/src/optick_miniz.cpp:1457-1459 | Four equal bytes: the repetition at position 1 is not found, since it begins at position 0 |
| LzChains.LinkedNext | sdk/optick/src/optick_miniz.cpp:1738-1740 | Entering a position keeps both tables right, the link it overwrites being a whole dictionary back |
| LzChains.HashRolls | sdk/optick/src/optick_miniz.cpp:1727-1738 | The rolling hash of 15 bits is the hash of the last three bytes |
| LzCodes.LzCodeBuffer.RecordMatch | sdk/optick/src/optick_miniz.cpp:1684-1712 | The bytes, flag bits and symbol counts are those of the operations so far with this match behind them |
| LzCodes.LzCodeBuffer.FinishFlags | sdk/optick/src/optick_miniz.cpp:1250-1251 | After the last flag byte has been shifted or dropped, the buffer is exactly the groups of operations recorded |
| BlockWriter.CompressLzCodes | sdk/optick/src/optick_miniz.cpp:1178-1223 | Reading the buffer back, flag by flag, recovers every operation in order, and the symbols and extra bits of each are appended to the stream, then the end of the block |
| BlockWriter.StartDynamicBlock | sdk/optick/src/optick_miniz.cpp:972-1056 | The header describes the very codes the block uses, every symbol the operations need has one, and coding the operations costs at most one bit for each symbol more than any other lengths that fit the code space |
| BlockWriter.StartStaticBlock | sdk/optick/src/optick_miniz.cpp:1059-1079 | The tables become those of section 3.2.6 of RFC 1951, with their canonical codes |
| LzOps.LengthRoundTrip | sdk/optick/src/optick_miniz.cpp:668-686 | Base and extra bits of a length's symbol give back the length |
| LzOps.DistanceRoundTrip | sdk/optick/src/optick_miniz.cpp:688-727 | Base and extra bits of a distance's symbol give back the distance |
| LzOps.LengthTable | sdk/optick/src/optick_miniz.cpp:2386-2387 | Base and extra bits of every length symbol are those of the table in section 3.2.5 of RFC 1951 |
| LzOps.DistanceTable | sdk/optick/src/optick_miniz.cpp:2388-2389 | Likewise for every distance symbol in use |
| BlockFormat.FixedLitCodes | sdk/optick/src/optick_miniz.cpp:1059-1079 | The canonical codes of the fixed lengths are the code values of section 3.2.6 of RFC 1951 |
| MinimumRedundancy.CalculateMinimumRedundancy | sdk/optick/src/optick_miniz.cpp:769-822 | In place, the first n keys become code lengths that descend along the array; for ascending weights no assignment of any lengths that fits the code space costs less, the code space is used up exactly, and positive weights summing below 65536 give no length beyond 22; the symbols stay where they are |
| HuffmanOptimal.LengthsOptimal | sdk/optick/src/optick_miniz.cpp:769-822 | From any two sorted queues on, the depths the remaining merges give cost no more than any lengths that fit the code space: optimality of the order of merges, for the array by way of the member above |
| HuffmanTree.LeafDepth | sdk/optick/src/optick_miniz.cpp:769-822 | A leaf of weight c at depth d leaves room for c times the Fibonacci number of d + 1 in all: only rare symbols lie deep |
| LengthLimit.EnforceMaxCodeSize | sdk/optick/src/optick_miniz.cpp:829-851 | The repair loop ends with as many codes as before, none negative, none too long, and the code space used up exactly; lengths below some level are untouched, and the code space the changed ones had exceeds their number by less than the codes and the last level's share |
| LimitCost.LimitCostsAtMostOneBit | sdk/optick/src/optick_miniz.cpp:829-851 | With at most 286 symbols in use, handing out the limited lengths costs at most one bit more, each time a symbol is used, than the unlimited optimum |
| RadixSort.RadixSortSyms | sdk/optick/src/optick_miniz.cpp:735-766 | The result is a permutation in ascending order of the keys, also when the pass over the high bytes is left out |
| HuffmanTable.OptimizeHuffmanTable | sdk/optick/src/optick_miniz.cpp:853-904 | Exactly the counted symbols get lengths, within the limit and the code space, all of it if two or more are used; a more frequent symbol never gets a longer code; the lengths are optimal if none had to be shortened and within one bit for each use otherwise; the codes are the reversed canonical ones |
| TableCost.TableNearlyOptimal | sdk/optick/src/optick_miniz.cpp:853-904 | Symbol by symbol over the alphabet: the table made from the counts costs at most one bit for each use more than any other lengths that fit the code space |
| BlockSize.CompressedBits | sdk/optick/src/optick_miniz.cpp:1226-1233 | A compressed block takes at most 10 bits for each byte of the operation buffer and 4505, so at most 660000 in all, header included, with the fixed codes and with any codes as cheap as StartDynamicBlock ensures |
| Canonical.PrefixFree | sdk/optick/src/optick_miniz.cpp:882-903 | No reversed canonical code is what another one, at least as long, begins with in the stream |
| Canonical.CodeExists | sdk/optick/src/optick_miniz.cpp:2529-2575 | If the lengths use up the code space, every bit sequence begins with some code |
| HuffmanDecoder.HuffTable.Build | sdk/optick/src/optick_miniz.cpp:2514-2575 | Building succeeds exactly if the lengths use up the code space or at most one symbol is used, and then the fast table and the overflow tree hold exactly the codes of those lengths |
| HuffmanDecoder.HuffTable.Decode | sdk/optick/src/optick_miniz.cpp:2350-2382 | The ten-bit look-up and the walk down the tree give the symbol whose code the bits begin with, and its length |
| BitReader.BitReader.HuffDecode | sdk/optick/src/optick_miniz.cpp:2319-2382 | For any split between buffered bits and input left, the symbol read is the one whose code comes next, exactly its length is consumed, reading stops short only if the input ends inside the code, and near the end no byte is read that is not needed |
| BitReader.BitReader.GetBits | sdk/optick/src/optick_miniz.cpp:2302-2317 | The next n bits, low first, if there are as many; otherwise nothing is consumed |
| BitWriter.BitWriter.PutBits | sdk/optick/src/optick_miniz.cpp:906-922 | The stream is the bits put so far with these behind them, as section 3.1.1 of RFC 1951 packs them; the output buffer holds its bytes as far as there is room, and silently no more |
| CodeLengthPacking.PackCodeSizes | sdk/optick/src/optick_miniz.cpp:924-1032 | The decoder's expansion of the packed symbols is the list of lengths, the symbols are counted for their own code, and the packed form is never longer |
| CodeLengthPacking.NeverRepeatsFirst | sdk/optick/src/optick_miniz.cpp:2576-2603 | What can be expanded at all never begins with a repetition of the length before it |
| BlockReader.InflateSymbols | sdk/optick/src/optick_miniz.cpp:2605-2822 | On any input the output stays within its limit and every copy within the output so far, and if the end of the block is reached, symbol by symbol the bits are those of literals and matches that give the output; if coded operations come next, it returns what they expand to and leaves the reader behind them |
| BlockReader.CopyMatch | sdk/optick/src/optick_miniz.cpp:2718-2790 | An overlapping copy repeats byte by byte, cut off exactly where the output is full |
| Inflater.InflateBlock | sdk/optick/src/optick_miniz.cpp:2407-2822 | On any input the block is done only if its bits are those of a block: a type other than 3, a stored length with its complement, code lengths that use up the code space or have one code at most, and contents that give the output; a well-formed block of any kind, at any bit position, is read to its end and appends what it means |
| Inflater.ReadStored | sdk/optick/src/optick_miniz.cpp:2431-2474 | Done only if, from the next byte on, a length, its complement and so many bytes come |
| Inflater.Decompressor.ReadDynamicHeader | sdk/optick/src/optick_miniz.cpp:2500-2603 | Done only if the bits describe both alphabets: the counts, the lengths of the code length code in their order, runs that fill both lists exactly, all three acceptable; the tables hold the lengths described |
| Adler32.Adler | sdk/optick/src/optick_miniz.cpp:42-68 | The unrolled loop with remainders taken every 5552 bytes gives the checksum defined byte by byte in section 2.2 of RFC 1950, from any starting value |
| Adler32.NoOverflow | sdk/optick/src/optick_miniz.cpp:45-66 | Within 5552 bytes neither sum leaves 32 bits |
| Adler32.ChecksumConcat | sdk/optick/src/optick_miniz.cpp:42-68 | The checksum can be continued: over a concatenation it is that of the second part started from that of the first |
| Adler32.ChecksumClosed | sdk/optick/src/optick_miniz.cpp:42-68 | In closed form: one more than the sum of the bytes, and their number with the sum of each byte times the bytes from it on, both modulo 65521 |
| ThreadPool.TasksAreConserved | sdk/concurrencpp/source/executors/thread_pool_executor.cpp:197-508 | In every state of every run, the copies of a task accepted are those in the private and public queues, being executed, executed, or discarded by shutdown, each counted once |
| ThreadPool.NoTaskRunsTwice | sdk/concurrencpp/source/executors/thread_pool_executor.cpp:317-364 | A task accepted once is executed at most once, and once executed it is nowhere else |
| ThreadPool.OneLoopPerWorker | sdk/concurrencpp/source/executors/thread_pool_executor.cpp:382-410 | m_idle is false exactly while one thread of the worker is in the work loop; a thread that respawning replaces has left it for good |
| ThreadPool.NoWakeUpIsLost | sdk/concurrencpp/source/executors/thread_pool_executor.cpp:265-315 | A sleeping worker with a task in its public queue, or one that shutdown has notified, has a release of its semaphore done or still to come, and finds the flag set when it wakes |
| ThreadPool.DonorKeepsATask | sdk/concurrencpp/source/executors/thread_pool_executor.cpp:317-341 | Whenever a worker is about to take its last task there is one, also after a donation and during shutdown |
| ThreadPool.SwapFindsNothing | sdk/concurrencpp/source/executors/thread_pool_executor.cpp:343-364 | Before shutdown the private queue is empty whenever the queues are swapped, and donated slots are the only empty ones |
| ThreadPool.NothingLeftBehind | sdk/concurrencpp/source/executors/thread_pool_executor.cpp:480-508 | When shutdown has returned, no loop runs, no queue holds anything, and every accepted task has been executed or discarded |
| PoolFaults.ATaskIsStranded | sdk/concurrencpp/source/executors/thread_pool_executor.cpp:302-312 | A run, step by step, in which a task stays in a queue that nobody looks after |
| PoolFaults.TimeoutStrands | sdk/concurrencpp/source/executors/thread_pool_executor.cpp:302-312 | Before shutdown, a step of any kind strands a worker's task if and only if it is that worker leaving after its wait has timed out with a task in its public queue |
| PoolFaults.SwapCanFindTasks | sdk/concurrencpp/source/executors/thread_pool_executor.cpp:352-361 | A run, step by step, that swaps a private queue with tasks in it, which drain_queue asserts to be empty |
| PoolFaults.ReenteredExactlyWhen | sdk/concurrencpp/source/executors/thread_pool_executor.cpp:382-462 | A loop comes to face tasks in its private queue if and only if the step accepts tasks, from outside or donated, for a worker without a loop whose private queue is not empty |
| PoolFaults.LeftExactlyWhen | sdk/concurrencpp/source/executors/thread_pool_executor.cpp:317-341 | Tasks are left in a private queue without a loop if and only if a loop that is leaving ends with tasks in hand |
| PoolFaults.LeavesExactlyWhen | sdk/concurrencpp/source/executors/thread_pool_executor.cpp:197-341 | A loop begins to leave if and only if it finds the atomic abort flag set before it takes a task, or its donation is refused |
| PoolFaults.SwapFindsWhatWasLeft | sdk/concurrencpp/source/executors/thread_pool_executor.cpp:343-462 | Over whole runs: wherever a swap finds tasks, a loop of that worker had ended with tasks in hand before, and tasks were accepted for the worker after that |
| PoolFaults.SemaphoreIsReleasedTwice | sdk/concurrencpp/source/executors/thread_pool_executor.cpp:382-410 | A run, step by step, that releases a binary semaphore standing at one |
| PoolFaults.CountLeavesOne | sdk/concurrencpp/source/executors/thread_pool_executor.cpp:382-508 | A step takes a worker's count beyond one if and only if it is a release that finds the count at one |
| PoolFaults.BinaryExactlyWhen | sdk/concurrencpp/source/executors/thread_pool_executor.cpp:265-508 | Over a whole run, all counts stay within one if and only if every release finds its count at zero |
| IdleSet.CounterIsAccurate | sdk/concurrencpp/source/executors/thread_pool_executor.cpp:90-121 | In every interleaving, the counter and what callers still owe it add up to the number of idle flags |
| IdleSet.OneWinnerEach | sdk/concurrencpp/source/executors/thread_pool_executor.cpp:99-121 | Every change of a flag to idle is won by exactly one caller, or by none while it stays idle |
| IdleSet.CounterError | sdk/concurrencpp/source/executors/thread_pool_executor.cpp:90-121 | The counter is never off by more than the number of callers |
| IdleSet.CounterCanBeNegative | sdk/concurrencpp/source/executors/thread_pool_executor.cpp:90-121 | A run, step by step, that takes the counter below zero |
| IdleSet.NegativeExactlyWhen | sdk/concurrencpp/source/executors/thread_pool_executor.cpp:90-121 | The counter is below zero if and only if callers owe it more than there are idle flags; never while none has one more to add |
| IdleSet.NotNegativeWhileAdding | sdk/concurrencpp/source/executors/thread_pool_executor.cpp:90-121 | As long as no caller of a run has had anything to take off, the counter has not been negative |
| IdleSet.FindIdleWorkers | sdk/concurrencpp/source/executors/thread_pool_executor.cpp:145-170 | Whatever attempts to win a flag succeed, the workers found are won, different from the caller, in ring order behind it, and no more than asked for or than the counter says; one that could have been won is not in the list only if the list is full, and then it lies behind all of it |
| IdleSet.FindIdleWorker | sdk/concurrencpp/source/executors/thread_pool_executor.cpp:123-143 | The first worker in ring order that can be won, other than the caller; none only if there is no such worker or the counter is not positive |
| IdleSearch.EachTurn | sdk/concurrencpp/source/executors/thread_pool_executor.cpp:159-169 | In the thread pool, each turn of a search concerns one worker: it is listed, and its flag cleared, if and only if the flag was set and it is not the searching worker itself; no other flag changes |
| IdleSearch.ListedWasWon | sdk/concurrencpp/source/executors/thread_pool_executor.cpp:159-169 | Over whole runs: every worker on a list had its flag set at an earlier step of that search, which cleared it |
| IdleSearch.SearchIsThorough | sdk/concurrencpp/source/executors/thread_pool_executor.cpp:145-170 | Over whole runs: a search that ends below its limit has passed every other worker in its turn, and found its flag clear or listed it |
| Donation.Donor.BalanceWork | sdk/concurrencpp/source/executors/thread_pool_executor.cpp:197-263 | The private queue of n tasks is cut into adjoining, non-empty ranges, one for each of k idle workers in order, and its last n / (k + 1) tasks, at least one, stay; nobody else gets anything |
| Donation.Donor.Donate | sdk/concurrencpp/source/executors/thread_pool_executor.cpp:220-258 | What has been moved from is exactly the front of the queue, as the source asserts, and what follows it is untouched |
| Donation.EnqueueSpan | sdk/concurrencpp/source/executors/thread_pool_executor.cpp:591-619 | At least as many tasks as workers are handed out completely, each worker getting its own adjoining range |
| Donation.FairShares | sdk/concurrencpp/source/executors/thread_pool_executor.cpp:599-618 | Ranges differ by at most one task, none is empty, and earlier ones are not smaller |
| ThreadExecutor.JoinedAtMostOnce | sdk/concurrencpp/source/executors/thread_executor.cpp:17-30 | At most one thread waits to be joined, no thread is joined twice, and none while it runs its task |
| ThreadExecutor.JoinsGoBack | sdk/concurrencpp/source/executors/thread_executor.cpp:81-95 | A retiring thread joins the one that retired just before it, so joins never form a cycle |
| ThreadExecutor.SomeJoinReturns | sdk/concurrencpp/source/executors/thread_executor.cpp:81-95 | Whenever a thread waits in a join, some join can return |
| ThreadExecutor.AllEndedAndJoined | sdk/concurrencpp/source/executors/thread_executor.cpp:60-79 | When the first call of shutdown has returned, every thread ever started has ended and has been joined exactly once |
| ThreadExecutor.ClosedForGood | sdk/concurrencpp/source/executors/thread_executor.cpp:32-50 | Once abort is set no thread is started any more |
| MemoryPool.Pool.Add | sdk/optick/src/optick_memory.h:236-247 | The contents are those before with the item behind them; a chunk kept by Clear is reused before one is allocated, and chunks keep their places |
| MemoryPool.Pool.AddRange | sdk/optick/src/optick_memory.h:249-276 | A range over any number of chunks is appended as a whole, or refused exactly when it is empty or too long for one chunk; without overlap it lies in one chunk, behind what is skipped |
| MemoryPool.Pool.TryAdd | sdk/optick/src/optick_memory.h:279-289 | Succeeds exactly if the current chunk has room, and then the contents grow by the cells behind them |
| MemoryPool.Pool.Back | sdk/optick/src/optick_memory.h:291-300 | The last element, also when it is the last of the chunk before, or nothing exactly if there is none |
| MemoryPool.Pool.Size | sdk/optick/src/optick_memory.h:307-319 | The number of elements |
| MemoryPool.Pool.Clear | sdk/optick/src/optick_memory.h:325-342 | Empties the pool, keeping every chunk or none |
| MemoryPool.Pool.ForEach | sdk/optick/src/optick_memory.h:395-417 | Visits the contents, all of them, in order |
| MemoryPool.Pool.ToArray | sdk/optick/src/optick_memory.h:429-443 | Copies the contents in order and leaves the rest of the destination alone |
| MemoryPool.Pool.ElementAt | sdk/optick/src/optick_memory.h:174-247 | The element at k is in chunk k / SIZE at k % SIZE, where it was stored |
| MemoryPool.PositionIs | sdk/optick/src/optick_memory.h:344-393 | After k steps the iterator stands at chunk k / SIZE, place k % SIZE |
| MemoryPool.IteratorEnds | sdk/optick/src/optick_memory.h:344-393 | Advancing from the beginning reaches the end position of a pool if and only if its last chunk is not full |
| QueryRing.SegmentsCover | sdk/optick/src/optick_gpu.d3d12.cpp:303-321 | The one or two stretches resolved are exactly the frame's queries modulo 8192, in order, across the wrap of the ring and of the 32-bit index |
| QueryRing.CopiedCover | sdk/optick/src/optick_gpu.d3d12.cpp:330-341 | So are the one or two stretches copied out three flips later |
| QueryRing.Profiler.Flip | sdk/optick/src/optick_gpu.d3d12.cpp:273-366 | Over any sequence of flips, a frame ends where the next begins; at each flip exactly the results of the frame begun four flips ago are written, each converted and where its query wanted it, whenever none of the last four frames has asked more than 2048 queries |
| QueryRing.Profiler.FewQueriesSuffice | sdk/optick/src/optick_gpu.h:42-45 | With at most 2 * MAX_FRAME_EVENTS queries in each frame no slot is used again before its result has been copied |
| QueryRing.Profiler.QueryTimestamp | sdk/optick/src/optick_gpu.d3d12.cpp:235-242 | A query takes the next slot while a capture runs, and does nothing otherwise |
| QueryRing.ClockKeepsOrder | sdk/optick/src/optick_gpu.h:62-65 | Converted times keep their order, and the clocks agree at the time of synchronization |
| QueryRing.ClockConverts | sdk/optick/src/optick_gpu.h:62-65 | The converted time is the exact one, in the ratio of the two frequencies, rounded toward the time of synchronization by less than one tick |
| QueryRing.SecondsAreSeconds | sdk/optick/src/optick_gpu.h:62-65 | So many seconds of GPU ticks after synchronization are as many seconds of CPU ticks |

## Findings

Where a property that the source or its assertions suggest does not hold, the model keeps the code as it is; a lemma gives a
run or input that shows it, and another says exactly when the code does meet the property.

- **A task can be stranded.** A worker whose wait has timed out takes its lock and marks itself idle without looking at its
  queue again; a task that came in between stays there until another one arrives
  (`PoolFaults.ATaskIsStranded`; exactly then: `PoolFaults.TimeoutStrands`).
- **`drain_queue` can swap a private queue that is not empty**, against its assertion. `shutdown` sets the atomic abort flag
  before it takes the lock; a loop that sees the flag leaves with tasks in hand, and until the lock is taken the worker still
  accepts tasks and starts a new loop (`PoolFaults.SwapCanFindTasks`; exactly when: `ReenteredExactlyWhen`,
  `LeftExactlyWhen`, `LeavesExactlyWhen`; over runs: `SwapFindsWhatWasLeft`).
- **The binary semaphore can be released while it stands at one**, which the standard leaves undefined: two tasks that come in
  while the worker is busy each find its queue empty (`PoolFaults.SemaphoreIsReleasedTwice`; exactly when: `CountLeavesOne`,
  `BinaryExactlyWhen`).
- **The approximate counter of idle workers can be negative** (`IdleSet.CounterCanBeNegative`; exactly when:
  `NegativeExactlyWhen`, `NotNegativeWhileAdding`).
- **Iteration over a `MemoryPool` with a full last chunk does not meet its end**: `end()` is one past that chunk, while
  advancing leads to the beginning of the next (`MemoryPool.IteratorEnds`, an equivalence).
- **A frame whose first query has the number 2^32 - 1** is taken for one that has not begun, and its results are not written;
  `QueryRing.Profiler.Flip` states the condition.
- **The retry with fixed codes is never needed.** `tdefl_flush_block` checks for a compressed block that does not fit the
  output buffer and calls this case extremely unlikely, if not impossible: it is impossible
  (`Compressor.Encoder.WriteFitting`).
- **A match that begins at a position divisible by 65536 is never found**, and hides all earlier ones: a link of 0 means both
  this position and the end of the chain. So no match found on the chains begins at the first byte of the input
  (`LzChains.StartIsMissed`; exactly when: `LzChains.OneLink`; otherwise the longest match is found: `LzParser.Parser.BestIsLongest`).
- **Two distance symbols have distance 0.** The decoder accepts distance symbols 30 and 31 and then copies what its output
  buffer held before. This happens for exactly these symbols (`BlockReader.ZeroDistance`); for all others the copy is
  determined.

## Left out

- `tdefl_compress_fast`, the 64-bit `tdefl_compress_lz_codes` and the unaligned 16-bit `tdefl_find_match`: they do the same
  with machine words.
- Coroutine resumption in `tinfl_decompress`: the decoder is given the whole input, and no output window that wraps.
- The decoder's loop for two literals at a time, and its return of bytes it has read ahead; matches are always copied byte by
  byte, also where the source copies blocks that do not overlap.
- `TDEFL_FULL_FLUSH`, which also clears the hash tables, and `TDEFL_COMPUTE_ADLER32` without the zlib header.
- The status codes and buffer arithmetic of the output functions: whether the receiver takes a buffer at once, later or not at
  all is a parameter, an arbitrary function of the number of the buffer.
- `TDEFL_NONDETERMINISTIC_PARSING_FLAG`, which leaves the hash tables uninitialized.
- The tables of length and distance symbols are formulas.
- RoundTrip.Inflate: accepts more than the compressor writes. Bits that are no code, where one is in use at most, stand for
  symbol 0, as in the source; how many of them are taken is not stated. Padding may have any value.
- BlockReader.CopyMatch: for distance 0 the bytes copied are not specified.
- Wrappers around the codec, the PNG writer and allocation callbacks.
- Liveness of the thread pool beyond wake-ups on their way, weak memory ordering, real time, thread callbacks, tasks that
  throw, and shutdown called from a worker.
- ThreadPool.NoWakeUpIsLost: the count of a semaphore is unbounded here; what the standard library does beyond one is not
  modelled.
- IdleSet.FindIdleWorkers: which flags are won depends on other threads and is a parameter; in the thread pool it is a step.
- Donation.Donor.BalanceWork: the workers donated to accept; a refusal during shutdown is a step of ThreadPool.
- MemoryPool.Pool.AddRange: the pointer returned is not modelled, nor are destructors and the release of chunks.
- QueryRing.Profiler.QueryTimestamp: queries by other threads while a flip runs are not modelled, nor are fences and the calls of
  Direct3D; a query's time is noted when it is issued.
- QueryRing.ClockKeepsOrder: products beyond 64 bits are not modelled.
- Allocation failure everywhere.
