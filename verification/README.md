# hwbench workloads, modelled and proved in Dafny

hwbench is a hardware benchmark. Its workloads are small algorithms: an LZ77 codec, SHA-256, a shuffle that builds a
pointer-chasing ring, a condition-variable protocol, a contended counter, integer loops, and the printers for the
results. This project models them and proves what they promise. `dafny verify dfyconfig.toml` checks everything.

| files | part of hwbench |
|---|---|
| `Lz77.dfy`, `Lz77Greedy.dfy` | compressor and decompressor (`compression.c`) |
| `CondVar.dfy`, `CondVarRuns.dfy` | producer, consumer and main as interleaved steps (`thread_bench.c`) |
| `MutexCounter.dfy` | the mutex benchmark for any number of threads (`thread_bench.c`) |
| `Shuffle.dfy`, `Ring.dfy` | Fisher-Yates, linking and chasing (`memory.c`) |
| `Sha256Spec.dfy`, `Sha256Constants.dfy`, `Sha256Bits.dfy`, `Sha256Example.dfy` | FIPS 180-4: its constants from the primes, its functions bit by bit, its example worked out |
| `Sha256.dfy`, `Sha256Padding.dfy` | the in-place code against the standard, and the padding (`hashing.c`) |
| `Bits.dfy`, `IntegerLoop.dfy`, `IntegerStep.dfy`, `MaskWalk.dfy` | the integer loop in C and in Python, the masked array walk (`cpu.c`, `python_runner.c`) |
| `Decimal.dfy`, `Commas.dfy` | `fmt_commas` (`main.c`) |
| `StringBuffer.dfy`, `Report.dfy`, `ReportKeys.dfy`, `JsonWriter.dfy` | the string buffer and the JSON document (`json_writer.c`) |
| `Utf8.dfy`, `Json.dfy`, `JsonGrammar.dfy`, `JsonExact.dfy`, `JsonFile.dfy`, `ReportReader.dfy` | reading the document back: UTF-8, a JSON parser, and when the layout is undone |
| `Modular.dfy` | remainders |

How the source is rendered:

- Sizes are parameters: array lengths, buffer capacities, thread counts, numbers of batches. A timed loop becomes one that
  runs an arbitrary number of times.
- `rand()` becomes a sequence of raw values; a pointer into `nodes` is an index; a `double` in the report is the text that
  `%.6g` gives for it.
- Strings in the report and in the JSON files are byte strings: a character below 256 is a byte.
- Buffers that the source fills in place are arrays. Data it only reads, such as `src` or `data`, are sequences.
- 64-bit and 32-bit arithmetic wraps explicitly: `Modular.Uint64`, and `Sha256Spec.Add` on `bv32`.
- The two thread benchmarks are state machines over atomic steps. A run is a sequence of states and the steps between
  them, and its scheduling is arbitrary. `msgs_sent++` is one step, since only the producer writes it; `counter++`, which all threads
  write, is a load and a store.

Where the code and its documentation disagree, the model follows the code: the window is 512 bytes (`compression.c:20`),
not 4096 (`compression.c:13`); the compression input is 4 MB and the hash buffer 16 MB (`compression.c:78`,
`hashing.c:105`), not 16 MB and 1 MB (`README.md:25-26`). The Python loop is "the same integer loop" (`README.md:30`)
only from a common start: the two programs start `c` differently (`cpu.c:25`, `python_runner.c:20`).

One promise does not hold for all inputs, and the model says for which it does: the file that `write_json` leaves reads
back as written exactly when every number in it is a JSON number and every string is well-formed UTF-8 free of quotation
marks, backslashes and control characters (`ReportReader.WrittenDocumentReadBack`). `json_str` escapes nothing and
`device_name` comes from the command line (`main.c:355`, `system_info.c:139`); a quotation mark in it
(`ReportReader.QuotationMarkBreaks`) or a character cut in the middle (`ReportReader.CutCharacterBreaks`) breaks the file,
and so does a rate for which `%.6g` prints `inf` (`ReportReader.InfinityBreaks`). Where the file does read back, it
determines every field of the report that is written (`ReportReader.SameDocumentIffSameFields`).

`cpu.c:76-77` chooses a power of two for the length of the array because the index is wrapped with a mask;
`MaskWalk.MaskWrapsIffPowerOfTwo` shows that no other length would do.

## Model

| member | source | states |
|---|---|---|
| `Lz77.TokenAtIffApplies` | benchmark/src/compression.c:66-73 | A token reads as the source at a position if and only if running it there is safe and continues along the source, overlapping copies included. |
| `Lz77.DescribesIffDecodes` | benchmark/src/compression.c:62-76 | A token list spells a stretch of the source, relationally, if and only if it decompresses to it; lists that cover more than there is do neither. |
| `Lz77.DecodeDescription` | benchmark/src/compression.c:62-76 | A list that spells the source never reads before the start of the output, and gives exactly what it covers of the source, cut at the capacity. |
| `Lz77.CopyMatch` | benchmark/src/compression.c:69-72 | The in-place copy yields the self-overlapping repetition, stops at the capacity, reads only bytes already written and touches nothing beyond. |
| `Lz77.RunToken` | benchmark/src/compression.c:66-73 | One token appends its meaning, cut at the capacity. |
| `Lz77.Decompress` | benchmark/src/compression.c:62-76 | The output is the meaning of the token list cut at the capacity; the rest of the buffer is unchanged. |
| `Lz77Greedy.MatchLength` | benchmark/src/compression.c:40-44 | The length found is a match of at most 18 bytes, and no match at that distance of at most 18 bytes is longer. |
| `Lz77Greedy.LongestMatch` | benchmark/src/compression.c:36-49 | No match of at most 18 bytes at a distance of 1 to 512 is longer than the one found, and none that starts earlier in the window is as long. |
| `Lz77Greedy.Compress` | benchmark/src/compression.c:31-60 | The tokens written are the greedy parse, all of it unless the token limit was reached; the rest of the array is unchanged. |
| `Lz77Greedy.GreedyInNumbers` | benchmark/src/compression.c:20-57 | A token is greedy if and only if it is the literal of its byte or a match of distance 1..512 and length 3..18, no match in these ranges is longer, and none of the same length comes from farther back. |
| `Lz77Greedy.EqualBytesToken` | benchmark/src/compression.c:35-57 | Inside a run of equal bytes a token reaches 18 bytes forward and 512 back, or as far as there are bytes. |
| `Lz77Greedy.EqualBytesCount` | benchmark/src/compression.c:31-60 | n > 0 equal bytes take exactly 1 + (n - 1) / 18 tokens, and for the rest of the division one more if it is at least 3, otherwise as many as it counts. |
| `Lz77Greedy.GreedyUnique` | benchmark/src/compression.c:33-58 | The source determines the parse: of two greedy parses one is a prefix of the other. |
| `Lz77Greedy.RoundTrip` | benchmark/src/compression.c:31-76 | For any token limit and any capacity, decompressing the parse is safe and returns the covered prefix of the source cut at the capacity. |
| `Lz77Greedy.CompressThenDecompress` | benchmark/src/compression.c:116-135 | The composition returns exactly the part of the source that the tokens cover, cut at the capacity, and all of it when both limits are at least its length. |
| `Lz77Greedy.FirstTokenIsLiteral` | benchmark/src/compression.c:38-56 | The first token is the first byte as a literal. |
| `Lz77Greedy.TokenRanges` | benchmark/src/compression.c:24-28 | Every match has distance 1..512 and length 3..18, so narrowing to the token fields loses nothing. |
| `Lz77Greedy.TokenCountAndRatio` | benchmark/src/compression.c:126-128 | For a complete parse of n > 0 bytes into k tokens, k <= n <= 18k - 17, and the reported ratio n / 4k lies in [1/4, 9/2). |
| `Lz77Greedy.SuffixIsReached` | benchmark/src/compression.c:35-57 | From inside any admissible token, the next greedy token reaches its end, or is a literal two bytes before it. |
| `Lz77Greedy.GreedyWithinPrice` | benchmark/src/compression.c:35-57 | Against any admissible list for the same bytes, greedy spends at most one token on a one-byte token and two on a longer one. |
| `Lz77Greedy.CompressorWithinTwice` | benchmark/src/compression.c:31-60 | For every list of m admissible tokens that decompresses to the source, the compressor emits at most 2m tokens, fewer than 2m unless the source is empty. |
| `Lz77Greedy.GreedyIsNotOptimal` | benchmark/src/compression.c:50-57 | Three equal bytes take the compressor three tokens where two would do; the bound is attained. |
| `CondVar.ProducerKeepsControl` | benchmark/src/thread_bench.c:84-98 | Every step of the producer keeps mutual exclusion, what was read under the lock, and that a waiting thread is owed its wakeup. |
| `CondVar.ConsumerKeepsControl` | benchmark/src/thread_bench.c:100-111 | The same for the consumer. |
| `CondVar.MainKeepsControl` | benchmark/src/thread_bench.c:113-145 | The same for main. |
| `CondVar.InvHolds` | benchmark/src/thread_bench.c:84-145 | The invariant holds in every state of every run, spurious wakeups included. |
| `CondVarRuns.MutualExclusion` | benchmark/src/thread_bench.c:87-134 | No two of the three threads are between lock and unlock. |
| `CondVarRuns.SignalBeforeUnlock` | benchmark/src/thread_bench.c:89-109 | No thread gives the mutex back other than by waiting for its condition without having signalled the other, except a producer that has seen the stop. |
| `CondVarRuns.NoLostWakeup` | benchmark/src/thread_bench.c:87-109 | Producer and consumer never wait at once; with the mutex free a waiting producer implies msg_ready and running, a waiting consumer implies running and not msg_ready. |
| `CondVarRuns.NoDeadlock` | benchmark/src/thread_bench.c:84-137 | All three threads have finished if and only if none of them can take a step; spurious wakeups are not needed for progress. |
| `CondVarRuns.WorkersNeverStall` | benchmark/src/thread_bench.c:84-111 | While main sleeps, producer or consumer can take a step. |
| `CondVarRuns.Conservation` | benchmark/src/thread_bench.c:87-108 | Sends and consumptions alternate; messages sent are those consumed plus the pending one; msgs_sent is that number modulo 2^64 whenever the mutex is free. |
| `CondVarRuns.WorkDecreases` | benchmark/src/thread_bench.c:84-111 | While running, each worker step that is no event lowers a measure; a spurious wakeup raises it by at most 4. |
| `CondVarRuns.MessagesKeepFlowing` | benchmark/src/thread_bench.c:84-111 | Under any schedule of the workers, more than 16 + 5w steps with w spurious wakeups contain a send or a consumption. |
| `CondVarRuns.StopDescends` | benchmark/src/thread_bench.c:86-110 | After the stop every step lowers a measure and puts no thread into a wait set. |
| `CondVarRuns.StopFreezes` | benchmark/src/thread_bench.c:90-94 | After the stop no step sends a message or changes msgs_sent. |
| `CondVarRuns.ShutdownTerminates` | benchmark/src/thread_bench.c:130-140 | At most 21 steps follow the clearing of `running` whatever the schedule; a run that cannot go on has finished, and main returns the count as it was when it cleared. |
| `CondVarRuns.NobodyWaitsAfterBroadcasts` | benchmark/src/thread_bench.c:131-134 | After the broadcasts both wait sets are empty for good. |
| `CondVarRuns.StopIsReachable` | benchmark/src/thread_bench.c:121-131 | There are runs that reach the stop. |
| `CondVarRuns.ShutdownCompletes` | benchmark/src/thread_bench.c:130-140 | Every run that has reached the stop can be continued, by at most 21 steps, to one in which all threads have finished. |
| `CondVarRuns.EveryCountReached` | benchmark/src/thread_bench.c:84-140 | For every m there is a complete run in which m messages pass, each through a wait and a wakeup, and main returns m modulo 2^64. |
| `MutexCounter.WorkerKeepsControl` | benchmark/src/thread_bench.c:37-45 | A step of any thread keeps mutual exclusion and the freshness of loaded values. |
| `MutexCounter.WorkerKeepsCounted` | benchmark/src/thread_bench.c:41 | A step of any thread keeps the counter equal to the increments done. |
| `MutexCounter.InvHolds` | benchmark/src/thread_bench.c:37-71 | Both hold in every state of every run, for any number of threads. |
| `MutexCounter.MutualExclusion` | benchmark/src/thread_bench.c:40-42 | No two threads are between lock and unlock. |
| `MutexCounter.NoLostUpdates` | benchmark/src/thread_bench.c:53-71 | The counter is the sum of all iterations modulo 2^64 in every state, and so is what main returns after joining all threads. |
| `MutexCounter.NoDeadlock` | benchmark/src/thread_bench.c:37-67 | Main has returned if and only if no step is possible. |
| `MutexCounter.ShutdownTerminates` | benchmark/src/thread_bench.c:66-71 | After the flags are cleared at most 6n + 1 steps follow, and the count returned is the one then plus the increments under way, at most one a thread. |
| `MutexCounter.EveryCountReached` | benchmark/src/thread_bench.c:37-71 | For every number of threads and every number of iterations for each of them there is a run in which they do these, and main returns their sum modulo 2^64. |
| `Shuffle.ShuffleInPlace` | benchmark/src/memory.c:17-22 | The array becomes the result of the choices `rand() % (i + 1)`, from the last slot down. |
| `Shuffle.ReduceAt` | benchmark/src/memory.c:18-19 | The number drawn for slot i decides by its remainder modulo i + 1. |
| `Shuffle.ReduceOfChoices` | benchmark/src/memory.c:18-19 | Numbers that are small enough are the choices themselves. |
| `Shuffle.LastSlot` | benchmark/src/memory.c:18-21 | The entry chosen first comes to stand in the last slot. |
| `Shuffle.OneExchange` | benchmark/src/memory.c:18-21 | A run in which every round but one chooses its own slot exchanges the two entries of that round and moves nothing else. |
| `Shuffle.RunPermutes` | benchmark/src/memory.c:17-22 | Every run permutes the entries. |
| `Shuffle.EveryPermutationReached` | benchmark/src/memory.c:17-22 | Every permutation is the result of a run, whose choices are computed from it. |
| `Shuffle.ChoicesRecovered` | benchmark/src/memory.c:17-22 | With distinct entries the choices can be read off the result. |
| `Shuffle.ShuffleIsBijection` | benchmark/src/memory.c:17-22 | For distinct entries, choice sequences and permutations correspond one to one. |
| `Shuffle.EveryPermutationDrawn` | benchmark/src/memory.c:17-22 | Every permutation of an array is what some random numbers give. |
| `Ring.DistinctIsArrangement` | benchmark/src/memory.c:76-80 | n distinct indices below n are all the slots, so that linking writes each slot exactly once. |
| `Ring.Link` | benchmark/src/memory.c:79-80 | Each listed slot points to the next listed one, the last to the first. |
| `Ring.BuildRing` | benchmark/src/memory.c:68-81 | The index array is the shuffled identity and the nodes are linked along it. |
| `Ring.Chase` | benchmark/src/memory.c:84-96 | After m batches the position is 4096m pointers from slot 0 and the hops are counted. |
| `Ring.FollowInArrangement` | benchmark/src/memory.c:79-94 | k pointers from the i-th listed slot lead to the (i + k mod n)-th. |
| `Ring.SingleCycle` | benchmark/src/memory.c:79-94 | From any slot the first n visits are distinct and cover all slots, and step n is the first to return. |
| `Ring.ChaseIsPeriodic` | benchmark/src/memory.c:84-94 | The position depends on the hops only modulo the number of slots. |
| `Ring.BenchLatency` | benchmark/src/memory.c:68-96 | The ring is linked along the identity shuffled by the given random numbers; 4096m hops are counted, and the chase ends (4096m mod n) pointers from slot 0. |
| `Sha256Constants.PrimesAreAll` | benchmark/src/hashing.c:13-30 | The list of primes up to n holds exactly these, in increasing order. |
| `Sha256Constants.TrialDivision` | benchmark/src/hashing.c:13-30 | Below 361 a number is prime if and only if none of the seven primes below 19 divides it, itself aside. |
| `Sha256Constants.FirstPrimes` | benchmark/src/hashing.c:13-30 | There are 64 primes up to 311, those of the table, in their places. |
| `Sha256Constants.ConstantsAreCubeRoots` | benchmark/src/hashing.c:13-30 | The constant of round t is the first 32 fractional bits of the cube root of the t-th of the first 64 primes, as section 4.2.2 of FIPS 180-4 demands. |
| `Sha256Constants.InitialIsSquareRoots` | benchmark/src/hashing.c:32-35 | Word t of the initial hash value is the first 32 fractional bits of the square root of the t-th prime, as section 5.3.3 demands. |
| `Sha256.ScheduleMacros` | benchmark/src/hashing.c:42-43 | The shift-and-or macros of the schedule are the rotations of section 4.1.2. |
| `Sha256.SigmaMacros` | benchmark/src/hashing.c:40-41 | The shift-and-or macros of the rounds are the rotations of section 4.1.2. |
| `Sha256Bits.BigSigma0Bits` | benchmark/src/hashing.c:40 | Bit i of EP0 is the parity of bits i + 2, i + 13 and i + 22 of the argument, counted modulo 32. |
| `Sha256Bits.BigSigma1Bits` | benchmark/src/hashing.c:41 | Bit i of EP1 is the parity of bits i + 6, i + 11 and i + 25. |
| `Sha256Bits.SmallSigma0Bits` | benchmark/src/hashing.c:42 | Bit i of SIG0 is the parity of bits i + 7 and i + 18 and, below 29, bit i + 3. |
| `Sha256Bits.SmallSigma1Bits` | benchmark/src/hashing.c:43 | Bit i of SIG1 is the parity of bits i + 17 and i + 19 and, below 22, bit i + 10. |
| `Sha256Bits.ChoiceBits` | benchmark/src/hashing.c:38 | CH takes each bit from the second or the third word, as the bit of the first one says. |
| `Sha256Bits.MajorityBits` | benchmark/src/hashing.c:39 | MAJ takes the majority of the three bits. |
| `Sha256.FillSchedule` | benchmark/src/hashing.c:46-53 | The array w holds the message schedule of section 6.2.2. |
| `Sha256.RunRounds` | benchmark/src/hashing.c:55-63 | The 64 rounds with rotating registers are those of section 6.2.2. |
| `Sha256.CompressBlock` | benchmark/src/hashing.c:45-66 | The hash value is updated in place by the compression of section 6.2.2, and the block is recorded. |
| `Sha256.WriteLength` | benchmark/src/hashing.c:91-94 | The last eight bytes become the length, big-endian; the others stay. |
| `Sha256.FinalBlocks` | benchmark/src/hashing.c:81-95 | On both sides of the branch at 56 bytes, the blocks compressed are those of the rest of the padded message. |
| `Sha256.WriteDigest` | benchmark/src/hashing.c:97-102 | The digest is the hash value, most significant bytes first. |
| `Sha256.Hash` | benchmark/src/hashing.c:69-103 | The blocks compressed are, in order, those of the padded message and the digest is SHA-256 by pad, parse and fold for every message below 2^61 bytes; for longer ones the same with the wrapped length. |
| `Sha256Example.Words56` | benchmark/src/hashing.c:46-53 | The last eight words of the message schedule of "abc". |
| `Sha256Example.Rounds64` | benchmark/src/hashing.c:55-63 | The registers after the 64 rounds on "abc". |
| `Sha256Example.DigestOfAbc` | benchmark/src/hashing.c:69-103 | The digest of "abc" is ba7816bf ... f20015ad, worked out through padding, schedule, rounds and output. |
| `Sha256Padding.PaddedMessage` | benchmark/src/hashing.c:81-95 | The padded message is the message, 0x80, zeros and the number of bits as a big-endian number, in whole blocks and no more of them than needed. |
| `Sha256Padding.FewestZeroBits` | benchmark/src/hashing.c:81-90 | The zero bits written are the fewest that section 5.1.1 of FIPS 180-4 allows. |
| `Sha256Padding.PaddingIsSuffixFree` | benchmark/src/hashing.c:76-95 | No padded message is the end of another. |
| `Sha256Padding.HashFoldsBlocks` | benchmark/src/hashing.c:76-95 | Hashing compresses the list of 64-byte blocks in order. |
| `Sha256Padding.BlocksDetermineMessage` | benchmark/src/hashing.c:76-95 | Different messages below 2^61 bytes give different block lists, which are those that `Hash` compresses; the list of one is not even the end of the list of another. |
| `Sha256Padding.DigestInjective` | benchmark/src/hashing.c:97-102 | The digest determines the hash value. |
| `Bits.AndMask` | benchmark/src/python_runner.c:26-33 | Masking with 2^k - 1 is the remainder by 2^k. |
| `IntegerLoop.SameStep` | benchmark/src/python_runner.c:26-33 | Python's masked step on unbounded integers and the wrapping uint64 step agree below 2^64 and stay there. |
| `IntegerLoop.SameLoop` | benchmark/src/cpu.c:30-38 | So do any number of iterations from a common start. |
| `IntegerLoop.CpuLatency` | benchmark/src/cpu.c:29-44 | The C loop computes that many iterations, in any number of batches, and counts them modulo 2^64. |
| `IntegerLoop.CpuWork` | benchmark/src/python_runner.c:17-35 | The Python loop ends in the state in which the C loop ends. |
| `IntegerStep.MixBits` | benchmark/src/cpu.c:31-34 | The first half of an iteration, digit by digit: each word is xored with one shifted by 13 to the left, 7 to the right or 17 to the left, or not shifted. |
| `IntegerStep.ScaleValues` | benchmark/src/cpu.c:35-38 | The second half: the two products, the sum and the shift by 33, with the constants written out. |
| `IntegerStep.StepUndone` | benchmark/src/cpu.c:31-38 | An iteration can be undone: it is injective on 64-bit states. |
| `IntegerStep.StatesNeverMerge` | benchmark/src/cpu.c:29-44 | After any number of iterations, in C or in Python, different starts are still in different states. |
| `MaskWalk.FillArray` | benchmark/src/cpu.c:80-81 | Element i is i * 6364136223846793005 + 1 modulo 2^64. |
| `MaskWalk.Walk` | benchmark/src/cpu.c:86-101 | For every power of two and any number of batches step k reads element k mod n, the index ends as the number of steps mod n, and the accumulator is that of the walk with a remainder. |
| `MaskWalk.AccumulatedIsSum` | benchmark/src/cpu.c:92-97 | The accumulator is the sum of the elements read, each times 6364136223846793005 to the power of the steps from its own on, modulo 2^64. |
| `MaskWalk.WindowReadsEachOnce` | benchmark/src/cpu.c:92-97 | In the trace of `Walk` any n consecutive reads read each of n elements exactly once, across batch boundaries too. |
| `MaskWalk.MaskWrapsIffPowerOfTwo` | benchmark/src/cpu.c:76-77 | The mask wraps the index like the remainder if and only if the length is a power of two. |
| `Decimal.UnsignedValue` | benchmark/src/main.c:112 | The decimal digits stand for the number and begin with 0 only for 0. |
| `Decimal.UnsignedLength64` | benchmark/src/main.c:111-112 | A 64-bit number has at most 20 digits, so that `tmp` holds all of them. |
| `Commas.GroupFromLeft` | benchmark/src/main.c:115-120 | Grouping from the right is what the loop writes from the left. |
| `Commas.FmtCommas` | benchmark/src/main.c:110-122 | The buffer gets the longest prefix of the grouped number that fits, and a terminator; nothing beyond is touched. |
| `Commas.GroupLength` | benchmark/src/main.c:115-120 | d digits take d + (d - 1) / 3 characters. |
| `Commas.CommaPositions` | benchmark/src/main.c:117-119 | Counted from the right every fourth character is a comma, and the others are the digits in order. |
| `Commas.GroupedNumberReadBack` | benchmark/src/main.c:110-122 | Without the commas the text reads back as the number. |
| `StringBuffer.SB.constructor` | benchmark/src/json_writer.c:19-24 | An empty, terminated buffer of the given capacity. |
| `StringBuffer.SB.Grow` | benchmark/src/json_writer.c:26-31 | The contents survive, the room asked for is there, and doubling goes to at most twice what was needed. |
| `StringBuffer.SB.Append` | benchmark/src/json_writer.c:33-38 | The contents grow by the string and stay terminated; the capacity is at most the larger of the initial one and twice the length, and all reallocations together moved less than it. |
| `StringBuffer.SB.Printf` | benchmark/src/json_writer.c:40-58 | The formatted text is appended whole, whether or not it fits in 256 characters; a formatting error appends nothing. |
| `Json.NumberRead` | benchmark/src/json_writer.c:65-76 | A JSON number before a comma or a newline is read to its end. |
| `Json.StringRead` | benchmark/src/json_writer.c:61-63 | A plain string between quotation marks is read to its end. |
| `Json.DocumentRead` | benchmark/src/json_writer.c:101-237 | Parsing the layout of any members with valid numbers and plain strings gives exactly these members, with nothing left over. |
| `JsonExact.LagPersists` | benchmark/src/json_writer.c:61-63 | After an escape sequence the characters read can never again coincide with the string printed. |
| `JsonExact.StringExact` | benchmark/src/json_writer.c:61-63 | A string that is printed unescaped and reads back as it was is plain. |
| `JsonExact.DocumentReadIffPrintable` | benchmark/src/json_writer.c:101-237 | A printed text parses to what was printed if and only if all its numbers are valid and all its strings and keys plain. |
| `JsonGrammar.NumberIffInGrammar` | benchmark/src/json_writer.c:65-67 | A text counts as a number if and only if it is an optional minus, an integer without a leading zero, an optional fraction and an optional exponent, as section 6 of RFC 8259 has it. |
| `JsonGrammar.ExponentExample` | benchmark/src/json_writer.c:65-67 | `6.12e+08` is a number. |
| `Utf8.Utf8IffEncoded` | benchmark/src/json_writer.c:61-63 | A byte string is well-formed UTF-8 if and only if it is the concatenated encoding of some code points other than surrogates. |
| `Utf8.CutBeforeAscii` | benchmark/src/json_writer.c:61-63 | A byte string is well-formed UTF-8 if and only if its two parts are, wherever an ASCII character follows, as the closing quotation mark does. |
| `Utf8.EncodeIsUtf8` | benchmark/src/json_writer.c:61-63 | What an escape sequence stands for is well-formed UTF-8. |
| `JsonFile.MembersUtf8` | benchmark/src/json_writer.c:101-237 | The printed members are well-formed UTF-8 if and only if every string and key among them is. |
| `JsonFile.FileReadIff` | benchmark/src/json_writer.c:101-237 | A reader that demands UTF-8 gets back what was printed if and only if all numbers are valid and all strings and keys are plain and well-formed UTF-8. |
| `JsonWriter.JsonStr` | benchmark/src/json_writer.c:61-63 | Appends the member with a string, a null pointer as the empty one. |
| `JsonWriter.JsonDbl` | benchmark/src/json_writer.c:65-67 | Appends the member with the number text. |
| `JsonWriter.JsonInt` | benchmark/src/json_writer.c:70-76 | Appends the member with the integer in decimal. |
| `JsonWriter.JsonBool` | benchmark/src/json_writer.c:78-80 | Appends the member with true or false. |
| `JsonWriter.WriteRandomAccess` | benchmark/src/json_writer.c:172-178 | Appends the random-access figures, null on tmpfs. |
| `JsonWriter.WriteJson` | benchmark/src/json_writer.c:98-237 | The pieces appended, for every combination of skipped flags and is_tmpfs, add up to the layout of the report's members. |
| `ReportKeys.MetaFields` | benchmark/src/json_writer.c:104-110 | Each of the five fields of `meta` is found under its name. |
| `ReportKeys.SystemFields` | benchmark/src/json_writer.c:113-129 | Each of the fifteen fields of `system` is found under its name. |
| `ReportKeys.CpuSingleFields` | benchmark/src/json_writer.c:135-140 | Each of the four fields of `cpu_single` is found under its name. |
| `ReportKeys.CpuMultiFields` | benchmark/src/json_writer.c:143-153 | Each of the nine fields of `cpu_multi` is found under its name. |
| `ReportKeys.MemoryFields` | benchmark/src/json_writer.c:156-162 | Each of the five fields of `memory` is found under its name. |
| `ReportKeys.StorageFields` | benchmark/src/json_writer.c:165-183 | Unless skipped, each of the seven fields of `storage` is found under its name; random access is null exactly on tmpfs. |
| `ReportKeys.CompressionFields` | benchmark/src/json_writer.c:186-195 | Unless skipped, each of the four fields of `compression` is found under its name. |
| `ReportKeys.HashingFields` | benchmark/src/json_writer.c:198-201 | Both fields of `hashing` are found under their names. |
| `ReportKeys.FloatFields` | benchmark/src/json_writer.c:204-208 | Each of the three fields of `floating_point` is found under its name. |
| `ReportKeys.ThreadFields` | benchmark/src/json_writer.c:211-215 | Each of the three fields of `thread_bench` is found under its name. |
| `ReportKeys.FsMetaFields` | benchmark/src/json_writer.c:218-222 | Each of the three fields of `fs_metadata` is found under its name. |
| `ReportKeys.PythonFields` | benchmark/src/json_writer.c:225-235 | Unless skipped, each of the five fields of `python` is found under its name. |
| `ReportKeys.ResultFields` | benchmark/src/json_writer.c:132-235 | Each of the ten sections is found under its name. |
| `ReportKeys.ReportFields` | benchmark/src/json_writer.c:101-237 | `meta`, `system` and `results` are found under their names. |
| `ReportKeys.SystemKeysDistinct` | benchmark/src/json_writer.c:113-129 | No two of the fifteen names are equal; the same is proved of every other object. |
| `ReportReader.SignedIsNumber` | benchmark/src/json_writer.c:70-76 | What `%d` and `%ld` print is a JSON number. |
| `ReportReader.SignedRead` | benchmark/src/json_writer.c:70-76 | Reading it gives the integer back. |
| `ReportReader.ReportRead` | benchmark/src/json_writer.c:98-237 | Looked up by name, the members of the document give back every field of the report, apart from those of skipped modules and random access on tmpfs. |
| `ReportReader.MembersOfWritten` | benchmark/src/json_writer.c:118-232 | No other field has any effect on the document. |
| `ReportReader.WrittenDocumentReadBack` | benchmark/src/json_writer.c:98-237 | The written file is a JSON text in UTF-8 for exactly the report's members if and only if its numbers are valid and its strings plain and well formed. |
| `ReportReader.SameDocumentIffSameFields` | benchmark/src/json_writer.c:98-237 | Two such files are equal if and only if the reports agree on every field that is written. |
| `ReportReader.QuotationMarkBreaks` | benchmark/src/system_info.c:139 | Whatever else the report holds, a device name with a quotation mark gives a file that does not read back. |
| `ReportReader.CutCharacterBreaks` | benchmark/src/system_info.c:139 | A device name that ends inside a character, as cutting it at 256 bytes can leave it, gives a file that does not read back. |
| `ReportReader.InfinityBreaks` | benchmark/src/fs_metadata.c:47 | A report with an infinite rate gives a file that does not read back. |

## Left out

- Clocks, durations, rates and scaling factors: external time and floating point.
- `storage.c`, `fs_metadata.c`, `floating_point.c`, `system_info.c`, `csv_writer.c`, the server and the scripts: input and output
  without an algorithm behind it.
- `main.c` apart from `fmt_commas`, and the process handling of `bench_python`.
- Allocation failure, overflow of `size_t` capacities, weak memory and the quality of `rand()`: shared accesses are atomic steps, and
  random numbers are given.
- The deterministic input of `bench_compression` (`compression.c:98-109`): the codec is proved for every input.
- The independent chains of `cpu_throughput` and the thread-creation loop: they would only add easy members.
- JSON arrays, which `write_json` never writes; a surrogate `\u` escape is read as the replacement character.
- The opening and writing of the file in `write_json`, and the conversion of a `double` to text.
- Fairness: before the stop, nothing is said about when main gets the mutex.
- The two thread benchmarks are state machines on values; aliasing of the shared structure is not part of the model.
- Lz77Greedy.Compress: `src` is a sequence, since the source only reads it; that it and `tokens` are different memory is implied.
- Lz77.Decompress: requires that no token reached within the capacity refers to a place before the first byte, which the
  source leaves to its caller; what other token lists do is not modelled.
- Commas.FmtCommas: requires `bufsz >= 1`, which the source leaves to its caller; for 0 it still stores the terminator.
- Shuffle.ShuffleInPlace: requires a non-empty array, as in the source, where `n - 1` wraps around for an empty one.
- StringBuffer.SB.constructor: requires a positive capacity, as in the source, which stores the terminator at once and grows by doubling.
