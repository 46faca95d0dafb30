# Stratum pool and miners: a Dafny model

A solo mining pool and its own CPU and GPU miners, modelled from the bytes of the
proof-of-work hash up to the pool's counters, in three chains that meet in
`EndToEnd.dfy`.

**The GPU nonce search.** `Blake3.dfy` is the simple form: single-chunk BLAKE3 as its
specification states it ("BLAKE3: one function, fast everywhere", sections 2.2 and 2.4).
`Compression.dfy` holds the array code of the CUDA kernel, the OpenCL kernel, both hosts
and the CPU reference, each proved to compute that compression, and the midstate shortcut
proved equal to the hash of the whole header. `Blake3Vector.dfy` fixes which function that is:
the initial value from the square roots of the first primes, and one published digest, of the
64 bytes 0 to 63, followed through its 56 quarter rounds. `NonceSearch.dfy` has the sequential and the
threaded CPU search, `LowestNonce.dfy` what the threaded one promises and when it keeps it;
`Kernel.dfy` the GPU threads as a step system racing on one
compare-and-swap cell, with every schedule considered; `HostSweep.dfy` the loop over
2^26-sized batches with wrapping 32-bit arithmetic.

**Miner and pool agreeing.** `Headers.dfy` follows the 180 header bytes from the node's
getwork blob through the hex fields of `mining.notify` to the miner and back through
`mining.submit`. `Targets.dfy` proves that the kernel's word comparison, the miners' byte
comparison and the pool's integer comparison are one order. `CpuMiner.dfy` and
`GpuMiner.dfy` are the two `mineJob` loops, with the enumeration that is meant to avoid
duplicate work; `Hex.dfy` and `WorkMessage.dfy` the JSON line between the Go side and the
host and the host's quote-scanning parser.

**The pool's submit path.** `Registry.dfy` (current work and bounded job registry),
`Throttle.dfy` (one in N blocks) and `Pool.dfy`: a transition system over any number of
connections, interleaved at every access to shared state, with an invariant over every
run. `Server.dfy` has the server, the connections and `handleMessage` as objects whose
methods are proved to be the uninterrupted runs of that machine.

Machine words are bounded integers (`Words.dfy`); every wrap-around, xor, rotation and
truncation the code relies on is written out, and xor, or and shifts are tied to their bits.
Loops, arrays and objects that the source updates in place are loops, arrays and classes
here, each proved against a specification function about which the properties are proved.

Assumed of code outside the repository: parsing and serializing a `wire.BlockHeader`
round trips its 180 bytes, and its `Bits` is the little-endian word at byte 116;
`PowHashV2` and `blake3.Sum256` are `Blake3.Hash256` of the 180 bytes;
`standalone.HashToBig` reads the hash as a little-endian integer;
`standalone.CompactToBig` is an arbitrary function of the bits (`compact`).

Where a promise holds only under a condition, the exact condition is proved:

- The threaded search promises the lowest matching nonce for any thread count
  (cmd/gpuminer/cuda/test/cpu_reference.c:164-170, cpu_reference.h:53-56), the ascending scan
  the lowest one (cpu_reference.h:44). The scan keeps that for every target if and only if
  `start + count <= 2^32 + 1` (`LowestNonce.ScanLowestIff`). What the threaded search returns,
  a fallback to the scan after a failed thread creation included, is the lowest match for every
  target if and only if none of the slices that decide it, one for a fallback, holds both the
  nonce 2^32 - 1 and, past the wrap, the nonce 1 (`LowestNonce.LowestIff`); and it is so for
  every processor count and every failure if and only if `start + count <= 2^32 + 1`
  (`LowestNonce.LowestForAnyThreadsIff`). All this for every midstate. Two inputs break it
  whatever the midstate, both with the all-ones target and 8192 nonces: from 0xFFFFFF00
  (`LowestNonce.PromiseBroken`), and from 0xFFFFF000 when the second thread cannot be created
  (`LowestNonce.FallbackBreaksPromise`).
- The result is the scan's for every acceptance predicate if and only if
  `start + count <= 2^32 + 1` or one slice decides (`LowestNonce.ReturnedIffSequential`,
  `NonceSearch.ParallelIffSequential`); for every processor count and failure as well if and
  only if `start + count <= 2^32 + 1`, `count <= 4096` or `count = 2^32 - 1`
  (`LowestNonce.SameForAnyThreadsIff`). A target accepts what the hashes make it accept; at the
  all-ones target the two differ exactly when some deciding slice starts after the wrap
  (`LowestNonce.AllOnesIffSequential`).
- Over connections that each have their own number of threads and of attempts a thread, no
  header is hashed twice if and only if every one of them has
  `threads * ceil(n / 2^32) <= 2^64` and no two that hash anything have numbers equal modulo
  2^32 (`CpuMiner.DuplicateFreeIff`).
- The miners store targets with `big.Int.FillBytes`, which drops the sign, so miner and pool
  verdicts agree unless the block target is negative and a share is at or below its size
  (`Targets.VerdictsAgree`, `CpuMiner.MinerAndPoolAgree`).
- The grid covers every item of a batch if and only if the rounded-up batch fits 32 bits
  (`Kernel.GridCovers`).
- `RefreshWork` reads and sets the current work in two lock sections
  (internal/stratum/server.go:181-193). It keeps the current template if and only if that is
  still the one it read (`Pool.SplitRefreshKeepsTemplateIff`); a run in which it puts back a
  superseded template is given for every configuration that throttles and under which the
  template can be solved (`Pool.RefreshCanUndoTemplate`), and over runs in which no
  template arrives between the two sections the current work is always the node's latest
  (`Pool.CurrentIsLatest`). From any reachable state the current work keeps to a template
  until the next delivery if and only if it and every refresh under way are of that template
  (`Pool.CurrentStaysIff`). Uninterrupted, a refresh always installs a fresh job
  (`Registry.RefreshInstalls`).
- A submission is judged under the connection's worker name, and needs no authorization when
  both are empty (`Pool.JudgedIff`, `Pool.WorkerWasAuthorized`).
- "searched" reports 2^32 nonces checked, counting the skipped nonce 0
  (`HostSweep.HandleWork`).

## Model

| member | source | states |
|---|---|---|
| Words.XorBits | cmd/gpuminer/cuda/host.cpp:415-425 | the arithmetic xor is the bitwise one: every bit differs or not as the operands' bits do |
| Words.RotrIsShiftOr | cmd/gpuminer/cuda/host.cpp:411-413 | the rotation is the or of a right and a truncated left shift |
| Words.RotrInverse | cmd/gpuminer/cuda/test/cpu_reference.c:16-18 | rotating by n and then by 32 - n is the identity |
| Words.LoadWordIsOr | cmd/gpuminer/cuda/test/cpu_reference.c:75-78 | four bytes read little endian are the or of the shifted bytes |
| Words.StoreLoad | internal/mining/header.go:195-204 | writing a word little endian and reading it back are inverse both ways |
| Blake3.GInverse | cmd/gpuminer/cuda/kernel.cu:11-21 | for fixed message words the quarter round has an explicit two-sided inverse |
| Blake3.RoundsInverse | cmd/gpuminer/cuda/host.cpp:438-448 | the rounds, for any number of them, are a bijection of the 16-word state |
| Blake3Vector.IVIsRootsOfPrimes | cmd/gpuminer/cuda/host.cpp:406-409 | each initial word is the first 32 fraction bits of the square root of one of the first eight primes, in order |
| Blake3Vector.PublishedDigest | cmd/gpuminer/cuda/host.cpp:411-455 | the hash of the bytes 0 to 63 is the published BLAKE3 digest: initial value, permutation, rotations, round count, length and flags all take part |
| Blake3Vector.HeaderHash | cmd/gpuminer/cuda/host.cpp:457-473 | a 180-byte header is three chained compressions of 64, 64 and 52 bytes with flags 1, 0 and 10 |
| Compression.B3G | cmd/gpuminer/cuda/test/cpu_reference.c:20-29 | the in-place quarter round changes exactly its four words, to the specification's values |
| Compression.SequentialRound | cmd/gpuminer/cuda/kernel.cu:37-40 | eight quarter rounds one after another equal the specification's columns-then-diagonals round |
| Compression.ScheduleStep | cmd/gpuminer/cl/kernel.cl:41-44 | permuting in place turns the schedule of round r into that of round r + 1 of the index-only form |
| Compression.CompressLoop | cmd/gpuminer/cuda/kernel.cu:23-53 | the loop over a copied schedule computes the specification's compression, the function that gives the published digest |
| Compression.CompressUnrolled | cmd/gpuminer/cl/kernel.cl:27-107 | the unrolled form that permutes the message itself computes the same, permuting six times and not after the last round |
| Compression.ComputeMidstate | cmd/gpuminer/cuda/host.cpp:457-473 | fills the chaining value after two blocks and the third block with its nonce word cleared |
| Compression.MidstateCorrect | cmd/gpuminer/cuda/kernel.cu:60-68 | one compression from the midstate with the nonce in word 3 is the BLAKE3 hash of the whole header with that nonce at bytes 140..143 |
| Targets.TopDigitDecides | cmd/gpuminer/cuda/kernel.cu:70-74 | the highest differing digit decides the order of two numbers |
| Targets.Accepts | cmd/gpuminer/cuda/test/cpu_reference.c:98-105 | the word comparison from the top accepts iff the hash is at most the target as a 256-bit integer |
| Targets.CmpHashTarget | cmd/gpuminer/miner.go:174-184 | the byte comparison is the three-way comparison of the integers |
| Targets.ClassifySolution | cmd/gpuminer/miner.go:188-193 | share iff the hash is at most the share target, block iff a share at most the block target, as integers: the pool's decision |
| Targets.TargetBytesInt | cmd/gpuminer/miner.go:164-168 | the 32 big-endian bytes hold the target's absolute value |
| Targets.KernelTarget | cmd/gpuminer/miner.go:154-160 | the reversed bytes read as words are the target, and the kernel accepts iff the integer hash is at most it |
| Targets.VerdictsAgree | internal/mining/evaluate.go:30-40 | miner and pool decide alike iff the block target is not negative or the hash is above the share target or above its size |
| NonceSearch.SlicesPartition | cmd/gpuminer/cuda/test/cpu_reference.c:142-146 | every item is in exactly one slice, rounding overflow included |
| NonceSearch.BoundsExact | cmd/gpuminer/cuda/test/cpu_reference.c:142-146 | no sum or product of the slice bounds wraps |
| NonceSearch.MinWinnerIsMin | cmd/gpuminer/cuda/test/cpu_reference.c:211-219 | the join loop keeps the lowest non-zero winner of the slices |
| NonceSearch.SlicedEqualsSequential | cmd/gpuminer/cuda/test/cpu_reference.c:164-170 | without a wrap, for any number of slices, the lowest slice winner is what the ascending scan finds |
| NonceSearch.WrappedSlicesDiffer | cmd/gpuminer/cuda/test/cpu_reference.c:148-149 | past the wrap, with two slices or more, the acceptance predicate met by the first and last nonce only gives different answers |
| NonceSearch.SlicesAre | cmd/gpuminer/cuda/test/cpu_reference.c:175-188 | the range is sliced, one slice a processor, iff 1 to 64 processors are reported, it has more than 4096 nonces and rounding up stays inside 32 bits |
| NonceSearch.ParallelIffSequential | cmd/gpuminer/cuda/test/cpu_reference.c:171-220 | threaded equals sequential for every acceptance predicate iff no nonce follows the wrap or one slice is used |
| LowestNonce.ResultIsLowest | cmd/gpuminer/cuda/test/cpu_reference.c:164-170 | when no slice straddles the wrap the result is the lowest matching nonce, 0 iff there is none, for any number of slices |
| LowestNonce.SlicedLowestIff | cmd/gpuminer/cuda/test/cpu_reference.c:211-219 | for every midstate and number of slices: their least winner is the lowest matching nonce for every target iff no slice holds both 2^32 - 1 and, past the wrap, 1 |
| LowestNonce.LowestIff | cmd/gpuminer/cuda/test/cpu_reference.c:164-220 | for every midstate, processor count and failing thread: what is returned is the lowest matching nonce for every target iff none of the deciding slices, one for a fallback, straddles the wrap so |
| LowestNonce.ScanLowestIff | cmd/gpuminer/cuda/test/cpu_reference.h:44-45 | the ascending scan returns the lowest matching nonce for every target iff the range does not go past the wrap |
| LowestNonce.LowestForAnyThreadsIff | cmd/gpuminer/cuda/test/cpu_reference.h:53-56 | the lowest matching nonce is returned for every target, processor count and failing thread iff the range does not go past the wrap |
| LowestNonce.ReturnedIffSequential | cmd/gpuminer/cuda/test/cpu_reference.c:171-220 | the result, fallback included, is the scan's for every acceptance predicate iff no nonce follows the wrap or one slice decides |
| LowestNonce.AllOnesIffSequential | cmd/gpuminer/cuda/test/cpu_reference.c:200-219 | for every midstate, at the target every hash meets, the result is the scan's iff none of the deciding slices starts after the wrap |
| LowestNonce.SameForAnyThreadsIff | cmd/gpuminer/cuda/test/cpu_reference.c:179-207 | the result is the scan's for any processor count, failing thread and acceptance predicate iff no nonce follows the wrap or the range is never sliced |
| LowestNonce.PromiseBroken | cmd/gpuminer/cuda/test/cpu_reference.c:164-170 | a target, start and count for which two processors return neither the lowest match nor what one processor returns, whatever the midstate |
| LowestNonce.FallbackBreaksPromise | cmd/gpuminer/cuda/test/cpu_reference.c:200-206 | a range whose slices meet at the wrap: the lowest match is returned, but not if the second thread cannot be created |
| NonceSearch.CpuSearchNonce | cmd/gpuminer/cuda/test/cpu_reference.c:107-126 | finds the first winner in ascending order, as an int32 bit pattern, with its digest if one is asked for, and touches the output only then |
| NonceSearch.SearchCtx.SearchSlice | cmd/gpuminer/cuda/test/cpu_reference.c:140-162 | a slice thread finds the first winner of its own range and its digest |
| NonceSearch.CpuSearchNonceParallel | cmd/gpuminer/cuda/test/cpu_reference.c:171-220 | whatever order the threads finish in, the result and digest are the threaded search's; a thread that cannot start falls back to the scan; a null hash_out is refused only where slices ran and one won |
| Kernel.StepInv | cmd/gpuminer/cuda/kernel.cu:55-83 | every step of any thread keeps: the cell is empty, or one winner owns cell and digest words |
| Kernel.KernelSafety | cmd/gpuminer/cuda/kernel.cu:76-82 | for every interleaving, when all threads are done the cell is non-zero iff some non-zero nonce is accepted, holds such a nonce, and the digest is exactly its own |
| Kernel.StepProgress | cmd/gpuminer/cl/kernel.cl:121-162 | every step of an unfinished thread makes progress; none is blocked |
| Kernel.LaunchTerminates | cmd/gpuminer/cl/kernel.cl:121-162 | a launch of n threads ends within 10 n productive steps under any schedule |
| Kernel.GridCovers | cmd/gpuminer/cuda/host.cpp:484-485 | the grid has a thread for every item iff rounding up stays inside 32 bits |
| Kernel.Gpu.SearchGpu | cmd/gpuminer/cuda/host.cpp:475-514 | clears the cell, runs any schedule to the end and returns a winner and its digest, or 0 iff there is none |
| Kernel.Gpu.RunThread | cmd/gpuminer/cuda/kernel.cu:55-83 | one thread step on the shared memory is a step of the machine |
| Hex.RoundTrip | internal/mining/header.go:190-192 | decoding the encoding gives the bytes back |
| Hex.DecodesIff | internal/stratum/client.go:175-194 | decoding succeeds iff the text is hex digits of even number |
| Hex.DigitsAre | cmd/gpuminer/cuda/host.cpp:390-393 | which characters are which digit, in either case |
| Hex.HexToBytes | cmd/gpuminer/cuda/host.cpp:383-397 | the host's decoder fails on odd length only |
| Hex.HostReadsHex | cmd/gpuminer/cuda/host.cpp:383-397 | what Go's decoder accepts the host's reads alike, with or without 0x |
| Hex.ForeignIsZero | cmd/gpuminer/cuda/host.cpp:390-393 | any other character is read as the digit 0 |
| Hex.HostReadsGo | cmd/gpuminer/cuda/host.cpp:373-397 | the host's decoder reads back what the Go side encodes, and never takes its text for a 0x prefix |
| HostSweep.HitIsMeets | cmd/gpuminer/cuda/host.cpp:516-533 | the device's test with the midstate is the comparison of the header's own hash |
| HostSweep.SweepCoversOnce | cmd/gpuminer/cuda/host.cpp:547-552 | the 64 batches test every 32-bit value exactly once, the skipped 0 last |
| HostSweep.SetNonce | cmd/gpuminer/cuda/host.cpp:399-404 | writes the nonce little endian at 140..143 and nothing else |
| HostSweep.BatchResult | cmd/gpuminer/cuda/host.cpp:541-545 | what a launch found says whether the batch holds a nonce that meets the target |
| HostSweep.Sweep | cmd/gpuminer/cuda/host.cpp:529-560 | the batch loop ends within 64 batches, with no winner in any batch run, or one in the last |
| HostSweep.HandleWork | cmd/gpuminer/cuda/host.cpp:516-575 | ends for every input; "searched" means 2^32 counted and no non-zero nonce meets the target; "solution" carries such a nonce inside the header it reports; a sweep neither stopped nor failed reports a solution iff some non-zero nonce meets the target; and which progress lines come before |
| HostSweep.ProgressLinesAre | cmd/gpuminer/cuda/host.cpp:554-561 | one progress line for every eight completed batches, at 2^29 nonces each |
| Headers.NewWork | internal/mining/header.go:86-96 | a blob is work iff it has 192 bytes; height is its word at 128 |
| Headers.RefreshTimestamp | internal/mining/header.go:135-139 | a copy of the blob with only bytes 136..139 replaced |
| Headers.RefreshedFields | internal/mining/header.go:131-139 | the new timestamp reads back and every other byte stays |
| Headers.StoreU64Int | cmd/cpuminer/miner.go:165-165 | the eight bytes written for a 64-bit value are that value read little endian |
| Headers.BuildSolvedHeader | internal/mining/header.go:144-174 | fails iff a field has the wrong size; otherwise the blob's header with the fields in place |
| Headers.SolvedFrame | internal/mining/header.go:161-166 | only bytes 136..155 change, and which field each holds, short extra nonce 1 included |
| Headers.SolvedHeaderData | internal/mining/header.go:179-193 | the text decodes to the solved header followed by twelve zero bytes |
| Headers.NotifyDecodes | internal/stratum/client.go:265-278 | every notify field decodes to the blob bytes it was cut from |
| Headers.BuildJob | cmd/cpuminer/miner.go:50-94 | fails iff a field is not hex of its size; otherwise the assembled header, height, time and targets |
| Headers.MinerAndPoolHashTheSameHeader | internal/mining/header.go:141-174 | for every blob and nonces the header the miner hashes is byte for byte the one the pool rebuilds |
| CpuMiner.TakeNotify | cmd/cpuminer/stratum.go:436-440 | a miner notified of the pool's work builds exactly the job that the agreement results are about |
| CpuMiner.MinerAndPoolAgree | cmd/cpuminer/miner.go:120-127 | at one share target miner and pool agree whether an attempt is a share, and on the whole verdict with the exact exception for negative block targets |
| CpuMiner.Miner.TryAttempt | cmd/cpuminer/miner.go:174-181 | one attempt hashes the job's header with its nonces, counts one hash and classifies as specified |
| CpuMiner.Miner.MineJob | cmd/cpuminer/miner.go:160-203 | header k carries, little endian, idx + threads (k div 2^32) in bytes 148..155 and k mod 2^32 in bytes 140..143, and the job's bytes elsewhere; the shares are submitted in order; one hash counted per attempt |
| CpuMiner.SharesIff | cmd/cpuminer/miner.go:180-193 | a share is submitted iff it names the extra nonce 2 and nonce of one of the attempts and the header they give meets the share target |
| CpuMiner.HeaderDetermines | cmd/cpuminer/miner.go:174-175 | equal attempt headers have equal extra nonce 1 bytes, extra nonce 2 and nonce |
| CpuMiner.RepeatsOnlyItself | cmd/cpuminer/miner.go:155-159 | below 2^64 no two attempts of any two threads use the same header |
| CpuMiner.WrapRepeats | cmd/cpuminer/miner.go:199-200 | beyond 2^64 thread 0's first attempt is repeated, by a named attempt |
| CpuMiner.NoRepeatsIff | cmd/cpuminer/miner.go:155-159 | no header is hashed twice iff threads * ceil(n / 2^32) <= 2^64 |
| CpuMiner.MinedHeaderDetermines | cmd/cpuminer/miner.go:78-83 | over all extra nonces a mined header determines all three |
| CpuMiner.ConnectionsAreDisjoint | internal/stratum/server.go:253-261 | two connections hash a common header only if their numbers agree modulo 2^32 |
| CpuMiner.TriedIsMinerAttempt | cmd/cpuminer/miner.go:160-175 | the headers MineJob tries are the ones the no-duplicate results speak of |
| CpuMiner.NoDuplicateWork | cmd/cpuminer/miner.go:155-159 | with any number of threads on each connection, equal headers are the same attempt of the same thread of the same connection, unless extra nonce 1 is shared or an extra nonce 2 wraps |
| CpuMiner.DuplicateFreeIff | cmd/cpuminer/miner.go:155-159 | over all connections, with their own numbers of threads and attempts, no header is hashed twice iff no extra nonce 2 wraps and no two connections that hash share their extra nonce 1 |
| WorkMessage.ParseMessage | cmd/gpuminer/cuda/host.cpp:577-646 | the parser's branches and error replies, in order |
| WorkMessage.ExtractIs | cmd/gpuminer/cuda/host.cpp:586-596 | where the four scans for a key land, so which characters come out |
| WorkMessage.ExtractFound | cmd/gpuminer/cuda/host.cpp:586-596 | text comes out only if all four scans succeed, and from there |
| WorkMessage.KindDecides | cmd/gpuminer/cuda/host.cpp:608-618 | whatever follows the type: "stop" alone stops, "ping" alone is a ping, and every type but these and "work" is ignored |
| WorkMessage.Untyped | cmd/gpuminer/cuda/host.cpp:577-584 | a line that names no type is ignored |
| WorkMessage.WorkLineErrors | cmd/gpuminer/cuda/host.cpp:619-641 | for any hex header and target: missing field iff one is empty, bad header iff odd or below 360 digits, bad target iff not 64 |
| WorkMessage.WorkLineRead | cmd/gpuminer/cuda/host.cpp:630-643 | otherwise the first 180 header bytes and the target are what the texts decode to |
| WorkMessage.LineRoundTrip | cmd/gpuminer/cuda/host.cpp:619-643 | any 180 header bytes and 32 target bytes written into a line are parsed back exactly |
| WorkMessage.WorkRoundTrip | cmd/gpuminer/miner.go:144-160 | the host receives the job's header with the sweep's number, read little endian, in bytes 148..155, and the share target as a number |
| GpuMiner.CreditIsSumOfMaxima | cmd/gpuminer/miner.go:641-655 | whatever messages arrive, each sweep is credited with the highest count among them |
| GpuMiner.FinishedSweep | cmd/gpuminer/miner.go:646-650 | a finished sweep counts its total even when progress lines are lost |
| GpuMiner.SubmittedIff | cmd/gpuminer/miner.go:651-658 | a share is submitted iff some solution message gives its nonce, its extra nonce 2 read little endian is the number of sweeps before it, and the header they give meets the share target |
| GpuMiner.HostAndMinerAgree | cmd/gpuminer/miner.go:673-691 | a nonce meets the target in the header the host was sent iff the rebuilt header is a share |
| GpuMiner.GpuMiner.OnSolution | cmd/gpuminer/miner.go:673-691 | submits the solution iff the rebuilt header is a share |
| GpuMiner.GpuMiner.MineJob | cmd/gpuminer/miner.go:617-665 | for any message sequence and any number of passes of the loop's top: messages consumed, hash count, submissions, and one work line per sweep begun, from which the host reads the job's header with the sweep's number |
| GpuMiner.ServedIs | cmd/gpuminer/miner.go:621-660 | the messages consumed are the shortest run of them that ends as many sweeps as the loop passes its top, or all |
| Throttle.BlockThrottle.Allow | internal/mining/throttle.go:44-54 | the counters after a call and whether it allows |
| Throttle.ClosedForm | internal/mining/throttle.go:39-54 | of n solved blocks the s submitted are n / N rounded up, n <= N s < n + N, and the rest are discarded |
| Throttle.WindowHasOne | internal/mining/throttle.go:41-43 | any N consecutive solved blocks contain exactly one submission |
| Registry.DecimalInjective | internal/mining/work.go:55-56 | different numbers give different job ids |
| Registry.WorkManager.SetCurrent | internal/mining/work.go:45-73 | the current work's own data changes nothing and is not clean; otherwise the new state, the returned work, and clean iff the reason is a new parent and the data has 192 bytes |
| Registry.SetCases | internal/mining/work.go:49-61 | what a call does to number and current work for repeated data, data of a wrong length and new data |
| Registry.HistoryGrows | internal/mining/work.go:49-72 | the history grows iff the data has 192 bytes and differs from the latest work's, and then by one work of that data |
| Registry.SetRepresents | internal/mining/work.go:45-73 | every call keeps the registry the newest maxJobs works of the full history, eviction included |
| Registry.LookupIff | internal/mining/work.go:82-88 | a job id finds a work iff that work is among the last maxJobs installed and has that id |
| Registry.OrderExact | internal/mining/work.go:62-70 | the order list has no repeats, is exactly the map's keys, and the current work is registered |
| Registry.NamesDistinct | internal/mining/work.go:55-56 | no job id is ever reused |
| Registry.RunRepresents | internal/mining/work.go:45-73 | any sequence of calls keeps the representation until the 64-bit counter wraps, and no work has the data of the one before it |
| Registry.RefreshDataIs | internal/stratum/server.go:186-191 | the refreshed copy's timestamp is the clock's if that is later than the old one and else the old one plus 1 modulo 2^32; every other byte stays |
| Registry.RefreshInstalls | internal/stratum/server.go:181-193 | an uninterrupted refresh is never swallowed as a duplicate: it installs that copy as a new job |
| Registry.ChainKeepsTemplate | internal/stratum/server.go:175-193 | over any chain of refreshes each installs one job and height, previous hash and bits stay |
| Registry.OldJobStaysValid | internal/mining/work.go:63-68 | the job current before a chain of refreshes is still known iff fewer than maxJobs followed |
| Pool.ReceiveBalanced | internal/stratum/client.go:208-221 | receiving a request keeps the books balanced |
| Pool.ProceedBalanced | internal/stratum/client.go:213-261 | so does every later step of a request, while no counter wraps |
| Pool.AssessedOnTemplate | internal/stratum/client.go:168-201 | a judged header is the template of the registered job the submission names with only the submitted fields and the connection's extra nonce 1 filled in |
| Pool.JudgedIff | internal/stratum/client.go:155-201 | which submissions are judged, in terms of the texts and the connection's worker name |
| Pool.RefusalCodes | internal/stratum/client.go:155-201 | which code each other one is refused with: 21 for too few parameters or bad fields, 24 for another worker, 22 for an unknown job |
| Pool.SubmitReply | internal/stratum/client.go:154-262 | over every continuation the next reply to a submission is the one it deserves: its refusal's code, 20 iff its header hashes above the share target, acceptance of a share, acceptance or 21 for a block |
| Pool.OtherReplies | internal/stratum/client.go:91-150 | the reply to every other kind of line with its code, and the worker name after it |
| Pool.WorkerWasAuthorized | internal/stratum/client.go:133-150 | in every run a connection's worker name, the only one its submissions are judged under, is empty or was accepted in an authorization of its own |
| Pool.StepInv | internal/stratum/client.go:154-262 | every action of any connection or the node keeps the invariant |
| Pool.ExecInv | internal/stratum/client.go:154-262 | the invariant holds in every reachable state |
| Pool.Conservation | internal/stratum/client.go:222-261 | node calls <= submitted <= found <= counted <= decided in every state; when nothing is in flight they agree, of b blocks the c calls are b / N rounded up, and shares = accepted shares + throttled blocks |
| Pool.OneReplyEach | internal/stratum/client.go:91-111 | replies answer the requests of every kind one each, in order; only the one in progress is open |
| Pool.TurnsFinish | internal/stratum/client.go:154-262 | seven turns finish a request however other actions fall between |
| Pool.NodeGetsSolvedBlocks | internal/stratum/client.go:238-243 | every text the node receives is a header meeting share and own block target that differs from an installed template in bytes 136..155 only, then twelve zero bytes |
| Pool.KnownJobs | internal/stratum/client.go:168-173 | in every reachable state a job id is known iff it names one of the last 1000 works |
| Pool.ConnectionNonce | internal/stratum/server.go:254-261 | in every reachable state the n-th connection's extra nonce 1 decodes to four bytes that are n modulo 2^32 read little endian |
| Pool.ConnectionsDiffer | internal/stratum/server.go:253-261 | two connections share an extra nonce 1 iff their numbers agree modulo 2^32 |
| Pool.MinerSubmissionIsJudgedAlike | internal/stratum/client.go:163-208 | in every reachable state that has the job, a miner's submission is judged on the header the miner hashed, accepted iff it is the miner's share, and with its whole verdict but for a negative block target |
| Pool.SplitRefreshKeepsTemplateIff | internal/stratum/server.go:182-191 | installing a rolled copy of the work read keeps the current template iff it is still the one read |
| Pool.StaleRefreshRollsBack | internal/stratum/server.go:182-191 | a template that arrives between the two accesses is replaced by the one it superseded |
| Pool.CurrentIsLatest | internal/stratum/server.go:175-210 | over every run in which templates arrive only while no refresh is between its two accesses, the current work is the node's latest template up to the timestamp |
| Pool.CurrentStaysIff | internal/stratum/server.go:181-210 | from any reachable state the current work keeps to a template until the next delivery, over every continuation, iff it and every refresh under way are of that template |
| Pool.RefreshIsReached | internal/stratum/client.go:228-235 | for every template and every throttling configuration under which it can be solved a run leads to a connection about to refresh it |
| Pool.RefreshCanUndoTemplate | internal/stratum/server.go:182-191 | under every such configuration, for every second template a run delivers the second last and ends on the first |
| Server.CompleteIsRun | internal/stratum/client.go:154-262 | a request handled without interruption is a run of the pool in which only that connection acts |
| Server.CompleteThrottled | internal/stratum/client.go:228-236 | the throttled branch: counted, discarded, recorded as a share, answered true, work refreshed |
| Server.CompleteSubmitted | internal/stratum/client.go:238-261 | the submitted branch: counted, one text sent, true if the node accepted it and 21 otherwise |
| Server.HandledReply | internal/stratum/client.go:91-262 | handling any line from start to end sends exactly one more reply, the one its kind and its assessment call for, with its code |
| Server.NonceCounter | internal/stratum/server.go:254-261 | the counter's n-th value is the n-th connection's extra nonce 1 |
| Server.PoolServer.NewClient | internal/stratum/client.go:38-49 | the connection made takes the counter's next value |
| Server.PoolServer.Decode | internal/stratum/client.go:155-208 | the parsing branches give exactly the specified outcome and error code |
| Server.PoolServer.HandleSubmit | internal/stratum/client.go:154-262 | the method's whole effect is the machine's uninterrupted run, and the one reply is the one the submission deserves: 20 above the share target, true only at or below it |
| Server.PoolServer.HandleAuthorize | internal/stratum/client.go:133-150 | the worker name changes iff a name and the right password are given, and the one reply says so |
| Server.PoolServer.HandleMessage | internal/stratum/client.go:91-111 | any line from a miner, malformed ones included, has the machine's effect and gets the right reply |
| Server.PoolServer.RefreshWork | internal/stratum/server.go:181-193 | no work: nothing happens; otherwise the new current work is the old with the clock's time, or one more than the old time if the clock is not past it |
| Server.PoolServer.ProcessWork | internal/stratum/server.go:196-200 | the current work's own data changes nothing; other data of 192 bytes becomes current; clean only then and for a new parent |
| EndToEnd.HostFindsWhatPoolAccepts | cmd/gpuminer/miner.go:626-657 | a nonce meets the target the host parsed from the miner's line iff the pool does not reject its submission, whatever the block target |
| EndToEnd.ReplyMeansVerdict | cmd/gpuminer/cuda/host.cpp:564-574 | the pool does not reject the nonce of a solution the host reports for the line, and after "searched" it would reject every non-zero nonce of it |

## Left out

- Network, JSON, reconnects, contexts, timers, logging and configuration: I/O; a request is its kind and its parameters, which are strings or a failure.
- Delivery of replies, and notifications, whether broadcast or sent on subscribing: replies are modelled when they are enqueued; a closing connection may drop them (internal/stratum/client.go:292-302).
- Connections stay in the model's list after they close; the server's client map only serves broadcasts.
- Display counters (blocks, accepted, rejected, hash rate) and `server.blockCount`: nothing depends on them.
- Abandoning a superseded job: `hashWorker` loads the job before the generation while `handleNotify` bumps the generation before it stores the job, so claims about `mineJob` are made for one run up to wherever it stops.
- A target of absolute value 2^256 or more, for which `FillBytes` panics: `BuildJob` requires targets below it.
- Share target from difficulty (internal/mining/difficulty.go:14-21): one division; the share target is a parameter shared by miner and pool.
- GPU memory model, device loading, buffers and kernel compilation: a launch is the step system on a result cell reset to 0, each word store one step. The OpenCL launch's 64-thread rounding is not modelled apart from CUDA's 256; 2^26 is a multiple of both.
- The result cell is kept as the 32-bit pattern the hosts read it back as, not as a signed int.
- The stop flag of the host is a load count after which it stays set; it is only cleared between two work messages.
- Which of several winners a launch reports: it depends on the schedule.
- Cryptographic strength of BLAKE3: only functional equality and invertibility are claimed.
- Runs of 2^64 or more actions, where a 64-bit counter could wrap.
