# Verified model of five parts of the OpenEthereum client

This project models five parts of the client that keep state, race or do arithmetic, and proves what they promise.

- **Auto-updater** (`UpdaterModel`, `UpdaterSafety`, `UpdaterContent`, `UpdaterFiles`, `UpdaterBackoff`,
  `UpdaterRetries`, `UpdaterPanic`, `UpdaterSteps`, `Updater`).
  The transitions are functions of the state and of everything read from outside: block numbers, clock readings,
  offers, random draws, results of file operations. A run is any sequence of polls, download callbacks (late,
  repeated, out of order) and manual upgrades. `Updater.Updater` is the object whose fields change in place, each
  method proved equal to its transition; the properties are proved over all runs. `UpdaterSteps` says what each event
  does, status by status, without the transition functions.
- **Ethash and ProgPoW** (`EthashSizes`, `EthashNodes`, `NodeCache`, `Hashimoto`, `KeccakF800`, `KeccakConstants`,
  `ProgpowPlan`, `ProgpowProgram`, `Progpow`, `SeedHash`, `LightSlots`, `LightSequences`, `CacheFiles`,
  `ManagerRuns`, `EthashManager`, `Difficulty`). The array code is proved equal to recursive definitions. These in turn
  are proved to be what the standards describe: bit by bit for words and for section 3.2 of FIPS 202 (`WordBits`,
  `KeccakBits`), word by word for appendix J of the Ethereum Yellow Paper (`EthashStandard`), and draw by draw,
  instruction by instruction and turn by turn for EIP-1057 (`ProgpowStandard`). Where a definition recurses, the lemma
  reads: whatever sequence of values meets the equations of the standard, it ends in what is defined. Keccak-256 and Keccak-512 are parameters. Results on single hashes hold
  for any hash functions. Results on cache files, which are named by seed hash, are for hash functions under which
  epochs of 64-bit block numbers with equal seed hashes have caches of equal size (`CacheFiles.SeedsTellSizes`).
  Words are numbers below 2^32 with explicit wrapping; casts and 64-bit sums wrap as they do in a release build.
- **Exit protocol** of the main function (`ExitProtocol`): an interleaving of any number of handler activations with
  the main thread, one atomic action at a time.
- **Phrase search** of brain wallets (`BrainRecover`, `BrainSearch`): the odometer over word lists, and the lists that
  are made from a partly known phrase.
- **Account unlocks** (`Accounts`), the two locks they take (`AccountLocks`), and the **signer's authorisation codes**
  (`AuthCodes`).

`Numerals`, `Arithmetic`, `Texts` and `Words` hold what these share: printing and parsing of numbers, powers of two and
division, splitting of text, and 32-bit words.

Some promises hold only under a condition. In these places the code is modelled as it is, and the exact condition
is proved:

- A file name holds version and commit hash but not the checksum. So "what is installed has the checksum of its
  release" holds over all runs if and only if the directory starts out right and eligible offers that share a name
  share a checksum (`UpdaterContent.ContentIffConsistent`).
- A panic of the random generator unwinds with `latest` already replaced. Callbacks that come after it stay with their
  own release if and only if no two different releases on offer would have to be downloaded
  (`UpdaterPanic.ItsOwnIffNotConfusable`). Content stays right if and only if, beyond the consistency above, any two
  releases that would have to be downloaded share a checksum (`UpdaterPanic.ContentAfterPanicsIff`). Both speak of runs
  in which every release block found lies in the interval that the updater searches.
- The backoff power is computed in 64 bits. It is the capped doubling if and only if fewer than 64 tries have failed
  (`UpdaterBackoff.BackoffDoublesIff`), and a run shows the bound to be sharp (`UpdaterRetries.RetryBoundIsSharp`).
- A light cache chosen by epoch alone has the right algorithm for every sequence of blocks if and only if no epoch
  asked for lies on both sides of the ProgPoW transition (`LightSlots.RightAlgorithmIffNoStraddle`). For blocks asked
  for in order it has, if and only if no such epoch skips the transition block (`LightSlots.InOrderRightIffNoSkip`).
  For one sequence in any order it has, if and only if every return to the transition's epoch on the other side is at
  the transition block, or comes after a later epoch or two different ones (`LightSequences.RightIffRenewed`).
- A cache file is resized before it is mapped, and accepted by its size. So lights equal fresh ones over all runs if
  and only if every build that resizes a file also maps it, or writes all its nodes, or removes it
  (`ManagerRuns.AlwaysFreshIffSound`).
- Converting a difficulty to a boundary and back is exact if and only if it is 1, 2^256 - 1, or leaves a remainder of
  2^256 smaller than the quotient (`Difficulty.RoundTripIff`).
- The number of phrase combinations is a 64-bit product. When it wraps to zero nothing is tried. It does if and only if
  two divides the size of the word list, counted once for every unknown word, 64 times or more
  (`BrainSearch.RecoverPhrase`, `BrainSearch.WrapsIff`).
- Unlocking and signing take two locks in opposite orders. Calls can deadlock if and only if secrets are kept and a
  permanent unlock meets a signature without a password (`AccountLocks.DeadlockIff`).
- A request is in its time window only while neither bound of the window wraps (`AuthCodes.WindowIff`).

All constants are those of the code. `dafny verify dfyconfig.toml` checks the
whole project.

## Model

| member | source | states |
|---|---|---|
| `UpdaterSafety.RunKeeps` | updater/src/updater.rs:431-682 | over every run: the held release is eligible with its own checksum, callbacks in flight were issued for eligible releases, the status follows the latest release, ready and installed files exist, and installs obey the filter |
| `UpdaterSafety.StepKeeps` | updater/src/updater.rs:509-614 | every activation of the step function, its recursion included, restores the run invariant, also after `latest` has just been replaced |
| `UpdaterSafety.AcceptedFetchIsItsOwn` | updater/src/updater.rs:431-442 | in every reachable state, a callback that passes both checks finds its own captured release being fetched, with the checksum it asked for |
| `UpdaterSafety.ReadyAndInstalledAreOnDisk` | updater/src/updater.rs:443-507 | in every reachable state a ready release has its file, and an installed one is also what `latest` names |
| `UpdaterSafety.NeverHoldsOldRelease` | updater/src/updater.rs:563-611 | no status ever holds an older version or the running hash, nor a checksum that is not the release's own |
| `UpdaterSafety.DisabledForever` | updater/src/updater.rs:528-531 | from any state, under any events, a disabled updater stays disabled and never touches files again |
| `UpdaterSafety.FilterDecidesInstalls` | updater/src/updater.rs:552-562 | without manual calls, nothing is ever installed under filter None and only critical releases under Critical |
| `UpdaterSafety.StepInstalls` | updater/src/updater.rs:552-562 | one activation of the step adds at most one installation, recorded as automatic |
| `UpdaterSafety.StepReadsTwice` | updater/src/updater.rs:509-614 | the step recurses at most once: two readings of the surroundings decide the outcome |
| `UpdaterSafety.StartBlockBounds` | updater/src/updater.rs:585-600 | the draw panics iff a release block is found and the delay range is empty; otherwise the start is below block + max_delay and before a fork that lies ahead |
| `UpdaterContent.ContentIffConsistent` | updater/src/updater.rs:406-408 | over all runs with offers from a set, ready and installed content matches its checksum iff files and offers are consistent |
| `UpdaterContent.RunKeepsClean` | updater/src/updater.rs:431-682 | consistency of directory and offers is kept by every run, and implies right content |
| `UpdaterContent.InconsistentRun` | updater/src/updater.rs:578-582 | every inconsistent set of offers has a run, built here, that ends with the wrong content |
| `UpdaterContent.RepublishedRelease` | updater/src/updater.rs:578-582 | a release published again under another checksum is taken as downloaded although its file is the old one |
| `UpdaterContent.AnnounceAndDeliver` | updater/src/updater.rs:443-464 | announcing an eligible release and delivering it stores its binary under its name and changes no other file |
| `UpdaterFiles.FileNameIdentifiesBuild` | updater/src/updater.rs:406-408 | two releases share a file name iff version numbers and commit hash agree; no name is `latest` |
| `UpdaterFiles.EveryFileHasItsDownload` | updater/src/updater.rs:431-479 | over every run, earlier files are untouched and every other file is the download of an attempt for a release of that name and checksum |
| `UpdaterBackoff.AttemptsSpaced` | updater/src/updater.rs:467-476 | under a monotone clock each attempt is a first one or the successor of the one before, numbered one higher and started after its backoff |
| `UpdaterBackoff.RetriesBackOff` | updater/src/updater.rs:536-550 | while one release is offered, attempt k + 1 has that number and starts no earlier than the first plus the sum of the capped doublings, for k below 64 |
| `UpdaterBackoff.BackoffDoublesIff` | updater/src/updater.rs:467-476 | the delay is the capped doubling iff the retry number is below 64 |
| `UpdaterRetries.RetryBoundIsSharp` | updater/src/updater.rs:467-476 | a run in which the first 64 attempts start exactly at the bound and attempt 65 starts together with attempt 64, so the bound below 64 cannot be dropped |
| `UpdaterPanic.ItsOwnIffNotConfusable` | updater/src/updater.rs:431-442 | over all runs that go on after panics and find release blocks only in the interval searched, accepted callbacks belong to the release being fetched iff no two different releases on offer would have to be downloaded |
| `UpdaterPanic.PanicConfuses` | updater/src/updater.rs:585-600 | offers of A, B and A, the third poll panicking as its step finds the head and the release block at the fork, leave A as the latest and B being fetched, and the callback for A is accepted |
| `UpdaterPanic.ConfusionSpoils` | updater/src/updater.rs:443-464 | that callback stores the binary of A under the name of B, and B counts as ready |
| `UpdaterPanic.ContentAfterPanicsIff` | updater/src/updater.rs:431-614 | over all such runs ready and installed content matches its checksum iff files and offers are consistent and any two releases that would have to be downloaded share a checksum |
| `UpdaterPanic.RunOnKeeps` | updater/src/updater.rs:431-682 | eligibility, files of ready and installed releases, and the filter survive panics over every run |
| `Updater.Updater.constructor` | updater/src/updater.rs:372-404 | a new updater is idle and then polls once; the run invariant holds from there |
| `Updater.Updater.ExecuteUpgradeWith` | updater/src/updater.rs:481-507 | in place: only a ready release is installed, `latest` then names its file, and a failed write disables |
| `Updater.Updater.HandleStatus` | updater/src/updater.rs:528-562 | the arms before the catch-all one, in place, equal to their transition, which `UpdaterSteps` describes arm by arm |
| `Updater.Updater.TriggerUpdate` | updater/src/updater.rs:563-611 | the catch-all arm in place, equal to its transition |
| `Updater.Updater.UpdaterStep` | updater/src/updater.rs:509-614 | the whole step in place, recursion terminating by rank |
| `Updater.Updater.Poll` | updater/src/updater.rs:616-682 | a poll in place: gates, capability, client disabling, then the step |
| `Updater.Updater.OnFetch` | updater/src/updater.rs:431-479 | a callback in place: ignored, backed off, disabled or delivered and stepped |
| `Updater.Updater.ManualUpgrade` | updater/src/updater.rs:707-710 | the service call, true iff something ready was installed |
| `Updater.Updater.Drive` | updater/src/updater.rs:431-710 | the object driven by any sequence of events ends in the state of that run, and keeps the run invariant |
| `UpdaterSteps.WaitingStep` | updater/src/updater.rs:538-545 | a step on a waiting release changes nothing while the head is below its block, and otherwise starts one attempt, numbered 1 |
| `UpdaterSteps.BackoffStep` | updater/src/updater.rs:536-550 | a step on a failed download changes nothing while the backoff lasts, and after it starts one attempt with the next number |
| `UpdaterSteps.SettledStep` | updater/src/updater.rs:529-535 | a step leaves a download in progress, an installed release and a disabled updater alone |
| `UpdaterSteps.ReadyStep` | updater/src/updater.rs:551-562 | a ready release is installed iff the filter is All, or Critical and it is critical; a failed write disables |
| `UpdaterSteps.NewReleaseStep` | updater/src/updater.rs:563-611 | a release that no other arm takes is ignored, ready, or waits for the head, or for its block and a draw below the smaller of delay and time to the fork; an empty range panics |
| `UpdaterSteps.VersionsAsNumbers` | updater/src/updater.rs:570-576 | versions compare as numbers whose digits are major, minor and patch, to any large enough base |
| `UpdaterSteps.PollGate` | updater/src/updater.rs:616-632 | a poll does nothing before the chain is synchronised or off its turn |
| `UpdaterSteps.PollIs` | updater/src/updater.rs:634-682 | a poll on its turn records an offer, judges the capability against the fork, disables the client if consensus is required, and steps |
| `UpdaterSteps.CallbackDropped` | updater/src/updater.rs:431-442 | a callback for anything but the latest, or with no download in progress, changes nothing |
| `UpdaterSteps.CallbackFailed` | updater/src/updater.rs:467-476 | a failed download backs off by two to the number of tries in seconds, modulo 2^64 and at most a day |
| `UpdaterSteps.CallbackDelivered` | updater/src/updater.rs:443-466 | a good download is stored under the release's name unless that is taken, and stepped as ready; a failed copy disables |
| `UpdaterSteps.ManualIs` | updater/src/updater.rs:481-507 | an operator's call installs what is ready whatever the filter says, and otherwise does nothing |
| `UpdaterSteps.NothingBeforeTheBlock` | updater/src/updater.rs:538-545 | over every run with that release on offer and every head below its block, no download is attempted |
| `UpdaterSteps.ClientDisabledIff` | updater/src/updater.rs:634-670 | over every run the client is disabled iff consensus is required and some poll before any panic was offered an unknown fork, no earlier than one block before it |
| `UpdaterFiles.FileNameIs` | updater/src/updater.rs:406-408 | the file name spelled out: version numbers with dots, a dash and forty digits |
| `UpdaterFiles.HexIs` | updater/src/updater.rs:406-408 | these digits are the hexadecimal ones of the commit hash, from the highest down |
| `Numerals.PrintIs` | updater/src/updater.rs:406-408 | a number is printed in its decimal digits without leading zeros |
| `ExitProtocol.RunKeeps` | parity/main.rs:227-342 | every schedule keeps the invariant on winner, lock owner, stored status and wakeups |
| `ExitProtocol.StoredOnce` | parity/main.rs:238-315 | in every interleaving the status is stored at most once, by the winner of the swap; it then has the fields of the winner's kind, and until then none is set |
| `ExitProtocol.ExitCodeIsTheWinners` | parity/main.rs:331-342 | after waiting, main ends with 69 for either restart, 1 for a panic and 0 for Ctrl-C, and the chain override is that of a winning restart on another chain and otherwise absent |
| `ExitProtocol.NobodyWaitsForShutdown` | parity/main.rs:234-236 | while main shuts down with the lock held, no handler is about to take that lock |
| `ExitProtocol.WinnerOrMainCanMove` | parity/main.rs:323-329 | no lost wakeup and no deadlock: once somebody has won, winner or main can always move |
| `ExitProtocol.BoundedActions` | parity/main.rs:227-342 | main and winner take at most eleven actions in any schedule |
| `ExitProtocol.ExitWithoutWaiting` | parity/main.rs:277-354 | a client that does not stay running ends main at once, with 0 if its command is done and with 1 if it failed, and leaves no chain override |
| `ExitProtocol.HandlersAreInstalled` | parity/main.rs:238-315 | restart handlers run only where restarting is allowed, the others only once the client runs |
| `WordBits.BitwiseIsBitByBit` | ethash/src/progpow.rs:211-225 | xor, and, or and not act on each of the 32 bits alone |
| `WordBits.RotateLeftBits` | ethash/src/progpow.rs:70-108 | a rotation to the left by n moves bit i to bit i + n modulo 32 |
| `WordBits.RotateRightUndoes` | ethash/src/progpow.rs:202-225 | a rotation to the right undoes it and moves bit i + n to bit i |
| `WordBits.SwapBytesBytes` | ethash/src/progpow.rs:130-134 | swapping bytes moves byte k to byte 3 - k |
| `WordBits.LeadingZerosIs` | ethash/src/progpow.rs:211-225 | a word has z leading zeros iff it is below 2^(32 - z) and, unless zero, not below half of that |
| `WordBits.CountOnesIs` | ethash/src/progpow.rs:211-225 | the count of ones is the number of bits set |
| `WordBits.WordArithmetic` | ethash/src/progpow.rs:211-225 | sums and products wrap, and high and low word together are the whole product |
| `EthashSizes.GetCacheSize` | ethash/src/shared.rs:48-56 | the search ends, never runs below zero, and returns the bytes of a prime number of nodes |
| `EthashSizes.GetDataSize` | ethash/src/shared.rs:58-66 | the same for pages of the dataset |
| `EthashSizes.SizesAreGreatestPrimes` | ethash/src/shared.rs:48-66 | the sizes are the greatest prime counts below the linear bound whenever 64 bits hold it, so for all epochs below 2^40 |
| `EthashSizes.DatasetIndexesFit` | ethash/src/compute.rs:301-317 | node indexes fit in 32 bits up to epoch 32640 and word indexes up to epoch 1920 |
| `EthashNodes.FnvInto` | ethash/src/compute.rs:301-322 | the word loop folds one node into another with FNV |
| `EthashNodes.XorInto` | ethash/src/cache.rs:303-345 | the word loop is the exclusive or of the nodes |
| `NodeCache.InitializeMemory` | ethash/src/cache.rs:303-345 | for every node count from one, all indexes are in range and the array ends as the recurrence of appendix J.3 |
| `NodeCache.NextNode` | ethash/src/cache.rs:326-344 | overwriting one node in place advances the recurrence by one node although later nodes still hold the round before |
| `Hashimoto.CalculateDagItem` | ethash/src/compute.rs:301-322 | the loop over 256 parents computes the defined dataset item |
| `Hashimoto.AccessInPlace` | ethash/src/compute.rs:229-251 | one access on the mix array equals its definition, the page being chosen before either half changes |
| `Hashimoto.CompressInPlace` | ethash/src/compute.rs:253-278 | the compressed mix goes behind the half mix, which stays as it is |
| `Hashimoto.HashCompute` | ethash/src/compute.rs:165-299 | the buffer code computes the defined proof of work and panics iff the size is unaligned |
| `Hashimoto.LightCompute` | ethash/src/compute.rs:160-163 | for every block the size is aligned and not empty, so the panic is never reached |
| `Hashimoto.PagesPositive` | ethash/src/compute.rs:220-224 | every epoch has pages also after the cast to 32 bits, and an aligned size |
| `Hashimoto.HashimotoIndexesExact` | ethash/src/compute.rs:220-244 | up to epoch 32640 no cast loses anything and every node asked for exists |
| `EthashStandard.FnvIs` | ethash/src/compute.rs:122-124 | FNV is the product with 0x01000193 modulo 2^32, xored bit by bit with the second word |
| `EthashStandard.NodesWordByWord` | ethash/src/compute.rs:301-322 | nodes are xored and folded word by word |
| `EthashStandard.CacheIsThirdGeneration` | ethash/src/cache.rs:303-345 | whatever three generations of nodes meet the equations of appendix J.3, from the chain of hashes on, the last one is the cache |
| `EthashStandard.DagItemIs` | ethash/src/compute.rs:301-322 | whatever 257 nodes meet the equations of appendix J.4, the hash of the last one is the dataset item |
| `EthashStandard.AccessWord` | ethash/src/compute.rs:229-251 | each word of the mix after an access is FNV of the word before and the word of the page chosen |
| `EthashStandard.HashimotoIs` | ethash/src/compute.rs:165-299 | whatever 65 mixes meet the equations of appendix J.5, value and mix hash are those made of the last one |
| `KeccakF800.Round` | ethash/src/progpow.rs:70-108 | the in-place round is iota after chi after pi after rho after theta, each of them proved bit by bit in `KeccakBits` |
| `KeccakBits.ThetaBits` | ethash/src/progpow.rs:71-82 | theta: each bit plus the column to its left and, one place lower, the column to its right |
| `KeccakBits.RhoBits` | ethash/src/progpow.rs:84-93 | rho: the lane at step t of the walk turns by (t + 1)(t + 2)/2 places, and the origin stays |
| `KeccakBits.WalkIs` | ethash/src/progpow.rs:60-68 | the walk starts at (1, 0) and goes from (x, y) to (y, 2x + 3y) |
| `KeccakBits.PiLanes` | ethash/src/progpow.rs:84-93 | pi: the lane at (x, y) goes to (y, 2x + 3y) |
| `KeccakBits.ChiBits` | ethash/src/progpow.rs:95-103 | chi: each bit plus the product of the next one's complement and the one after |
| `KeccakBits.IotaBits` | ethash/src/progpow.rs:105-107 | iota: the round constant is added to the lane at the origin |
| `KeccakBits.PermutationIs` | ethash/src/progpow.rs:110-128 | 22 rounds, each the five mappings in this order with its own constant |
| `KeccakBits.AbsorbedIs` | ethash/src/progpow.rs:110-128 | the state starts as header, nonce with its low word first, mix hash, and zeros |
| `KeccakBits.ShortHashBytes` | ethash/src/progpow.rs:130-134 | the seed has the first eight bytes of the sponge in order, from its highest byte down |
| `KeccakBits.LongHashIs` | ethash/src/progpow.rs:136-146 | the digest has the first eight words of the sponge |
| `KeccakF800.ThetaInPlace` | ethash/src/progpow.rs:71-82 | the column loop is theta |
| `KeccakF800.RhoPiInPlace` | ethash/src/progpow.rs:84-93 | the single-temporary loop through the lane table is pi after rho |
| `KeccakF800.ChiInPlace` | ethash/src/progpow.rs:95-103 | the row loop is chi |
| `KeccakF800.TableWalk` | ethash/src/progpow.rs:65-68 | the lane table is the walk (x, y) to (y, 2x + 3y) |
| `KeccakF800.TableOffsets` | ethash/src/progpow.rs:60-63 | the rotation table agrees with the offsets of the walk modulo the lane width of 32 |
| `KeccakF800.WalkOffsetTriangular` | ethash/src/progpow.rs:60-63 | these offsets are the triangular numbers (t + 1)(t + 2)/2 |
| `KeccakF800.StepOfVisits` | ethash/src/progpow.rs:65-68 | the walk reaches every lane but the origin |
| `KeccakF800.PiUndoesTheWalk` | ethash/src/progpow.rs:84-93 | pi takes each lane of the walk back to the one before it, which is why one temporary is enough |
| `KeccakConstants.TableIsTheRegisters` | ethash/src/progpow.rs:53-58 | each of the 24 round constants is the word that the shift register of the standard defines |
| `KeccakF800.Sponged` | ethash/src/progpow.rs:110-128 | absorbing into a fresh state and running the rounds in place |
| `KeccakF800.KeccakShort` | ethash/src/progpow.rs:130-134 | the 64-bit seed is made of the first two words, byte-swapped |
| `KeccakF800.KeccakLong` | ethash/src/progpow.rs:136-146 | the digest is the first eight words |
| `ProgpowPlan.Kiss99.NextU32` | ethash/src/progpow.rs:167-178 | the generator steps in place as the defined sequence |
| `ProgpowPlan.ProgpowInit` | ethash/src/progpow.rs:227-255 | the in-place shuffles of both arrays, from one generator, equal the defined plan |
| `ProgpowPlan.ShufflesArePermutations` | ethash/src/progpow.rs:227-255 | for every seed both sequences are permutations of the 32 registers |
| `ProgpowPlan.PermutationIsBijection` | ethash/src/progpow.rs:227-255 | each register occurs exactly once in such a sequence |
| `ProgpowProgram.ProgramCoversRegisters` | ethash/src/progpow.rs:285-346 | for every period the merges of the destination sequence hit each register exactly once, the eleven cached reads use different registers, and math sources differ |
| `ProgpowProgram.SourcesDiffer` | ethash/src/progpow.rs:314-328 | for every draw the two math sources are registers and differ |
| `Progpow.LanesShareTheItem` | ethash/src/progpow.rs:331-345 | in every turn the sixteen lanes read each of the 64 words of the item exactly once |
| `Progpow.RunLane` | ethash/src/progpow.rs:285-346 | a lane with its two running counters executes exactly the program of the period |
| `Progpow.ProgpowLoop` | ethash/src/progpow.rs:259-347 | one turn over all lanes in place equals the defined turn, so all lanes run the same program |
| `Progpow.FillMix` | ethash/src/progpow.rs:180-198 | the registers a lane starts with |
| `Progpow.Reduce` | ethash/src/progpow.rs:387-401 | lanes are reduced to words, and lanes eight apart to one word of the digest |
| `Progpow.ComputeProgpow` | ethash/src/progpow.rs:349-406 | the whole hash equals its definition, with never an empty dataset |
| `ProgpowStandard.Fnv1aIs` | ethash/src/progpow.rs:148-151 | FNV-1a is the product of the xor and the prime modulo 2^32 |
| `ProgpowStandard.KissNumbers` | ethash/src/progpow.rs:167-178 | two of the generators multiply with carry and never wrap, the fourth is linear congruential |
| `ProgpowStandard.KissShifts` | ethash/src/progpow.rs:167-178 | the third generator xors its state, bit by bit, with itself moved 17 places up, 13 down and 5 up |
| `ProgpowStandard.OutputIs` | ethash/src/progpow.rs:167-178 | the number drawn from the four generators |
| `ProgpowStandard.MathNumbers` | ethash/src/progpow.rs:211-225 | random math 0 to 3: sum, low and high product, minimum |
| `ProgpowStandard.MathBits` | ethash/src/progpow.rs:211-225 | random math 4 to 8, bit by bit: rotations, and, or, xor |
| `ProgpowStandard.MathCounts` | ethash/src/progpow.rs:211-225 | random math 9 and 10: leading zeros and ones of both operands |
| `ProgpowStandard.MergeIs` | ethash/src/progpow.rs:202-209 | the four merges: by sum and product as numbers, by rotation bit by bit |
| `ProgpowStandard.MergeKeepsEntropy` | ethash/src/progpow.rs:200-209 | for the same data and draw no merge maps two register values to one |
| `ProgpowStandard.PlanIs` | ethash/src/progpow.rs:227-255 | whatever draws and sequences meet the equations of the two shuffles, they end in the plan |
| `ProgpowStandard.FilledIs` | ethash/src/progpow.rs:180-198 | the registers of a lane are 32 draws of the generator seeded with seed and lane |
| `ProgpowStandard.SourcesAreEveryPair` | ethash/src/progpow.rs:314-328 | every ordered pair of different registers comes from exactly one of the 992 remainders |
| `ProgpowStandard.ProgramIs` | ethash/src/progpow.rs:285-346 | the program instruction by instruction: kind, registers and the numbers drawn, in order |
| `ProgpowStandard.ExecIs` | ethash/src/progpow.rs:285-346 | an instruction merges what it reads or computes into its destination and changes nothing else |
| `ProgpowStandard.ExecutionIs` | ethash/src/progpow.rs:285-346 | executing code is executing its instructions one after the other |
| `ProgpowStandard.TurnIs` | ethash/src/progpow.rs:259-347 | a turn: the item chosen by register zero of lane turn modulo 16, its 64 words, and the four words of each lane at lane xor turn |
| `ProgpowStandard.FinalMixIs` | ethash/src/progpow.rs:349-385 | 64 turns from the filled lanes, with the program of the block number divided by ten |
| `ProgpowStandard.UnitsAre` | ethash/src/progpow.rs:349-385 | an item number counts units of 256 bytes, which are two pages |
| `ProgpowStandard.DigestIs` | ethash/src/progpow.rs:387-401 | FNV-1a over the registers of a lane, then over lanes i and i + 8 |
| `ProgpowStandard.ProgpowIs` | ethash/src/progpow.rs:349-406 | short hash, lanes, turns, digest and long hash put together |
| `ProgpowStandard.CDagIs` | ethash/src/progpow.rs:408-419 | the cached part is the first 4096 words of the dataset |
| `Progpow.GenerateCDag` | ethash/src/progpow.rs:408-419 | the cached part holds the first dataset nodes word by word |
| `Progpow.QuickGetDifficulty` | ethash/src/compute.rs:132-154 | the quick check of either algorithm |
| `Progpow.QuickCheckAgrees` | ethash/src/compute.rs:132-154 | on the mix hash of the full computation the quick check gives exactly its value, for both algorithms |
| `Progpow.ProgpowIndexesExact` | ethash/src/progpow.rs:267-280 | up to epoch 1920 the cast is exact and inside the dataset; it is exact for all items iff there are at most 2^26 units |
| `SeedHash.ResumeSeedHash` | ethash/src/seed_compute.rs:59-64 | hashing on from one epoch to a later one is the iterated hash, and to an earlier one changes nothing |
| `SeedHash.SeedHashCompute.HashEpoch` | ethash/src/seed_compute.rs:41-56 | whatever was asked before, the memo answers with keccak iterated epoch times |
| `SeedHash.SeedIs` | ethash/src/seed_compute.rs:41-64 | whatever chain of hashes starts at 32 zero bytes, its last one is the seed of the epoch of that number |
| `LightSlots.AnswerIs` | ethash/src/compute.rs:54-93 | the answer for a block: ProgPoW from the transition on and Hashimoto below it, for the block's epoch |
| `LightSlots.FreshAnswers` | ethash/src/compute.rs:54-93 | a light built for the block from nothing gives that answer |
| `LightSlots.ServeKeeps` | ethash/src/lib.rs:113-171 | lookup, swap and replacement keep both slots equal to fresh lights of their epochs |
| `LightSlots.ServedLikeFresh` | ethash/src/lib.rs:113-171 | for blocks in any order, if no epoch straddles the transition, the serving light computes ProgPoW from the transition on and Hashimoto below it, over the cache and the first dataset words of the block's own epoch |
| `LightSlots.RightAlgorithmIffNoStraddle` | ethash/src/lib.rs:116-142 | every block of every sequence gets the right algorithm iff no epoch asked for straddles the transition |
| `LightSlots.InOrderRightIffNoSkip` | ethash/src/lib.rs:116-119 | for blocks in order, all get the right algorithm iff no epoch is asked for on both sides with the transition block skipped |
| `LightSequences.RightIffRenewed` | ethash/src/lib.rs:116-168 | for one sequence in any order, all get the right algorithm iff every return to the transition's epoch on the other side is at the transition block, or comes after a later epoch or two different ones |
| `LightSequences.ServedAgain` | ethash/src/lib.rs:116-168 | the light for a block of that epoch is the one that last served the epoch, unless it was given up in between or a rebuild is forced |
| `LightSlots.SameSideSameResult` | ethash/src/compute.rs:77-93 | two lights of one epoch on one side of the transition compute the same |
| `CacheFiles.BuildKeepsDiskIff` | ethash/src/cache.rs:161-191 | building and flushing keep every right directory right iff a resized file is mapped, rewritten as a whole or removed |
| `CacheFiles.SoundBuildKeepsDisk` | ethash/src/cache.rs:161-191 | a sound build keeps a right directory right, whatever else fails |
| `CacheFiles.UnsoundBuildIsWrong` | ethash/src/cache.rs:176-191 | an unsound build leaves a file of the expected size with other nodes |
| `CacheFiles.OverwriteKeepsDisk` | ethash/src/cache.rs:210-231 | a file overwritten up to any node never looks like a good file with wrong nodes, if no resize came before |
| `CacheFiles.ReadingIs` | ethash/src/cache.rs:99-126 | what reading a file finds and leaves, case by case |
| `CacheFiles.BuildIs` | ethash/src/cache.rs:161-191 | what building and flushing leave in the directory, case by case of what fails |
| `ManagerRuns.CallRight` | ethash/src/lib.rs:113-171 | on a right manager a call uses a light equal to a fresh one, and leaves a right manager if its build is sound |
| `ManagerRuns.AlwaysFreshIffSound` | ethash/src/lib.rs:113-171 | over all runs of calls and restarts from all right directories, every light equals a fresh one iff every build is sound |
| `ManagerRuns.ComputesLikeFresh` | ethash/src/lib.rs:113-171 | after any run of sound calls and restarts without a straddling epoch, a call computes for every header and nonce ProgPoW from the transition on and Hashimoto below it, over the cache of the block's epoch |
| `ManagerRuns.FailedMappingServesWrong` | ethash/src/cache.rs:46-56 | from an empty directory, blocks of epochs e, e + 1, e with a failed mapping and an incomplete write end in a light with other nodes |
| `EthashManager.EthashManager.constructor` | ethash/src/lib.rs:94-106 | a manager starts with empty slots over the files it finds |
| `EthashManager.EthashManager.CacheFromFile` | ethash/src/cache.rs:99-126 | opening may create the file, and a file is taken iff it can be read and has the expected size |
| `EthashManager.EthashManager.NewCache` | ethash/src/cache.rs:128-153 | the nodes are those of the epoch, and the file is opened, resized and mapped in this order |
| `EthashManager.EthashManager.Flush` | ethash/src/cache.rs:161-173 | the file of two epochs before goes, and nodes in memory are written over the file, whole or in part |
| `EthashManager.EthashManager.LoadOrBuild` | ethash/src/lib.rs:144-168 | the light is over the nodes found or built, and the files change accordingly |
| `EthashManager.EthashManager.LookupLight` | ethash/src/lib.rs:116-142 | the four slot fields change in place as the lookup says |
| `EthashManager.EthashManager.Compute` | ethash/src/compute.rs:77-93 | a light computes with the algorithm it was built with, ProgPoW for the block asked for and Hashimoto for the block it was built for |
| `EthashManager.EthashManager.ComputeLight` | ethash/src/lib.rs:113-171 | slots and files move as in the runs; on a right manager without a straddling epoch the result is ProgPoW from the transition on and Hashimoto below it, over the cache of the block's epoch, and a sound build leaves the manager right |
| `EthashManager.EthashManager.Drive` | ethash/src/lib.rs:113-171 | the object driven by any sequence of calls runs as the model does, and under these conditions every result is the hash of its block in that sense |
| `Difficulty.ConversionFits` | ethash/src/lib.rs:184-195 | the conversion fails on zero alone and its result always fits in 256 bits |
| `Difficulty.ConversionIsQuotient` | ethash/src/lib.rs:184-195 | the result is the largest number whose product with the difficulty does not exceed 2^256, and for one 2^256 - 1 |
| `Difficulty.BoundaryIffDifficulty` | ethash/src/lib.rs:175-195 | a hash is within the boundary of a difficulty iff the difficulty of the hash reaches it |
| `Difficulty.ConversionAntitone` | ethash/src/lib.rs:184-195 | a larger difficulty never has a larger boundary |
| `Difficulty.ThriceIsOnce` | ethash/src/lib.rs:175-195 | converting three times is converting once |
| `Difficulty.RoundTripIff` | ethash/src/lib.rs:175-195 | the round trip is exact iff the difficulty is 1, 2^256 - 1 or has a remainder below its quotient |
| `Difficulty.SmallDifficultiesExact` | ethash/src/lib.rs:175-195 | every difficulty up to 2^128 is exact |
| `Difficulty.LargeDifficultiesInexact` | ethash/src/lib.rs:175-195 | no difficulty between half of 2^256 and 2^256 - 1, such as 2^255 + 1, survives the round trip |
| `BrainRecover.EveryCombinationOnce` | accounts/ethkey/src/brain_recover.rs:93-147 | numbers below the product and combinations correspond one to one, in lexicographic order |
| `BrainRecover.SuccCounts` | accounts/ethkey/src/brain_recover.rs:119-132 | stepping the odometer adds one to its number, or returns to zero and says so |
| `BrainRecover.PhrasesIterator.constructor` | accounts/ethkey/src/brain_recover.rs:93-104 | the iterator starts at the first combination, or at the end if the 64-bit product is zero |
| `BrainRecover.PhrasesIterator.Current` | accounts/ethkey/src/brain_recover.rs:110-117 | the words at the indexes joined by blanks |
| `BrainRecover.PhrasesIterator.NextIndex` | accounts/ethkey/src/brain_recover.rs:119-132 | the in-place carry loop is the odometer step, for any word lists |
| `BrainRecover.PhrasesIterator.Next` | accounts/ethkey/src/brain_recover.rs:138-146 | the k-th call yields the phrase with the mixed-radix digits of k, and after the last one nothing for ever |
| `BrainRecover.Recover` | accounts/ethkey/src/brain_recover.rs:34-43 | over given word lists the first matching phrase is returned; none is iff no combination matches or the 64-bit product is zero |
| `BrainSearch.SubstitutionsSorted` | accounts/ethkey/src/brain_recover.rs:46-55 | substitutions are the whole word list in stable order of distance |
| `BrainSearch.FromKnownPhrase` | accounts/ethkey/src/brain_recover.rs:66-91 | known words stay alone, unknown and missing ones get the whole list |
| `BrainSearch.RecoverPhrase` | accounts/ethkey/src/brain_recover.rs:29-44 | what is found keeps the known words and has the address; nothing is found iff no such phrase has it or the number of phrases wraps |
| `BrainSearch.JoinIs` | accounts/ethkey/src/brain_recover.rs:110-117 | a phrase is its words in order with one blank in between |
| `BrainSearch.PhraseIs` | accounts/ethkey/src/brain_recover.rs:110-117 | so is the phrase the iterator makes of an index |
| `BrainSearch.ListsWrapIff` | accounts/ethkey/src/brain_recover.rs:93-104 | the lists of a phrase wrap iff unknown words times the twos in the list size reach 64 |
| `BrainSearch.WrapsIff` | accounts/ethkey/src/brain_recover.rs:93-104 | any lists wrap iff none is empty and two divides their sizes 64 times in all |
| `BrainSearch.EvenListsWrap` | accounts/ethkey/src/brain_recover.rs:93-104 | 64 lists or more of even sizes wrap |
| `Accounts.RunFacts` | accounts/src/lib.rs:277-318 | over every run, cached secrets belong exactly to permanent unlocks if kept and to none otherwise, and draws from one-time unlocks never exceed those granted |
| `Accounts.PermanentStays` | accounts/src/lib.rs:277-303 | no later operation revokes a permanent unlock or changes its password |
| `Accounts.ExpiredNeverOpens` | accounts/src/lib.rs:305-318 | after any run an expired timed unlock fails and leaves the account locked |
| `Accounts.RefusedUnlock` | accounts/src/lib.rs:277-303 | an unlock that the store refuses changes nothing and fails, unless the account is unlocked permanently already |
| `Accounts.ConfirmedUnlock` | accounts/src/lib.rs:277-303 | a confirmed one records kind and password, and the secret iff it is permanent and secrets are kept; no other account changes |
| `Accounts.RepeatedUnlock` | accounts/src/lib.rs:277-303 | an account unlocked permanently stays as it is, and the call succeeds |
| `Accounts.DrawnPassword` | accounts/src/lib.rs:305-318 | the password drawn is the recorded one, iff the account is unlocked and not expired, and only one-time and expired entries go |
| `Accounts.UseOrder` | accounts/src/lib.rs:353-364 | a signature uses the cached secret, else the given password, else the recorded one |
| `Accounts.EntriesAreConfirmed` | accounts/src/lib.rs:277-318 | over every run an entry has kind, password and secret of the last call that the store confirmed for the account |
| `Accounts.AccountProvider.UnlockAccount` | accounts/src/lib.rs:277-303 | both maps change in place as specified, permanent entries first; `RefusedUnlock` and `ConfirmedUnlock` say what that is |
| `Accounts.AccountProvider.PasswordOf` | accounts/src/lib.rs:305-318 | one-time entries are consumed, expired ones removed |
| `Accounts.AccountProvider.Use` | accounts/src/lib.rs:353-364 | a signature takes a cached secret before a password, and any other use takes a password |
| `Accounts.AccountProvider.Drive` | accounts/src/lib.rs:277-364 | the object driven by any sequence of calls ends in the state of that run, and keeps the invariant |
| `Accounts.AccountProvider.IsUnlocked` | accounts/src/lib.rs:336-342 | looking in both maps is looking in the map of unlocks |
| `Accounts.AccountProvider.IsUnlockedPermanently` | accounts/src/lib.rs:345-350 | true iff unlocked permanently, and where secrets are kept iff one is cached |
| `AccountLocks.RunKeeps` | accounts/src/lib.rs:277-364 | in every interleaving writers of either lock are alone, and second locks are taken only by the calls that need them |
| `AccountLocks.SomeoneMoves` | accounts/src/lib.rs:277-364 | short of that deadlock, whenever a call has not returned some call can go on, with fair locks or not |
| `AccountLocks.LockedForever` | accounts/src/lib.rs:353-364 | an unlock and a signature that wait for each other never go on, whatever is scheduled |
| `AccountLocks.BlockedIff` | accounts/src/lib.rs:277-364 | a call gets its next lock iff no other call holds it in the way, or under fair locks waits to write where it wants to read |
| `AccountLocks.AfterFirstIs` | accounts/src/lib.rs:277-364 | which calls go on to the second lock, and what they have recorded by then |
| `AccountLocks.AfterSecondIs` | accounts/src/lib.rs:277-364 | an unlock caches the secret under both locks and records the entry after giving the second back |
| `AccountLocks.DeadlockIff` | accounts/src/lib.rs:277-364 | calls from a set can deadlock iff secrets are kept and it has a permanent unlock and a signature without a password |
| `AuthCodes.LineIs` | rpc/src/authcodes.rs:127-137 | a line has token, creation time and, if any, last use between semicolons |
| `AuthCodes.TextIs` | rpc/src/authcodes.rs:127-137 | the file has one line for every code in order |
| `AuthCodes.ParsedLineIs` | rpc/src/authcodes.rs:83-120 | a line with a token under 16 bytes gives nothing, and an unreadable creation time becomes the current one |
| `AuthCodes.FileIs` | rpc/src/authcodes.rs:83-120 | for any contents, a further line adds its code behind the others, without a carriage return at its end |
| `Numerals.ParseIs` | rpc/src/authcodes.rs:83-120 | a number is read iff it is digits, with a plus at most, and below 2^64; its value is that of the digits |
| `AuthCodes.RoundTripIff` | rpc/src/authcodes.rs:83-137 | writing and reading gives back codes, times and order iff every token is well-formed, and always for codes read from a file |
| `AuthCodes.AnyFileReadsWellFormed` | rpc/src/authcodes.rs:83-120 | whatever a file contains, the codes read from it are well-formed |
| `AuthCodes.WindowIff` | rpc/src/authcodes.rs:153-160 | a request is in time iff within seven seconds and neither bound wraps |
| `AuthCodes.AuthCodes.FromFile` | rpc/src/authcodes.rs:83-120 | fails iff the file is not text, takes a file that cannot be opened for an empty one, and otherwise holds the well-formed codes of its lines |
| `AuthCodes.AuthCodes.IsValid` | rpc/src/authcodes.rs:153-172 | true iff in time and some code yields the hash; the first such code, and no other, is marked as used now |
| `AuthCodes.AuthCodes.GenerateNew` | rpc/src/authcodes.rs:175-190 | a new unused code is appended and shown with dashes |
| `AuthCodes.AuthCodes.ClearGarbage` | rpc/src/authcodes.rs:198-210 | exactly the never used codes that are too old go, in order |
| `AuthCodes.ReadableIs` | rpc/src/authcodes.rs:175-190 | a code is shown as its sixteen characters with a dash after every fourth |
| `AuthCodes.SurvivorsAre` | rpc/src/authcodes.rs:198-210 | a code survives iff it has been used, or was created after time zero and within the last 86400 seconds |
| `AuthCodes.ClearingKeepsOrder` | rpc/src/authcodes.rs:198-210 | the survivors keep their order and number |
| `AuthCodes.ValidationIs` | rpc/src/authcodes.rs:153-172 | within seven seconds the first matching code gets the time as its last use; its token, its creation time and all other codes stay |
| `AuthCodes.KeptFacts` | rpc/src/authcodes.rs:198-210 | a code survives the clearing iff it is not garbage |
| `AuthCodes.UsedCodesStay` | rpc/src/authcodes.rs:153-210 | over every run, saving and loading included, codes stay well-formed and a used code is never lost |
| `AuthCodes.ValidationUses` | rpc/src/authcodes.rs:153-172 | a successful validation marks its code as used |

## Left out

- Keccak-256 and Keccak-512 internals, secp256k1 and address derivation, the word list and the edit distance: parameters of the model.
- Random generators: draws are inputs. A draw from an empty range panics.
- `OperationsContractClient`: contract calls and log filters; what it answers is an input of each event.
- Files: directories are finite maps, nodes are written whole, and nobody else changes a directory. Mapped files are not aliased, crashes and hex encoding of cache paths are not modelled.
- Updater: the block notification that starts a poll, log output, and the exit handler called after an upgrade.
- Updater: retry counts are unbounded numbers. Overflow of the 32-bit counter is not modelled.
- UpdaterContent.ContentIffConsistent: speaks of runs up to a panic of the random generator, because what a panic changes is the subject of `UpdaterPanic.ContentAfterPanicsIff`. So do the results of `UpdaterSafety`, `UpdaterFiles` and `UpdaterBackoff`.
- Liveness of a download: a callback is dropped when any part of `latest` has changed, so a fetch need not resolve.
- Main function: the daemon handle, the hypervisor loop and the panic text. The condition variable has no spurious wakeups, as its library promises.
- ManagerRuns.AlwaysFreshIffSound: rests on epochs of block numbers with equal seed hashes having caches of equal size (`SeedsTellSizes`), because files are named by seed hash and a collision would confuse them; and speaks of directories that start right, because the code checks nothing but sizes.
- BrainRecover.Recover: an empty list of lists, on which the code panics, is excluded; lists made from a phrase are never empty.
- Accounts: calls are modelled one at a time there, and only their locks as steps in `AccountLocks`. The secret store behind them, tokens (`sign_with_token`, `decrypt_with_token`) and vaults are left out.
- AuthCodes.AuthCodes.FromFile: decoding of UTF-8 is not modelled, and a line loses one carriage return at its end.
- Command line, configuration, RPC set-up, informant, snapshots, exports, block building and gas price code: plumbing around the modelled parts.
