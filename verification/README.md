# Calisto: a model of its hashes, its daemon, its wire format and its bundler

This project models, in Dafny 4.11, the parts of Calisto where an efficient or
stateful piece of code stands for something simple, and proves that it does.
`dafny verify dfyconfig.toml` checks all of it.

* **SHA-256** (`Sha256*.dfy`, `WordBits`). `Sha256Spec` is FIPS 180-4, and
  `Sha256Laws` says what its constants and functions are without their code: parts
  of roots of primes, parities of bits, two sequences of words. The scalar
  compression and the SHA-NI compression (its registers as four 32-bit lanes,
  each intrinsic with its meaning in the Intel SDM, volume 2) are methods that
  both leave the standard's next hash value; both whole hashes return the
  standard's digest of every input.
* **BLAKE3** (`Blake3*.dfy`). `Blake3Spec` is the tree of the BLAKE3
  specification, sections 2.1 and 2.4 to 2.6. The chunk loop with its stack of
  chaining values, merged by the trailing zeros of the chunk number and folded
  at the end, returns the root of that tree, and never pops an empty stack. The
  combinatorics is done on trees (`Blake3Tree`), without any compression; the
  compression's own tables and flags are in `Blake3Laws`.
* **xxHash64** (`Longs.dfy`, `XxHash*.dfy`). 64-bit words with wrapping
  arithmetic, and the inverses of the hash's steps. From these: inputs that
  differ in one unit of the tail never collide, an 8-byte tail unit and the hash
  are in bijection, and below 32 bytes so are the seed and the hash.
  `XxHashReference` is the hash as its specification words it, proved equal.
* **The daemon** (`Daemon*.dfy`). `DaemonSpec` is a step machine whose ticks
  carry every answer of the operating system; `Daemon.Server` edits its vector
  of clients in place and refines it. The safety lemmas hold over every run, and
  `DaemonTalk` says what every connection is told.
* **The wire format** (`Text`, `Decimal`, `Wire*`, `RunFlags`, `RunRequest`,
  `Formats`). The writer, the daemon's buffered reader over whatever the socket
  delivers, the environment blob, the flags, and all of it undone in the child.
* **Base64** (`Base64*.dfy`, `WireBase64`, `BundleBase64`). One specification by
  regrouping bits, three encoders and five decoders against it.
* **The bundler and its loader** (`Bundle*.dfy`, `Bundler`, `Loader*`). The
  breadth-first collection, the tables it writes, what `require` finds in them at
  run time, and the re-entrant loader on any graph.
* **Two small pieces**: the unchecked decimal parser (`ParseInt`) and the
  parallel dispatch of test files under every interleaving (`TestRun*`).

Imperative code is modelled by methods and classes with loops, each proved to
compute a specification function; the lemmas are about those functions.
Connections are named by accept order, since descriptor numbers are reused.

## Where the code does not do what is expected of it

Each of these is the code's behaviour, kept as it is, with the exact condition
and an input that shows it.

* The comment above the accept loop (src/daemon.rs:488-490) says a new
  connection waits for the next tick. After a removal the stale poll results are
  looked up one client further on, so it may be served at once. It is, exactly
  when no STOP ahead of it is heard, fewer clients stay ahead of it than were
  polled, and the poll result of that number is ready
  (`DaemonPasses.NewConnectionRead`, with `StaysExactly` for who stays);
  `NewConnectionMayNotWait` is an instance.
* The request reader takes a length line off its buffer before it knows that the
  data is there, and the head line before it knows that the fields are. A request
  comes back exactly if and only if no delivery begins inside a field's data or
  right after its length line, and no pause lies between the end of the head line
  and the end of the command (`WireCuts.DeliveredExactly`, for any deliveries over
  any number of calls; `PiecesReadExactly` and `PauseReadExactly` are its cases).
* A receive takes at most 65,536 bytes, so a long request is cut even when all of
  it is waiting: then it is read exactly if and only if no multiple of 65,536
  falls into a field's data, and byte 65,536 in one is enough to lose it
  (`WireCuts.WaitingReadExactly`). A field of 65,536 bytes or more is lost
  however it is sent (`LongFieldIsLost`), and so is a request whose environment
  takes 49,150 bytes or more (`RunRequest.LongTextIsLost`).
* The reader reserves room for all the fields a head line announces, and panics
  when that is more than a vector can hold: `WireLaws.HugeCountPanics`.
* The comment in `client_fill` (src/protocol.rs:259) speaks of 0 bytes as the end
  of the connection; a receive of 0 bytes is that exactly when it is not the
  first one (`WireLaws.ZeroBytesExactly`). It does no harm, since the same call
  receives again: `EndIsReported`.
* `b64_decode` indexes past its input on some malformed text, which ends the
  daemon: `WireBase64.OutOfRangeExactly`, and the field "AA" in
  `ShortFieldRunsPastEnd`.
* A client with default flags sends no `CALISTO_RUN_FLAGS`, so the child uses one
  the client inherited. Default flags stay default exactly when none of the
  segments of the inherited value means anything:
  `RunRequest.DefaultFlagsExactly`, and `InheritedFlagsLeak` for the value `w`.
* A verbosity outside -1 to 2, and a text with the separator, do not survive the
  flags' text form: `RunFlags.BlobRoundTripExactly`, and verbosity 5 in
  `VerbosityLost`. The doc comment there names `\x1e` as the separator; the code
  joins with `\x1f`, and so does the model.
* `require_relative` of an embedded file is looked up by the expanded name plus
  `.rb`, the analysis expands the name with `.rb`; they agree exactly under
  `BundleIndex.StaticRelativeAgreesExactly`. Expansion and the extension commute
  unless the name ends in a slash or in a dot component, so only files called
  `.rb`, `..rb` or `...rb` are affected, names a Ruby program has no reason to
  use (`BundleLayout.DotFileMissed` has one).
* `require_relative` at run time looks only among the embedded files
  (crates/calisto-build/src/build.rb:458-465), so a compiled file of a gem that a
  static `require_relative` reaches is carried and yet never found that way:
  `BundleIndex.StaticRelativeMissesCompiled`.
* A `require` the analysis leaves to the interpreter is still taken by the bundle
  when a compiled file has that canonical name
  (`BundleIndex.LeftRequireExactly`). With the load path as the script builds it
  that never happens to a name the analysis could not resolve
  (`BundleLayout.UnresolvedIsDelegated`), and to a plain name it resolved only
  where a gem has a file of exactly that name that is not Ruby code
  (`TakenIsGemAsset`, with `AssetIsTaken` as an instance).
* `load_file` enters LOADING before it preloads the autoload targets, outside the
  `begin` and `ensure` that guard the body, so an error other than NameError
  raised there, say by a delegated require that is not found, leaves the file in
  LOADING for good: in `LoaderRestores.LoadingLeaks` a second require of the file
  returns without its ever having run. LOADING is always restored if no file has
  an autoload target that leads to a failure (a path outside the bundle, a
  compiled file that does not load, a body that fails by itself) without passing
  the file; where no body rescues such an error, exactly then (`RestoredExactly`).
  Where one does, that is not necessary (`RescueHidesLeak`). A bundle built by
  the analysis never leads outside, so it is safe as long as nothing in it fails
  by itself (`BundleRuns.BuiltBundleRuns`).
* The comment above `preload` (crates/calisto-build/src/build.rb:401-404) says a
  target that misses a constant waits until its parent is loaded. It does when
  the targets do nothing but need constants and then define some: then a target
  is loaded exactly when all it needs is defined in the end, whatever the order
  (`LoaderRetry.PreloadSaturates`, `OrderIsIrrelevant`). But only a target that
  succeeds counts as progress, so when the missing constant comes from a file that
  a failing target has required, the target is not tried again
  (`ProgressMissed`); in general a preload ends when the last round has tried all
  that is left and each of them raised NameError (`PreloadEnds`).
* In `parse_i64_raw` the text of the smallest 64-bit integer, alone among
  canonical numerals, overflows on the way: `ParseInt.OnlyTheMinimumOverflows`.

## Model

| member | source | states |
|---|---|---|
| Sha256Scalar.Compress | crates/calisto-hash/src/sha256.rs:64-109 | the state after the method is FIPS 180-4's next hash value of the old state and the block |
| Sha256Scalar.Hash | crates/calisto-hash/src/sha256.rs:33-61 | for every input, the standard's digest: whole blocks, then the one or two padded tail blocks |
| Sha256Tail.PadTail | crates/calisto-hash/src/sha256.rs:41-50 | the tail buffer holds exactly what section 5.1.1 padding has after the whole blocks, and the flag says whether that is one block or two |
| Sha256Tail.WriteDigest | crates/calisto-hash/src/sha256.rs:56-60 | the 32 bytes of the eight words, most significant byte first |
| Sha256Spec.LateWord | crates/calisto-hash/src/sha256.rs:69-74 | the code's order of the four schedule terms gives the standard's W_t |
| Sha256Ni.KTable | crates/calisto-hash/src/sha256_ni.rs:18-35 | group i of the packed constants is K_4i .. K_4i+3, lane by lane |
| Sha256Ni.TwoRounds | crates/calisto-hash/src/sha256_ni.rs:93-95 | SHA256RNDS2 on CDGH and ABEF returns ABEF two rounds later, and the old ABEF is the new CDGH |
| Sha256Ni.FourRounds | crates/calisto-hash/src/sha256_ni.rs:91-95 | from registers holding ABEF and CDGH after 4i rounds, the group's two instructions leave them after 4i + 4 rounds |
| Sha256Ni.NextWords | crates/calisto-hash/src/sha256_ni.rs:117-122 | MSG1, the shifted sum and MSG2 over W_t-16 .. W_t-1 give W_t .. W_t+3 for every t from 16 on |
| Sha256Ni.LoadWordsIsSchedule | crates/calisto-hash/src/sha256_ni.rs:85-88 | loading 16 bytes and shuffling by the mask gives the big-endian schedule words |
| Sha256Ni.Pack | crates/calisto-hash/src/sha256_ni.rs:75-83 | the opening shuffles leave ABEF and CDGH of the hash value |
| Sha256Ni.Unpack | crates/calisto-hash/src/sha256_ni.rs:242-248 | the closing shuffles turn ABEF and CDGH back into the eight words in order |
| Sha256Ni.Finish | crates/calisto-hash/src/sha256_ni.rs:238-248 | adding the saved registers and unpacking is the standard's feed-forward |
| Sha256Ni.CompressNi | crates/calisto-hash/src/sha256_ni.rs:72-249 | the SHA-NI compression leaves the same eight words as the standard, hence as the scalar one, for every state and block |
| Sha256Ni.Hash | crates/calisto-hash/src/sha256_ni.rs:41-69 | for every input, the standard's digest |
| Sha256.Hash | crates/calisto-hash/src/sha256.rs:7-18 | the digest does not depend on the processor's features |
| Sha256.PaddingInjective | crates/calisto-hash/src/sha256.rs:42-50 | below 2^61 bytes two messages with the same padded blocks are equal |
| Sha256Laws.H0IsSquareRoots | crates/calisto-hash/src/sha256.rs:34-37 | the initial hash value is the first 32 fractional bits of the square roots of the first eight primes |
| Sha256Laws.KIsCubeRoots | crates/calisto-hash/src/sha256.rs:21-30 | the round constants are those of the cube roots of the first 64 primes |
| Sha256Laws.BigSigma0Bits | crates/calisto-hash/src/sha256.rs:88 | each bit of Σ0 is the parity of the three bits 2, 13 and 22 places above it, around the word |
| Sha256Laws.BigSigma1Bits | crates/calisto-hash/src/sha256.rs:81 | the same for Σ1 with 6, 11 and 25 |
| Sha256Laws.SmallSigma0Bits | crates/calisto-hash/src/sha256.rs:69-74 | the same for σ0 with 7 and 18, and 3 without going around |
| Sha256Laws.SmallSigma1Bits | crates/calisto-hash/src/sha256.rs:69-74 | the same for σ1 with 17 and 19, and 10 without going around |
| Sha256Laws.ChChooses | crates/calisto-hash/src/sha256.rs:82 | Ch takes each bit from the second or the third word as the first one says |
| Sha256Laws.MajIsMajority | crates/calisto-hash/src/sha256.rs:89 | Maj takes the bit that at least two of the words have |
| Sha256Laws.RoundsAreTwoSequences | crates/calisto-hash/src/sha256.rs:75-109 | after any number of rounds the working variables are the last four members of two sequences, each computed from the four before |
| Sha256Laws.PaddedMessage | crates/calisto-hash/src/sha256.rs:41-50 | the padding is one bit, as few zeros as fill whole blocks, and the bit length as a 64-bit number |
| Sha256Laws.WordBytes | crates/calisto-hash/src/sha256.rs:56-68 | words are read and written most significant byte first |
| Blake3.CompressInPlace | crates/calisto-hash/src/blake3.rs:180-209 | seven rounds with the message permuted in between and the feed-forward, as the specification's compression |
| Blake3.FinalBlockWords | crates/calisto-hash/src/blake3.rs:99-110 | whole words and the partial one together are the zero-padded block read as little-endian words |
| Blake3.ProcessChunk | crates/calisto-hash/src/blake3.rs:87-115 | the chunk's output and chaining value, with the last block held back whether full or partial |
| Blake3.AddChunk | crates/calisto-hash/src/blake3.rs:39-49 | if the stack holds one complete subtree for each one-bit of idx, largest first, it does so for idx + 1 afterwards; the pop never fails |
| Blake3.FoldStack | crates/calisto-hash/src/blake3.rs:52-58 | the final loop computes the root output over the folded trees |
| Blake3.RootOutputBytes | crates/calisto-hash/src/blake3.rs:135-142 | the digest bytes of the root compression |
| Blake3.Hash | crates/calisto-hash/src/blake3.rs:24-60 | for every input, the hash of the specification's recursive tree |
| Blake3Spec.LeftLen | crates/calisto-hash/src/blake3.rs:39-49 | the left subtree's size is a power of two below n and at least half of it |
| Blake3Tree.StackEnds | crates/calisto-hash/src/blake3.rs:42-49 | the stack over k chunks ends in a complete subtree of the size of k's lowest one-bit |
| Blake3Tree.HalvedStep | crates/calisto-hash/src/blake3.rs:44-48 | while halving meets an even total there is a subtree of the current size to merge with |
| Blake3Tree.MergeShapes | crates/calisto-hash/src/blake3.rs:45-46 | two neighbouring complete subtrees of one size join into the complete subtree of twice the size |
| Blake3Tree.FoldIsTree | crates/calisto-hash/src/blake3.rs:52-58 | folding the stack over k chunks onto the next chunk gives the recursive tree over k + 1 chunks |
| Blake3Laws.IvIsSquareRoots | crates/calisto-hash/src/blake3.rs:17-20 | the initial chaining value is made of the square roots of the first eight primes |
| Blake3Laws.ScheduleIsPermuted | crates/calisto-hash/src/blake3.rs:21 | after n permutations the message words stand as in row n of the specification's schedule |
| Blake3Laws.RoundsFollowSchedule | crates/calisto-hash/src/blake3.rs:180-209 | round n mixes the words as they stand in row n |
| Blake3Laws.ColumnsAreMixed | crates/calisto-hash/src/blake3.rs:156-178 | each column of the state is mixed with its two words, by two half-rounds with the rotations 16, 12 and 8, 7 |
| Blake3Laws.DiagonalsAreMixed | crates/calisto-hash/src/blake3.rs:156-178 | then each diagonal with its two words |
| Blake3Laws.CompressionFolds | crates/calisto-hash/src/blake3.rs:180-209 | from the state laid out by the specification, the chaining value is the two halves of the state after seven rounds, folded |
| Blake3Laws.BlocksChain | crates/calisto-hash/src/blake3.rs:87-115 | each block of a chunk is compressed into the value before it, the first one alone with the first flag |
| Blake3Laws.NodesAreTold | crates/calisto-hash/src/blake3.rs:12-15 | the flags of a chunk's last block, a parent and the root are all different, and a parent's block is its children's values in order |
| Longs.TimesInverse | crates/calisto-hash/src/xxh64.rs:33-34 | a wrapping product by p is undone by the product by its inverse modulo 2^64 |
| Longs.RotateBack | crates/calisto-hash/src/xxh64.rs:24-26 | rotating left by n and by 64 - n is the identity |
| XxHash.Xxh64 | crates/calisto-hash/src/xxh64.rs:47-99 | the loops over stripes and tail compute the recursive definition of the hash |
| XxHash.MixTail | crates/calisto-hash/src/xxh64.rs:75-90 | the 8-, 4- and 1-byte loops consume the tail in its units, in order |
| XxHashLaws.RoundBack | crates/calisto-hash/src/xxh64.rs:32-35 | a round from accumulator 0 is a bijection, with its inverse |
| XxHashLaws.StepsBack | crates/calisto-hash/src/xxh64.rs:77-88 | each tail step can be undone for either operand given the other |
| XxHashLaws.AvalancheBack | crates/calisto-hash/src/xxh64.rs:93-98 | the avalanche is a bijection on 64-bit words, with its inverse |
| XxHashLaws.TailBack | crates/calisto-hash/src/xxh64.rs:75-90 | every tail permutes the states, with its inverse |
| XxHashLaws.TailSeparates | crates/calisto-hash/src/xxh64.rs:75-90 | tails that differ at most in one unit end in the same state if and only if they are equal |
| XxHashLaws.OneUnitNeverCollides | crates/calisto-hash/src/xxh64.rs:47-99 | inputs of any one length that differ at most in one tail unit of 8, 4 or 1 bytes collide under a seed if and only if they are equal |
| XxHashLaws.EveryHashReachedOnce | crates/calisto-hash/src/xxh64.rs:75-98 | whatever surrounds an 8-byte tail unit, each hash is reached by exactly one value of it, the one SteerHash computes |
| XxHashLaws.EightBytesBijection | crates/calisto-hash/src/xxh64.rs:47-99 | for each seed xxh64 is a bijection from 8-byte inputs to 64-bit words |
| XxHashLaws.ShortInputsSeparateSeeds | crates/calisto-hash/src/xxh64.rs:70-73 | below 32 bytes each hash comes from exactly one seed, so distinct seeds give distinct hashes |
| XxHashLaws.FoldBack | crates/calisto-hash/src/xxh64.rs:28-31 | a round is a bijection in its accumulator and in its word |
| XxHashLaws.MergeBack | crates/calisto-hash/src/xxh64.rs:33-36 | a merge is a bijection in the hash and in the lane |
| XxHashLaws.StripeSeparates | crates/calisto-hash/src/xxh64.rs:49-64 | word k of a stripe changes exactly lane k, and two values of it give two values of the lane |
| XxHashReference.HashIsReference | crates/calisto-hash/src/xxh64.rs:42-99 | on every input and seed the hash is that of the specification, written with accumulators by number, words by position and decimal constants |
| Daemon.Server.AcceptAll | src/daemon.rs:492-510 | all waiting connections are pushed in accept order |
| Daemon.Server.ServiceAt | src/daemon.rs:515-617 | one client: it stays with its new state, leaves the vector in place, or stops the daemon |
| Daemon.Server.ServicePass | src/daemon.rs:511-618 | the indexed pass with removals stays in bounds of both vectors, ends, and is the specification's pass |
| Daemon.Server.ReapChildren | src/daemon.rs:619-639 | the indexed reap pass with removals is the specification's pass |
| Daemon.Server.ShutdownAll | src/daemon.rs:250-256 | every child is killed, its client told, its pid taken |
| Daemon.Server.Turn | src/daemon.rs:471-640 | one turn of the loop is one step of the machine |
| Daemon.Server.AcceptLoop | src/daemon.rs:470-640 | the loop's state after any ticks is the machine's |
| DaemonSpec.StatusCodeDecodes | src/protocol.rs:348-354 | the code told to the client is the exit status, or 128 plus the signal that killed the child |
| DaemonSafety.VisitKeeps | src/daemon.rs:520-617 | one service of one client, whatever the read and the system answer, keeps the pids exact, the log admissible and the client's trace in order |
| DaemonSafety.ServiceSafe | src/daemon.rs:511-618 | the service pass keeps the invariant from any state, for any poll results and events |
| DaemonSafety.ReapSafe | src/daemon.rs:619-639 | the reap pass keeps the invariant |
| DaemonSafety.ShutdownSafe | src/daemon.rs:250-256 | shutdown keeps the invariant and leaves no client with a child |
| DaemonSafety.StepSafe | src/daemon.rs:471-640 | every turn keeps the invariant; a turn that ends the daemon leaves no child |
| DaemonSafety.RunSafe | src/daemon.rs:471-640 | every reachable state is safe |
| DaemonSafety.ChildrenAreOwned | src/daemon.rs:551-596 | over any run, live pids are pairwise distinct and exactly the unreaped children, each fork is of a fresh pid and each reap of an unreaped one, and none is left when the daemon exits |
| DaemonSafety.ResponsesAreOrdered | src/daemon.rs:542-617 | over any run, each connection's trace is OKs, then at most one ERR, BYE or STATUS and nothing after; at most one fork; its descriptor closed once, exactly when it leaves the vector |
| DaemonSafety.StatusIsOfTheOwnChild | src/daemon.rs:250-256 | over any run, each STATUS on a connection comes after the reap of the pid forked for that connection and is the code of the status reaped |
| DaemonTalk.ProtocolKept | src/daemon.rs:507-635 | over any run every connection's actions keep to its protocol: nothing is left owed, a client with a child is at that child, and one that has left is closed |
| DaemonTalk.CommandsAreAnswered | src/daemon.rs:546-614 | over any run the next action on a connection after a command answers it: PING by OK, STOP by BYE, RUN by a child or ERR, anything else complete by ERR |
| DaemonTalk.ReapsAreTold | src/daemon.rs:525-635 | over any run the next action after a reap tells the connection its child's status, except that it is closed when its peer was found gone just before |
| DaemonTalk.EveryChildIsTold | src/daemon.rs:244-257 | when the daemon has halted every connection still there that was given a child has had a STATUS as its last response |
| DaemonPasses.ReapIsFilter | src/daemon.rs:620-639 | with owned children the reap pass is the filter on clients whose child has not ended; the branch for a failing waitpid drops nobody |
| DaemonPasses.ReachableReapIsFilter | src/daemon.rs:511-639 | in every turn of every run that gets as far as the reap pass, the vector after the turn is that filter of what the service pass left |
| DaemonPasses.ReadExactly | src/daemon.rs:514-519 | each client is read once in a pass if no STOP ahead of it is heard and the poll result numbered by the clients ahead of it that stay is ready, else not at all |
| DaemonPasses.VisitOutcome | src/daemon.rs:520-617 | a client read is dropped exactly on: a dead peer while its child runs, a refused request, or an offered pid that is not positive or is an unreaped child's; it stops the daemon exactly on STOP |
| DaemonPasses.StaysExactly | src/daemon.rs:511-617 | a client is still there after the pass unless it is read and that test holds, the unreaped children at its turn being those of the clients that stay ahead of it and of the clients from it on |
| DaemonPasses.NewConnectionRead | src/daemon.rs:488-519 | a connection accepted in this tick is read in it if and only if no STOP ahead of it is heard, fewer clients stay ahead of it than were polled, and the poll result of that number is ready |
| DaemonPasses.NewConnectionsWait | src/daemon.rs:488-519 | in a tick that drops none of the polled connections no new one is read |
| DaemonPasses.NewConnectionMayNotWait | src/daemon.rs:488-519 | an instance: a new connection is read and answered in its first tick |
| Wire.BuildCmd | src/protocol.rs:136-144 | the bytes of the command: the head line, then each field after its length line |
| WireSpec.FindCrlf | src/protocol.rs:240-242 | the first position of CR LF, or none at all |
| Wire.DaemonClient.ClientFill | src/protocol.rs:248-278 | one receive, with the first one's own treatment of 0 bytes |
| Wire.DaemonClient.ReadOneField | src/protocol.rs:298-321 | the inner loop, draining the length line before it refills |
| Wire.DaemonClient.ReadCommandLine | src/protocol.rs:283-331 | the reader's result and its buffer, for every buffer and every delivery |
| WireLaws.BufferedCommandRead | src/protocol.rs:283-331 | a buffer with a built command and any bytes after it yields exactly operation and fields (which may hold CR LF) and keeps exactly those bytes, without a receive |
| WireLaws.FragmentedHeadRead | src/protocol.rs:283-331 | any cuts before the head line's end, over any number of calls, do not change that |
| WireCuts.CommandTakes | src/protocol.rs:283-331 | a command returned never accounts for more bytes than were taken |
| WireLaws.ZeroBytesExactly | src/protocol.rs:248-269 | a receive of 0 bytes ends the connection if and only if it is not the first, which then brings nothing |
| WireLaws.EndIsReported | src/protocol.rs:283-331 | a connection that ends before its head line is complete is reported as ended by the call that finds the end |
| WireLaws.HugeCountPanics | src/protocol.rs:288-296 | a head line panics the reader if and only if it announces more fields than a vector can hold |
| WireLaws.MalformedHeadIsBad | src/protocol.rs:285-295 | a head line that is no operation, space and numeral is refused and taken off the buffer |
| WireLaws.MalformedLengthIsBad | src/protocol.rs:298-312 | a length line that is no dollar sign and numeral is too |
| WireCuts.DeliveredExactly | src/protocol.rs:283-331 | over any number of calls and for any deliveries of data and pauses, a request is read exactly, with the bytes after it left, if and only if no delivery begins inside a field's data or right after its length line and no pause lies from the head line's end to the command's |
| WireCuts.PiecesReadExactly | src/protocol.rs:283-331 | one call, with no pause at all, reads it exactly if and only if no piece begins inside a field's data or right after its length line |
| WireCuts.CutReadExactly | src/protocol.rs:297-321 | the same for two pieces, by the position of the cut |
| WireCuts.PauseReadExactly | src/protocol.rs:285-331 | in two pieces with a pause between them, if and only if the cut is before the head line's end or after the whole command |
| WireCuts.LongFieldIsLost | src/protocol.rs:166-190 | from an empty buffer, with receives of at most 65,536 bytes, a request with a field of that size is never read exactly, whatever the timing |
| WireCuts.WaitingReadExactly | src/protocol.rs:248-278 | with the whole request waiting it is read exactly if and only if no multiple of 65,536 falls into a field's data; byte 65,536 in one is enough |
| RunFlags.Any | src/commands/run.rs:41-47 | there is a flag exactly when the flags are not the default ones |
| RunFlags.Blob | src/commands/run.rs:50-70 | the one-line form of the flags |
| RunFlags.Parse | src/commands/run.rs:73-95 | the flags a line stands for, unknown segments ignored |
| RunFlags.BlobRoundTripExactly | src/commands/run.rs:50-95 | parsing undoes writing if and only if no text holds the separator and the verbosity is one the command line sets |
| RunFlags.ParsedDefaultExactly | src/commands/run.rs:73-95 | a line stands for the default flags if and only if none of its segments means anything |
| RunFlags.VerbosityLost | src/commands/run.rs:58-87 | verbosity 5 is written and then read as none |
| RunFlags.ParsedIsCarried | src/commands/run.rs:73-95 | whatever is parsed is something that form can carry |
| RunRequest.BuildRequest | src/protocol.rs:417-444 | the bytes of the request, with the withheld variables filtered, extras after them and the flags last |
| RunRequest.ReplaceEnv | src/child.rs:168-183 | the child's environment without CALISTO_RUN_FLAGS, and the flags parsed from it |
| RunRequest.EnvArrives | src/child.rs:168-176 | for pairs free of the separators the child's environment gives each name the value of its last pair, so extras override inherited variables |
| RunRequest.RequestArrives | src/protocol.rs:441-444 | the daemon reads and decodes the request's operation, directory, blob, subject and arguments, and leaves the bytes after it |
| RunRequest.LongTextIsLost | src/protocol.rs:408-444 | a request with an environment, or another text, of 49,150 bytes or more is never read exactly |
| RunRequest.FlagsArrive | src/child.rs:177-183 | the child's flags are the client's if any are set, else those of the last CALISTO_RUN_FLAGS passed on |
| RunRequest.DefaultFlagsExactly | src/protocol.rs:438-440 | default flags stay default if and only if no variable of that name is passed on or no segment of its last value means anything |
| RunRequest.KeptBackExactly | src/protocol.rs:417-436 | the eight names kept back reach the child only as extras, every other name with its last value |
| Formats.CommandText | src/protocol.rs:136-144 | a request with one field, written out |
| Formats.EnvText | src/protocol.rs:432-441 | two variables in the environment's form, written out |
| Formats.FlagsText | src/commands/run.rs:50-71 | one flag of each kind in the flags' form, written out |
| Formats.QuietText | src/commands/run.rs:58 | verbosity -1 is the letter w |
| Formats.DigitsAreDecimal | src/protocol.rs:136-144 | a count or length is written in decimal without leading zeros |
| RunRequest.InheritedFlagsLeak | src/protocol.rs:417-440 | an inherited variable turns a child verbose |
| RunRequest.EndToEnd | src/protocol.rs:408-444 | from the client's bytes to the child: the same operation, directory, subject and arguments, the client's variables with extras winning and without CALISTO_RUN_FLAGS, and its flags (if default, those inherited) |
| Text.SplitJoin | src/child.rs:170 | splitting at the separator undoes joining |
| Decimal.ValueOfDigits | src/protocol.rs:138-140 | a length is read back from its decimal form |
| Base64.EncodeRaw | crates/calisto-native/src/base64.rs:20-31 | the text is the bytes' bits regrouped by six, padded to whole groups |
| Base64.Encode64 | crates/calisto-native/src/base64.rs:38-52 | the encoded text cut into lines of 60 characters, each ended by a newline, and nothing else |
| Base64.UrlsafeEncode64 | crates/calisto-native/src/base64.rs:54-62 | the url-safe text, without its padding when asked |
| Base64.DecodeTable | crates/calisto-native/src/base64.rs:64-70 | the inverse of the alphabet, -1 elsewhere |
| Base64.Decode64 | crates/calisto-native/src/base64.rs:73-102 | the bytes of the alphabet characters before the first padding, an incomplete last byte dropped |
| Base64.StrictDecode64 | crates/calisto-native/src/base64.rs:105-151 | accepts exactly alphabet characters and at most two padding characters in whole groups, and then returns their bytes |
| Base64.UrlsafeDecode64 | crates/calisto-native/src/base64.rs:156-169 | translates, completes the padding and decodes strictly |
| Base64.UrlsafeRoundTrip | crates/calisto-native/src/base64.rs:54-169 | url-safe decoding undoes url-safe encoding, padded or not |
| Base64.WrappedRoundTrip | crates/calisto-native/src/base64.rs:38-102 | lenient decoding undoes line-wrapped encoding |
| Base64Spec.BytesOfSextets | crates/calisto-native/src/base64.rs:20-31 | regrouping by six loses nothing |
| Base64Spec.StrictDecodesEncoded | crates/calisto-native/src/base64.rs:33-151 | strict decoding undoes padded encoding |
| Base64Spec.StrictIsLenient | crates/calisto-native/src/base64.rs:73-151 | what strict decoding accepts lenient decoding reads alike |
| Base64Spec.SymbolsAreTheAlphabet | crates/calisto-native/src/base64.rs:16-17 | the alphabets are those of tables 1 and 2 of RFC 4648 |
| Base64Spec.GroupIsNumber | crates/calisto-native/src/base64.rs:20-31 | three bytes as a number are their four digits as a number |
| Base64Spec.Vectors | crates/calisto-native/src/base64.rs:33-35 | two of the examples of section 10 of RFC 4648 |
| WireBase64.B64Encode | src/base64.rs:18-33 | the same text as the native encoder's |
| WireBase64.B64Decode | src/base64.rs:37-67 | the bytes block by block, or an index out of range |
| WireBase64.OutOfRangeExactly | src/base64.rs:49-65 | the decoder indexes past its input if and only if every whole group starts with two alphabet characters and the incomplete one after them needs a character that is missing |
| WireBase64.ShortFieldRunsPastEnd | src/base64.rs:49-56 | the field "AA" is indexed past its end |
| WireBase64.BlocksOfStrict | src/base64.rs:49-65 | on strict text it agrees with the strict decoder |
| WireBase64.WireRoundTrip | src/base64.rs:18-67 | decoding undoes encoding, in range throughout |
| BundleBase64.B64Decode | crates/calisto-build/src/build.rb:349-363 | raises exactly on a character that is neither alphabet, padding nor newline, else the bytes of the alphabet characters |
| BundleBase64.PushSextet | crates/calisto-build/src/build.rb:356-360 | the shift, the 30-bit mask and the byte taken off keep every waiting bit |
| BundleBase64.DecodersAgree | crates/calisto-build/src/build.rb:349-363 | on alphabet text with trailing padding the bit buffer agrees with the lenient decoder, and with the strict one where that accepts |
| BundleBase64.BundleRoundTrip | crates/calisto-build/src/build.rb:349-363 | it undoes the encoding of an embedded file |
| Bundler.AddEdge | crates/calisto-build/src/build.rb:258-297 | one require leaves the tables sound, loses nothing from them, and is fully dealt with, its gem noted and its autoload target listed last |
| Bundler.Collect | crates/calisto-build/src/build.rb:240-299 | the loop ends, its files are exactly those reachable from the entry over embeddable edges, and its autoload lists exactly the embeddable autoload targets of each file in order |
| BundleSpec.ClosedContainsReachable | crates/calisto-build/src/build.rb:249-299 | a set with the entry that is closed under embeddable edges holds everything reachable |
| BundleIndex.CollectNatives | crates/calisto-build/src/build.rb:306-310 | the compiled files of every reached gem, and those the graph reached, are carried |
| BundleIndex.PreIndex | crates/calisto-build/src/build.rb:311-318 | every compiled file's canonical name is indexed, and no entry of the analysis is changed |
| BundleIndex.BuildBundle | crates/calisto-build/src/build.rb:240-318 | the tables of the bundle, with the files exactly the reachable ones; `BundleLaws` says what else they hold |
| BundleIndex.BundleIsClosed | crates/calisto-build/src/build.rb:258-318 | every index value and every autoload target is in the bundle |
| BundleIndex.StaticRequireAgrees | crates/calisto-build/src/build.rb:452-456 | a static require or autoload of a carried file finds at run time the path the analysis resolved |
| BundleIndex.LeftRequireExactly | crates/calisto-build/src/build.rb:452-456 | a require left to the interpreter is delegated if and only if no carried compiled file has it as canonical name |
| BundleIndex.StaticRelativeAgreesExactly | crates/calisto-build/src/build.rb:458-465 | a static require_relative of an embedded file finds it if and only if the bare name is a file or expanding commutes with the extension |
| BundleIndex.StaticRelativeMissesCompiled | crates/calisto-build/src/build.rb:458-465 | a compiled gem file reached by a static require_relative is carried, and unless it is the entry the replacement never finds it |
| BundleLaws.ResolvesFirst | crates/calisto-build/src/build.rb:93-103 | a require resolves to the first file there is in the order of the load path and, in each directory, of the extensions none, .rb, .so, .bundle |
| BundleLaws.TreatedExactly | crates/calisto-build/src/build.rb:274-296 | a file of a gem is embedded if it is Ruby code and carried as bytes if it is compiled, another one is embedded if it is below the root, and the rest is left |
| BundleLaws.OnlyOwnFiles | crates/calisto-build/src/build.rb:274-296 | besides the entry nothing is embedded but the project's own files and Ruby files of gems |
| BundleLaws.NativesExactly | crates/calisto-build/src/build.rb:279-310 | a compiled file is carried if and only if a static require leads to it or to any file of the gem it belongs to |
| BundleLaws.GemComesWhole | crates/calisto-build/src/build.rb:284-310 | with any file of a gem besides the entry all the gem's compiled files are carried |
| BundleLaws.IndexExactly | crates/calisto-build/src/build.rb:282-318 | a name is indexed if and only if a file requires it and its file is carried, or it is the canonical name of a compiled file |
| BundleLaws.CanonicalNameOfFile | crates/calisto-build/src/build.rb:311-318 | that name is the path below the first gem directory without the extension |
| BundleLayout.UnresolvedIsDelegated | crates/calisto-build/src/build.rb:109-119 | with the script's load path, a require that resolves to nothing is always delegated |
| BundleLayout.TakenIsGemAsset | crates/calisto-build/src/build.rb:276-291 | with the script's load path, a plain name that was resolved and left is taken by the bundle only where a gem has a file of exactly that name that is not Ruby code |
| BundleLayout.AssetIsTaken | crates/calisto-build/src/build.rb:311-318 | a project in which it is taken |
| BundleLayout.DotFileMissed | crates/calisto-build/src/build.rb:458-465 | a project in which an embedded file is missed at run time |
| Loader.CalistoBundle.LoadFile | crates/calisto-build/src/build.rb:422-445 | the recursive method over the LOADING and LOADED tables computes the specification, on any graph, and terminates |
| Loader.CalistoBundle.PreloadRound | crates/calisto-build/src/build.rb:409-417 | one round keeps pending exactly the targets that raised NameError |
| Loader.CalistoBundle.Preload | crates/calisto-build/src/build.rb:405-420 | the retry loop over the pending targets computes the specification (`LoaderRetry` says what that achieves), and ends: pending shrinks or the loop breaks |
| LoaderRetry.PreloadEnds | crates/calisto-build/src/build.rb:405-420 | on any graph, a preload that raises nothing leaves every target loaded or being loaded, or was stuck: its last round tried all the others and each raised NameError |
| LoaderRetry.PreloadSaturates | crates/calisto-build/src/build.rb:405-420 | for targets that need constants and then define some, and nothing else: a target is loaded if and only if all it needs is defined in the end, and what is defined is the least set no target can add to |
| LoaderRetry.OrderIsIrrelevant | crates/calisto-build/src/build.rb:405-420 | for such targets the order of the list makes no difference |
| LoaderRetry.SubclassLoads | crates/calisto-build/src/build.rb:401-404 | a subclass listed before its base is loaded in the second round |
| LoaderRetry.ProgressMissed | crates/calisto-build/src/build.rb:409-418 | a target whose constant a failing target's require has defined is not tried again |
| LoaderSafety.LoadFileSafe | crates/calisto-build/src/build.rb:422-445 | from any consistent state and with any outcome, a load runs no running or completed body and loses nothing; on success its file is loaded or already being loaded, otherwise it is not loaded |
| LoaderSafety.EveryLoadIsOrderly | crates/calisto-build/src/build.rb:405-445 | from an empty loader, on every graph, whatever fails and is rescued: no body is entered while it runs or after it completed, none is left running, LOADED is exactly the completed bodies, and a load succeeds exactly if its file is among them |
| LoaderSafety.RerunOnlyAfterAbort | crates/calisto-build/src/build.rb:409-441 | between two runs of a body the first was aborted, by NameError or by another error that was rescued before the second |
| LoaderRestores.RestoredExactly | crates/calisto-build/src/build.rb:435-441 | LOADING is empty again after every load, whatever is defined and whatever the outcome, if no file has an autoload target that leads to a failure without passing the file; where no body rescues LoadError, if and only if |
| LoaderRestores.LoadingLeaks | crates/calisto-build/src/build.rb:435-441 | a bundle in which a failing autoload target leaves a file in LOADING, so that requiring it again returns without its having run |
| LoaderRestores.RescueHidesLeak | crates/calisto-build/src/build.rb:405-441 | a bundle with such a target, and a body that rescues, in which LOADING is always restored |
| LoaderRestores.ClosedNeverLeaks | crates/calisto-build/src/build.rb:433-441 | in a bundle that carries all it requires and in which nothing fails by itself, no target leads to a failure |
| LoaderSafety.LoadFileFinds | crates/calisto-build/src/build.rb:433-434 | in a bundle that carries all it requires and in which nothing fails by itself, LoadError is never raised |
| BundleRuns.BuiltBundleRuns | crates/calisto-build/src/build.rb:240-465 | a bundle built by the analysis, run from its entry, runs its bodies in order, whatever they require through it; as long as nothing in it fails by itself it never raises LoadError and LOADING is empty at the end |
| ParseInt.ParseI64Raw | crates/calisto-pg/src/lib.rs:611-633 | a value exactly for an optional sign and digits, and then the written number wrapped to 64 bits |
| ParseInt.ExactExactly | crates/calisto-pg/src/lib.rs:611-633 | the result is the number written if and only if that is a 64-bit integer |
| ParseInt.CanonicalRoundTrip | crates/calisto-pg/src/lib.rs:611-633 | the canonical numeral of every 64-bit integer is parsed back |
| ParseInt.OverflowsExactly | crates/calisto-pg/src/lib.rs:625-632 | some operation leaves the 64-bit range if and only if the number's size exceeds 2^63 - 1 |
| ParseInt.OnlyTheMinimumOverflows | crates/calisto-pg/src/lib.rs:625-632 | among the numerals of 64-bit integers only the smallest one's does |
| TestRun.Dispatcher.FetchAdd | src/commands/test.rs:233 | no two takes give one index |
| TestRun.Dispatcher.Turn | src/commands/test.rs:232-260 | one step of one worker: an index taken, or the file reported with its code, which is 2 if there was no connection (`ReportsExactly`) |
| TestRun.StepKeeps | src/commands/test.rs:232-260 | every step of any worker keeps: files taken are the files run or running, and results are the reports made |
| TestRun.AllWorkersFinish | src/commands/test.rs:223-265 | under every interleaving exactly two steps a file and one a worker: no schedule is longer and all have finished exactly then |
| TestRun.EveryFileRunsOnce | src/commands/test.rs:232-268 | once all have finished each file was run as often as it is listed, and the joined results are a permutation of the reports |
| TestRun.Summarize | src/commands/test.rs:270-292 | counts the failures, and returns 1 if and only if some code is not 0 |
| TestRun.ReportsExactly | src/commands/test.rs:240-260 | over every schedule a report is made if and only if a worker finished that file, with the code it exited with, or 2 if the daemon could not be reached |
| TestRun.AtMostExactly | src/commands/test.rs:269 | the sort orders paths as byte strings: prefix first, else by the first byte that differs |
| TestRun.ExitCodeExactly | src/commands/test.rs:267-292 | over every schedule the run fails if and only if some file a worker finished did not exit with 0, a file for which the daemon could not be reached included |
| TestRun.SummaryIsDetermined | src/commands/test.rs:267-280 | when a file's code does not depend on the interleaving, the sorted results do not either: they are the sorted files with their codes |
| TestRunSpec.WorkerCount | src/commands/test.rs:217-221 | at least one worker; beyond one no more than the parallelism or the files, and no fewer than the smaller of them |

## Left out

- CRuby embedding, dlopen, ELF symbol lookup, libpq and libsqlite3 calls: foreign code.
- What a forked child does after decoding its request (VM bootstrap, load, eval), and the timer thread around a fork: their meaning is in libc and CRuby.
- Descriptors passed by SCM_RIGHTS, and the text of ERR messages.
- Bodies of I/O calls: the daemon's start-up, its socket and pid files, printing, the watch loop and elapsed times of the test command.
- Command-line parsing, init, upgrade, completions, doctor, dotenv, toml, shims and escaping: I/O or easy members.
- Cryptographic strength, timing and memory use.
- Integer widths of sizes: slice lengths, chunk numbers and counters are unbounded; the counter's two 32-bit halves in BLAKE3, the bit length of SHA-256 and the length added by xxHash64 are reduced as in the code.
- Bit operators on disjoint or masked bits (`<<`, `|`, `& 63`) in the Base64 and byte-order code are written as arithmetic.
- Text is the UTF-8 bytes the code works on; lossy conversion of invalid UTF-8 is not modelled, so the round trips of text hold for valid UTF-8 and those of bytes for all bytes.
- Base64.Decode64: the four-byte buffer is a sequence of the values in it, not a fixed array that keeps stale ones.
- Sha256.Hash: the processor's feature test is a flag.
- Daemon.Server.Turn: answers of the system (poll, reads, fork, wait) are inputs; poll fails only when interrupted, fork gives a pid that is not among the unreaped children, a blocking wait on an owned child succeeds.
- DaemonSpec: what a connection's read returns is an event of the tick; the reader itself is modelled apart in Wire, and a request that makes the reader or the decoder panic, which ends the daemon, is not a tick.
- DaemonSpec: a failing write to a dead client is a response in the log that nobody receives.
- Wire.DaemonClient.ClientFill: the size of one receive is left to the deliveries; WireCuts.Capped bounds them by 65,536 bytes.
- Wire.DaemonClient.ReadCommandLine: reserving room for fewer fields than a vector can hold is taken to succeed.
- WireCuts.DeliveredExactly: a connection that ends or fails before its request is complete is not among the deliveries.
- Bundler.Collect: the file system, the Ruby parser, gem resolution and expansion of paths are given functions; a file that disappears between probing and reading is not modelled, nor are warnings and header texts.
- BundleLayout.LaidOut: that listed and expanded paths are in normal form, and that an extension is what a path ends in, are facts about Ruby's Dir.glob and File that the predicate states.
- BundleIndex.BuildBundle: cutting `__END__` data off the entry and writing the generated text out are not modelled.
- LoaderSpec: a body is what it requires, with the errors it rescues there, what it defines, what it needs and whether it fails otherwise. All errors but NameError are one kind, called LoadError; what a delegated require loads, autoload triggers inside Ruby, and a body that rescues its own failures are not modelled.
- LoaderRestores.RestoredExactly: where bodies rescue LoadErrors the condition is sufficient only; whether a leaking target is reached then depends on what was loaded before.
- LoaderRetry.PreloadSaturates: for targets whose bodies need constants and then define some, and nothing else; for others `PreloadEnds` holds, and more would be false (`ProgressMissed`).
- Sha256Spec.Hash: no whole digest is computed here; the constants, the functions, the rounds, the padding and the byte order are fixed one by one in Sha256Laws.
- Blake3Spec.Compress: no whole digest is computed here; the initial value, the schedule, the quarter-rounds, the flags and the folding are fixed one by one in Blake3Laws.
- XxHashLaws.OneUnitNeverCollides: nothing is claimed for differences inside whole 32-byte stripes, where the merge of the lanes is not a bijection of each.
- ParseInt.ParseI64Raw: wrapping arithmetic, as in a release build; a build with overflow checks stops where NeverOverflows fails.
- TestRun.Dispatcher.Turn: taking an index and finishing a file are the two atomic steps of a worker; a panicking worker is not modelled.
- TestRunSpec.Sort: the standard library's stable sort is an insertion sort here.
