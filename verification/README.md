# SecLMS: a verified model of stateful hash-based signatures

SecLMS signs with LM-OTS, LMS and HSS (RFC 8554). A signature scheme of this kind is only as good as its
bookkeeping: every one-time index may be used once, a Merkle tree that is cut into cached pieces must still be the
Merkle tree, and a power cut must not bring an index back. This project models that bookkeeping and the algorithms
around it and proves them correct for every input, every run and every outcome of the hardware.

## What is modelled

* **Tree cache** (`MerkleTree`, `Subtree`, `TreeCache`). The tree of height h is cut into layers of subtrees of height
  j. Subtrees are filled leaf by leaf with a stack of pending left nodes; the buffers are arrays that the methods
  write in place, and the upcoming buffers serve as shared scratch for builds that recurse over the layers. The
  reference is the recursive `TreeNode`. The hash is an arbitrary total function.
* **Signing counter** (`SecState`, `SecRuns`, `SecDevice`, `SecReserve`, `SecRestart`). `SecState` says what each command
  of the secure state module does to two authenticated record slots, the volatile state and the hardware registers, for
  every outcome of the hardware, including a power cut after any byte of a slot write. `SecDevice.Device` is the module
  itself, with its static variables as fields and its early returns, proved to do exactly that on the fused and on the
  two-step commit path. `SecRuns` proves what every run keeps of the released indices, `SecReserve` what it keeps of the
  reserved ones, released or not, and `SecRestart` when a device starts again.
* **LM-OTS and LMS** (`Params`, `Winternitz`, `Lmots`, `Lms`, `LmsRuns`). Digits, checksum, chains, authentication
  paths, signature and key bytes, and runs of signing calls with everything they leave in the buffers.
* **What a signature binds** (`HashCalls`, `Binding`). No two uses of the hash are fed the same bytes; a signature
  accepted for two messages breaks the hash in a named way.
* **HSS** (`Hss`, `LevelKeys`). A class with the fields of the private key; the ghost map `spent` records every one-time
  key ever used and what it signed, and `certUse` which one made each certificate. `LevelKeys` goes from the names of
  one-time keys to their secrets.
* **Other builders, sizing and storage** (`Coprocess`, `TreeConfig`, `Arena`, `BenchHeap`).
* **Hash plumbing** (`Sha256`, `Interleave`, `Sponge`, `CoefPacking`). Compression and permutation are arbitrary
  functions.

Conventions. `Words` holds the machine arithmetic: `Shr`, `Pow2`, big-endian fields; 32- and 64-bit wrap-around is
written out where it can happen. A parameter `reliable` stands for "no call to the key source or the allocator fails";
without it a failure may happen at any such call. Nondeterministic choices inside methods stand for those failures.
Specifications of methods are ghost functions or functions over values (`Signature`, `CandidateRoot`, `Commit`, `Boot`,
`Shake256`, ...), and the main theorems are about them.

## Findings

* A reservation made over the UART with counter 0xffffffff is accepted, and the boot that recovers it adds one in 32
  bits: the counter becomes 0. `SecRuns.UartReserveRecovers` proves that such a recovery stays above the released
  indices if and only if the counter is not 0xffffffff, and `SecRuns.ReachableDoubleRelease` gives a run from the first
  power-up that releases index 0 of one key twice. The run theorems exclude exactly that command.
* Until the next commit only one slot holds a reservation. When that slot cannot be read and the other one can, the boot
  goes on from the older record and offers the reserved index again: `SecReserve.PassedOverExactly` proves that a boot does
  so exactly then, `SecReserve.NoReservationTwice` that nothing else but the wrap brings a reserved index back, and `SecReserve.LostReservation` gives a run of seven commands from the
  first power-up. An index that was released is not affected (`SecRuns.NoIndexTwice`, `SecRuns.SlotAloneRecovers`), but
  a signature may already have been made with it, inside the device or by the host that reserved it.
* A failed rebuild of the bottom layer leaves it claiming the new segment, with its first leaves on top of the old
  contents (src/lms_subtree.c:760-781), so a later request in that segment is answered with LMS_OK and without a rebuild
  (src/lms_subtree.c:1006-1010). `TreeCache.TreeContext.AuthPathBackend` proves when such an answer is right: after a
  rebuild that broke off on top of a complete subtree, if and only if `current_index` is one short of the segment and the
  request is for the last leaf; after any number of failed rebuilds, if and only if every slot the lookup reads was last
  written by a build of that segment. `TreeCache.FailThenAsk` is the failing sequence of two requests, `TreeCache.Serve`
  the statement over all runs. "Only if" supposes that no slot has the same value in two segments.
* A call of `lms_do_sign` whose path cannot be had leaves the whole one-time signature of its index in the caller's buffer
  and keeps the index (src/lms_sign.c:46-64). `LmsRuns.OneTimeUse` proves that, counting what such calls leave, a run uses
  every one-time key for one message if and only if, after every call that broke off, the next one that writes is for the
  same message.
* `lms_tree_build_active` takes its numbers from `left_leaf`, which `lms_tree_keygen_root` leaves at 2^h in a one-layer
  context (src/lms_subtree.c:895-918). `TreeCache.TreeContext.BuildActive` proves that the root is then right if and only
  if `left_leaf` is 0, unless hashes of nodes 1 and 2 collide; the result is LMS_OK either way.
* The first-fit heap computes sizes in 32 bits: `BenchHeap.NeedCovers` and `BenchHeap.SplitTestExact` say exactly which
  requests wrap. The sequential arena of the firmware does too: `Arena.TreePool.Alloc` grants a request that wraps its cursor.
* `fw/lms_soc_smoke.c:1051-1054` says that nested builds free in last-in first-out order. They do not: an inner
  allocation clears the remembered block, so the outer free is ignored. `Arena.BuildAt` proves the exact number of bytes
  each build leaves behind (`Leak`), `Arena.DeepRebuildLeaks` that it is zero if and only if at most one layer lies
  below, and `Arena.TreeCacheState.Ensure` that the arena is still large enough for every tree the firmware caches.
* `src/lms_subtree.c:204-216` gives a subtree 2^(height+1)-1 nodes; the code allocates 2^(height+1) slots. The model
  follows the code.

## Model

| member | source | states |
|---|---|---|
| MerkleTree.ClimbGivesRoot | src/lms_verify.c:68-96 | climbing from the true leaf along the true sibling path, order chosen by parity, ends in node 1 of the recursive tree, for every height and leaf |
| Subtree.StackAdvance | src/lms_subtree.c:612-682 | the binary-counter stack: after one more leaf, slot i again holds the finished left node of height i exactly for the set bits of the leaf count |
| Subtree.SubtreeBuffer.AddNextNode | src/lms_subtree.c:612-682 | after any number of leaves every finished entry equals the recursive tree's node at its whole-tree number, and every other slot is as before; returns 1 exactly at the last leaf, -1 and no change beyond it |
| Subtree.AllSiblingsMerged | src/lms_subtree.c:584-607 | with i leaves merged, all siblings that the lookup of leaf a reads are written if and only if only the last leaf is missing and a is that leaf |
| Subtree.SubtreeBuffer.LocalToGlobal | src/lms_subtree.c:441-458 | the heap-index arithmetic gives the whole-tree number of a local node, which the value theorems are stated in |
| TreeCache.TreeContext.BuildAt | src/lms_subtree.c:817-868 | building a subtree of any layer through the shared scratch buffers leaves every node equal to the recursive tree; only a leaf or allocation failure prevents it, and then an upper buffer is as it was, while a bottom buffer stands at the new segment with the merged leaves true and every slot beyond them as before |
| TreeCache.TreeContext.Rebuild | src/lms_subtree.c:987-1027 | rebuilding one layer leaves the buffers of all other layers unchanged, also when it fails; the bottom buffer keeps every slot that the rebuild did not get to |
| TreeCache.TreeContext.SignInit | src/lms_subtree.c:931-958 | every layer's cached subtree is true and covers leaf 0, and node 1 of the top layer is node 1 of the recursive tree |
| TreeCache.SegmentTest | src/lms_subtree.c:974-986 | the 64-bit wrapping segment test holds exactly when the leaf lies under the cached root |
| TreeCache.TreeContext.SignAdvance | src/lms_subtree.c:987-1027 | a layer whose claimed segment contains q keeps its buffers; afterwards every layer claims q, and covers it unless the bottom layer already claimed q without holding it; the bottom buffer is built at most once more, at the segment of q; with an index out of range every layer is unchanged |
| TreeCache.TreeContext.AuthPath | src/lms_subtree.c:560-609 | above the first layer boundary the path is right whenever the upper layers cover q, below it the path is what the bottom buffer holds |
| TreeCache.TreeContext.AuthPathBackend | src/lms_subtree.c:1031-1046 | a successful answer is the RFC 8554 sibling path whenever every bottom slot read was last written by a build of the segment of q, and only then if segments differ; after a rebuild that broke off on top of a complete subtree this means: current_index is one short of the segment and q is its last leaf; a reliable source answers every index in range |
| TreeCache.InterruptedPath | src/lms_subtree.c:760-781 | after such a rebuild the path of leaf a is free of old values if and only if only the last leaf is missing and a is that leaf |
| TreeCache.Serve | src/lms_subtree.c:931-1046 | over any sequence of requests after one sign_init, going on after failures, each answer is the sibling path whenever the builds of the bottom buffer so far have left nothing but its segment in the slots read, and only then if segments differ |
| TreeCache.WrongOnlyWhenStale | src/lms_subtree.c:931-1046 | in such a run a wrong answer follows a failed request with nothing but requests of the same bottom segment since |
| TreeCache.FailThenAsk | src/lms_subtree.c:987-1046 | a request that fails at the bottom of a valid cache, then one in the same segment: the second is always answered, and if segments differ the answer is right if and only if current_index was one short of the segment and the request is for the last leaf |
| TreeCache.TreeContext.KeygenRoot | src/lms_subtree.c:870-929 | the one-pass streaming root is node 1 of the recursive tree for every h and j; a one-layer context is left at 2^h |
| TreeCache.TreeContext.BuildActive | src/lms_subtree.c:464-546 | every node is the one of the numbering that left_leaf gives; the root is node 1 of the tree and every leaf is covered when left_leaf is 0, and the root is wrong when it is 2^h unless hashes of nodes 1 and 2 collide; refused with more than one layer |
| TreeCache.KeygenThenBuild | src/lms_subtree.c:464-929 | key generation and then a full build in one one-layer context succeed with different roots, unless those hashes collide |
| Coprocess.CoprocessTree.Build | src/lms_coprocess.c:44-99 | every stored node is the recursive node, for the identifier stored in the tree |
| Coprocess.ArrayTreeIsTree | src/lms_coprocess.c:44-99 | under the key's own identifier the array tree is the tree of lms_tree_node |
| Coprocess.CoprocessTree.AuthPath | src/lms_coprocess.c:124-145 | the path read from the array is the sibling path |
| Coprocess.CoprocessTree.VerifyLeafPath | src/lms_coprocess.c:147-229 | accepts exactly when the climb from the leaf reaches the stored root |
| Coprocess.OwnPathVerifies | src/lms_coprocess.c:124-229 | every leaf's own one-time key and path climb to the stored root, which is the public key's root |
| SecState.BodyRoundTrip | fw/lms_sec_state.c:160-169 | state, counter and tx written into a record body are read back |
| SecState.TornValidates | fw/lms_sec_state.c:174-217 | a write torn at any byte never makes a record that nobody authenticated |
| SecState.BodyLayout | fw/lms_sec_state.c:160-169 | the 48 bytes of a record are the magic, state, counter and tx at their offsets, and zeros |
| SecState.RecordBound | fw/lms_sec_state.c:174-217 | a record validates in the slot and under the key it was written for, nowhere else |
| SecDevice.Device.StateCommit | fw/lms_sec_state.c:502-590 | the two hardware paths with their early returns refine one atomic commit, field by field |
| SecDevice.Device.SecSign | fw/lms_sec_state.c:832-906 | reserve, sign, commit and the burn attempts refine the signing step |
| SecDevice.Device.HandleCommit | fw/lms_sec_state.c:910-1010 | the UART COMMIT branch and its permission table refine the specified step |
| SecDevice.Device.SecBoot | fw/lms_sec_state.c:665-798 | key loading, slot choice and recovery refine the specified boot |
| SecDevice.Device.SecKeygenNew | fw/lms_sec_state.c:383-455 | a rotation that succeeds clears the records and moves to the fresh key; one that fails keeps them |
| SecRuns.CommitSafe | fw/lms_sec_state.c:502-590 | whatever the hardware does to a commit, no slot can recover below the released indices; failure keeps state, counter and active record |
| SecRuns.CommitOrdered | fw/lms_sec_state.c:502-590 | success strictly raises the last tx and leaves the new record newest; failure keeps the active record and the last tx; tx values of the slots stay distinct |
| SecRuns.CutIsAtomic | fw/lms_sec_state.c:502-590 | power lost after k bytes of the slot write: the next start chooses the old record for k < 64 and the new one for k = 64 |
| SecRuns.NoConflict | fw/lms_sec_state.c:714-731 | two valid slots never share a tx, so the conflict branch of the boot is not reached |
| SecRuns.SignSafe | fw/lms_sec_state.c:832-906 | a released index is at or above every earlier one and recovery then lies above it, for every mix of failures |
| SecRuns.BootSafe | fw/lms_sec_state.c:665-798 | booting with any key identity and any slots left by the past never goes below the released indices |
| SecRuns.StepSafe | fw/lms_sec_state.c:383-1010 | every command keeps the safety invariant |
| SecRuns.StepOrdered | fw/lms_sec_state.c:383-1010 | every command keeps the transaction order |
| SecRuns.RunKeeps | fw/lms_sec_state.c:502-943 | every state of every run from the first power-up satisfies the safety invariant and the transaction order |
| SecRuns.NoIndexTwice | fw/lms_sec_state.c:502-943 | over every run of signing, UART commits, power cuts, boots and key rotations, the indices released under one key strictly increase |
| SecRuns.SlotAloneRecovers | fw/lms_sec_state.c:706-786 | in every safe state, so in every state of a run, each slot that validates recovers on its own to an operational state, to its counter or, when reserved, its counter plus one, above every released index |
| SecRuns.UartReserveRecovers | fw/lms_sec_state.c:744-786 | recovery of a UART reservation stays above the released indices if and only if the counter is not 0xffffffff |
| SecRuns.ReserveTrace | fw/lms_sec_state.c:665-798 | the four commands (UART reservation, power cycle, blob reload, boot) lead to that state |
| SecRuns.WrappedReserveReleasesTwice | fw/lms_sec_state.c:765-775 | with that counter the signature after the restart releases index 0; when that index was released under the same key before, the log then holds it twice |
| SecRuns.ReachableDoubleRelease | fw/lms_sec_state.c:665-943 | seven commands from the first power-up after which the log holds index 0 of one key twice; only the UART reservation of 0xffffffff is outside the runs of NoIndexTwice |
| SecReserve.SignLeaves | fw/lms_sec_state.c:832-906 | after a recorded reservation of q, for every mix of failures: either the reservation is still the newest record and the state is RESERVED, or the newest record and the counter are at q + 1; never IDLE at q |
| SecReserve.FailureBurns | fw/lms_sec_state.c:832-906 | for every outcome of the hardware, which answer sec_sign gives and exactly when record and counter are past q: one burn that takes effect is enough |
| SecReserve.UartTransitions | fw/lms_sec_state.c:910-990 | which UART commits take effect, by state values: IDLE to four states, RESERVED to IDLE with a larger counter only, KEYGEN_PENDING to IDLE; all others change nothing |
| SecReserve.AdvanceKeeps | fw/lms_sec_state.c:383-1010 | every command keeps: both slots lead past all reserved indices but for one, which is pending and held by its record until a commit beyond it |
| SecReserve.NoReservationTwice | fw/lms_sec_state.c:502-943 | over every run, every index recorded as RESERVED under one key is larger than all before it, every released index was reserved, and an idle device stands above them all; excluded are the reservation that wraps and the boot of PassedOverExactly |
| SecReserve.PassedOverExactly | fw/lms_sec_state.c:706-786 | a boot with a working burn comes back to a pending index if and only if the pending record cannot be read, and the other one can and leads no further |
| SecReserve.LostReservation | fw/lms_sec_state.c:706-906 | seven commands from the first power-up after which index 1 of one key was reserved twice, because the slot that held the reservation was lost |
| SecRestart.BootStarts | fw/lms_sec_state.c:665-798 | for every outcome of the hardware: the device is operational if and only if the keys come and the newest readable record can be resumed or burnt, or nothing is readable on a provisioned device with blank slots; when it is locked, when it keeps booting, and under which keys it goes on |
| SecRestart.HealthyRestart | fw/lms_sec_state.c:706-786 | in every state of a run with a wrapped seed, power cycle, reload and a working boot end locked if and only if no slot validates and not both are blank; otherwise at 0 from blank slots and else where the newest record leads, above everything released |
| SecRestart.RestartSigns | fw/lms_sec_state.c:734-906 | an idle device after such a restart releases its counter with the next working signature |
| SecRestart.RotationThenRestart | fw/lms_sec_state.c:383-786 | a restart between a key rotation and the first signature: index 0 of the new key is released |
| Winternitz.Checksum | src/lms_params.c:305-317 | the accumulator loop computes the digit gap shifted left |
| Winternitz.ChecksumFits | src/lms_params.c:160-232 | the shifted checksum fits 16 bits for every w |
| Winternitz.NonDomination | src/lms_params.c:295-317 | for w in 1, 2, 4, 8 the digits of one 32-byte hash with its checksum are never componentwise at or below those of another |
| Lmots.ChainCompute | src/lm_ots.c:187-218 | the loop runs exactly the given steps of the chain and refuses ranges past 255 |
| Lmots.ChainJoin | src/lm_ots.c:187-218 | running a chain from 0 to a and then b more steps is running it a + b steps |
| Lmots.PublicFromPrivate | src/lm_ots.c:488-536 | the digit loop computes the hash of all chain ends |
| Lmots.OtsSign | src/lm_ots.c:538-623 | the bytes written are the one-time signature, with the source's error results in its order |
| Lmots.PublicFromSignature | src/lm_ots.c:325-406 | the loop computes the candidate key from the bytes, with each refusal |
| Lmots.OtsSignThenVerify | src/lm_ots.c:325-623 | the candidate key of every one-time signature is the one-time public key |
| Lms.DoSign | src/lms_sign.c:17-82 | index advanced exactly on success; every error result in the order of the source, with what it leaves in the buffer; the bytes are the signature with and without a valid tree cache, and with a stale one exactly under the condition of AuthPathBackend |
| LmsRuns.SignAttempt | src/lms_sign.c:17-82 | a call completes, breaks off with the whole one-time part in the buffer and the index kept, or is refused before anything depends on the message |
| LmsRuns.OneTimeUse | src/lms_sign.c:46-82 | counting what failed calls leave, every one-time key of a run stands behind one message if and only if, after every call that broke off, the next one that writes is for the same message |
| Lms.RootFromSignature | src/lms_verify.c:17-96 | succeeds exactly on well-formed bytes and returns the candidate root they determine |
| Lms.ClimbPath | src/lms_verify.c:74-93 | the level loop is the recursive climb |
| Lms.Verify | src/lms.c:153-176 | the accumulating comparison accepts exactly equal roots |
| Lms.SignThenVerify | src/lms_sign.c:17-82 | every signature of every key, message and index leads the verifier to node 1 of the tree |
| Lms.PublicRoundTrip | src/lms.c:52-93 | parsing a serialized public key returns it, or refuses exactly the unusable type pairs |
| Lms.PublicLayout | src/lms.c:52-71 | both types, identifier and root at their places of section 5.3 of RFC 8554 |
| Params.OtsRows | src/lms_params.c:160-232 | which code has which hash and width, and p and ls by the formulas of appendix B of RFC 8554 |
| HashCalls.InputInjective | src/lm_ots.c:140-323 | the strings hashed for private values, randomizers, chain steps, messages, one-time keys, leaves and inner nodes are pairwise different, within one use and across uses |
| HashCalls.CallsApart | src/lms_tree.c:5-48 | two different uses with one value are a collision on exactly their two strings, which have the tags and fields of RFC 8554 |
| Binding.OneMessage | src/lms_verify.c:17-96 | a signature that lms_verify accepts under one key for two messages gives two different strings with one hash, each hashed in one of the two verifications, or a value of the signature whose chain comes back to itself |
| Binding.OneHssMessage | src/hss.c:351-406 | the same for hss_verify, at the last key of the chain that the bytes determine |
| Hss.IncrementGeneration | src/hss.c:81-94 | the carry loop adds one to a 256-bit number and reports exhaustion exactly on wrap |
| Hss.UseKeeps | src/hss.c:96-117 | the index a level is about to sign with was never used before, and signing keeps everything behind the current position |
| Hss.CertificateKeeps | src/hss.c:96-117 | certifying a child closes that link of the chain, names the one-time key that made it, and leaves the other links |
| Hss.BuildKeeps | src/hss.c:59-79 | a level rebuilt under a later generation stays ahead of all its past signatures and opens only the links beside it |
| Hss.HssPrivateKey.Renew | src/hss.c:135-157 | one renewal succeeds exactly when the generation does not wrap and the parent has an index left, and moves the open link one level down |
| Hss.HssPrivateKey.Refresh | src/hss.c:119-160 | afterwards the level is usable and every certificate verifies again, even when several levels were exhausted together; short of generation wrap it succeeds if and only if some level up to it has an index left |
| Hss.HssPrivateKey.Init | src/hss.c:162-212 | accepts exactly one to eight levels of one hash, and establishes the chain invariant |
| Hss.HssPrivateKey.SignatureLength | src/hss.c:257-280 | the length summed from the current certificates is the length the types determine |
| Hss.HssPrivateKey.Sign | src/hss.c:282-349 | success keeps the invariant and writes exactly the signatures of the named one-time keys, each spent on what it signed and the last one only now, which the verifier accepts under the unchanged root; any failure leaves the key as it was; each result exactly when |
| Hss.LinksAreUsed | src/hss.c:318-337 | the certificates and the last signature are the signatures of those one-time keys, in order |
| Hss.Verify | src/hss.c:351-406 | the offset loop accepts exactly the byte strings of the recursive definition, with the 32-bit level count |
| Hss.ChainVerifies | src/hss.c:282-406 | a sound chain and a good last signature make the verifier accept the written bytes |
| Hss.RunExtends | src/hss.c:282-349 | over a run of calls the root never changes, generations never go back, and no spent one-time key gets another content |
| Hss.NoUseTwice | src/hss.c:282-349 | a one-time key (level, generation, index) behind the bytes of two released signatures signed the same message or child key in both; one of the last level never stands behind two |
| Hss.ReleasedBytes | src/hss.c:282-349 | the bytes of every release of a run are the signatures of its one-time keys over their contents, and verify under the first root |
| LevelKeys.SeedsApart | src/hss.c:25-56 | two levels, or two generations of one level, with the same seed are a collision on the bytes hashed for them |
| LevelKeys.NamesApart | src/hss.c:25-79 | two names of one-time keys, or two chains, with one secret value are a collision on their hashed strings or on the material of their levels |
| LevelKeys.NoSecretTwice | src/hss.c:282-349 | over a run, a secret chain start behind two released signatures belongs to one key that signed one content, and behind one release only on the last level, unless the hash collides on the strings named |
| TreeConfig.EstimateMemory | src/lms_subtree.c:79-112 | the loop sums the buffers of all layers |
| TreeConfig.ClosedForm | src/lms_subtree.c:79-112 | the estimate is two buffers a lower layer and one on top, whose height is from 1 to j |
| TreeConfig.Configure | src/lms_subtree.c:120-197 | of all subtree sizes within the budget the fewest layers, then the least memory; the least memory of all when none fits, and exactly then over budget |
| TreeConfig.Context.Init | src/lms_subtree.c:240-368 | success requests exactly the estimate plus the level array; a refusal at any point gives everything back; it fails exactly on a refusal |
| TreeConfig.Context.FreeAll | src/lms_subtree.c:370-389 | gives back exactly what the context holds, each block once |
| TreeConfig.Context.AllocatedBytes | src/lms_subtree.c:391-412 | reports the estimate plus the level array |
| Arena.TreePool.Alloc | fw/lms_soc_smoke.c:1036-1050 | with the 32-bit sums of the code: blocks never overlap or leave the arena and a request is refused exactly when the rounded size does not fit, unless the cursor wraps, and then the request is granted and the order is lost; a request of no bytes is answered with the cursor |
| Arena.TreePool.Free | fw/lms_soc_smoke.c:1055-1063 | only the newest block moves the cursor back; NULL and addresses that are not live change nothing; all other live blocks are kept |
| Arena.BuildAt | fw/lms_soc_smoke.c:1029-1072 | a finished build moves the cursor by exactly the bytes of the ignored frees, an abandoned one by no more, and nothing is refused with the peak free |
| Arena.DeepRebuildLeaks | fw/lms_soc_smoke.c:1051-1063 | a rebuild leaves the cursor where it was if and only if at most one layer lies below |
| Arena.BudgetPicksFive | fw/lms_soc_smoke.c:1536-1587 | under the firmware's budget the configurator picks layers of height 5 if and only if the tree is at most 15 high |
| Arena.FingerprintInjective | fw/lms_soc_smoke.c:1559-1577 | equal fingerprints mean the same key up to its index, so a hit never serves another key's tree |
| Arena.TreeCacheState.Ensure | fw/lms_soc_smoke.c:1554-1609 | no allocation is refused; a hit changes nothing; otherwise the cursor ends at level array, buffers and leak exactly |
| Arena.TreeCacheState.AuthPath | fw/lms_soc_smoke.c:1029-1072 | a lookup through a valid cache is never refused memory and leaves cursor and blocks as they were |
| Arena.Lookups | fw/lms_soc_smoke.c:1029-1072 | the same for any number of lookups |
| BenchHeap.TilesApart | bench/bench_crypto.c:47-88 | two blocks with their headers never overlap |
| BenchHeap.FreeSorted | bench/bench_crypto.c:90-116 | the free list is strictly sorted by address |
| BenchHeap.SplitKeeps | bench/bench_crypto.c:60-76 | splitting keeps headers, tiling and list in step |
| BenchHeap.Heap.Alloc | bench/bench_crypto.c:47-88 | hands out the lowest free block that is large enough, split when a header fits behind it, changes no other block; nothing only when none is large enough; all requests but those for which the wrapped split test accepts a free block |
| BenchHeap.Heap.Free | bench/bench_crypto.c:90-116 | turns exactly the live block behind the pointer free and inserts it at its place; NULL, a second free, and a pointer with no header before it change nothing |
| BenchHeap.PlaceInList | bench/bench_crypto.c:103-110 | the address search stops where the block belongs |
| BenchHeap.NeedCovers | bench/bench_crypto.c:51-58 | the rounded request covers the requested size if and only if the rounding does not wrap in 32 bits |
| BenchHeap.NeedLeast | bench/bench_crypto.c:51-58 | without wrap it is the least multiple of 8 that covers the request, or the size of a header |
| BenchHeap.SplitTestExact | bench/bench_crypto.c:60-61 | the 32-bit split test is the intended comparison for all block sizes if and only if request and header do not wrap |
| Sha256.Context.Update | hashs/sha256.c:122-141 | appends its input to what was fed so far |
| Sha256.Context.Final | hashs/sha256.c:143-165 | both padding layouts give the hash of the one-shot padded message |
| Sha256.PaddedShape | hashs/sha256.c:143-160 | the one-block and the two-block layout are both the padding of section 5.1.1 of FIPS 180-4 |
| Sha256.PaddingInjective | hashs/sha256.c:143-160 | below 2^61 bytes no two messages have the same padded form |
| Sha256.PaddedLayout | hashs/sha256.c:143-160 | the message, 0x80, zeros, and in the last eight bytes, read big-endian, the length in bits |
| Sha256.DigestWords | hashs/sha256.c:161-165 | the digest read in big-endian words is the last chaining value |
| Sha256.InitialValue | hashs/sha256.c:108-120 | the initial value is the fractions of the square roots of the first eight primes |
| Sha256.HashParts | src/lms_params.c:319-394 | hashing four parts is hashing their concatenation, streamed for SHA-256 and through the buffer for the other hashes; it fails exactly on length overflow or when a long buffer cannot be had |
| CoefPacking.Pack | src/lms_mmio.c:68-98 | the running shift puts digit i at bit i * w of the little-endian words and uses ceil(p * w / 32) of them |
| CoefPacking.PackedWordFits | src/lms_mmio.c:68-98 | every word stays below 2^32 |
| CoefPacking.PackUnpack | src/lms_mmio.c:536-557 | the div/mod unpacker recovers every digit and stays within the words used |
| CoefPacking.Unpack | src/lms_mmio.c:536-557 | the loop reads digit i at its word and bit; words that hold packed digits give every digit back |
| CoefPacking.OrDisjoint | src/lms_mmio.c:88-95 | OR-ing a shifted digit above the filled bits adds it |
| Interleave.EvenOddBits | hashs/xkcp/KeccakP-1600-inplace32BI.c:35-51 | the delta-swap macros split a lane into its even and odd bits |
| Interleave.InterleaveInverse | hashs/xkcp/KeccakP-1600-inplace32BI.c:35-80 | reading back undoes interleaving |
| Interleave.InterleaveXor | hashs/xkcp/KeccakP-1600-inplace32BI.c:48-51 | interleaving is XOR-linear |
| Sponge.LastBlockIsPadded | hashs/fips202.c:384-395 | the last block is the message with suffix 1111 and pad10*1 of FIPS 202, also at remainder 135 where both bytes coincide |
| Sponge.AddBytes | hashs/xkcp/SnP-Relaned.h:26-50 | both lane-splitting branches add the bytes at the offset into the interleaved state |
| Sponge.AddByte | hashs/xkcp/KeccakP-1600-inplace32BI.c:123-141 | the byte lands at its offset |
| Sponge.ExtractBytes | hashs/xkcp/SnP-Relaned.h:80-111 | both lane-splitting branches read back the bytes of the state at the offset |
| Sponge.LastBlockByParts | hashs/xkcp/xkcp_shake.c:25-31 | adding data, suffix and final bit one after the other makes the padded block |
| Sponge.Fips202Shake256 | hashs/fips202.c:529-547 | the buffer-style sponge returns the specified bytes for every input and output length |
| Sponge.XkcpShake256 | hashs/xkcp/xkcp_shake.c:13-41 | so does the XOR-style sponge on interleaved half-lanes, hence both agree |
| Sponge.ConjugateIsSame | hashs/xkcp/KeccakP-1600-inplace32BI.c:35-80 | every permutation on lanes has an interleaved form, so the condition on the two permutations can always be met |
| Sponge.Capacity | hashs/fips202.h:10 | the rate leaves the capacity of SHAKE256, 512 of 1600 bits |
| Sponge.AbsorbsRate | hashs/fips202.c:367-395 | absorbing takes 136 bytes at a time and keeps lanes 17 to 24 |
| Sponge.ShakeByte | hashs/fips202.c:529-547 | byte 136 k + j of the output is byte j of the state after k + 1 permutations |

## Left out

* Hardware backends and MMIO: the software paths are modelled. Where the firmware depends on the hardware (commit
  transaction, counter step, tag) its outcome is a parameter and may be a failure. With a coefficient backend the hash Q
  need not be filled in; that mixed path carries no claim.
* SHA-256 compression, Keccak rounds and the Haraka functions are arbitrary functions; a failing `lms_hash` (out of
  memory for long inputs) is not modelled. The two sponges are compared for permutations that are the same function up
  to interleaving.
* Loads of eight bytes into a lane are written as concatenations of bit lists, and digit shifts and masks as division
  and remainder; OR is defined bit by bit.
* Node buffers are arrays of 32-byte slots and the level array is two sequences of buffers; byte offsets within them are
  not modelled. `TreeConfig` models the same buffers as allocated blocks, without contents.
* Tree heights are at most 25, as in the parameter table, so leaf numbers do not wrap in 32 bits.
* Secure state: the deploy build. Replay of old or zeroed records by the host, factory initialisation, the key
  derivation from the device identity, tag injection and the wrapping of the seed are not part of the model. A key is
  an identity, a tag an ideal MAC of one key over body and slot number. The hardware counter may return any value; the
  code's own comparison is what the theorems rest on. A key rotation and the host's copy of the wrapped seed change
  together.
* HSS: no global authentication-path backend, and null pointers are not modelled. A one-time key is named by level,
  generation and index; that two names never derive the same key is a property of the hash, and `LevelKeys` names the
  collision otherwise. Margin excludes the exhaustion of generations only in the if-and-only-if of success.
* SecReserve.NoReservationTwice: a reservation that the hardware wrote but answered with a power cut is not counted as
  made, and one without a seed in the hardware belongs to no key.
* BenchHeap.Heap.Alloc: alignment is not claimed. Excluded by precondition are requests whose rounded size and header
  together wrap in 32 bits while a free block passes the wrapped split test: the code would cut that block although it is
  too small, writing one header across another. `realloc` and `calloc` are left out.
* Lms.DoSign: for two known types of different hash, which no key that lms_private_key_init accepted can have, the source
  stores the index before it refuses, even in a buffer shorter than that; the end of the buffer is not modelled.
* TreeCache.TreeContext.BuildActive: a one-layer context stands at leaf 0 or at 2^h, where the operations leave it; other
  values of left_leaf are excluded by precondition.
* Arena: one context per arena; the second, secure cache that shares the arena is left out. The leaves and hashes of a
  build appear only as possible failures there; their values are the subject of `TreeCache`.
* UART framing, TRNG, flash, cycle counters, string helpers, CRCs, parameter-table caches, profiling counters, host
  scripts, SHAKE128, SHA-3 and the Haraka incremental interface: input/output, measurement or easy members.
* `TreeCache.Serve`, `TreeCache.FailThenAsk`, `TreeCache.KeygenThenBuild`, `LmsRuns.IsSignRun`, `Arena.Lookups`,
  `SecRuns.IsRun`, `SecReserve.IsLedgerRun` and `Hss.Run` describe sequences of calls that the callers of the library
  make; they are not in the library itself.
