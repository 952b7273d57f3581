/** The firmware's sequential arena (fw/lms_soc_smoke.c) under the allocations of a tree cache: frees count only in
    strict last-in first-out order, so what a nested build leaves behind has to be accounted for. */
module Arena {
  import opened Words
  import opened Params
  import opened Lmots
  import opened TreeConfig

  // ---- the pool ----

  class TreePool {
    const capacity: nat
    var used: nat
    var last: Option<nat>
    var lastSize: nat
    ghost var live: map<nat, nat>

    /** The arena is a static array, far smaller than the address space. */
    constructor (capacity: nat)
      requires capacity < WORD / 2
      ensures this.capacity == capacity && Valid() && used == 0 && last == None && live == map[]
    {
      this.capacity := capacity;
      used, last, lastSize, live := 0, None, 0, map[];
    }

    /** Live blocks lie below the cursor and never overlap; the remembered block ends at the cursor, and is live unless
        it has no bytes. */
    ghost predicate Valid()
      reads this
    {
      && used <= capacity < WORD / 2
      && (forall p :: p in live ==> live[p] > 0 && p + live[p] <= used)
      && (forall p, q :: p in live && q in live && p != q ==> p + live[p] <= q || q + live[q] <= p)
      && (last.Some? ==> last.value + lastSize == used
                         && if lastSize > 0 then last.value in live && live[last.value] == lastSize else last.value !in live)
    }

    /** tree_pool_alloc, with the 32-bit sums of the code. A request of no bytes is answered with the cursor. When the
        cursor wraps, the request is granted although it does not fit. */
    method Alloc(size: nat) returns (block: Option<nat>)
      requires Valid() && size < WORD
      modifies this
      ensures old(used) + Aligned(size) < WORD ==> Valid() && (block.Some? <==> old(used) + Aligned(size) <= capacity)
      ensures old(used) + Aligned(size) >= WORD ==> block.Some? && !Valid()
      ensures block.None? ==> used == old(used) && last == old(last) && live == old(live)
      ensures block.Some? ==> block == Some(old(used)) && used == (old(used) + Aligned(size)) % WORD && last == block
                              && block.value !in old(live)
                              && live == if Aligned(size) == 0 then old(live) else old(live)[block.value := Aligned(size)]
    {
      var aligned := (size + 3) % WORD / 4 * 4;
      if (used + aligned) % WORD > capacity {
        return None;
      }
      block := Some(used);
      assert used !in live;
      if aligned > 0 {
        live := live[used := aligned];
      }
      used := (used + aligned) % WORD;
      last, lastSize := block, aligned;
    }

    /** Requests of less than half the address space never wrap the cursor. */
    lemma NoWrap(size: nat)
      requires Valid() && size <= WORD / 2 - 4
      ensures used + Aligned(size) < WORD
    {
    }

    /** tree_pool_free: only the block allocated last gives its bytes back; NULL and addresses that are not live change
        nothing. */
    method Free(block: Option<nat>)
      requires Valid()
      modifies this
      ensures Valid() && live == if block.Some? then old(live) - {block.value} else old(live)
      ensures used == if block.Some? && old(last) == block then block.value else old(used)
      ensures last == if block.Some? && old(last) == block then None else old(last)
    {
      if block.Some? && last == block {
        used := used - lastSize;
        last, lastSize := None, 0;
      }
      live := if block.Some? then live - {block.value} else live;
    }

    /** tree_pool_reset, once nothing is live */
    method Reset()
      requires Valid() && live == map[]
      modifies this
      ensures Valid() && used == 0 && last == None && live == map[]
    {
      used, last, lastSize := 0, None, 0;
    }
  }

  /** uint32_t of the RV32 target */
  const WORD: nat := 0x1_0000_0000

  /** Requests are rounded up to 4 bytes, in 32 bits. */
  function Aligned(size: nat): (r: nat)
    ensures size + 3 < WORD ==> r >= size && (size % 4 == 0 ==> r == size)
  {
    (size + 3) % WORD / 4 * 4
  }

  // ---- what builds leave behind ----

  /** The firmware's caches have layers of height 5, so a build above the bottom keeps 32 roots of 32 bytes. */
  const LAYER: nat := 5
  const FAN: nat := 32
  const ROOTS: nat := 1024

  /** Bytes a finished build of layer s leaves taken: its own roots unless they were the last block when freed, and
      whatever its 32 builds one layer below leave. */
  function Leak(s: nat): nat {
    if s <= 1 then 0 else ROOTS + FAN * Leak(s - 1)
  }

  /** Bytes above the cursor that a build of layer s may need at once. */
  function Peak(s: nat): nat {
    if s == 0 then 0 else ROOTS + (FAN - 1) * Leak(s - 1) + Peak(s - 1)
  }

  lemma LeakSteps(s: nat, k: nat, m: nat)
    requires k <= m
    ensures k * Leak(s) <= m * Leak(s) && (k + 1) * Leak(s) == k * Leak(s) + Leak(s)
  {
    MulLe(k, m, Leak(s));
  }

  /** The allocations of subtree_build_at for layer s, where any leaf or hash below may fail. A finished build moves
      the cursor by exactly Leak(s), an abandoned one by no more; with Peak(s) bytes free no request is refused; no
      block of anyone else is touched. */
  method BuildAt(pool: TreePool, s: nat, reliable: bool) returns (ok: bool, refused: bool)
    requires pool.Valid()
    modifies pool
    ensures pool.Valid() && pool.live == old(pool.live)
    ensures old(pool.used) <= pool.used <= old(pool.used) + Leak(s)
    ensures ok ==> pool.used == old(pool.used) + Leak(s) && !refused
    ensures ok && s > 0 ==> pool.last == None
    ensures s == 0 ==> pool.last == old(pool.last)
    ensures old(pool.used) + Peak(s) <= pool.capacity ==> !refused
    ensures reliable && !refused ==> ok
    decreases s
  {
    hide TreePool.Valid;
    refused := false;
    var works: bool := *;
    ok := reliable || works;
    if s == 0 {
      return;
    }
    pool.NoWrap(FAN * 32);
    var roots := pool.Alloc(FAN * 32);
    if roots.None? {
      return false, true;
    }
    ghost var mine := pool.live;
    var p := roots.value;
    var k := 0;
    ok := true;
    while k < FAN && ok
      invariant 0 <= k <= FAN && pool.Valid() && pool.live == mine
      invariant s == 1 ==> pool.last == Some(p) && pool.used == p + ROOTS
      invariant s > 1 && ok && k > 0 ==> pool.last == None
      invariant ok ==> pool.used == p + ROOTS + k * Leak(s - 1) && !refused
      invariant reliable && !refused ==> ok
      invariant p + ROOTS <= pool.used <= p + ROOTS + FAN * Leak(s - 1)
      invariant p + Peak(s) <= pool.capacity ==> !refused
      decreases FAN - k, ok
    {
      LeakSteps(s - 1, k, FAN - 1);
      LeakSteps(s - 1, k + 1, FAN);
      ok, refused := BuildAt(pool, s - 1, reliable);
      if ok {
        k := k + 1;
      }
    }
    if ok {
      works := *;
      ok := reliable || works;
    }
    pool.Free(roots);
    assert pool.live == old(pool.live);
  }

  function LeakBelow(layers: nat): nat {
    if layers == 0 then 0 else LeakBelow(layers - 1) + Leak(layers - 1)
  }

  /** lms_tree_sign_init: builds every layer in turn. */
  method SignInit(pool: TreePool, layers: nat, reliable: bool) returns (ok: bool, refused: bool)
    requires pool.Valid()
    modifies pool
    ensures pool.Valid() && pool.live == old(pool.live)
    ensures ok ==> pool.used == old(pool.used) + LeakBelow(layers) && !refused
    ensures (forall s :: 0 <= s < layers ==> old(pool.used) + LeakBelow(s) + Peak(s) <= pool.capacity) ==> !refused
    ensures reliable && !refused ==> ok
  {
    hide TreePool.Valid, Leak, Peak;
    ok, refused := true, false;
    var s := 0;
    while s < layers
      invariant 0 <= s <= layers && ok && !refused && pool.Valid() && pool.live == old(pool.live)
      invariant pool.used == old(pool.used) + LeakBelow(s)
    {
      ok, refused := BuildAt(pool, s, reliable);
      if !ok {
        return;
      }
      s := s + 1;
    }
  }

  /** One cached lookup (lms_subtree_auth_path_backend): any of the layers below the top may be rebuilt, and a leaf may
      fail. With at most three layers the cursor ends where it was, whatever happens. */
  method Lookup(pool: TreePool, layers: nat, reliable: bool) returns (ok: bool, refused: bool)
    requires pool.Valid() && layers <= 3
    modifies pool
    ensures pool.Valid() && pool.live == old(pool.live) && pool.used == old(pool.used)
    ensures old(pool.used) + ROOTS <= pool.capacity ==> !refused
    ensures reliable && !refused ==> ok
  {
    hide TreePool.Valid;
    ok, refused := true, false;
    var s := 0;
    while s + 1 < layers
      invariant 0 <= s && ok && !refused && pool.Valid() && pool.live == old(pool.live) && pool.used == old(pool.used)
    {
      var stale: bool := *;
      if stale {
        ok, refused := BuildAt(pool, s, reliable);
        if !ok {
          return;
        }
      }
      s := s + 1;
    }
  }

  /** Any number of lookups. */
  method Lookups(pool: TreePool, layers: nat, n: nat, reliable: bool) returns (anyRefused: bool)
    requires pool.Valid() && layers <= 3
    modifies pool
    ensures pool.Valid() && pool.live == old(pool.live) && pool.used == old(pool.used)
    ensures old(pool.used) + ROOTS <= pool.capacity ==> !anyRefused
  {
    anyRefused := false;
    var i := 0;
    while i < n
      invariant pool.Valid() && pool.live == old(pool.live) && pool.used == old(pool.used)
      invariant old(pool.used) + ROOTS <= pool.capacity ==> !anyRefused
    {
      var ok, refused := Lookup(pool, layers, reliable);
      anyRefused := anyRefused || refused;
      i := i + 1;
    }
  }

  /** The bound on the number of layers matters: rebuilding a layer with two layers below it moves the cursor. */
  lemma DeepRebuildLeaks(s: nat)
    ensures Leak(s) == 0 <==> s <= 1
  {
  }

  // ---- the choice of layers ----

  const MEMORY_TARGET: nat := 12288
  const ARENA_DATA: nat := 16384

  lemma BufferGrows(a: nat, b: nat)
    requires a <= b
    ensures BufferBytes(a, 32) <= BufferBytes(b, 32)
  {
    Pow2Monotone(a + 1, b + 1);
  }

  /** Cache sizes that matter for the budget. */
  lemma KnownSizes()
    ensures CacheBytes(5, 5, 32) == 2208 && Sublevels(5, 5) == 1
    ensures CacheBytes(10, 5, 32) == 6624 && Sublevels(10, 5) == 2
    ensures CacheBytes(15, 5, 32) == 11040 && Sublevels(15, 5) == 3
    ensures CacheBytes(20, 5, 32) == 15456 && CacheBytes(20, 4, 32) == 10368
    ensures CacheBytes(25, 5, 32) == 19872 && CacheBytes(25, 3, 32) == 9888
  {
    hide CacheBytes, Pow2;
    Powers();
    LargePowers();
    ClosedForm(5, 5, 32);
    ClosedForm(10, 5, 32);
    ClosedForm(15, 5, 32);
    ClosedForm(20, 5, 32);
    ClosedForm(20, 4, 32);
    ClosedForm(25, 5, 32);
    ClosedForm(25, 3, 32);
  }

  /** Every other subtree size is over the budget or worse than 5 for heights up to 15. */
  lemma FiveIsBest(h: nat, j: nat)
    requires h in {5, 10, 15} && MIN_SUBTREE <= j <= h && j != 5
    ensures CacheBytes(h, j, 32) > MEMORY_TARGET || !NoFaster(h, j, 5)
  {
    hide CacheBytes, Pow2;
    Powers();
    LargePowers();
    KnownSizes();
    ClosedForm(h, j, 32);
    TopFits(h, j);
    if j >= 9 {
      BufferGrows(9, j);
      assert BufferBytes(9, 32) > MEMORY_TARGET by { Pow2Add(5, 5); }
      BigBuffer(h, j);
    } else if h == 15 && j == 6 {
    } else if h == 10 && j == 6 {
    } else if j == 7 || j == 8 {
      BigBuffer(h, j);
    }
  }

  /** With two layers or more the lower one alone needs two buffers of height j. */
  lemma BigBuffer(h: nat, j: nat)
    requires h >= 1 && j >= 1
    ensures CacheBytes(h, j, 32) >= BufferBytes(if Sublevels(h, j) == 1 then h else j, 32)
    ensures Sublevels(h, j) >= 2 ==> CacheBytes(h, j, 32) >= 2 * BufferBytes(j, 32)
  {
    hide CacheBytes, BufferBytes;
    TopFits(h, j);
    ClosedForm(h, j, 32);
    if Sublevels(h, j) >= 2 {
      MulLe(1, Sublevels(h, j) - 1, 2 * BufferBytes(j, 32));
    }
  }

  /** The configurator picks layers of height 5 under the firmware's budget exactly for trees of height up to 15. */
  lemma BudgetPicksFive(h: nat, best: nat, within: bool)
    requires h in {5, 10, 15, 20, 25} && Best(h, MEMORY_TARGET, best, within, h + 1)
    ensures best == 5 <==> h <= 15
    ensures h <= 15 ==> CacheBytes(h, 5, 32) == (h / 5 - 1) * 4416 + 2208 && Sublevels(h, 5) == h / 5
  {
    hide CacheBytes, Sublevels;
    KnownSizes();
    if h <= 15 {
      if best != 5 {
        FiveIsBest(h, best);
      }
    } else if h == 20 {
      assert CacheBytes(h, 4, HASH_LEN) <= MEMORY_TARGET;
    } else {
      assert CacheBytes(h, 3, HASH_LEN) <= MEMORY_TARGET;
    }
  }

  // ---- the firmware's cache ----

  /** I || seed || u32(lms_type) || u32(lmots_type) */
  function Fingerprint(k: PrivateKey): Bytes {
    k.I + k.seed + StoreU32(k.lmsType) + StoreU32(k.otsType)
  }

  /** Equal fingerprints mean the same key up to its signing index, so a cache hit never serves another key's tree. */
  lemma FingerprintInjective(k: PrivateKey, k': PrivateKey)
    requires |k.I| == |k'.I| == 16 && |k.seed| == |k'.seed| == 32
    requires k.lmsType < 0x1_0000_0000 && k'.lmsType < 0x1_0000_0000
    requires k.otsType < 0x1_0000_0000 && k'.otsType < 0x1_0000_0000
    requires Fingerprint(k) == Fingerprint(k')
    ensures k' == k.(q := k'.q)
  {
    hide StoreU32;
    var b, b' := Fingerprint(k), Fingerprint(k');
    assert b[..16] == k.I && b'[..16] == k'.I;
    assert b[16..48] == k.seed && b'[16..48] == k'.seed;
    assert b[48..52] == StoreU32(k.lmsType) && b'[48..52] == StoreU32(k'.lmsType);
    assert b[52..56] == StoreU32(k.otsType) && b'[52..56] == StoreU32(k'.otsType);
    U32RoundTrip(k.lmsType);
    U32RoundTrip(k'.lmsType);
    U32RoundTrip(k.otsType);
    U32RoundTrip(k'.otsType);
  }

  class TreeCacheState {
    const pool: TreePool
    const layerSize: nat
    var valid: bool
    var fingerprint: Bytes
    var held: seq<nat>
    var layers: nat

    constructor (layerSize: nat)
      requires layerSize > 0 && layerSize % 4 == 0 && 3 * layerSize + ARENA_DATA < WORD / 2
      ensures Sound() && !valid && this.layerSize == layerSize && fresh(pool)
    {
      this.layerSize := layerSize;
      var arena := new TreePool(3 * layerSize + ARENA_DATA);
      pool := arena;
      valid, fingerprint, held, layers := false, [], [], 0;
    }

    /** The context's blocks are exactly what is live; a valid cache has at most three layers and leaves room for
        the roots of one rebuild. */
    ghost predicate Sound()
      reads this, pool
    {
      && layerSize > 0 && layerSize % 4 == 0 && pool.capacity == 3 * layerSize + ARENA_DATA
      && pool.Valid() && Holds(pool.live, held, 0)
      && (valid ==> 1 <= layers <= 3 && pool.used + ROOTS <= pool.capacity)
    }

    /** tree_cache_invalidate: gives the context's blocks back (in any order: a reset precedes the next allocation). */
    method Invalidate()
      requires Sound()
      modifies this, pool
      ensures Sound() && !valid && held == [] && pool.live == map[]
    {
      hide TreePool.Valid;
      valid := false;
      var i := 0;
      while i < |held|
        invariant 0 <= i <= |held| && pool.Valid() && Holds(pool.live, held, i) && held == old(held) && !valid
      {
        pool.Free(Some(held[i]));
        i := i + 1;
      }
      assert pool.live == map[];
      held := [];
    }

    method Hold(size: nat)
      requires pool.Valid() && Holds(pool.live, held, 0) && size > 0 && size % 4 == 0 && pool.used + size <= pool.capacity
      modifies this`held, pool
      ensures pool.Valid() && Holds(pool.live, held, 0) && pool.used == old(pool.used) + size
    {
      var block := pool.Alloc(size);
      held := held + [block.value];
    }

    /** lms_tree_ctx_init on the empty arena: by the check made before, no request is refused. */
    method CtxInit(h: nat, n: nat)
      requires pool.Valid() && pool.used == 0 && held == [] && pool.live == map[]
      requires h >= 1 && n == Sublevels(h, LAYER) && h == n * LAYER && layerSize > 0 && layerSize % 4 == 0
      requires CacheBytes(h, LAYER, 32) + n * layerSize <= pool.capacity
      modifies this`held, pool
      ensures pool.Valid() && Holds(pool.live, held, 0)
      ensures pool.used == n * layerSize + CacheBytes(h, LAYER, 32)
    {
      hide TreePool.Valid, Holds, Sublevels;
      HoldsNothing(pool.live);
      TopFits(h, LAYER);
      LayerArray(n, layerSize);
      Hold(n * layerSize);
      var s := 0;
      while s < n
        invariant 0 <= s <= n && pool.Valid() && Holds(pool.live, held, 0)
        invariant pool.used == n * layerSize + LayersBytes(h, LAYER, 32, s)
      {
        LayersMonotone(h, LAYER, s + 1, n);
        FiveLayer(h, s, n);
        Hold(2048);
        Hold(160);
        if s + 1 < n {
          Hold(2048);
          Hold(160);
        }
        s := s + 1;
      }
    }

    /** tree_cache_ensure. A hit changes nothing. Otherwise the old cache is given up, and the new one is built when
        the configurator picks layers of height 5, which is when the tree is at most 15 high; then no allocation is
        refused and only a failing leaf or hash can prevent the cache. */
    method Ensure(k: PrivateKey, reliable: bool) returns (ok: bool, refused: bool)
      requires Sound() && |k.I| == 16 && |k.seed| == 32
      modifies this, pool
      ensures Sound() && !refused && (ok ==> valid && fingerprint == Fingerprint(k))
      ensures reliable && LmsParamOf(k.lmsType).Some? && LmsParamOf(k.lmsType).value.height <= 15 ==> ok
      ensures old(valid) && old(fingerprint) == Fingerprint(k) ==>
                ok && held == old(held) && layers == old(layers) && pool.used == old(pool.used) && pool.live == old(pool.live)
      ensures ok && !(old(valid) && old(fingerprint) == Fingerprint(k)) ==>
                && LmsParamOf(k.lmsType).Some? && LmsParamOf(k.lmsType).value.height == layers * LAYER
                && pool.used == layers * layerSize + CacheBytes(layers * LAYER, LAYER, 32) + LeakBelow(layers)
    {
      hide TreePool.Valid, Holds, CacheBytes, Sublevels, Best, LeakBelow, StoreU32;
      refused := false;
      if valid && fingerprint == Fingerprint(k) {
        return true, false;
      }
      Invalidate();
      var config := Configure(k.lmsType, MEMORY_TARGET);
      if config.None? {
        return false, false;
      }
      var c := config.value;
      BudgetPicksFive(c.height, c.subtreeSize, c.fit == WithinBudget);
      FitsArena(c.sublevels, layerSize);
      if c.subtreeSize != LAYER || c.estMemory + c.sublevels * layerSize > pool.capacity {
        return false, false;
      }
      pool.Reset();
      CtxInit(c.height, c.sublevels);
      RoomForBuilds(pool.used, c.sublevels, layerSize);
      ok, refused := SignInit(pool, c.sublevels, reliable);
      if !ok {
        Invalidate();
        return;
      }
      fingerprint, layers, valid := Fingerprint(k), c.sublevels, true;
    }

    /** A lookup through a valid cache never runs out of arena and leaves cursor and blocks as they were. */
    method AuthPath(reliable: bool) returns (ok: bool, refused: bool)
      requires Sound() && valid
      modifies pool
      ensures Sound() && !refused && pool.used == old(pool.used) && pool.live == old(pool.live)
      ensures reliable ==> ok
    {
      ok, refused := Lookup(pool, layers, reliable);
    }
  }

  /** From position i on, the held addresses are distinct and exactly the live ones. */
  ghost predicate Holds(live: map<nat, nat>, held: seq<nat>, i: nat)
    requires i <= |held|
  {
    && (forall a, b :: 0 <= a < b < |held| ==> held[a] != held[b])
    && (forall p :: p in live <==> p in held[i..])
  }

  lemma HoldsNothing(live: map<nat, nat>)
    requires live == map[]
    ensures Holds(live, [], 0)
  {
  }

  lemma LayerArray(n: nat, layerSize: nat)
    requires n >= 1 && layerSize > 0 && layerSize % 4 == 0
    ensures n * layerSize > 0 && n * layerSize % 4 == 0
  {
    MulLe(1, n, layerSize);
    assert layerSize == 4 * (layerSize / 4);
    assert n * layerSize == 4 * (n * (layerSize / 4));
  }

  lemma {:induction false} LayersMonotone(h: nat, j: nat, s: nat, n: nat)
    requires j >= 1 && s <= n
    ensures LayersBytes(h, j, 32, s) <= LayersBytes(h, j, 32, n)
  {
    hide LayerBytes;
    if s < n {
      LayersMonotone(h, j, s, n - 1);
    }
  }

  lemma FitsArena(n: nat, layerSize: nat)
    ensures 1 <= n <= 3 ==> (n - 1) * 4416 + 2208 + n * layerSize <= 3 * layerSize + ARENA_DATA
  {
    if n <= 3 {
      MulLe(n, 3, layerSize);
    }
  }

  /** A full layer of height 5: 2208 bytes a buffer. */
  lemma FiveLayer(h: nat, s: nat, n: nat)
    requires h >= 1 && n == Sublevels(h, LAYER) && h == n * LAYER && s < n
    ensures LayerBytes(h, LAYER, 32, s) == if s + 1 < n then 4416 else 2208
  {
    Powers();
    LargePowers();
    hide Pow2;
    TopFits(h, LAYER);
  }

  /** What is left after the buffers is enough for every build of sign_init and, afterwards, for one rebuild. */
  lemma RoomForBuilds(used: nat, n: nat, layerSize: nat)
    requires 1 <= n <= 3 && used == n * layerSize + (n - 1) * 4416 + 2208
    ensures forall s :: 0 <= s < n ==> used + LeakBelow(s) + Peak(s) <= 3 * layerSize + ARENA_DATA
    ensures used + LeakBelow(n) + ROOTS <= 3 * layerSize + ARENA_DATA
  {
    MulLe(n, 3, layerSize);
    assert Leak(2) == 1024 && Peak(1) == 1024 && Peak(2) == 2048;
    assert LeakBelow(1) == 0 && LeakBelow(2) == 0 && LeakBelow(3) == 1024;
  }
}
