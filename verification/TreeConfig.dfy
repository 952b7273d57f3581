/** Sizing and storage of the tree cache: the estimate, the configurator and the context life cycle of
    src/lms_subtree.c, over an allocator that may refuse any request. */
module TreeConfig {
  import opened Words
  import opened Params

  const MIN_SUBTREE: nat := 2
  const HASH_LEN: nat := 32

  // ---- geometry ----

  /** Layers of height j that cover a tree of height h. */
  function Sublevels(h: nat, j: nat): nat
    requires j >= 1
  {
    if (h + j - 1) / j == 0 then 1 else (h + j - 1) / j
  }

  function TopHeight(h: nat, j: nat): int
    requires j >= 1
  {
    h - (Sublevels(h, j) - 1) * j
  }

  /** The layers below the top leave it a height from 1 to j, so no smaller number of layers would do. */
  lemma TopFits(h: nat, j: nat)
    requires j >= 1
    ensures 0 <= TopHeight(h, j) <= j && (TopHeight(h, j) == 0 <==> h == 0)
  {
    var m := h + j - 1;
    var k := m / j;
    assert m == k * j + m % j;
    assert (k - 1) * j == k * j - j;
    if h >= 1 && k == 0 {
      assert m >= j;
    }
  }

  function LayerHeight(h: nat, j: nat, s: nat): nat
    requires j >= 1
  {
    TopFits(h, j);
    if s + 1 < Sublevels(h, j) then j else TopHeight(h, j)
  }

  /** Node slots and stack slots of one subtree buffer. */
  function BufferBytes(subH: nat, n: nat): nat {
    Pow2(subH + 1) * n + subH * n
  }

  /** Active and, below the top, upcoming buffer of layer s. */
  function LayerBytes(h: nat, j: nat, n: nat, s: nat): nat
    requires j >= 1
  {
    BufferBytes(LayerHeight(h, j, s), n) + if s + 1 < Sublevels(h, j) then BufferBytes(LayerHeight(h, j, s), n) else 0
  }

  function LayersBytes(h: nat, j: nat, n: nat, s: nat): nat
    requires j >= 1
  {
    if s == 0 then 0 else LayersBytes(h, j, n, s - 1) + LayerBytes(h, j, n, s - 1)
  }

  /** Data bytes of a cache. */
  function CacheBytes(h: nat, j: nat, n: nat): nat
    requires j >= 1
  {
    LayersBytes(h, j, n, Sublevels(h, j))
  }

  lemma {:induction false} LowerLayers(h: nat, j: nat, n: nat, s: nat)
    requires j >= 1 && s < Sublevels(h, j)
    ensures LayersBytes(h, j, n, s) == s * (2 * BufferBytes(j, n))
  {
    hide BufferBytes, Sublevels;
    if s > 0 {
      LowerLayers(h, j, n, s - 1);
      Distribute(s - 1, 1, 2 * BufferBytes(j, n));
    }
  }

  /** The estimate in closed form: two buffers of height j a layer, and one of the remaining height on top. */
  lemma ClosedForm(h: nat, j: nat, n: nat)
    requires j >= 1
    ensures TopHeight(h, j) >= 0
    ensures CacheBytes(h, j, n) == (Sublevels(h, j) - 1) * (2 * BufferBytes(j, n)) + BufferBytes(TopHeight(h, j), n)
  {
    hide BufferBytes, Sublevels;
    TopFits(h, j);
    LowerLayers(h, j, n, Sublevels(h, j) - 1);
  }

  /** lms_tree_estimate_memory */
  method EstimateMemory(h: nat, j: nat, n: nat) returns (bytes: nat, sublevels: nat)
    ensures j == 0 || n == 0 ==> bytes == 0 && sublevels == 0
    ensures j > 0 && n > 0 ==> sublevels == Sublevels(h, j) && bytes == CacheBytes(h, j, n)
  {
    hide Pow2;
    if j == 0 || n == 0 {
      return 0, 0;
    }
    sublevels := (h + j - 1) / j;
    if sublevels == 0 {
      sublevels := 1;
    }
    TopFits(h, j);
    assert sublevels == Sublevels(h, j);
    hide Sublevels;
    var top := h - (sublevels - 1) * j;
    hide TopHeight;
    bytes := 0;
    var s := 0;
    while s < sublevels
      invariant 0 <= s <= sublevels && bytes == LayersBytes(h, j, n, s)
    {
      var subH := if s + 1 < sublevels then j else top;
      var nodes, stack := Pow2(subH + 1) * n, subH * n;
      bytes := bytes + (nodes + stack);
      if s + 1 < sublevels {
        bytes := bytes + (nodes + stack);
      }
      s := s + 1;
    }
  }

  // ---- the configurator ----

  datatype Fit = OverBudget | WithinBudget

  datatype Config = Config(lmsType: nat, height: nat, subtreeSize: nat, sublevels: nat, estMemory: nat, fit: Fit)

  /** Within budget: fewer layers first, then less memory. */
  predicate NoFaster(h: nat, best: nat, j: nat)
    requires best >= 1 && j >= 1
  {
    || Sublevels(h, best) < Sublevels(h, j)
    || (Sublevels(h, best) == Sublevels(h, j) && CacheBytes(h, best, HASH_LEN) <= CacheBytes(h, j, HASH_LEN))
  }

  /** best is the choice among the subtree sizes 2 .. hi - 1 for the given budget. */
  ghost predicate Best(h: nat, target: nat, best: nat, within: bool, hi: nat) {
    && MIN_SUBTREE <= best < hi
    && (within <==> exists j :: MIN_SUBTREE <= j < hi && CacheBytes(h, j, HASH_LEN) <= target)
    && (within ==> CacheBytes(h, best, HASH_LEN) <= target
                   && forall j :: MIN_SUBTREE <= j < hi && CacheBytes(h, j, HASH_LEN) <= target ==> NoFaster(h, best, j))
    && (!within ==> forall j :: MIN_SUBTREE <= j < hi ==> CacheBytes(h, best, HASH_LEN) <= CacheBytes(h, j, HASH_LEN))
  }

  /** lms_tree_configure: of all subtree sizes within the budget one with the fewest layers, and of those the least
      memory; the least memory of all when none fits. */
  method Configure(lmsType: nat, target: nat) returns (config: Option<Config>)
    ensures config.None? <==> LmsParamOf(lmsType).None?
    ensures config.Some? ==>
              var c := config.value;
              && c.lmsType == lmsType && c.height == LmsParamOf(lmsType).value.height
              && Best(c.height, target, c.subtreeSize, c.fit == WithinBudget, c.height + 1)
              && c.sublevels == Sublevels(c.height, c.subtreeSize) && c.estMemory == CacheBytes(c.height, c.subtreeSize, HASH_LEN)
  {
    hide CacheBytes, Sublevels;
    if LmsParamOf(lmsType).None? {
      return None;
    }
    var h := LmsParamOf(lmsType).value.height;
    var foundOver, foundWithin := false, false;
    var bestMem, bestLevels, bestJ := 0, 0, 0;
    var j := MIN_SUBTREE;
    while j <= h
      invariant MIN_SUBTREE <= j <= h + 1
      invariant j == MIN_SUBTREE ==> !foundOver && !foundWithin
      invariant j > MIN_SUBTREE ==>
                  && bestJ >= 1 && Best(h, target, bestJ, foundWithin, j) && (foundOver || foundWithin)
                  && bestMem == CacheBytes(h, bestJ, HASH_LEN) && bestLevels == Sublevels(h, bestJ)
    {
      var mem, levels := EstimateMemory(h, j, HASH_LEN);
      var take := true;
      if mem > target {
        if (foundOver || foundWithin) && mem > bestMem {
          take := false;
        } else {
          foundOver := true;
        }
      } else {
        if foundWithin && levels > bestLevels {
          take := false;
        } else if foundWithin && levels == bestLevels && mem > bestMem {
          take := false;
        } else {
          foundWithin := true;
        }
      }
      if take {
        bestJ, bestMem, bestLevels := j, mem, levels;
      }
      j := j + 1;
    }
    return Some(Config(lmsType, h, bestJ, bestLevels, bestMem, if foundWithin then WithinBudget else OverBudget));
  }

  // ---- storage ----

  /** The injected allocator: what is live, and how many bytes were ever handed out. */
  class Allocator {
    ghost var live: multiset<nat>
    ghost var requested: nat
    ghost var refusals: nat
    var next: nat

    method Alloc(bytes: nat) returns (block: Option<nat>)
      modifies this
      ensures block.None? ==> live == old(live) && requested == old(requested)
      ensures block.Some? ==> live == old(live) + multiset{block.value} && requested == old(requested) + bytes
      ensures refusals == old(refusals) + if block.None? then 1 else 0
    {
      var refused: bool := *;
      if refused {
        refusals := refusals + 1;
        return None;
      }
      block := Some(next);
      next := next + 1;
      live, requested := live + multiset{block.value}, requested + bytes;
    }

    /** Only a live block may be given back. */
    method Free(block: nat)
      requires block in live
      modifies this`live
      ensures live == old(live) - multiset{block}
    {
      live := live - multiset{block};
    }
  }

  /** lms_subtree_t: its height and its two buffers, when allocated. */
  datatype Subtree = Subtree(height: nat, nodes: Option<nat>, stack: Option<nat>)

  datatype Layer = Layer(active: Subtree, upcoming: Subtree, hasUpcoming: bool)

  const NO_SUBTREE: Subtree := Subtree(0, None, None)
  const NO_LAYER: Layer := Layer(NO_SUBTREE, NO_SUBTREE, false)

  function Held(block: Option<nat>): multiset<nat> {
    if block.Some? then multiset{block.value} else multiset{}
  }

  function SubtreeBlocks(sub: Subtree): multiset<nat> {
    Held(sub.nodes) + Held(sub.stack)
  }

  function LayerBlocks(l: Layer): multiset<nat> {
    SubtreeBlocks(l.active) + if l.hasUpcoming then SubtreeBlocks(l.upcoming) else multiset{}
  }

  function LayersBlocks(ls: seq<Layer>): multiset<nat> {
    if |ls| == 0 then multiset{} else LayerBlocks(ls[0]) + LayersBlocks(ls[1..])
  }

  lemma {:induction false} LayersUpdate(ls: seq<Layer>, s: nat, l: Layer)
    requires s < |ls|
    ensures LayersBlocks(ls[s := l]) + LayerBlocks(ls[s]) == LayersBlocks(ls) + LayerBlocks(l)
  {
    hide LayerBlocks;
    if s > 0 {
      var before, after := LayersBlocks(ls[1..]), LayersBlocks(ls[1..][s - 1 := l]);
      LayersUpdate(ls[1..], s - 1, l);
      assert ls[s := l][1..] == ls[1..][s - 1 := l];
      assert LayersBlocks(ls[s := l]) + LayerBlocks(ls[s]) == LayerBlocks(ls[0]) + (after + LayerBlocks(ls[s]));
      assert LayersBlocks(ls) + LayerBlocks(l) == LayerBlocks(ls[0]) + (before + LayerBlocks(l));
    } else {
      assert ls[s := l][1..] == ls[1..];
    }
  }

  lemma {:induction false} NoLayersNoBlocks(n: nat)
    ensures LayersBlocks(seq(n, _ => NO_LAYER)) == multiset{}
  {
    if n > 0 {
      NoLayersNoBlocks(n - 1);
      assert seq(n, _ => NO_LAYER)[1..] == seq(n - 1, _ => NO_LAYER);
    }
  }

  /** Layer s has all its buffers. */
  predicate Complete(l: Layer, h: nat, j: nat, s: nat)
    requires j >= 1
  {
    && l.active.height == LayerHeight(h, j, s) && l.active.nodes.Some? && l.active.stack.Some?
    && l.hasUpcoming == (s + 1 < Sublevels(h, j))
    && (l.hasUpcoming ==> l.upcoming.height == l.active.height && l.upcoming.nodes.Some? && l.upcoming.stack.Some?)
  }

  lemma NoLayerBlocks()
    ensures LayerBlocks(NO_LAYER) == multiset{} && SubtreeBlocks(NO_SUBTREE) == multiset{}
  {
  }

  lemma HeldNone()
    ensures Held(None) == multiset{}
  {
  }

  lemma Regroup(a: multiset<nat>, b: multiset<nat>, c: multiset<nat>)
    ensures a + (b + c) == (a + c) + b == (a + b) + c
  {
  }

  lemma AddInside(a: multiset<nat>, b: multiset<nat>, c: multiset<nat>, d: multiset<nat>)
    ensures a + (b + c) + d == a + (b + (c + d))
  {
  }

  lemma NoLayerBytes(h: nat, j: nat, n: nat)
    requires j >= 1
    ensures LayersBytes(h, j, n, 0) == 0
  {
  }

  lemma MoreLayerBytes(h: nat, j: nat, n: nat, s: nat)
    requires j >= 1
    ensures LayersBytes(h, j, n, s + 1) == LayersBytes(h, j, n, s) + LayerBytes(h, j, n, s)
  {
  }

  lemma LayersFrom(ls: seq<Layer>, s: nat)
    requires s <= |ls|
    ensures LayersBlocks(ls[s..]) == if s < |ls| then LayerBlocks(ls[s]) + LayersBlocks(ls[s + 1..]) else multiset{}
    ensures ls[0..] == ls
  {
    if s < |ls| {
      assert ls[s..][0] == ls[s] && ls[s..][1..] == ls[s + 1..];
    }
  }

  class Context {
    const alloc: Allocator
    var levelArray: Option<nat>
    var layers: seq<Layer>

    constructor (alloc: Allocator)
      ensures this.alloc == alloc && levelArray == None && layers == []
    {
      this.alloc := alloc;
      levelArray, layers := None, [];
    }

    /** Everything the context holds. */
    ghost function Blocks(): multiset<nat>
      reads this
    {
      Held(levelArray) + LayersBlocks(layers)
    }

    /** subtree_init_buffers: both buffers or none. */
    method InitBuffers(subH: nat, n: nat) returns (ok: bool, sub: Subtree)
      requires subH > 0
      modifies alloc
      ensures alloc.live == old(alloc.live) + SubtreeBlocks(sub)
      ensures ok ==> sub.height == subH && sub.nodes.Some? && sub.stack.Some?
      ensures ok ==> alloc.requested == old(alloc.requested) + BufferBytes(subH, n)
      ensures !ok ==> sub.nodes.None? && sub.stack.None?
      ensures ok <==> alloc.refusals == old(alloc.refusals)
      ensures alloc.refusals >= old(alloc.refusals)
    {
      hide Pow2;
      var nodes := alloc.Alloc(Pow2(subH + 1) * n);
      sub := Subtree(subH, nodes, None);
      if nodes.None? {
        return false, sub;
      }
      var stack := alloc.Alloc(subH * n);
      sub := sub.(stack := stack);
      ok := stack.Some?;
      if !ok {
        sub := FreeBuffers(sub, old(alloc.live));
      }
    }

    /** subtree_free_buffers */
    method FreeBuffers(sub: Subtree, ghost rest: multiset<nat>) returns (sub': Subtree)
      requires alloc.live == rest + SubtreeBlocks(sub)
      modifies alloc`live
      ensures alloc.live == rest && sub' == sub.(nodes := None, stack := None)
    {
      hide Held;
      Regroup(rest, Held(sub.nodes), Held(sub.stack));
      FreeHeld(sub.nodes, rest + Held(sub.stack));
      FreeHeld(sub.stack, rest);
      sub' := sub.(nodes := None, stack := None);
    }

    /** lms_tree_ctx_init for a configuration of Configure: on success exactly the estimate and the level array were
        requested and are held; on failure, wherever it happens, everything has been given back. */
    method Init(h: nat, j: nat, n: nat, layerSize: nat) returns (ok: bool)
      requires h >= 1 && j >= MIN_SUBTREE && n > 0
      modifies this, alloc
      ensures ok ==> alloc.live == old(alloc.live) + Blocks() && levelArray.Some? && |layers| == Sublevels(h, j)
      ensures ok ==> forall s :: 0 <= s < |layers| ==> Complete(layers[s], h, j, s)
      ensures ok ==> alloc.requested == old(alloc.requested) + Sublevels(h, j) * layerSize + CacheBytes(h, j, n)
      ensures !ok ==> alloc.live == old(alloc.live) && levelArray == None && layers == []
      ensures ok <==> alloc.refusals == old(alloc.refusals)
    {
      hide Sublevels, BufferBytes, LayerHeight, LayerBytes, LayersBlocks, LayerBlocks, TopHeight, Pow2, Complete, SubtreeBlocks,
           LayersBytes, Context.Blocks;
      TopFits(h, j);
      var sublevels := Sublevels(h, j);
      var arrayBytes := sublevels * layerSize;
      layers := [];
      levelArray := alloc.Alloc(arrayBytes);
      NoLayersNoBlocks(0);
      if levelArray.None? {
        return false;
      }
      layers := seq(sublevels, _ => NO_LAYER);
      NoLayersNoBlocks(sublevels);
      FirstBlock();
      NoLayerBytes(h, j, n);
      var s := 0;
      while s < sublevels
        invariant 0 <= s <= sublevels == |layers| && levelArray.Some?
        invariant alloc.live == old(alloc.live) + Blocks() && alloc.refusals == old(alloc.refusals)
        invariant alloc.requested == old(alloc.requested) + arrayBytes + LayersBytes(h, j, n, s)
        invariant forall k :: 0 <= k < s ==> Complete(layers[k], h, j, k)
        invariant forall k :: s <= k < sublevels ==> layers[k] == NO_LAYER
      {
        ok := InitLayer(h, j, n, s, old(alloc.live));
        MoreLayerBytes(h, j, n, s);
        if !ok {
          FreeAll(old(alloc.live));
          return false;
        }
        s := s + 1;
      }
      ok := true;
    }

    /** One turn of the loop of lms_tree_ctx_init. */
    method InitLayer(h: nat, j: nat, n: nat, s: nat, ghost rest: multiset<nat>) returns (ok: bool)
      requires alloc.live == rest + Blocks()
      requires h >= 1 && j >= 1 && |layers| == Sublevels(h, j) && s < |layers| && layers[s] == NO_LAYER
      modifies this`layers, alloc
      ensures |layers| == old(|layers|) && forall k :: 0 <= k < |layers| && k != s ==> layers[k] == old(layers[k])
      ensures alloc.live == rest + Blocks()
      ensures (ok <==> alloc.refusals == old(alloc.refusals)) && alloc.refusals >= old(alloc.refusals)
      ensures ok ==> Complete(layers[s], h, j, s) && alloc.requested == old(alloc.requested) + LayerBytes(h, j, n, s)
    {
      hide Sublevels, BufferBytes, LayersBlocks, TopHeight, SubtreeBlocks;
      var subH := LayerHeight(h, j, s);
      TopFits(h, j);
      ghost var before := layers;
      var hasUpcoming := s + 1 < Sublevels(h, j);
      var active, upcoming := NO_SUBTREE, NO_SUBTREE;
      ok, active := InitBuffers(subH, n);
      layers := layers[s := Layer(active, NO_SUBTREE, false)];
      if ok && hasUpcoming {
        ok, upcoming := InitBuffers(subH, n);
        layers := layers[s := Layer(active, upcoming, true)];
      }
      LayersUpdate(before, s, layers[s]);
      NoLayerBlocks();
      assert layers == before[s := layers[s]];
      assert LayersBlocks(layers) == LayersBlocks(before) + LayerBlocks(layers[s]);
      assert alloc.live == old(alloc.live) + LayerBlocks(layers[s]);
      AddInside(rest, Held(levelArray), LayersBlocks(before), LayerBlocks(layers[s]));
    }

    lemma FirstBlock()
      requires levelArray.Some? && LayersBlocks(layers) == multiset{}
      ensures Blocks() == multiset{levelArray.value}
    {
    }

    /** lms_tree_ctx_free: gives back exactly what the context holds, once; a second call finds nothing. */
    method FreeAll(ghost rest: multiset<nat>)
      requires alloc.live == rest + Blocks() && (levelArray.None? ==> layers == [])
      modifies this, alloc`live
      ensures alloc.live == rest && levelArray == None && layers == []
    {
      hide LayerBlocks, LayersBlocks, Held;
      LayersFrom(layers, |layers|);
      LayersFrom(layers, 0);
      if levelArray.None? {
        HeldNone();
        return;
      }
      Regroup(rest, Held(levelArray), LayersBlocks(layers));
      ghost var kept := rest + Held(levelArray);
      var s := 0;
      while s < |layers|
        invariant 0 <= s <= |layers| && levelArray == old(levelArray) && layers == old(layers)
        invariant alloc.live == kept + LayersBlocks(layers[s..])
      {
        LayersFrom(layers, s);
        Regroup(kept, LayerBlocks(layers[s]), LayersBlocks(layers[s + 1..]));
        FreeLayer(layers[s], kept + LayersBlocks(layers[s + 1..]));
        s := s + 1;
      }
      LayersFrom(layers, |layers|);
      FreeHeld(levelArray, rest);
      levelArray, layers := None, [];
    }

    method FreeHeld(block: Option<nat>, ghost rest: multiset<nat>)
      requires alloc.live == rest + Held(block)
      modifies alloc`live
      ensures alloc.live == rest
    {
      if block.Some? {
        alloc.Free(block.value);
      }
    }

    method FreeLayer(l: Layer, ghost rest: multiset<nat>)
      requires alloc.live == rest + LayerBlocks(l)
      modifies alloc`live
      ensures alloc.live == rest
    {
      var active := FreeBuffers(l.active, rest + if l.hasUpcoming then SubtreeBlocks(l.upcoming) else multiset{});
      if l.hasUpcoming {
        var upcoming := FreeBuffers(l.upcoming, rest);
      }
    }

    /** lms_tree_ctx_allocated_bytes */
    method AllocatedBytes(h: nat, j: nat, n: nat, layerSize: nat) returns (total: nat)
      requires j >= 1
      requires levelArray.Some? ==> |layers| == Sublevels(h, j) && forall s :: 0 <= s < |layers| ==> Complete(layers[s], h, j, s)
      ensures total == if levelArray.Some? then Sublevels(h, j) * layerSize + CacheBytes(h, j, n) else 0
    {
      hide Sublevels, LayerHeight, Pow2;
      if levelArray.None? {
        return 0;
      }
      total := |layers| * layerSize;
      var s := 0;
      while s < |layers|
        invariant 0 <= s <= |layers|
        invariant total == |layers| * layerSize + LayersBytes(h, j, n, s)
      {
        var l := layers[s];
        assert Complete(layers[s], h, j, s);
        var nodes := Pow2(l.active.height + 1) * n;
        total := total + nodes + (if l.active.stack.Some? then l.active.height * n else 0);
        if l.hasUpcoming {
          total := total + nodes + (if l.upcoming.stack.Some? then l.active.height * n else 0);
        }
        s := s + 1;
      }
    }
  }
}
