/** The first-fit heap of bench/bench_crypto.c: a linked free list kept in address order inside one arena. */
module BenchHeap {
  import opened Words

  const LIVE: nat := 0xBEBCA11C
  const FREED: nat := 0xBEBCA11D

  /** bench_mem_block, found at its address in the arena. */
  datatype Header = Header(size: nat, magic: nat, next: Option<nat>)

  /** One block with its header: it occupies addr .. addr + header + size. */
  datatype Tile = Tile(addr: nat, size: nat, free: bool)

  // ---- tilings ----

  function End(t: Tile, header: nat): nat {
    t.addr + header + t.size
  }

  /** Consecutive blocks from start, without gap or overlap. */
  ghost predicate Tiling(ts: seq<Tile>, header: nat, start: nat, stop: nat) {
    if |ts| == 0 then start == stop
    else ts[0].addr == start && Tiling(ts[1..], header, End(ts[0], header), stop)
  }

  lemma {:induction false} TilingSplit(a: seq<Tile>, t: Tile, b: seq<Tile>, header: nat, start: nat, stop: nat)
    requires Tiling(a + [t] + b, header, start, stop)
    ensures Tiling(a, header, start, t.addr) && Tiling(b, header, End(t, header), stop)
  {
    if |a| == 0 {
      assert (a + [t] + b)[1..] == b;
    } else {
      assert (a + [t] + b)[1..] == a[1..] + [t] + b;
      TilingSplit(a[1..], t, b, header, End(a[0], header), stop);
    }
  }

  lemma {:induction false} TilingJoin(a: seq<Tile>, b: seq<Tile>, header: nat, start: nat, mid: nat, stop: nat)
    requires Tiling(a, header, start, mid) && Tiling(b, header, mid, stop)
    ensures Tiling(a + b, header, start, stop)
  {
    if |a| == 0 {
      assert a + b == b;
    } else {
      assert (a + b)[1..] == a[1..] + b;
      TilingJoin(a[1..], b, header, End(a[0], header), mid, stop);
    }
  }

  /** Every tile lies inside the tiled range. */
  lemma {:induction false} TileInside(ts: seq<Tile>, header: nat, start: nat, stop: nat, i: nat)
    requires Tiling(ts, header, start, stop) && i < |ts|
    ensures start <= ts[i].addr && End(ts[i], header) <= stop
    decreases |ts|
  {
    if i > 0 {
      TileInside(ts[1..], header, End(ts[0], header), stop, i - 1);
    } else if |ts| > 1 {
      TileInside(ts[1..], header, End(ts[0], header), stop, |ts| - 2);
      StopAfter(ts[1..], header, End(ts[0], header), stop);
    }
  }

  lemma {:induction false} StopAfter(ts: seq<Tile>, header: nat, start: nat, stop: nat)
    requires Tiling(ts, header, start, stop)
    ensures start <= stop
  {
    if |ts| > 0 {
      StopAfter(ts[1..], header, End(ts[0], header), stop);
    }
  }

  /** Two blocks of a tiling never overlap, headers included. */
  lemma {:induction false} TilesApart(ts: seq<Tile>, header: nat, start: nat, stop: nat, i: nat, j: nat)
    requires Tiling(ts, header, start, stop) && i < j < |ts|
    ensures End(ts[i], header) <= ts[j].addr
  {
    if i == 0 {
      TileInside(ts[1..], header, End(ts[0], header), stop, j - 1);
    } else {
      TilesApart(ts[1..], header, End(ts[0], header), stop, i - 1, j - 1);
    }
  }

  // ---- free blocks ----

  /** Addresses of the free blocks in order. */
  ghost function FreeAddrs(ts: seq<Tile>): seq<nat> {
    if |ts| == 0 then [] else (if ts[0].free then [ts[0].addr] else []) + FreeAddrs(ts[1..])
  }

  lemma {:induction false} FreeAddrsAppend(a: seq<Tile>, b: seq<Tile>)
    ensures FreeAddrs(a + b) == FreeAddrs(a) + FreeAddrs(b)
  {
    if |a| == 0 {
      assert a + b == b;
    } else {
      var first := if a[0].free then [a[0].addr] else [];
      assert (a + b)[0] == a[0] && (a + b)[1..] == a[1..] + b;
      FreeAddrsAppend(a[1..], b);
      assert first + (FreeAddrs(a[1..]) + FreeAddrs(b)) == (first + FreeAddrs(a[1..])) + FreeAddrs(b);
    }
  }

  lemma FreeAddrsAround(a: seq<Tile>, t: Tile, b: seq<Tile>)
    ensures FreeAddrs(a + [t] + b) == FreeAddrs(a) + (if t.free then [t.addr] else []) + FreeAddrs(b)
  {
    FreeAddrsAppend(a + [t], b);
    FreeAddrsAppend(a, [t]);
    assert [t][1..] == [];
  }

  /** Free addresses are strictly increasing and lie in the range. */
  lemma {:induction false} FreeSorted(ts: seq<Tile>, header: nat, start: nat, stop: nat)
    requires Tiling(ts, header, start, stop) && header > 0
    ensures start <= stop
    ensures forall k :: 0 <= k < |FreeAddrs(ts)| ==> start <= FreeAddrs(ts)[k] < stop
    ensures forall i, j :: 0 <= i < j < |FreeAddrs(ts)| ==> FreeAddrs(ts)[i] < FreeAddrs(ts)[j]
  {
    if |ts| > 0 {
      FreeSorted(ts[1..], header, End(ts[0], header), stop);
    }
  }

  /** The block of the i-th free address. */
  lemma {:induction false} FindTile(ts: seq<Tile>, i: nat) returns (t: nat)
    requires i < |FreeAddrs(ts)|
    ensures t < |ts| && ts[t].free && ts[t].addr == FreeAddrs(ts)[i] && |FreeAddrs(ts[..t])| == i
  {
    if ts[0].free && i == 0 {
      t := 0;
    } else {
      var skipped := if ts[0].free then 1 else 0;
      var rest := FindTile(ts[1..], i - skipped);
      t := rest + 1;
      assert ts[..t][1..] == ts[1..][..rest];
    }
  }

  lemma Around(ts: seq<Tile>, t: nat)
    requires t < |ts|
    ensures ts == ts[..t] + [ts[t]] + ts[t + 1..]
  {
  }

  // ---- the linked list ----

  function Link(frees: seq<nat>, k: nat): Option<nat> {
    if k < |frees| then Some(frees[k]) else None
  }

  /** Block k of the list points to block k + 1. */
  ghost predicate LinkAt(mem: map<nat, Header>, frees: seq<nat>, k: nat)
    requires k < |frees|
  {
    frees[k] in mem && mem[frees[k]].next == Link(frees, k + 1)
  }

  /** From head the next pointers run through the addresses and end. */
  ghost predicate Linked(mem: map<nat, Header>, head: Option<nat>, frees: seq<nat>) {
    head == Link(frees, 0) && forall k :: 0 <= k < |frees| ==> LinkAt(mem, frees, k)
  }

  /** Every list entry other than i keeps its next pointer, but for the one before i. */
  ghost predicate OthersKept(mem: map<nat, Header>, mem': map<nat, Header>, frees: seq<nat>, i: nat, there: bool) {
    forall k :: 0 <= k < |frees| && (there ==> k != i) && k != i - 1 ==>
      frees[k] in mem && frees[k] in mem' && mem'[frees[k]].next == mem[frees[k]].next
  }

  /** The pointer that leads to position i. */
  ghost predicate LeadsTo(mem': map<nat, Header>, head: Option<nat>, head': Option<nat>, frees: seq<nat>, i: nat, target: Option<nat>)
    requires i <= |frees|
  {
    && head' == (if i == 0 then target else head)
    && (i > 0 ==> frees[i - 1] in mem' && mem'[frees[i - 1]].next == target)
  }

  ghost predicate Sorted(frees: seq<nat>) {
    forall i, j :: 0 <= i < j < |frees| ==> frees[i] < frees[j]
  }

  /** prev->next = target, or nothing when there is no previous block. */
  function WithNext(mem: map<nat, Header>, prev: Option<nat>, target: Option<nat>): map<nat, Header> {
    if prev.Some? && prev.value in mem then mem[prev.value := mem[prev.value].(next := target)] else mem
  }

  ghost function Before(frees: seq<nat>, i: nat): Option<nat>
    requires i <= |frees|
  {
    if i == 0 then None else Some(frees[i - 1])
  }

  /** Position i now holds `added` in place of the old address; nothing else of the list changes. */
  lemma LinkReplace(mem: map<nat, Header>, head: Option<nat>, frees: seq<nat>, i: nat, added: nat,
                    mem': map<nat, Header>, head': Option<nat>)
    requires Linked(mem, head, frees) && i < |frees| && OthersKept(mem, mem', frees, i, true)
    requires LeadsTo(mem', head, head', frees, i, Some(added))
    requires added in mem' && mem'[added].next == Link(frees, i + 1)
    ensures Linked(mem', head', frees[i := added])
  {
    var more := frees[i := added];
    forall k | 0 <= k < |more|
      ensures LinkAt(mem', more, k)
    {
      assert LinkAt(mem, frees, k);
    }
  }

  lemma LinkRemove(mem: map<nat, Header>, head: Option<nat>, frees: seq<nat>, i: nat,
                   mem': map<nat, Header>, head': Option<nat>)
    requires Linked(mem, head, frees) && i < |frees| && OthersKept(mem, mem', frees, i, true)
    requires LeadsTo(mem', head, head', frees, i, Link(frees, i + 1))
    ensures Linked(mem', head', frees[..i] + frees[i + 1..])
  {
    var left := frees[..i] + frees[i + 1..];
    forall k | 0 <= k < |left|
      ensures LinkAt(mem', left, k)
    {
      var was := if k < i then k else k + 1;
      assert left[k] == frees[was] && LinkAt(mem, frees, was);
    }
  }

  lemma LinkInsert(mem: map<nat, Header>, head: Option<nat>, frees: seq<nat>, i: nat, added: nat,
                   mem': map<nat, Header>, head': Option<nat>)
    requires Linked(mem, head, frees) && i <= |frees| && OthersKept(mem, mem', frees, i, false)
    requires LeadsTo(mem', head, head', frees, i, Some(added))
    requires added in mem' && mem'[added].next == Link(frees, i)
    ensures Linked(mem', head', frees[..i] + [added] + frees[i..])
  {
    var more := frees[..i] + [added] + frees[i..];
    forall k | 0 <= k < |more|
      ensures LinkAt(mem', more, k)
    {
      if k != i {
        var was := if k < i then k else k - 1;
        assert more[k] == frees[was] && LinkAt(mem, frees, was);
      }
    }
  }

  // ---- the heap ----

  /** The free list, the headers and the ghost tiling they describe. */
  ghost predicate Represents(mem: map<nat, Header>, head: Option<nat>, ts: seq<Tile>, header: nat, arena: nat) {
    && Tiling(ts, header, 0, arena)
    && Headers(mem, ts)
    && Linked(mem, head, FreeAddrs(ts))
  }

  ghost predicate Headers(mem: map<nat, Header>, ts: seq<Tile>) {
    forall t :: 0 <= t < |ts| ==>
      ts[t].addr in mem && mem[ts[t].addr].size == ts[t].size && mem[ts[t].addr].magic == if ts[t].free then FREED else LIVE
  }

  /** Whether an allocation of `need` bytes can take block t. */
  predicate Fits(t: Tile, need: nat) {
    t.free && t.size >= need
  }

  /** The blocks after block t has been handed out. */
  function Taken(ts: seq<Tile>, t: nat, need: nat, header: nat): seq<Tile>
    requires t < |ts|
  {
    var b := ts[t];
    if b.size >= need + header
    then ts[..t] + [Tile(b.addr, need, false), Tile(b.addr + header + need, b.size - need - header, true)] + ts[t + 1..]
    else ts[..t] + [Tile(b.addr, b.size, false)] + ts[t + 1..]
  }

  /** size_t of the RV32 target */
  const WORD: nat := 0x1_0000_0000

  /** Requests are rounded up to 8 bytes, in 32 bits, and to the size of a header. */
  function Need(size: nat, header: nat): (n: nat)
    ensures n >= header
  {
    var up := (size + 7) % WORD / 8 * 8;
    if up < header then header else up
  }

  /** The rounded request covers the requested size exactly when the rounding does not wrap. */
  lemma NeedCovers(size: nat, header: nat)
    requires size < WORD && header < WORD - 7
    ensures Need(size, header) >= size <==> size + 7 < WORD
  {
  }

  /** And it wastes nothing: up to the size of a header it is the least multiple of 8 that covers the request. */
  lemma NeedLeast(size: nat, header: nat)
    requires size + 7 < WORD
    ensures Need(size, header) >= size && (Need(size, header) == header || Need(size, header) % 8 == 0)
    ensures forall m :: m % 8 == 0 && m >= size ==> Need(size, header) <= if m < header then header else m
  {
    assert (size + 7) % WORD == size + 7;
  }

  /** The split test, computed in 32 bits, is the intended comparison for all block sizes exactly when the sum of
      request and header does not wrap; otherwise blocks smaller than the request would be split. */
  lemma SplitTestExact(need: nat, header: nat)
    requires need < WORD && header < WORD
    ensures (forall size: nat :: size < WORD ==> SplitTest(size, need, header) == (size >= need + header))
       <==> need + header < WORD
  {
    assert SplitTest(WORD - 1, need, header);
  }

  predicate SplitTest(size: nat, need: nat, header: nat) {
    size >= (need + header) % WORD
  }

  /** What a search that stopped at free block t (or at the end) has established. */
  ghost predicate NoneFits(ts: seq<Tile>, t: nat, need: nat)
    requires t <= |ts|
  {
    forall k :: 0 <= k < t ==> !Fits(ts[k], need)
  }

  lemma EarlierChecked(mem: map<nat, Header>, ts: seq<Tile>, t: nat, i: nat, need: nat)
    requires t <= |ts| && Headers(mem, ts) && |FreeAddrs(ts[..t])| == i <= |FreeAddrs(ts)|
    requires forall k :: 0 <= k < i ==> FreeAddrs(ts)[k] in mem && mem[FreeAddrs(ts)[k]].size < need
    ensures NoneFits(ts, t, need)
  {
    forall k | 0 <= k < t
      ensures !Fits(ts[k], need)
    {
      if ts[k].free {
        Around(ts, k);
        FreeAddrsAround(ts[..k], ts[k], ts[k + 1..]);
        assert ts[..t] == ts[..k] + [ts[k]] + ts[k + 1..t];
        FreeAddrsAround(ts[..k], ts[k], ts[k + 1..t]);
        var m := |FreeAddrs(ts[..k])|;
        assert FreeAddrs(ts)[m] == ts[k].addr;
      }
    }
  }

  /** What surrounds a free block in the tiling and in the list. */
  lemma Surroundings(ts: seq<Tile>, t: nat, i: nat, header: nat, arena: nat)
    requires Tiling(ts, header, 0, arena) && header > 0 && t < |ts| && |FreeAddrs(ts[..t])| == i
    ensures Sorted(FreeAddrs(ts)) && i <= |FreeAddrs(ts)| && FreeAddrs(ts)[..i] == FreeAddrs(ts[..t])
    ensures ts[t].free ==> i < |FreeAddrs(ts)| && FreeAddrs(ts)[i] == ts[t].addr
                           && FreeAddrs(ts)[i + 1..] == FreeAddrs(ts[t + 1..])
    ensures !ts[t].free ==> FreeAddrs(ts)[i..] == FreeAddrs(ts[t + 1..]) && ts[t].addr !in FreeAddrs(ts)
    ensures forall a :: ts[t].addr < a < End(ts[t], header) ==> a !in FreeAddrs(ts)
    ensures forall k :: 0 <= k < |ts| && k != t ==> ts[k].addr < ts[t].addr || End(ts[t], header) <= ts[k].addr
  {
    Around(ts, t);
    FreeAddrsAround(ts[..t], ts[t], ts[t + 1..]);
    FreeSorted(ts, header, 0, arena);
    TilingSplit(ts[..t], ts[t], ts[t + 1..], header, 0, arena);
    FreeSorted(ts[..t], header, 0, ts[t].addr);
    FreeSorted(ts[t + 1..], header, End(ts[t], header), arena);
    forall k | 0 <= k < |ts| && k != t
      ensures ts[k].addr < ts[t].addr || End(ts[t], header) <= ts[k].addr
    {
      if k < t {
        TilesApart(ts, header, 0, arena, k, t);
      } else {
        TilesApart(ts, header, 0, arena, t, k);
      }
    }
  }

  /** The list part of an update at block t that rewrites at most the headers of t, of the block before it in the
      list and, inside t, of a new block. */
  lemma ListAround(mem: map<nat, Header>, mem1: map<nat, Header>, head: Option<nat>, ts: seq<Tile>, t: nat, i: nat,
                   target: Option<nat>, header: nat, arena: nat)
    requires Tiling(ts, header, 0, arena) && header > 0 && t < |ts| && |FreeAddrs(ts[..t])| == i
    requires Linked(mem, head, FreeAddrs(ts)) && Headers(mem, ts)
    requires forall a :: a in mem && !(ts[t].addr <= a < End(ts[t], header)) ==> a in mem1 && mem1[a] == mem[a]
    ensures i <= |FreeAddrs(ts)|
    ensures var frees := FreeAddrs(ts);
            var mem' := WithNext(mem1, Before(frees, i), target);
            && OthersKept(mem, mem', frees, i, ts[t].free)
            && LeadsTo(mem', head, if i == 0 then target else head, frees, i, target)
            && (forall a :: ts[t].addr <= a < End(ts[t], header) && a in mem1 ==> a in mem' && mem'[a] == mem1[a])
            && (forall k :: 0 <= k < |ts| && k != t ==>
                  ts[k].addr in mem' && mem'[ts[k].addr].size == mem[ts[k].addr].size
                  && mem'[ts[k].addr].magic == mem[ts[k].addr].magic)
  {
    hide Tiling, FreeAddrs;
    var frees := FreeAddrs(ts);
    Surroundings(ts, t, i, header, arena);
    PrevIsOther(ts, t, i, header, arena);
    if i > 0 {
      assert LinkAt(mem, frees, i - 1);
    }
    forall k | 0 <= k < |frees| && (ts[t].free ==> k != i) && k != i - 1
      ensures var mem' := WithNext(mem1, Before(frees, i), target);
              frees[k] in mem && frees[k] in mem' && mem'[frees[k]].next == mem[frees[k]].next
    {
      assert LinkAt(mem, frees, k) && frees[k] in frees;
      assert frees[k] != ts[t].addr;
      assert frees[k] < ts[t].addr || End(ts[t], header) <= frees[k];
    }
  }

  /** Splitting free block t: the list entry moves to the remainder. */
  lemma SplitKeeps(mem: map<nat, Header>, head: Option<nat>, ts: seq<Tile>, t: nat, i: nat, need: nat, header: nat, arena: nat)
    requires Represents(mem, head, ts, header, arena) && header > 0
    requires t < |ts| && ts[t].free && |FreeAddrs(ts[..t])| == i && ts[t].size >= need + header
    ensures i < |FreeAddrs(ts)| && ts[t].addr in mem
    ensures var cur, rest := ts[t].addr, ts[t].addr + header + need;
            var mem1 := mem[rest := Header(ts[t].size - need - header, FREED, mem[cur].next)][cur := Header(need, LIVE, None)];
            Represents(WithNext(mem1, Before(FreeAddrs(ts), i), Some(rest)), if i == 0 then Some(rest) else head,
                       Taken(ts, t, need, header), header, arena)
  {
    hide Tiling, FreeAddrs, Linked, OthersKept, LeadsTo, WithNext;
    var frees := FreeAddrs(ts);
    var cur, rest := ts[t].addr, ts[t].addr + header + need;
    Surroundings(ts, t, i, header, arena);
    NextIs(mem, head, frees, i);
    var mem1 := mem[rest := Header(ts[t].size - need - header, FREED, mem[cur].next)][cur := Header(need, LIVE, None)];
    var mem' := WithNext(mem1, Before(frees, i), Some(rest));
    var a, b := Tile(cur, need, false), Tile(rest, ts[t].size - need - header, true);
    ListAround(mem, mem1, head, ts, t, i, Some(rest), header, arena);
    RetileSplit(ts, t, a, b, header, arena);
    assert frees[i := rest] == frees[..i] + [rest] + frees[i + 1..];
    LinkReplace(mem, head, frees, i, rest, mem', if i == 0 then Some(rest) else head);
    HeadersSplit(mem, mem', ts, t, [a, b]);
    assert Taken(ts, t, need, header) == ts[..t] + [a, b] + ts[t + 1..];
    assert FreeAddrs(ts[..t]) + ([] + [rest]) + FreeAddrs(ts[t + 1..]) == frees[..i] + [rest] + frees[i + 1..];
  }

  /** Handing out free block t whole: it leaves the list. */
  lemma WholeKeeps(mem: map<nat, Header>, head: Option<nat>, ts: seq<Tile>, t: nat, i: nat, need: nat, header: nat, arena: nat)
    requires Represents(mem, head, ts, header, arena) && header > 0
    requires t < |ts| && ts[t].free && |FreeAddrs(ts[..t])| == i && ts[t].size < need + header
    ensures i < |FreeAddrs(ts)| && ts[t].addr in mem
    ensures var cur := ts[t].addr;
            var mem1 := mem[cur := mem[cur].(magic := LIVE)];
            Represents(WithNext(mem1, Before(FreeAddrs(ts), i), mem[cur].next), if i == 0 then mem[cur].next else head,
                       Taken(ts, t, need, header), header, arena)
  {
    hide Tiling, FreeAddrs, Linked, OthersKept, LeadsTo, WithNext;
    var frees := FreeAddrs(ts);
    var cur := ts[t].addr;
    Surroundings(ts, t, i, header, arena);
    NextIs(mem, head, frees, i);
    var mem1 := mem[cur := mem[cur].(magic := LIVE)];
    var mem' := WithNext(mem1, Before(frees, i), mem[cur].next);
    var a := Tile(cur, ts[t].size, false);
    ListAround(mem, mem1, head, ts, t, i, mem[cur].next, header, arena);
    RetileOne(ts, t, a, header, arena);
    LinkRemove(mem, head, frees, i, mem', if i == 0 then mem[cur].next else head);
    HeadersSplit(mem, mem', ts, t, [a]);
    assert Taken(ts, t, need, header) == ts[..t] + [a] + ts[t + 1..];
    assert FreeAddrs(ts[..t]) + [] + FreeAddrs(ts[t + 1..]) == frees[..i] + frees[i + 1..];
  }

  /** Giving back live block t: it enters the list at its place by address. */
  lemma FreeKeeps(mem: map<nat, Header>, head: Option<nat>, ts: seq<Tile>, t: nat, i: nat, header: nat, arena: nat)
    requires Represents(mem, head, ts, header, arena) && header > 0
    requires t < |ts| && !ts[t].free && |FreeAddrs(ts[..t])| == i
    ensures i <= |FreeAddrs(ts)| && ts[t].addr in mem
    ensures var cur := ts[t].addr;
            var mem1 := mem[cur := Header(mem[cur].size, FREED, Link(FreeAddrs(ts), i))];
            Represents(WithNext(mem1, Before(FreeAddrs(ts), i), Some(cur)), if i == 0 then Some(cur) else head,
                       ts[t := ts[t].(free := true)], header, arena)
  {
    hide Tiling, FreeAddrs, Linked, OthersKept, LeadsTo, WithNext;
    var frees := FreeAddrs(ts);
    var cur := ts[t].addr;
    Surroundings(ts, t, i, header, arena);
    var mem1 := mem[cur := Header(mem[cur].size, FREED, Link(frees, i))];
    var mem' := WithNext(mem1, Before(frees, i), Some(cur));
    var a := ts[t].(free := true);
    ListAround(mem, mem1, head, ts, t, i, Some(cur), header, arena);
    RetileOne(ts, t, a, header, arena);
    LinkInsert(mem, head, frees, i, cur, mem', if i == 0 then Some(cur) else head);
    HeadersSplit(mem, mem', ts, t, [a]);
    assert ts[t := a] == ts[..t] + [a] + ts[t + 1..];
    assert frees[..i] + [cur] + frees[i..] == FreeAddrs(ts[..t]) + [cur] + FreeAddrs(ts[t + 1..]);
  }

  lemma NextIs(mem: map<nat, Header>, head: Option<nat>, frees: seq<nat>, i: nat)
    requires Linked(mem, head, frees) && i < |frees|
    ensures frees[i] in mem && mem[frees[i]].next == Link(frees, i + 1)
  {
    assert LinkAt(mem, frees, i);
  }

  /** The block before position i in the list is a free block other than t. */
  lemma PrevIsOther(ts: seq<Tile>, t: nat, i: nat, header: nat, arena: nat)
    requires Tiling(ts, header, 0, arena) && header > 0 && t < |ts| && |FreeAddrs(ts[..t])| == i <= |FreeAddrs(ts)|
    ensures i > 0 ==> FreeAddrs(ts)[i - 1] < ts[t].addr
  {
    if i > 0 {
      Surroundings(ts, t, i, header, arena);
      Around(ts, t);
      TilingSplit(ts[..t], ts[t], ts[t + 1..], header, 0, arena);
      FreeSorted(ts[..t], header, 0, ts[t].addr);
      assert FreeAddrs(ts)[i - 1] == FreeAddrs(ts)[..i][i - 1];
    }
  }

  lemma TilingCons(a: Tile, rest: seq<Tile>, header: nat, stop: nat)
    requires Tiling(rest, header, End(a, header), stop)
    ensures Tiling([a] + rest, header, a.addr, stop)
    ensures FreeAddrs([a] + rest) == (if a.free then [a.addr] else []) + FreeAddrs(rest)
  {
    assert ([a] + rest)[1..] == rest;
  }

  /** Block t replaced by blocks that fill the same place. */
  lemma Retile(ts: seq<Tile>, t: nat, mid: seq<Tile>, header: nat, arena: nat)
    requires Tiling(ts, header, 0, arena) && t < |ts|
    requires Tiling(mid, header, ts[t].addr, End(ts[t], header))
    ensures Tiling(ts[..t] + mid + ts[t + 1..], header, 0, arena)
    ensures FreeAddrs(ts[..t] + mid + ts[t + 1..]) == FreeAddrs(ts[..t]) + FreeAddrs(mid) + FreeAddrs(ts[t + 1..])
  {
    hide Tiling, FreeAddrs;
    Around(ts, t);
    TilingSplit(ts[..t], ts[t], ts[t + 1..], header, 0, arena);
    TilingJoin(ts[..t], mid, header, 0, ts[t].addr, End(ts[t], header));
    TilingJoin(ts[..t] + mid, ts[t + 1..], header, 0, End(ts[t], header), arena);
    FreeAddrsAppend(ts[..t], mid);
    FreeAddrsAppend(ts[..t] + mid, ts[t + 1..]);
  }

  lemma RetileSplit(ts: seq<Tile>, t: nat, a: Tile, b: Tile, header: nat, arena: nat)
    requires Tiling(ts, header, 0, arena) && t < |ts|
    requires a.addr == ts[t].addr && End(a, header) == b.addr && End(b, header) == End(ts[t], header)
    ensures Tiling(ts[..t] + [a, b] + ts[t + 1..], header, 0, arena)
    ensures FreeAddrs(ts[..t] + [a, b] + ts[t + 1..])
         == FreeAddrs(ts[..t]) + ((if a.free then [a.addr] else []) + (if b.free then [b.addr] else [])) + FreeAddrs(ts[t + 1..])
  {
    NoTiles(header, End(b, header));
    hide Tiling, FreeAddrs;
    assert [a] + [b] == [a, b] && [b] + [] == [b];
    TilingCons(b, [], header, End(b, header));
    TilingCons(a, [b], header, End(b, header));
    Retile(ts, t, [a, b], header, arena);
  }

  lemma NoTiles(header: nat, stop: nat)
    ensures Tiling([], header, stop, stop) && FreeAddrs([]) == []
  {
  }

  lemma RetileOne(ts: seq<Tile>, t: nat, a: Tile, header: nat, arena: nat)
    requires Tiling(ts, header, 0, arena) && t < |ts| && a.addr == ts[t].addr && a.size == ts[t].size
    ensures Tiling(ts[..t] + [a] + ts[t + 1..], header, 0, arena)
    ensures FreeAddrs(ts[..t] + [a] + ts[t + 1..]) == FreeAddrs(ts[..t]) + (if a.free then [a.addr] else []) + FreeAddrs(ts[t + 1..])
  {
    NoTiles(header, End(a, header));
    hide Tiling, FreeAddrs;
    TilingCons(a, [], header, End(a, header));
    assert [a] + [] == [a];
    Retile(ts, t, [a], header, arena);
  }

  lemma HeadersSplit(mem: map<nat, Header>, mem': map<nat, Header>, ts: seq<Tile>, t: nat, mid: seq<Tile>)
    requires Headers(mem, ts) && t < |ts| && 1 <= |mid|
    requires forall k :: 0 <= k < |ts| && k != t ==>
               ts[k].addr in mem' && mem'[ts[k].addr].size == mem[ts[k].addr].size && mem'[ts[k].addr].magic == mem[ts[k].addr].magic
    requires Headers(mem', mid)
    ensures Headers(mem', ts[..t] + mid + ts[t + 1..])
  {
    var ts' := ts[..t] + mid + ts[t + 1..];
    forall k | 0 <= k < |ts'|
      ensures ts'[k].addr in mem' && mem'[ts'[k].addr].size == ts'[k].size
              && mem'[ts'[k].addr].magic == if ts'[k].free then FREED else LIVE
    {
      if t <= k < t + |mid| {
        assert ts'[k] == mid[k - t];
      } else {
        var was := if k < t then k else k - |mid| + 1;
        assert ts'[k] == ts[was];
      }
    }
  }

  /** Where the headers are. */
  ghost function Addrs(ts: seq<Tile>): set<nat> {
    set t | 0 <= t < |ts| :: ts[t].addr
  }

  lemma TileOf(ts: seq<Tile>, a: nat) returns (t: nat)
    requires a in Addrs(ts)
    ensures t < |ts| && ts[t].addr == a
  {
    t :| 0 <= t < |ts| && ts[t].addr == a;
  }

  lemma SameAddrs(ts: seq<Tile>, t: nat, b: Tile)
    requires t < |ts| && b.addr == ts[t].addr
    ensures Addrs(ts[t := b]) == Addrs(ts)
  {
    forall k | 0 <= k < |ts|
      ensures ts[k].addr in Addrs(ts[t := b])
    {
      assert ts[t := b][k].addr == ts[k].addr;
    }
  }

  /** Handing out a block adds at most the header of the remainder. */
  lemma TakenAddrs(ts: seq<Tile>, t: nat, need: nat, header: nat)
    requires t < |ts|
    ensures Addrs(Taken(ts, t, need, header))
         == Addrs(ts) + if ts[t].size >= need + header then {ts[t].addr + header + need} else {}
  {
    var b := ts[t];
    if b.size >= need + header {
      var rest := Tile(b.addr + header + need, b.size - need - header, true);
      InsertedAddrs(ts[t := Tile(b.addr, need, false)], t + 1, rest);
      SameAddrs(ts, t, Tile(b.addr, need, false));
      assert Taken(ts, t, need, header) == ts[t := Tile(b.addr, need, false)][..t + 1] + [rest] + ts[t := Tile(b.addr, need, false)][t + 1..];
    } else {
      SameAddrs(ts, t, Tile(b.addr, b.size, false));
      assert Taken(ts, t, need, header) == ts[t := Tile(b.addr, b.size, false)];
    }
  }

  lemma InsertedAddrs(ts: seq<Tile>, at: nat, b: Tile)
    requires at <= |ts|
    ensures Addrs(ts[..at] + [b] + ts[at..]) == Addrs(ts) + {b.addr}
  {
    var more := ts[..at] + [b] + ts[at..];
    assert more[at] == b;
    forall k | 0 <= k < |ts|
      ensures ts[k].addr in Addrs(more)
    {
      assert more[if k < at then k else k + 1] == ts[k];
    }
  }

  /** The static arena. */
  class Heap {
    const header: nat
    const arena: nat
    var ready: bool
    var mem: map<nat, Header>
    var head: Option<nat>
    ghost var tiles: seq<Tile>

    constructor (header: nat, arena: nat)
      requires 0 < header <= arena
      ensures this.header == header && this.arena == arena && Valid() && Blocks() == [Tile(0, arena - header, true)]
    {
      this.header, this.arena := header, arena;
      ready, mem, head, tiles := false, map[], None, [];
    }

    ghost predicate Valid()
      reads this
    {
      && 0 < header <= arena
      && (ready ==> Represents(mem, head, tiles, header, arena) && mem.Keys == Addrs(tiles))
      && (!ready ==> mem == map[])
    }

    /** The blocks in address order; before the first allocation, one free block that is the whole arena. */
    ghost function Blocks(): seq<Tile>
      requires Valid()
      reads this
    {
      if ready then tiles else [Tile(0, arena - header, true)]
    }

    /** bench_mem_init */
    method Init()
      requires Valid() && !ready
      modifies this
      ensures Valid() && ready && tiles == old(Blocks())
    {
      mem := map[0 := Header(arena - header, FREED, None)];
      head := Some(0);
      ready := true;
      tiles := [Tile(0, arena - header, true)];
      assert tiles[1..] == [];
      assert Addrs(tiles) == {tiles[0].addr};
    }

    /** bench_mem_alloc: the lowest free block that is large enough, split when the remainder can hold a header;
        no other block changes. Nothing is returned only when no free block is large enough. Excluded is only that
        the wrapped split test accepts a free block. */
    method Alloc(size: nat) returns (p: Option<nat>, ghost t: nat)
      requires Valid() && size < WORD
      requires Need(size, header) + header < WORD || NoneFits(Blocks(), |Blocks()|, (Need(size, header) + header) % WORD)
      modifies this
      ensures Valid() && ready && t <= |old(Blocks())| && NoneFits(old(Blocks()), t, Need(size, header))
      ensures p.None? ==> t == |old(Blocks())| && Blocks() == old(Blocks())
      ensures p.Some? ==> t < |old(Blocks())| && Fits(old(Blocks())[t], Need(size, header))
                          && p.value == old(Blocks())[t].addr + header
                          && Blocks() == Taken(old(Blocks()), t, Need(size, header), header)
    {
      hide Tiling, FreeAddrs, Headers, Linked;
      var need := Need(size, header);
      if !ready {
        Init();
      }
      ghost var frees := FreeAddrs(tiles);
      var prev: Option<nat>, cur := None, head;
      ghost var i := 0;
      ListStart(mem, head, frees);
      while cur.Some?
        invariant ready && Valid() && tiles == old(Blocks()) && frees == FreeAddrs(tiles)
        invariant i <= |frees| && cur == Link(frees, i) && prev == Before(frees, i)
        invariant forall k :: 0 <= k < i ==> frees[k] in mem && mem[frees[k]].size < need
        decreases |frees| - i
      {
        NextIs(mem, head, frees, i);
        t := FindTile(tiles, i);
        HeaderAt(mem, tiles, t);
        if SplitTest(mem[cur.value].size, need, header) || mem[cur.value].size >= need {
          EarlierChecked(mem, tiles, t, i, need);
          p := Take(prev, cur.value, need, i, t);
          return;
        }
        prev, cur := cur, mem[cur.value].next;
        i := i + 1;
      }
      assert tiles[..|tiles|] == tiles;
      EarlierChecked(mem, tiles, |tiles|, i, need);
      p, t := None, |tiles|;
    }

    /** The two ways of handing out the block the search stopped at. */
    method Take(prev: Option<nat>, cur: nat, need: nat, ghost i: nat, ghost t: nat) returns (p: Option<nat>)
      requires Valid() && ready && t < |tiles| && Fits(tiles[t], need) && tiles[t].addr == cur && need + header < WORD
      requires |FreeAddrs(tiles[..t])| == i <= |FreeAddrs(tiles)| && prev == Before(FreeAddrs(tiles), i)
      modifies this
      ensures Valid() && ready && tiles == Taken(old(tiles), t, need, header) && p == Some(cur + header)
    {
      hide Tiling, FreeAddrs, Linked, Headers, Addrs, WithNext, Taken;
      HeaderAt(mem, tiles, t);
      var block := mem[cur];
      ghost var ts := tiles;
      tiles := Taken(ts, t, need, header);
      TakenAddrs(ts, t, need, header);
      PrevInList(mem, head, FreeAddrs(ts), i);
      if SplitTest(block.size, need, header) {
        SplitKeeps(mem, head, ts, t, i, need, header, arena);
        var rest := cur + header + need;
        mem := mem[rest := Header(block.size - need - header, FREED, block.next)];
        mem := mem[cur := Header(need, LIVE, None)];
        SetNext(prev, Some(rest));
      } else {
        WholeKeeps(mem, head, ts, t, i, need, header, arena);
        mem := mem[cur := block.(magic := LIVE)];
        SetNext(prev, block.next);
      }
      p := Some(cur + header);
    }

    /** prev->next = target, or the head when there is no previous block. */
    method SetNext(prev: Option<nat>, target: Option<nat>)
      requires prev.Some? ==> prev.value in mem
      modifies this`mem, this`head
      ensures mem.Keys == old(mem.Keys)
      ensures mem == WithNext(old(mem), prev, target) && head == if prev.None? then target else old(head)
    {
      if prev.Some? {
        mem := mem[prev.value := mem[prev.value].(next := target)];
      } else {
        head := target;
      }
    }

    /** bench_mem_free. A pointer behind the header of a live block frees that block; one behind a free block changes
        nothing, and neither does one with no header before it, where `found` is the word that stands in the place of
        the magic. */
    method Free(p: Option<nat>, found: nat) returns (ghost t: nat)
      requires Valid() && (p.Some? ==> p.value >= header && (p.value - header !in mem ==> found != LIVE))
      modifies this
      ensures Valid() && ready == old(ready)
      ensures p.None? || p.value - header !in old(mem) ==> Blocks() == old(Blocks())
      ensures p.Some? && p.value - header in old(mem) ==>
                && t < |old(Blocks())| && old(Blocks())[t].addr == p.value - header
                && Blocks() == if old(Blocks())[t].free then old(Blocks())
                               else old(Blocks())[t := old(Blocks())[t].(free := true)]
    {
      hide Tiling, FreeAddrs, Linked, Headers, Addrs, WithNext;
      t := 0;
      if p.None? {
        return;
      }
      var blk := p.value - header;
      var magic := if blk in mem then mem[blk].magic else found;
      if blk in mem {
        t := TileOf(tiles, blk);
        HeaderAt(mem, tiles, t);
      }
      if magic != LIVE {
        return;
      }
      ghost var ts, frees := tiles, FreeAddrs(tiles);
      ghost var at := |FreeAddrs(ts[..t])|;
      Surroundings(ts, t, at, header, arena);
      var prev: Option<nat>, cur := None, head;
      ghost var i := 0;
      ListStart(mem, head, frees);
      while cur.Some? && cur.value < blk
        invariant ready && Valid() && mem == old(mem) && head == old(head) && tiles == ts
        invariant i <= |frees| && cur == Link(frees, i) && prev == Before(frees, i)
        invariant forall k :: 0 <= k < i ==> frees[k] < blk
        decreases |frees| - i
      {
        NextIs(mem, head, frees, i);
        prev, cur := cur, mem[cur.value].next;
        i := i + 1;
      }
      SameAddrs(ts, t, ts[t].(free := true));
      PlaceInList(ts, t, i, header, arena);
      PrevInList(mem, head, frees, i);
      FreeKeeps(mem, head, ts, t, i, header, arena);
      tiles := ts[t := ts[t].(free := true)];
      mem := mem[blk := Header(mem[blk].size, FREED, cur)];
      SetNext(prev, Some(blk));
    }
  }

  lemma HeaderAt(mem: map<nat, Header>, ts: seq<Tile>, t: nat)
    requires Headers(mem, ts) && t < |ts|
    ensures ts[t].addr in mem && mem[ts[t].addr].size == ts[t].size
    ensures mem[ts[t].addr].magic == if ts[t].free then FREED else LIVE
  {
  }

  lemma PrevInList(mem: map<nat, Header>, head: Option<nat>, frees: seq<nat>, i: nat)
    requires Linked(mem, head, frees) && i <= |frees|
    ensures i > 0 ==> frees[i - 1] in mem
  {
    if i > 0 {
      assert LinkAt(mem, frees, i - 1);
    }
  }

  lemma ListStart(mem: map<nat, Header>, head: Option<nat>, frees: seq<nat>)
    requires Linked(mem, head, frees)
    ensures head == Link(frees, 0)
  {
  }

  /** The address search of a free stops where the block belongs. */
  lemma PlaceInList(ts: seq<Tile>, t: nat, i: nat, header: nat, arena: nat)
    requires Tiling(ts, header, 0, arena) && header > 0 && t < |ts| && !ts[t].free && i <= |FreeAddrs(ts)|
    requires forall k :: 0 <= k < i ==> FreeAddrs(ts)[k] < ts[t].addr
    requires i < |FreeAddrs(ts)| ==> FreeAddrs(ts)[i] >= ts[t].addr
    ensures |FreeAddrs(ts[..t])| == i
  {
    hide FreeAddrs, Tiling;
    OrderAround(ts, t, header, arena);
    var at := |FreeAddrs(ts[..t])|;
    assert at < |FreeAddrs(ts)| ==> FreeAddrs(ts)[at] >= ts[t].addr;
  }

  lemma OrderAround(ts: seq<Tile>, t: nat, header: nat, arena: nat)
    requires Tiling(ts, header, 0, arena) && header > 0 && t < |ts| && !ts[t].free
    ensures |FreeAddrs(ts[..t])| <= |FreeAddrs(ts)|
    ensures forall k :: 0 <= k < |FreeAddrs(ts)| ==> (FreeAddrs(ts)[k] < ts[t].addr <==> k < |FreeAddrs(ts[..t])|)
  {
    hide FreeAddrs, Tiling;
    var frees, at := FreeAddrs(ts), |FreeAddrs(ts[..t])|;
    Surroundings(ts, t, at, header, arena);
    Around(ts, t);
    TilingSplit(ts[..t], ts[t], ts[t + 1..], header, 0, arena);
    FreeSorted(ts[..t], header, 0, ts[t].addr);
    FreeSorted(ts[t + 1..], header, End(ts[t], header), arena);
    forall k | 0 <= k < |frees|
      ensures frees[k] < ts[t].addr <==> k < at
    {
      if k < at {
        assert frees[k] == frees[..at][k];
      } else {
        assert frees[k] == frees[at..][k - at];
      }
    }
  }
}
