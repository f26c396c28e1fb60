/** All pools together: lists of used and cached pools, arenas, and the invariant
    that every operation of the allocator keeps. */
module PoolState {
  import opened PoolLists
  import opened Pools

  /** The allocator's tables: header fields by pool address, the words of the heap,
      and the globals. The ends of the used lists are the addresses Sent(i). */
  datatype Tables = Tables(
    count: map<int, nat>, freeblock: map<int, int>, next: map<int, int>, prev: map<int, int>,
    szidx: map<int, nat>, capacity: map<int, nat>, mem: map<int, int>,
    freepools: int, watermark: nat, arenaproto: int)

  /** What the pointers stand for: the used pools of each class, the cached pools,
      the free list and the number of carved blocks of each pool, the arena each
      pool lies in, and the blocks held from the system allocator. */
  datatype Shape = Shape(
    used: seq<seq<int>>, cached: seq<int>, frees: map<int, seq<int>>, carved: map<int, nat>,
    home: map<int, int>, arenas: set<int>, regions: map<int, nat>, current: int)

  function Sent(i: nat): int { -(i + 1) }

  // ----- the invariant -----

  ghost predicate Doms(t: Tables, g: Shape) {
    && t.freeblock.Keys == t.count.Keys && t.szidx.Keys == t.count.Keys && t.capacity.Keys == t.count.Keys
    && g.frees.Keys == t.count.Keys && g.carved.Keys == t.count.Keys && g.home.Keys == t.count.Keys
  }

  ghost predicate Pool(t: Tables, g: Shape, p: int)
    requires Doms(t, g) && p in t.count
  {
    PoolOk(p, t.count[p], t.freeblock[p], t.szidx[p], t.capacity[p], g.carved[p], g.frees[p], t.mem)
  }

  ghost predicate Rings(next: map<int, int>, prev: map<int, int>, used: seq<seq<int>>) {
    |used| == CLASSES && forall i :: 0 <= i < CLASSES ==> Ring(next, prev, Sent(i), used[i]) && NoDup(used[i])
  }

  /** A pool in the list of class i is of class i, has a block in use and a block
      free. */
  ghost predicate Used(t: Tables, g: Shape, q: int)
    requires Doms(t, g) && |g.used| == CLASSES
  {
    forall i, p {:trigger p in g.used[i]} :: 0 <= i < CLASSES && p in g.used[i] ==>
      p in t.count && p != q && t.szidx[p] == i && t.count[p] > 0 && g.frees[p] != []
  }

  ghost predicate Cached(next: map<int, int>, freepools: int, cached: seq<int>, count: map<int, nat>, q: int) {
    && Chain(next, freepools, cached) && NoDup(cached)
    && forall p :: p in cached ==> p in count && p != q && count[p] == 0
  }

  /** Each pool is cached, or used in the list of its class, or full and in no
      list. */
  ghost predicate Placed(t: Tables, g: Shape, p: int)
    requires Doms(t, g) && p in t.count && |g.used| == CLASSES
  {
    || p in g.cached
    || (t.szidx[p] < CLASSES && p in g.used[t.szidx[p]])
    || (g.frees[p] == [] && g.carved[p] == t.capacity[p])
  }

  ghost predicate Apart(a: int, n: int, b: int, m: int) {
    a + n <= b || b + m <= a
  }

  /** Page-round up. */
  function Start(a: int): int {
    a + (POOL_SIZE - a % POOL_SIZE)
  }

  /** Pools are pages inside arenas, behind the arena's first word; what the system
      allocator gave out does not overlap. */
  ghost predicate Space(pools: set<int>, watermark: nat, arenaproto: int,
                        home: map<int, int>, arenas: set<int>, regions: map<int, nat>, current: int)
  {
    && (forall a, b :: a in regions && b in regions && a != b ==> Apart(a, regions[a], b, regions[b]))
    && (forall a :: a in regions ==> a > 0 && regions[a] > 0)
    && (forall a :: a in arenas ==> a in regions && regions[a] == ARENA_SIZE + POOL_SIZE && a % ALIGNMENT == 0)
    && (forall p :: p in pools ==> p in home && home[p] in arenas && InArena(p, home[p]))
    && watermark <= ARENA_POOLS
    && (watermark < ARENA_POOLS ==>
          && current in arenas && arenaproto == Start(current) + watermark * POOL_SIZE
          && forall p :: p in pools && home[p] == current ==> p < arenaproto)
  }

  ghost predicate AllPools(t: Tables, g: Shape, q: int)
    requires Doms(t, g) && |g.used| == CLASSES
  {
    forall p {:trigger Pool(t, g, p)} {:trigger Placed(t, g, p)} :: p in t.count && p != q ==> Pool(t, g, p) && Placed(t, g, p)
  }

  ghost predicate InArena(p: int, a: int) {
    p > 0 && p % POOL_SIZE == 0 && a + ALIGNMENT <= p && p + POOL_SIZE <= a + ARENA_SIZE + POOL_SIZE
  }

  /** A pool in transit between lists: fresh from an arena, or empty. */
  ghost predicate Loose(t: Tables, g: Shape, q: int)
    requires Doms(t, g)
  {
    q != NULL ==> q in t.count && (if t.szidx[q] == DUMMY then g.carved[q] == 0 else Pool(t, g, q) && t.count[q] == 0)
  }

  /** The invariant, with pool q (if not NULL) in transit. */
  ghost predicate Inv(t: Tables, g: Shape, q: int) {
    && Doms(t, g) && Rings(t.next, t.prev, g.used) && Used(t, g, q) && Cached(t.next, t.freepools, g.cached, t.count, q) && Loose(t, g, q)
    && AllPools(t, g, q)
    && Space(t.count.Keys, t.watermark, t.arenaproto, g.home, g.arenas, g.regions, g.current)
  }

  // ----- blocks in use -----

  /** b is a block the program holds. */
  ghost predicate Live(t: Tables, g: Shape, b: int)
    requires Doms(t, g)
  {
    var p := PoolOf(b);
    p in t.count && IsBlock(p, t.szidx[p], g.carved[p], b) && b !in g.frees[p]
  }

  ghost function SizeOf(t: Tables, b: int): int
    requires PoolOf(b) in t.szidx
  {
    BlockSize(t.szidx[PoolOf(b)])
  }

  /** Block b keeps its size and its words. */
  ghost predicate Kept(t: Tables, t': Tables, b: int)
    requires PoolOf(b) in t.szidx
  {
    && PoolOf(b) in t'.szidx && SizeOf(t', b) == SizeOf(t, b)
    && forall a :: b <= a < b + SizeOf(t, b) && a in t.mem ==> a in t'.mem && t'.mem[a] == t.mem[a]
  }

  /** No pool goes away, and words outside the pools stay. */
  ghost predicate Elsewhere(t: Tables, t': Tables) {
    && t.count.Keys <= t'.count.Keys
    && forall a :: PoolOf(a) !in t'.count && a in t.mem ==> a in t'.mem && t'.mem[a] == t.mem[a]
  }

  /** Exactly block b becomes live; every block in use is left as it is. */
  ghost predicate Allocates(t: Tables, g: Shape, t': Tables, g': Shape, b: int)
    requires Doms(t, g) && Doms(t', g')
  {
    && !Live(t, g, b) && Live(t', g', b)
    && (forall x :: x != b ==> (Live(t', g', x) <==> Live(t, g, x)))
    && (forall x :: Live(t, g, x) ==> Kept(t, t', x)) && Elsewhere(t, t')
  }

  /** Exactly block b stops being live. */
  ghost predicate Releases(t: Tables, g: Shape, t': Tables, g': Shape, b: int)
    requires Doms(t, g) && Doms(t', g')
  {
    && Live(t, g, b) && !Live(t', g', b)
    && (forall x :: x != b ==> (Live(t', g', x) <==> Live(t, g, x)))
    && (forall x :: Live(t, g, x) && x != b ==> Kept(t, t', x)) && Elsewhere(t, t')
  }

  /** No block changes. */
  ghost predicate Quiet(t: Tables, g: Shape, t': Tables, g': Shape)
    requires Doms(t, g) && Doms(t', g')
  {
    && (forall x :: Live(t', g', x) <==> Live(t, g, x))
    && (forall x :: Live(t, g, x) ==> Kept(t, t', x)) && Elsewhere(t, t')
  }

  // ----- what the invariant means for the program -----

  /** Blocks in use at the same time do not overlap. */
  lemma LiveApart(t: Tables, g: Shape, a: int, b: int)
    requires Inv(t, g, NULL) && Live(t, g, a) && Live(t, g, b) && a != b
    ensures Apart(a, SizeOf(t, a), b, SizeOf(t, b))
  {
    LiveInside(t, g, NULL, a);
    LiveInside(t, g, NULL, b);
    var p, q := PoolOf(a), PoolOf(b);
    if p == q { BlocksApart(p, t.szidx[p], g.carved[p], a, b); } else { PagesApart(p, q); }
  }

  lemma PagesApart(p: int, q: int)
    requires p % POOL_SIZE == 0 && q % POOL_SIZE == 0 && p != q
    ensures Apart(p, POOL_SIZE, q, POOL_SIZE)
  {
  }

  /** A block in use lies in one pool, behind its header, and is aligned. */
  lemma LiveInside(t: Tables, g: Shape, q: int, b: int)
    requires Inv(t, g, q) && Live(t, g, b)
    ensures var p := PoolOf(b);
            && p % POOL_SIZE == 0 && p + OVERHEAD <= b && b + SizeOf(t, b) <= p + POOL_SIZE && b % ALIGNMENT == 0
            && t.count[p] > 0 && p != q && t.szidx[p] < CLASSES
  {
    var p := PoolOf(b);
    if p == q {
      assert q != NULL;
      if t.szidx[q] != DUMMY { Missing(p, t.szidx[p], g.carved[p], g.frees[p], b); }
    } else {
      assert Pool(t, g, p);
      BlockInside(p, t.szidx[p], g.carved[p], b);
      Missing(p, t.szidx[p], g.carved[p], g.frees[p], b);
    }
  }

  /** No block in use overlaps any pool header or anything held from the system
      allocator other than its own arena, whose first word it leaves alone. */
  lemma LiveClear(t: Tables, g: Shape, b: int, p: int, r: int)
    requires Inv(t, g, NULL) && Live(t, g, b)
    ensures p in t.count ==> Apart(b, SizeOf(t, b), p, OVERHEAD)
    ensures r in g.regions ==> Apart(b, SizeOf(t, b), r, if r in g.arenas then ALIGNMENT else g.regions[r])
  {
    LiveInside(t, g, NULL, b);
    var q := PoolOf(b);
    if p in t.count && p != q { PagesApart(p, q); }
    var h := g.home[q];
    if r in g.regions && r != h { assert Apart(r, g.regions[r], h, g.regions[h]); }
  }

  // ----- changing one pool -----

  ghost predicate SamePool(t: Tables, g: Shape, t': Tables, g': Shape, x: int)
    requires Doms(t, g) && Doms(t', g') && x in t.count && x in t'.count
  {
    && t'.count[x] == t.count[x] && t'.freeblock[x] == t.freeblock[x] && t'.szidx[x] == t.szidx[x]
    && t'.capacity[x] == t.capacity[x] && g'.frees[x] == g.frees[x] && g'.carved[x] == g.carved[x]
  }

  /** The two states differ at most in pool p and in words of its page. */
  ghost predicate SameBut(t: Tables, g: Shape, t': Tables, g': Shape, p: int)
    requires Doms(t, g) && Doms(t', g')
  {
    && t'.count.Keys == t.count.Keys
    && (forall x {:trigger SamePool(t, g, t', g', x)} :: x in t.count && x != p ==> SamePool(t, g, t', g', x))
    && (forall b :: PoolOf(b) != p && b in t.mem ==> b in t'.mem && t'.mem[b] == t.mem[b])
  }

  lemma OtherPool(t: Tables, g: Shape, t': Tables, g': Shape, p: int, x: int)
    requires Doms(t, g) && Doms(t', g') && SameBut(t, g, t', g', p)
    requires x in t.count && x != p && x % POOL_SIZE == 0 && Pool(t, g, x)
    ensures Pool(t', g', x)
  {
    assert SamePool(t, g, t', g', x);
    forall b | b in g.frees[x] && b in t.mem
      ensures b in t'.mem && t'.mem[b] == t.mem[b]
    {
      BlockInside(x, t.szidx[x], g.carved[x], b);
    }
    PoolFrame(x, t.count[x], t.freeblock[x], t.szidx[x], t.capacity[x], g.carved[x], g.frees[x], t.mem, t'.mem);
  }

  lemma OtherLive(t: Tables, g: Shape, t': Tables, g': Shape, p: int, b: int)
    requires Doms(t, g) && Doms(t', g') && SameBut(t, g, t', g', p) && PoolOf(b) != p
    ensures Live(t', g', b) <==> Live(t, g, b)
  {
    if PoolOf(b) in t.count { assert SamePool(t, g, t', g', PoolOf(b)); }
  }

  /** A block of another pool keeps its words. */
  lemma OtherKept(t: Tables, g: Shape, t': Tables, g': Shape, p: int, b: int)
    requires Doms(t, g) && Doms(t', g') && SameBut(t, g, t', g', p) && PoolOf(b) != p
    requires Live(t, g, b) && PoolOf(b) + OVERHEAD <= b && b + SizeOf(t, b) <= PoolOf(b) + POOL_SIZE
    ensures Kept(t, t', b)
  {
    assert SamePool(t, g, t', g', PoolOf(b));
    forall a | b <= a < b + SizeOf(t, b) && a in t.mem
      ensures a in t'.mem && t'.mem[a] == t.mem[a]
    {
      InPage(PoolOf(b), a);
    }
  }
}
