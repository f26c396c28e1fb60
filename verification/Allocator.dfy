/** malloc, free and realloc on the pools. */
module Allocator {
  import opened PoolLists
  import opened Pools
  import opened PoolState
  import opened PoolSteps

  /** A request the pools serve. Zero is not one. */
  predicate Small(nbytes: nat) {
    0 < nbytes <= THRESHOLD
  }

  /** The pools can serve the request. */
  ghost predicate FromPools(t: Tables, g: Shape, nbytes: nat, sysArena: int)
    requires |g.used| == CLASSES
  {
    && Small(nbytes)
    && (g.used[(nbytes - 1) / ALIGNMENT] != [] || t.freepools != NULL || t.watermark < ARENA_POOLS || sysArena != NULL)
  }

  /** What is held from the system. */
  ghost predicate Holding(g: Shape, g': Shape) {
    g'.regions == g.regions && g'.arenas == g.arenas
  }

  ghost predicate HoldingArena(g: Shape, g': Shape, a: int) {
    g'.regions == g.regions[a := ARENA_SIZE + POOL_SIZE] && g'.arenas == g.arenas + {a}
  }

  ghost predicate HoldingBlock(g: Shape, g': Shape, b: int, n: nat) {
    g'.regions == g.regions[b := n] && g'.arenas == g.arenas
  }

  /** What a malloc of nbytes does, given the system's answers. */
  ghost predicate Gives(t: Tables, g: Shape, t': Tables, g': Shape, nbytes: nat, sysArena: int, sysBlock: int, bp: int)
    requires Inv(t, g, NULL) && Inv(t', g', NULL)
  {
    if FromPools(t, g, nbytes, sysArena) then
      && Allocates(t, g, t', g', bp) && nbytes <= SizeOf(t', bp) < nbytes + ALIGNMENT
      && ComesFrom(t, g, t', g', (nbytes - 1) / ALIGNMENT, sysArena, bp)
    else
      && bp == sysBlock && Quiet(t, g, t', g')
      && (if bp == NULL then Holding(g, g') else HoldingBlock(g, g', bp, AtLeastOne(nbytes)))
  }

  /** What a free of p does: a block goes back to its pool, other memory to the
      system. */
  ghost predicate Frees(t: Tables, g: Shape, t': Tables, g': Shape, p: int)
    requires Inv(t, g, NULL) && Inv(t', g', NULL)
  {
    && (if Live(t, g, p) then Releases(t, g, t', g', p) && GoesBack(t, g, t', g', p) && g'.regions == g.regions
        else Quiet(t, g, t', g') && g'.regions == g.regions - {p})
    && g'.arenas == g.arenas && forall a :: a != p && a in t.mem ==> a in t'.mem && t'.mem[a] == t.mem[a]
  }

  /** Where a block and its pool go: the block in front of its pool's free list; the
      pool, when it was full, in front of the used pools of its class, when it is empty
      now, in front of the cached pools, else nowhere. */
  ghost predicate GoesBack(t: Tables, g: Shape, t': Tables, g': Shape, b: int)
    requires Doms(t, g) && PoolOf(b) in t.count
  {
    var q := PoolOf(b);
    var i := t.szidx[q];
    && q in t'.freeblock && t'.freeblock[q] == b && |g.used| == |g'.used| == CLASSES && i < CLASSES
    && (if t.freeblock[q] == NULL then g'.used == g.used[i := [q] + g.used[i]] && g'.cached == g.cached
        else if t.count[q] > 1 then g'.used == g.used && g'.cached == g.cached
        else q !in g'.used[i] && g'.cached == [q] + g.cached)
  }

  /** What a realloc that gives b for p does: b has room for nbytes, the words move
      there, and all other memory held stays as it is. */
  ghost predicate Moved(t: Tables, g: Shape, t': Tables, g': Shape, p: int, b: int, nbytes: nat)
    requires Inv(t, g, NULL) && Inv(t', g', NULL) && Held(t, g, p)
  {
    && Held(t', g', b) && RoomAt(t', g', b) >= nbytes && (b != p ==> !Held(t, g, b) && !Held(t', g', p))
    && Copied(t.mem, p, t'.mem, b, Min(RoomAt(t, g, p), nbytes))
    && forall x :: Held(t, g, x) && x != p ==> SameMemory(t, g, t', g', x)
  }

  /** What the system's realloc of p may answer, and the words after it. */
  ghost predicate SystemMoves(t: Tables, g: Shape, p: int, nbytes: nat, b: int, mem': map<int, int>)
    requires p in g.regions
  {
    && FreshRegion(g.(regions := g.regions - {p}), b, AtLeastOne(nbytes))
    && Copied(t.mem, p, mem', b, Min(g.regions[p], nbytes))
    && forall a :: !(b <= a < b + AtLeastOne(nbytes)) && a in t.mem ==> a in mem' && mem'[a] == t.mem[a]
  }

  function Min(a: int, b: int): int {
    if a < b then a else b
  }

  /** Where the block for class i comes from: the first used pool of the class, else
      the pool cached last, else the next page of the arena, and only then the first
      page of a new arena. */
  ghost predicate ComesFrom(t: Tables, g: Shape, t': Tables, g': Shape, i: nat, sysArena: int, b: int)
    requires i < |g.used|
  {
    if g.used[i] != [] then
      var q := g.used[i][0];
      PoolOf(b) == q && q in t.freeblock && b == t.freeblock[q] && t'.watermark == t.watermark && t'.freepools == t.freepools && Holding(g, g')
    else if t.freepools != NULL then
      PoolOf(b) == t.freepools && t'.watermark == t.watermark && g.cached != [] && g'.cached == g.cached[1..] && Holding(g, g')
    else if t.watermark < ARENA_POOLS then
      PoolOf(b) == t.arenaproto && t'.watermark == t.watermark + 1 && Holding(g, g')
    else
      PoolOf(b) == Start(sysArena) && t'.watermark == 1 && HoldingArena(g, g', sysArena)
  }

  function AtLeastOne(n: nat): nat {
    if n == 0 then 1 else n
  }

  /** The emptiness test of malloc. */
  lemma EmptyOrNot(t: Tables, g: Shape, i: nat)
    requires Inv(t, g, NULL) && i < CLASSES
    ensures Sent(i) in t.next && t.next[Sent(i)] in t.next
    ensures t.next[t.next[Sent(i)]] == t.next[Sent(i)] <==> g.used[i] == []
  {
    SentinelOutside(t, g, NULL, i);
    RingEmpty(t.next, t.prev, Sent(i), g.used[i]);
  }

  /** The block size of a request's class. */
  lemma ClassFits(nbytes: nat)
    requires Small(nbytes)
    ensures var i := (nbytes - 1) / ALIGNMENT; 0 <= i < CLASSES && nbytes <= BlockSize(i) < nbytes + ALIGNMENT
  {
  }

  class Heap {
    // pool headers, by pool address; next and prev also hold the list ends
    var count: map<int, nat>
    var freeblock: map<int, int>
    var next: map<int, int>
    var prev: map<int, int>
    var szidx: map<int, nat>
    var capacity: map<int, nat>
    // words in blocks
    var mem: map<int, int>
    var freepools: int
    var watermark: nat
    var arenaproto: int

    ghost var shape: Shape

    ghost function T(): Tables
      reads this
    {
      Tables(count, freeblock, next, prev, szidx, capacity, mem, freepools, watermark, arenaproto)
    }

    ghost predicate Valid()
      reads this
    {
      Inv(T(), shape, NULL)
    }

    constructor ()
      ensures Valid() && shape.regions == map[] && forall b :: !Live(T(), shape, b)
    {
      count, freeblock, szidx, capacity, mem := map[], map[], map[], map[], map[];
      next := map i: nat | i < CLASSES :: Sent(i) := Sent(i);
      prev := map i: nat | i < CLASSES :: Sent(i) := Sent(i);
      freepools, watermark, arenaproto := NULL, ARENA_POOLS, NULL;
      shape := Shape(seq(CLASSES, i => []), [], map[], map[], map[], {}, map[], NULL);
    }

    /** Unlink a pool from the used pools. */
    method Unlink(pool: int)
      requires pool in next && pool in prev
      modifies this`next, this`prev
      ensures next == Unlinked(old(T()), pool).next && prev == Unlinked(old(T()), pool).prev
    {
      var nextPool := next[pool];
      var prevPool := prev[pool];
      prev := prev[nextPool := prevPool];
      next := next[prevPool := nextPool];
    }

    /** A used pool serves the request. */
    method TakeUsed(size: nat, pool: int) returns (bp: int)
      requires size < |shape.used| && shape.used[size] != [] && Readable(T(), shape, pool)
      modifies this
      ensures (T(), shape) == Taken(old(T()), old(shape), size, pool) && bp == old(freeblock[pool])
    {
      ghost var t, g := T(), shape;
      count := count[pool := count[pool] + 1];
      bp := freeblock[pool];
      freeblock := freeblock[pool := mem[bp]];
      if freeblock[pool] != NULL {
      } else if count[pool] < capacity[pool] {
        var block := (size + 1) * ALIGNMENT;
        freeblock := freeblock[pool := pool + OVERHEAD + count[pool] * block];
        mem := mem[freeblock[pool] := NULL];
        assert freeblock == t.freeblock[pool := BlockAt(pool, size, count[pool])];
      } else {
        Unlink(pool);
      }
      shape := Taken(t, g, size, pool).1;
    }

    /** Front-link a pool to the used pools of a class. */
    method Frontlink(pool: int, size: nat)
      requires Sent(size) in next && next[Sent(size)] in prev && prev[next[Sent(size)]] == Sent(size)
      modifies this`next, this`prev
      ensures next == old(Frontlinked(T(), pool, size)).next && prev == old(Frontlinked(T(), pool, size)).prev
    {
      var nextPool := next[Sent(size)];
      var prevPool := prev[nextPool];
      next := next[pool := nextPool];
      prev := prev[pool := prevPool];
      prev := prev[nextPool := pool];
      next := next[prevPool := pool];
    }

    /** The pool last held another class, or none: a new header and free list. */
    method LayOut(pool: int, size: nat) returns (bp: int)
      modifies this`szidx, this`freeblock, this`mem, this`capacity
      ensures bp == pool + OVERHEAD && szidx == old(szidx)[pool := size] && capacity == old(capacity)[pool := Capacity(size)]
      ensures var f := bp + BlockSize(size); freeblock == old(freeblock)[pool := f] && mem == old(mem)[f := NULL]
    {
      szidx := szidx[pool := size];
      var block := (size + 1) * ALIGNMENT;
      assert block == BlockSize(size);
      bp := pool + OVERHEAD;
      freeblock := freeblock[pool := bp + block];
      mem := mem[freeblock[pool] := NULL];
      capacity := capacity[pool := (POOL_SIZE - OVERHEAD) / block];
    }

    /** Luckily it held blocks of the same class, or it is laid out anew. */
    method FirstBlock(pool: int, size: nat) returns (bp: int)
      requires pool in szidx && pool in freeblock && (szidx[pool] == size ==> freeblock[pool] in mem)
      modifies this`szidx, this`freeblock, this`mem, this`capacity
      ensures old(szidx[pool]) == size ==>
                && bp == old(freeblock[pool]) && freeblock == old(freeblock[pool := mem[freeblock[pool]]])
                && szidx == old(szidx) && capacity == old(capacity) && mem == old(mem)
      ensures old(szidx[pool]) != size ==>
                var f := pool + OVERHEAD + BlockSize(size);
                && bp == pool + OVERHEAD && szidx == old(szidx)[pool := size] && freeblock == old(freeblock)[pool := f]
                && mem == old(mem)[f := NULL] && capacity == old(capacity)[pool := Capacity(size)]
    {
      if szidx[pool] == size {
        bp := freeblock[pool];
        freeblock := freeblock[pool := mem[bp]];
      } else {
        bp := LayOut(pool, size);
      }
    }

    /** An empty pool for an empty class: hand out its first block. */
    method InitPool(pool: int, size: nat) returns (bp: int)
      requires Doms(T(), shape) && pool in count && Sent(size) in next && size < |shape.used|
      requires next[Sent(size)] in prev && prev[next[Sent(size)]] == Sent(size)
      requires szidx[pool] == size ==> freeblock[pool] in mem && shape.frees[pool] != []
      modifies this
      ensures (T(), shape, bp) == Initialised(old(T()), old(shape), pool, size)
    {
      ghost var t, g := T(), shape;
      Frontlink(pool, size);
      count := count[pool := 1];
      bp := FirstBlock(pool, size);
      InitialisedIs(t, g, pool, size, T(), bp);
      shape := Initialised(t, g, pool, size).1;
    }

    /** The next page of the current arena. Its header is raw memory. */
    method CommitPool(rawCount: nat, rawBlock: int, rawCapacity: nat) returns (pool: int)
      modifies this
      ensures pool == old(arenaproto) && (T(), shape) == Committed(old(T()), old(shape), rawCount, rawBlock, rawCapacity)
    {
      ghost var t, g := T(), shape;
      watermark := watermark + 1;
      pool := arenaproto;
      arenaproto := arenaproto + POOL_SIZE;
      count, freeblock, capacity := count[pool := rawCount], freeblock[pool := rawBlock], capacity[pool := rawCapacity];
      szidx := szidx[pool := DUMMY];
      shape := Committed(t, g, rawCount, rawBlock, rawCapacity).1;
    }

    /** Serve a small request from pool q, in transit, whose class has no used
        pool. */
    method Serve(q: int, size: nat) returns (bp: int)
      requires Inv(T(), shape, q) && q != NULL && size < CLASSES && shape.used[size] == []
      modifies this
      ensures Valid() && Allocates(old(T()), old(shape), T(), shape, bp) && SizeOf(T(), bp) == BlockSize(size)
      ensures Holding(old(shape), shape) && PoolOf(bp) == q && watermark == old(watermark) && shape.cached == old(shape.cached)
    {
      InitAny(T(), shape, q, size);
      bp := InitPool(q, size);
    }

    method ServeCached(size: nat) returns (bp: int)
      requires Valid() && freepools != NULL && size < CLASSES && shape.used[size] == []
      modifies this
      ensures Valid() && Allocates(old(T()), old(shape), T(), shape, bp) && SizeOf(T(), bp) == BlockSize(size)
      ensures Holding(old(shape), shape) && PoolOf(bp) == old(freepools) && watermark == old(watermark)
      ensures old(shape.cached) != [] && shape.cached == old(shape.cached)[1..]
    {
      ghost var t, g := T(), shape;
      Uncache(t, g);
      var pool := freepools;
      freepools := next[pool];
      shape := shape.(cached := shape.cached[1..]);
      ghost var t1, g1 := T(), shape;
      bp := Serve(pool, size);
      QuietThen(t, g, t1, g1, T(), shape, bp);
    }

    method ServeNew(size: nat, rawCount: nat, rawBlock: int, rawCapacity: nat) returns (bp: int)
      requires Valid() && watermark < ARENA_POOLS && size < CLASSES && shape.used[size] == []
      modifies this
      ensures Valid() && Allocates(old(T()), old(shape), T(), shape, bp) && SizeOf(T(), bp) == BlockSize(size)
      ensures Holding(old(shape), shape) && PoolOf(bp) == old(arenaproto) && watermark == old(watermark) + 1
    {
      ghost var t, g := T(), shape;
      Commit(t, g, rawCount, rawBlock, rawCapacity);
      var pool := CommitPool(rawCount, rawBlock, rawCapacity);
      ghost var t1, g1 := T(), shape;
      bp := Serve(pool, size);
      QuietThen(t, g, t1, g1, T(), shape, bp);
    }

    method ServeArena(size: nat, arena: int, rawCount: nat, rawBlock: int, rawCapacity: nat) returns (bp: int)
      requires Valid() && FreshRegion(shape, arena, ARENA_SIZE + POOL_SIZE) && arena % ALIGNMENT == 0
      requires size < CLASSES && shape.used[size] == []
      modifies this
      ensures Valid() && Allocates(old(T()), old(shape), T(), shape, bp) && SizeOf(T(), bp) == BlockSize(size)
      ensures HoldingArena(old(shape), shape, arena) && PoolOf(bp) == Start(arena) && watermark == 1
    {
      ghost var t, g := T(), shape;
      OpenArena(arena);
      ghost var t1, g1 := T(), shape;
      bp := ServeNew(size, rawCount, rawBlock, rawCapacity);
      QuietThen(t, g, t1, g1, T(), shape, bp);
    }

    /** Start on a new arena, at its first page boundary. */
    method OpenArena(arena: int)
      requires Valid() && FreshRegion(shape, arena, ARENA_SIZE + POOL_SIZE) && arena % ALIGNMENT == 0
      modifies this
      ensures Valid() && Quiet(old(T()), old(shape), T(), shape) && HoldingArena(old(shape), shape, arena)
      ensures watermark == 0 && arenaproto == Start(arena) && shape.used == old(shape.used)
    {
      ghost var t, g := T(), shape;
      NewArena(t, g, arena);
      watermark := 0;
      arenaproto := arena + (POOL_SIZE - arena % POOL_SIZE);
      shape := g.(arenas := g.arenas + {arena}, regions := g.regions[arena := ARENA_SIZE + POOL_SIZE], current := arena);
      assert T() == t.(watermark := 0, arenaproto := Start(arena));
    }

    /** malloc. What the system allocator would answer to a request for an arena and
        to the request itself are parameters; NULL is a refusal. */
    method Malloc(nbytes: nat, sysArena: int, sysBlock: int, rawCount: nat, rawBlock: int, rawCapacity: nat) returns (bp: int)
      requires Valid()
      requires sysArena != NULL ==> FreshRegion(shape, sysArena, ARENA_SIZE + POOL_SIZE) && sysArena % ALIGNMENT == 0
      requires sysBlock != NULL ==> FreshRegion(shape, sysBlock, AtLeastOne(nbytes))
      modifies this
      ensures Valid() && Gives(old(T()), old(shape), T(), shape, nbytes, sysArena, sysBlock, bp)
    {
      if 0 < nbytes <= THRESHOLD {
        ClassFits(nbytes);
        var served;
        bp, served := ServeSmall((nbytes - 1) / ALIGNMENT, sysArena, rawCount, rawBlock, rawCapacity);
        if served {
          return;
        }
      }
      bp := sysBlock;
      if bp != NULL {
        SystemGives(T(), shape, bp, AtLeastOne(nbytes));
        shape := shape.(regions := shape.regions[bp := AtLeastOne(nbytes)]);
      }
    }

    /** The pools' answer to a request of a class. */
    method ServeSmall(size: nat, sysArena: int, rawCount: nat, rawBlock: int, rawCapacity: nat) returns (bp: int, served: bool)
      requires Valid() && size < CLASSES
      requires sysArena != NULL ==> FreshRegion(shape, sysArena, ARENA_SIZE + POOL_SIZE) && sysArena % ALIGNMENT == 0
      modifies this
      ensures Valid()
      ensures served <==> old(shape.used[size] != [] || freepools != NULL || watermark < ARENA_POOLS || sysArena != NULL)
      ensures served ==> Allocates(old(T()), old(shape), T(), shape, bp) && SizeOf(T(), bp) == BlockSize(size)
      ensures served ==> ComesFrom(old(T()), old(shape), T(), shape, size, sysArena, bp)
      ensures !served ==> T() == old(T()) && shape == old(shape)
    {
      EmptyOrNot(T(), shape, size);
      var pool := next[Sent(size)];
      if pool != next[pool] {
        bp := ServeUsed(size, pool);
        served := true;
      } else {
        bp, served := ServeUnused(size, sysArena, rawCount, rawBlock, rawCapacity);
      }
    }

    /** When the class has a used pool, the first of them serves. */
    method ServeUsed(size: nat, pool: int) returns (bp: int)
      requires Valid() && size < CLASSES && shape.used[size] != [] && Sent(size) in next && pool == next[Sent(size)]
      modifies this
      ensures Valid() && Allocates(old(T()), old(shape), T(), shape, bp) && SizeOf(T(), bp) == BlockSize(size)
      ensures ComesFrom(old(T()), old(shape), T(), shape, size, NULL, bp)
    {
      ghost var t, g := T(), shape;
      TakeAny(t, g, size);
      TakenFrame(t, g, size, pool);
      bp := TakeUsed(size, pool);
    }

    /** And when the class has no used pool. */
    method ServeUnused(size: nat, sysArena: int, rawCount: nat, rawBlock: int, rawCapacity: nat) returns (bp: int, served: bool)
      requires Valid() && size < CLASSES && shape.used[size] == []
      requires sysArena != NULL ==> FreshRegion(shape, sysArena, ARENA_SIZE + POOL_SIZE) && sysArena % ALIGNMENT == 0
      modifies this
      ensures Valid()
      ensures served <==> old(freepools != NULL || watermark < ARENA_POOLS || sysArena != NULL)
      ensures served ==> Allocates(old(T()), old(shape), T(), shape, bp) && SizeOf(T(), bp) == BlockSize(size)
      ensures served ==> ComesFrom(old(T()), old(shape), T(), shape, size, sysArena, bp)
      ensures !served ==> T() == old(T()) && shape == old(shape)
    {
      served := true;
      if freepools != NULL {
        bp := ServeCached(size);
      } else if watermark < ARENA_POOLS {
        bp := ServeNew(size, rawCount, rawBlock, rawCapacity);
      } else if sysArena != NULL {
        bp := ServeArena(size, sysArena, rawCount, rawBlock, rawCapacity);
      } else {
        bp, served := NULL, false;
      }
    }

    /** Take an empty pool off its list and cache it. */
    method Retire(pool: int)
      requires pool in next && pool in prev
      modifies this`next, this`prev, this`freepools
      ensures next == Retired(old(T()), pool).next && prev == Retired(old(T()), pool).prev && freepools == pool
    {
      Unlink(pool);
      next := next[pool := freepools];
      freepools := pool;
    }

    /** Give a block back to its pool. */
    method Return(p: int, pool: int, ghost m: nat)
      requires Returnable(T(), shape, pool, m)
      modifies this
      ensures T() == Returned(old(T()), old(shape), pool, p, m).0 && shape == old(shape)
    {
      ghost var t := T();
      mem := mem[p := freeblock[pool]];
      if mem[p] == NULL {
        freeblock := freeblock[pool := p];
        count := count[pool := count[pool] - 1];
        assert T() == Given(t, pool, p);
        Frontlink(pool, szidx[pool]);
      } else {
        freeblock := freeblock[pool := p];
        count := count[pool := count[pool] - 1];
        assert T() == Given(t, pool, p);
        if count[pool] == 0 {
          Retire(pool);
        }
      }
    }

    method Free(p: int)
      requires Valid() && (p == NULL || Held(T(), shape, p))
      modifies this
      ensures Valid()
      ensures p == NULL ==> T() == old(T()) && shape == old(shape)
      ensures p != NULL ==> Frees(old(T()), old(shape), T(), shape, p)
    {
      ghost var t, g := T(), shape;
      if p == NULL {
        NullNotLive(t, g);
        return;
      }
      var offset := p % POOL_SIZE;
      var pool := p - offset;
      if pool !in count {
        // not one of ours: back to the system
        SystemTakes(t, g, p);
        shape := shape.(regions := shape.regions - {p});
        return;
      }
      if p in g.regions && p !in g.arenas { SystemBlockInNoPool(t, g, p); }
      FreeBlock(p, pool);
    }

    method FreeBlock(p: int, pool: int)
      requires Valid() && Live(T(), shape, p) && pool == PoolOf(p)
      modifies this
      ensures Valid() && Releases(old(T()), old(shape), T(), shape, p) && Holding(old(shape), shape)
      ensures GoesBack(old(T()), old(shape), T(), shape, p)
      ensures mem == old(mem)[p := old(freeblock)[pool]]
    {
      ghost var t, g := T(), shape;
      ghost var m := GiveBlock(t, g, p);
      Return(p, pool, m);
      shape := Returned(t, g, pool, p, m).1;
    }

    /** Free a block of a full pool, then ask for its class: the same block again. */
    method FreeThenMalloc(p: int, nbytes: nat, rawCount: nat, rawBlock: int, rawCapacity: nat) returns (bp: int)
      requires Valid() && Live(T(), shape, p) && freeblock[PoolOf(p)] == NULL
      requires Small(nbytes) && (nbytes - 1) / ALIGNMENT == szidx[PoolOf(p)]
      modifies this
      ensures Valid() && bp == p
      ensures forall x :: Live(T(), shape, x) <==> old(Live(T(), shape, x))
    {
      ghost var t, g := T(), shape;
      NullNotLive(t, g);
      Free(p);
      ghost var t1, g1 := T(), shape;
      bp := Malloc(nbytes, NULL, NULL, rawCount, rawBlock, rawCapacity);
      GivenAgain(t, g, t1, g1, T(), shape, p, nbytes, bp);
    }

    /** The program stores a word in memory it holds. */
    method Store(b: int, a: int, v: int)
      requires Valid() && Held(T(), shape, b) && b <= a < b + RoomAt(T(), shape, b)
      modifies this`mem
      ensures Valid() && mem == old(mem)[a := v]
      ensures shape == old(shape) && forall x :: Live(T(), shape, x) <==> old(Live(T(), shape, x))
      ensures forall x :: old(Held(T(), shape, x)) && x != b ==> SameMemory(old(T()), old(shape), T(), shape, x)
    {
      ghost var t := T();
      ProgramWrites(t, shape, b, mem[a := v]);
      mem := mem[a := v];
      assert T() == t.(mem := mem);
    }

    /** memcpy of size words, of which p holds the first `sure`. */
    method Copy(p: int, bp: int, size: int, ghost sure: int)
      requires Valid() && Held(T(), shape, p) && Held(T(), shape, bp) && bp != p
      requires 0 <= sure <= RoomAt(T(), shape, p) && sure <= size <= RoomAt(T(), shape, bp)
      modifies this`mem
      ensures Valid() && Held(T(), shape, bp) && RoomAt(T(), shape, bp) == old(RoomAt(T(), shape, bp))
      ensures forall x :: old(Held(T(), shape, x)) && x != bp ==> SameMemory(old(T()), old(shape), T(), shape, x)
      ensures Copied(old(mem), p, mem, bp, sure)
    {
      ghost var t, g := T(), shape;
      BothApart(t, g, p, bp);
      CopyWords(p, bp, size, sure, RoomAt(t, g, bp));
      ProgramWrites(t, g, bp, mem);
      assert T() == t.(mem := mem);
    }

    method CopyWords(p: int, bp: int, size: int, ghost sure: int, ghost room: int)
      requires 0 <= sure <= size <= room && PoolState.Apart(p, sure, bp, room)
      modifies this`mem
      ensures Copied(old(mem), p, mem, bp, sure)
      ensures forall a :: !(bp <= a < bp + room) && a in old(mem) ==> a in mem && mem[a] == old(mem)[a]
    {
      var off := 0;
      while off < size
        invariant 0 <= off <= size
        invariant forall a :: !(bp <= a < bp + room) ==> (a in mem <==> a in old(mem)) && (a in mem ==> mem[a] == old(mem)[a])
        invariant Copied(old(mem), p, mem, bp, Min(off, sure))
      {
        ghost var was := mem;
        if p + off in mem {
          mem := mem[bp + off := mem[p + off]];
        }
        forall a, c | p <= a < p + Min(off + 1, sure) && c - bp == a - p
          ensures SameWord(old(mem), a, mem, c)
        {
          if a < p + off { assert SameWord(old(mem), a, was, c); }
        }
        off := off + 1;
      }
    }

    /** The copy and free of realloc, after a malloc that gave bp. */
    method Move(p: int, bp: int, size: int, ghost sure: int)
      requires Valid() && Held(T(), shape, p) && Held(T(), shape, bp) && bp != p
      requires 0 <= sure <= RoomAt(T(), shape, p) && sure <= size <= RoomAt(T(), shape, bp)
      modifies this
      ensures Valid() && !Held(T(), shape, p) && Copied(old(mem), p, mem, bp, sure)
      ensures Held(T(), shape, bp) && RoomAt(T(), shape, bp) == old(RoomAt(T(), shape, bp))
      ensures forall x :: old(Held(T(), shape, x)) && x != p && x != bp ==> SameMemory(old(T()), old(shape), T(), shape, x)
    {
      ghost var t, g := T(), shape;
      BothApart(t, g, p, bp);
      HeldPositive(t, g, p);
      Copy(p, bp, size, sure);
      ghost var t1 := T();
      Free(p);
      forall x | Held(t1, g, x) && x != p
        ensures SameMemory(t1, g, T(), shape, x)
      {
        FreesKeeps(t1, g, T(), shape, p, x);
      }
      FreesKeeps(t1, g, T(), shape, p, bp);
      CopiedOn(t.mem, p, t1.mem, bp, sure, mem);
      forall x | Held(t, g, x) && x != p && x != bp
        ensures SameMemory(t, g, T(), shape, x)
      {
        SameTwice(t, g, t1, g, T(), shape, x);
      }
    }

    method MallocCopyFree(p: int, size: int, nbytes: nat, sysArena: int, sysBlock: int,
                          rawCount: nat, rawBlock: int, rawCapacity: nat) returns (bp: int)
      requires Valid() && Held(T(), shape, p) && Min(RoomAt(T(), shape, p), nbytes) <= size <= nbytes
      requires sysArena != NULL ==> FreshRegion(shape, sysArena, ARENA_SIZE + POOL_SIZE) && sysArena % ALIGNMENT == 0
      requires sysBlock != NULL ==> FreshRegion(shape, sysBlock, AtLeastOne(nbytes))
      modifies this
      ensures Valid()
      ensures bp == NULL ==> Quiet(old(T()), old(shape), T(), shape) && Holding(old(shape), shape)
      ensures bp != NULL ==> bp != p && Moved(old(T()), old(shape), T(), shape, p, bp, nbytes)
    {
      ghost var t, g := T(), shape;
      bp := Malloc(nbytes, sysArena, sysBlock, rawCount, rawBlock, rawCapacity);
      ghost var t1, g1 := T(), shape;
      NullNotLive(t1, g1);
      if bp != NULL {
        GivesNew(t, g, t1, g1, nbytes, sysArena, sysBlock, bp);
        forall x | Held(t, g, x)
          ensures SameMemory(t, g, t1, g1, x)
        {
          GivesKeeps(t, g, t1, g1, nbytes, sysArena, sysBlock, bp, x);
        }
        Move(p, bp, size, Min(RoomAt(t, g, p), nbytes));
        MovedAll(t, g, t1, g1, T(), shape, p, bp, nbytes);
      }
    }

    /** The system's realloc; its answer and the words after it are parameters. */
    method SystemRealloc(p: int, nbytes: nat, sysRe: int, sysMem: map<int, int>) returns (bp: int)
      requires Valid() && Held(T(), shape, p) && !Live(T(), shape, p)
      requires sysRe != NULL ==> SystemMoves(T(), shape, p, nbytes, sysRe, sysMem)
      modifies this
      ensures Valid() && bp == sysRe
      ensures bp == NULL && nbytes > 0 ==> T() == old(T()) && shape == old(shape)
      ensures bp == NULL && nbytes == 0 ==> Frees(old(T()), old(shape), T(), shape, p)
      ensures bp != NULL ==> Moved(old(T()), old(shape), T(), shape, p, bp, nbytes)
    {
      ghost var t, g := T(), shape;
      bp := sysRe;
      if bp == NULL {
        if nbytes == 0 {
          SystemTakes(t, g, p);
          shape := shape.(regions := shape.regions - {p});
        }
      } else {
        SystemMoved(t, g, p, nbytes, sysRe, sysMem);
        mem := sysMem;
        shape := shape.(regions := (shape.regions - {p})[bp := AtLeastOne(nbytes)]);
        assert T() == t.(mem := mem);
      }
    }

    /** realloc of memory the program holds, or of NULL. sysRe and sysMem are the
        answer of the system's realloc, for memory that is not from the pools. */
    method Realloc(p: int, nbytes: nat, sysArena: int, sysBlock: int, sysRe: int, sysMem: map<int, int>,
                   rawCount: nat, rawBlock: int, rawCapacity: nat) returns (bp: int)
      requires Valid() && (p == NULL || Held(T(), shape, p))
      requires sysArena != NULL ==> FreshRegion(shape, sysArena, ARENA_SIZE + POOL_SIZE) && sysArena % ALIGNMENT == 0
      requires sysBlock != NULL ==> FreshRegion(shape, sysBlock, AtLeastOne(nbytes))
      requires p in shape.regions && sysRe != NULL ==> SystemMoves(T(), shape, p, nbytes, sysRe, sysMem)
      modifies this
      ensures Valid()
      ensures p == NULL ==> Gives(old(T()), old(shape), T(), shape, nbytes, sysArena, sysBlock, bp)
      ensures p != NULL ==>
                Reallocates(old(T()), old(shape), T(), shape, p, nbytes, sysRe, bp)
    {
      if p == NULL {
        bp := Malloc(nbytes, sysArena, sysBlock, rawCount, rawBlock, rawCapacity);
      } else {
        bp := ReallocHeld(p, nbytes, sysArena, sysBlock, sysRe, sysMem, rawCount, rawBlock, rawCapacity);
      }
    }

    method ReallocHeld(p: int, nbytes: nat, sysArena: int, sysBlock: int, sysRe: int, sysMem: map<int, int>,
                       rawCount: nat, rawBlock: int, rawCapacity: nat) returns (bp: int)
      requires Valid() && Held(T(), shape, p)
      requires sysArena != NULL ==> FreshRegion(shape, sysArena, ARENA_SIZE + POOL_SIZE) && sysArena % ALIGNMENT == 0
      requires sysBlock != NULL ==> FreshRegion(shape, sysBlock, AtLeastOne(nbytes))
      requires p in shape.regions && sysRe != NULL ==> SystemMoves(T(), shape, p, nbytes, sysRe, sysMem)
      modifies this
      ensures Valid() && Reallocates(old(T()), old(shape), T(), shape, p, nbytes, sysRe, bp)
    {
      var pool := p - p % POOL_SIZE;
      if pool !in count {
        if !(nbytes > THRESHOLD) && nbytes != 0 {
          bp := MallocCopyFree(p, nbytes, nbytes, sysArena, sysBlock, rawCount, rawBlock, rawCapacity);
        } else {
          bp := SystemRealloc(p, nbytes, sysRe, sysMem);
        }
        return;
      }
      if p in shape.regions && p !in shape.arenas { SystemBlockInNoPool(T(), shape, p); }
      bp := ReallocBlock(p, pool, nbytes, sysArena, sysBlock, rawCount, rawBlock, rawCapacity);
    }

    /** realloc of a block from the pools. */
    method ReallocBlock(p: int, pool: int, nbytes: nat, sysArena: int, sysBlock: int,
                        rawCount: nat, rawBlock: int, rawCapacity: nat) returns (bp: int)
      requires Valid() && Live(T(), shape, p) && pool == PoolOf(p)
      requires sysArena != NULL ==> FreshRegion(shape, sysArena, ARENA_SIZE + POOL_SIZE) && sysArena % ALIGNMENT == 0
      requires sysBlock != NULL ==> FreshRegion(shape, sysBlock, AtLeastOne(nbytes))
      modifies this
      ensures Valid() && Reallocates(old(T()), old(shape), T(), shape, p, nbytes, NULL, bp)
    {
      var size := (szidx[pool] + 1) * ALIGNMENT;
      if size >= nbytes {
        if nbytes == 0 {
          NullNotLive(T(), shape);
          Free(p);
          bp := NULL;
        } else {
          bp := p;
        }
      } else {
        bp := MallocCopyFree(p, size, nbytes, sysArena, sysBlock, rawCount, rawBlock, rawCapacity);
      }
    }
  }

  /** What a realloc of p does: of a block, nothing when it is large enough; a free
      when no byte is asked for; otherwise the words move, or nothing changes and
      the answer is NULL. Only memory from the system, when no small amount is asked
      for, is left to the system's realloc. */
  ghost predicate Reallocates(t: Tables, g: Shape, t': Tables, g': Shape, p: int, nbytes: nat, sysRe: int, bp: int)
    requires Inv(t, g, NULL) && Inv(t', g', NULL) && Held(t, g, p)
  {
    if Live(t, g, p) && 0 < nbytes <= SizeOf(t, p) then bp == p && t' == t && g' == g
    else if Live(t, g, p) && nbytes == 0 then bp == NULL && Frees(t, g, t', g', p)
    else if !Live(t, g, p) && !Small(nbytes) then
      bp == sysRe && (if bp != NULL then Moved(t, g, t', g', p, bp, nbytes)
                      else if nbytes == 0 then Frees(t, g, t', g', p) else t' == t && g' == g)
    else if bp == NULL then Quiet(t, g, t', g') && Holding(g, g')
    else bp != p && Moved(t, g, t', g', p, bp, nbytes)
  }

  lemma HeldPositive(t: Tables, g: Shape, p: int)
    requires Inv(t, g, NULL) && Held(t, g, p)
    ensures p > 0
  {
    if Live(t, g, p) { LiveInside(t, g, NULL, p); }
  }

  /** Memory that malloc gives was not held before and has room. */
  lemma GivesNew(t: Tables, g: Shape, t': Tables, g': Shape, nbytes: nat, sysArena: int, sysBlock: int, bp: int)
    requires Inv(t, g, NULL) && Inv(t', g', NULL) && Gives(t, g, t', g', nbytes, sysArena, sysBlock, bp) && bp != NULL
    requires sysArena != NULL ==> FreshRegion(g, sysArena, ARENA_SIZE + POOL_SIZE)
    requires sysBlock != NULL ==> FreshRegion(g, sysBlock, AtLeastOne(nbytes))
    ensures !Held(t, g, bp) && Held(t', g', bp) && RoomAt(t', g', bp) >= nbytes
  {
    if FromPools(t, g, nbytes, sysArena) {
      if bp in g.regions && bp !in g.arenas { SystemBlockInNoPool(t', g', bp); }
    } else {
      SystemNotLive(t, g, bp, AtLeastOne(nbytes));
    }
  }

  /** malloc leaves all memory held alone. */
  lemma GivesKeeps(t: Tables, g: Shape, t': Tables, g': Shape, nbytes: nat, sysArena: int, sysBlock: int, bp: int, x: int)
    requires Inv(t, g, NULL) && Inv(t', g', NULL) && Gives(t, g, t', g', nbytes, sysArena, sysBlock, bp) && Held(t, g, x)
    requires sysArena != NULL ==> FreshRegion(g, sysArena, ARENA_SIZE + POOL_SIZE)
    requires sysBlock != NULL ==> FreshRegion(g, sysBlock, AtLeastOne(nbytes))
    ensures SameMemory(t, g, t', g', x)
  {
    MemoryKept(t, g, t', g', x);
  }

  /** free leaves all other memory held alone, and p is held no more. */
  lemma FreesKeeps(t: Tables, g: Shape, t': Tables, g': Shape, p: int, x: int)
    requires Inv(t, g, NULL) && Inv(t', g', NULL) && Held(t, g, p) && Frees(t, g, t', g', p) && Held(t, g, x) && x != p
    ensures SameMemory(t, g, t', g', x) && !Held(t', g', p)
  {
    if p in g.regions && p !in g.arenas { SystemBlockInNoPool(t, g, p); }
    MemoryKept(t, g, t', g', x);
  }

  lemma SameTwice(t: Tables, g: Shape, t1: Tables, g1: Shape, t2: Tables, g2: Shape, x: int)
    requires Doms(t, g) && Doms(t1, g1) && Doms(t2, g2) && Held(t, g, x) && SameMemory(t, g, t1, g1, x) && SameMemory(t1, g1, t2, g2, x)
    ensures SameMemory(t, g, t2, g2, x)
  {
  }

  /** A malloc, then the copy and the free. */
  lemma MovedAll(t: Tables, g: Shape, t1: Tables, g1: Shape, t2: Tables, g2: Shape, p: int, bp: int, nbytes: nat)
    requires Inv(t, g, NULL) && Doms(t1, g1) && Inv(t2, g2, NULL) && Held(t, g, p) && !Held(t, g, bp) && bp != p
    requires forall x :: Held(t, g, x) ==> SameMemory(t, g, t1, g1, x)
    requires forall x :: Held(t1, g1, x) && x != p && x != bp ==> SameMemory(t1, g1, t2, g2, x)
    requires !Held(t2, g2, p) && Held(t2, g2, bp) && RoomAt(t2, g2, bp) >= nbytes
    requires Copied(t1.mem, p, t2.mem, bp, Min(RoomAt(t, g, p), nbytes))
    ensures Moved(t, g, t2, g2, p, bp, nbytes)
  {
    forall a, c | p <= a < p + Min(RoomAt(t, g, p), nbytes) && c - bp == a - p
      ensures SameWord(t.mem, a, t2.mem, c)
    {
      assert SameMemory(t, g, t1, g1, p) && SameWord(t1.mem, a, t2.mem, c);
    }
    forall x | Held(t, g, x) && x != p
      ensures SameMemory(t, g, t2, g2, x)
    {
      SameTwice(t, g, t1, g1, t2, g2, x);
    }
  }

  /** The system's realloc: p goes back, the answer is new. */
  lemma SystemMoved(t: Tables, g: Shape, p: int, nbytes: nat, b: int, mem': map<int, int>)
    requires Inv(t, g, NULL) && Held(t, g, p) && !Live(t, g, p) && SystemMoves(t, g, p, nbytes, b, mem')
    ensures var t', g' := t.(mem := mem'), g.(regions := (g.regions - {p})[b := AtLeastOne(nbytes)]);
            Inv(t', g', NULL) && Moved(t, g, t', g', p, b, nbytes)
  {
    var g1 := g.(regions := g.regions - {p});
    var t', g' := t.(mem := mem'), g1.(regions := g1.regions[b := AtLeastOne(nbytes)]);
    SystemTakes(t, g, p);
    SystemGives(t, g1, b, AtLeastOne(nbytes));
    SystemNotLive(t, g1, b, AtLeastOne(nbytes));
    ProgramWrites(t, g', b, mem');
    forall x | Held(t, g, x) && x != p
      ensures SameMemory(t, g, t', g', x)
    {
      assert SameMemory(t, g', t', g', x);
    }
  }

  /** Memory fresh from the system is no block in use. */
  lemma SystemNotLive(t: Tables, g: Shape, a: int, n: nat)
    requires Inv(t, g, NULL) && FreshRegion(g, a, n)
    ensures !Live(t, g, a)
  {
    if Live(t, g, a) {
      LiveInside(t, g, NULL, a);
    }
  }

  /** The copy survives the free of p. */
  lemma CopiedOn(mem: map<int, int>, p: int, mem2: map<int, int>, bp: int, size: int, mem3: map<int, int>)
    requires Copied(mem, p, mem2, bp, size) && !(bp <= p < bp + size)
    requires forall a :: a != p && a in mem2 ==> a in mem3 && mem3[a] == mem2[a]
    ensures Copied(mem, p, mem3, bp, size)
  {
    forall a, c | p <= a < p + size && c - bp == a - p
      ensures SameWord(mem, a, mem3, c)
    {
      assert SameWord(mem, a, mem2, c);
    }
  }

  lemma TakenFrame(t: Tables, g: Shape, i: nat, p: int)
    requires i < |g.used| && g.used[i] != [] && Readable(t, g, p)
    ensures var (t', g') := Taken(t, g, i, p); t'.watermark == t.watermark && t'.freepools == t.freepools && Holding(g, g')
  {
  }

  /** Everything a free of block b does. */
  lemma GiveBlock(t: Tables, g: Shape, b: int) returns (m: nat)
    requires Inv(t, g, NULL) && Live(t, g, b)
    ensures Returnable(t, g, PoolOf(b), m)
    ensures var (t', g') := Returned(t, g, PoolOf(b), b, m);
            && Inv(t', g', NULL) && Releases(t, g, t', g', b) && GoesBack(t, g, t', g', b) && Holding(g, g')
            && t'.mem == t.mem[b := t.freeblock[PoolOf(b)]]
  {
    var p, k := GiveAny(t, g, b);
    m := k;
    ReturnedFrame(t, g, p, b, m);
    var (t', g') := Returned(t, g, p, b, m);
    ReturnedLists(t, g, b, m, t', g');
  }

  lemma ReturnedLists(t: Tables, g: Shape, b: int, m: nat, t': Tables, g': Shape)
    requires Inv(t, g, NULL) && Live(t, g, b) && Returnable(t, g, PoolOf(b), m) && Inv(t', g', NULL)
    requires (t', g') == Returned(t, g, PoolOf(b), b, m)
    ensures GoesBack(t, g, t', g', b)
  {
    var q := PoolOf(b);
    LiveInside(t, g, NULL, b);
    if t.freeblock[q] != NULL && t.count[q] == 1 {
      assert q in t'.count && t'.count[q] == 0;
    }
  }

  /** A block freed from a full pool is the first to be given again. */
  lemma GivenAgain(t: Tables, g: Shape, t1: Tables, g1: Shape, t2: Tables, g2: Shape, p: int, nbytes: nat, bp: int)
    requires Inv(t, g, NULL) && Inv(t1, g1, NULL) && Inv(t2, g2, NULL) && Live(t, g, p) && t.freeblock[PoolOf(p)] == NULL
    requires Frees(t, g, t1, g1, p) && Small(nbytes) && (nbytes - 1) / ALIGNMENT == t.szidx[PoolOf(p)]
    requires Gives(t1, g1, t2, g2, nbytes, NULL, NULL, bp)
    ensures bp == p && forall x :: Live(t2, g2, x) <==> Live(t, g, x)
  {
    FullComesFirst(t, g, t1, g1, p);
    FirstAgain(t1, g1, t2, g2, t.szidx[PoolOf(p)], p, bp);
    LiveAgain(t, g, t1, g1, t2, g2, p);
  }

  lemma FullComesFirst(t: Tables, g: Shape, t1: Tables, g1: Shape, p: int)
    requires Doms(t, g) && PoolOf(p) in t.count && t.freeblock[PoolOf(p)] == NULL && GoesBack(t, g, t1, g1, p)
    ensures var i, q := t.szidx[PoolOf(p)], PoolOf(p);
            i < CLASSES == |g1.used| && g1.used[i] != [] && g1.used[i][0] == q && q in t1.freeblock && t1.freeblock[q] == p
  {
  }

  lemma FirstAgain(t: Tables, g: Shape, t': Tables, g': Shape, i: nat, p: int, b: int)
    requires i < |g.used| && g.used[i] != [] && g.used[i][0] in t.freeblock && t.freeblock[g.used[i][0]] == p
    requires ComesFrom(t, g, t', g', i, NULL, b)
    ensures b == p
  {
  }

  lemma LiveAgain(t: Tables, g: Shape, t1: Tables, g1: Shape, t2: Tables, g2: Shape, p: int)
    requires Doms(t, g) && Doms(t1, g1) && Doms(t2, g2) && Releases(t, g, t1, g1, p) && Allocates(t1, g1, t2, g2, p)
    ensures forall x :: Live(t2, g2, x) <==> Live(t, g, x)
  {
  }

  lemma NullNotLive(t: Tables, g: Shape)
    requires Inv(t, g, NULL)
    ensures !Live(t, g, NULL)
  {
    if Live(t, g, NULL) { LiveInside(t, g, NULL, NULL); }
  }
}
