/** The steps of malloc and free on the pools keep the invariant, and change which
    blocks are in use exactly as they should. */
module PoolSteps {
  import opened PoolLists
  import opened Pools
  import opened PoolState

  // ----- from one pool to the whole -----

  lemma PoolPositive(t: Tables, g: Shape, q: int, p: int)
    requires Inv(t, g, q) && p in t.count
    ensures p > 0 && p % POOL_SIZE == 0
  {
  }

  /** The maps agree but at p. */
  ghost predicate OnlyAt<V(!new)>(m: map<int, V>, m': map<int, V>, p: int) {
    m'.Keys == m.Keys && forall x :: x in m && x != p ==> m'[x] == m[x]
  }

  lemma Update<V(!new)>(m: map<int, V>, p: int, v: V)
    requires p in m
    ensures OnlyAt(m, m[p := v], p)
  {
  }

  ghost predicate OtherPages(mem: map<int, int>, mem': map<int, int>, p: int) {
    forall b :: PoolOf(b) != p && b in mem ==> b in mem' && mem'[b] == mem[b]
  }

  lemma OneWord(mem: map<int, int>, mem': map<int, int>, p: int, a: int, v: int)
    requires PoolOf(a) == p && mem' == mem[a := v]
    ensures OtherPages(mem, mem', p)
  {
  }

  /** Only the header of pool p changes. */
  lemma OnePool(t: Tables, g: Shape, t': Tables, g': Shape, p: int)
    requires Doms(t, g) && OtherPages(t.mem, t'.mem, p)
    requires OnlyAt(t.count, t'.count, p) && OnlyAt(t.freeblock, t'.freeblock, p)
    requires OnlyAt(t.szidx, t'.szidx, p) && OnlyAt(t.capacity, t'.capacity, p)
    requires OnlyAt(g.frees, g'.frees, p) && OnlyAt(g.carved, g'.carved, p) && g'.home == g.home
    ensures Doms(t', g') && SameBut(t, g, t', g', p)
  {
  }

  /** The rest of the invariant when pool p has been changed. */
  lemma Rebuild(t: Tables, g: Shape, t': Tables, g': Shape, p: int, q: int)
    requires Inv(t, g, q) && (q == NULL || q == p) && p in t.count
    requires Doms(t', g') && SameBut(t, g, t', g', p)
    requires Rings(t'.next, t'.prev, g'.used) && Used(t', g', NULL) && Cached(t'.next, t'.freepools, g'.cached, t'.count, NULL)
    requires g'.home == g.home && g'.arenas == g.arenas && g'.regions == g.regions && g'.current == g.current
    requires t'.watermark == t.watermark && t'.arenaproto == t.arenaproto
    requires Pool(t', g', p) && Placed(t', g', p)
    requires forall x :: x in t.count && x != p && Placed(t, g, x) ==> Placed(t', g', x)
    ensures Inv(t', g', NULL)
  {
    PoolsRebuilt(t, g, t', g', p, q);
  }

  lemma PoolsRebuilt(t: Tables, g: Shape, t': Tables, g': Shape, p: int, q: int)
    requires Inv(t, g, q) && (q == NULL || q == p) && p in t.count
    requires Doms(t', g') && SameBut(t, g, t', g', p) && |g'.used| == CLASSES
    requires Pool(t', g', p) && Placed(t', g', p)
    requires forall x :: x in t.count && x != p && Placed(t, g, x) ==> Placed(t', g', x)
    ensures AllPools(t', g', NULL)
  {
    forall x | x in t'.count
      ensures Pool(t', g', x) && Placed(t', g', x)
    {
      if x != p {
        assert Pool(t, g, x) && Placed(t, g, x);
        PoolPositive(t, g, q, x);
        OtherPool(t, g, t', g', p, x);
      }
    }
  }

  /** Nodes of different rings differ. */
  lemma RingsDiffer(t: Tables, g: Shape, q: int, i: nat, j: nat, x: int, y: int)
    requires Inv(t, g, q) && i < CLASSES && j < CLASSES && i != j
    requires x == Sent(i) || x in g.used[i]
    requires y == Sent(j) || y in g.used[j]
    ensures x != y
  {
    if x in g.used[i] { PoolPositive(t, g, q, x); }
    if y in g.used[j] { PoolPositive(t, g, q, y); }
  }

  lemma SentinelOutside(t: Tables, g: Shape, q: int, i: nat)
    requires Inv(t, g, q) && i < CLASSES
    ensures Sent(i) !in g.used[i]
  {
    if Sent(i) in g.used[i] { PoolPositive(t, g, q, Sent(i)); }
  }

  /** The words of pool p's page may change only where no block in use is. */
  ghost predicate Clear(t: Tables, g: Shape, t': Tables, p: int, a: int)
    requires Doms(t, g)
  {
    && (forall b :: b != a && b in t.mem ==> b in t'.mem && t'.mem[b] == t.mem[b])
    && p in t.szidx && p in t'.szidx
    && (forall x :: PoolOf(x) == p && Live(t, g, x) ==> t'.szidx[p] == t.szidx[p] && !(x <= a < x + BlockSize(t.szidx[p])))
  }

  lemma Allocated(t: Tables, g: Shape, q: int, t': Tables, g': Shape, p: int, a: int, b: int)
    requires Inv(t, g, q) && Doms(t', g') && SameBut(t, g, t', g', p) && Clear(t, g, t', p, a)
    requires PoolOf(b) == p && !Live(t, g, b) && Live(t', g', b)
    requires forall x :: PoolOf(x) == p && x != b ==> (Live(t', g', x) <==> Live(t, g, x))
    ensures Allocates(t, g, t', g', b)
  {
    forall x | x != b
      ensures Live(t', g', x) <==> Live(t, g, x)
    {
      if PoolOf(x) != p { OtherLive(t, g, t', g', p, x); }
    }
    forall x | Live(t, g, x)
      ensures Kept(t, t', x)
    {
      LiveInside(t, g, q, x);
      if PoolOf(x) != p { OtherKept(t, g, t', g', p, x); }
    }
  }

  lemma Released(t: Tables, g: Shape, t': Tables, g': Shape, p: int, b: int)
    requires Inv(t, g, NULL) && Doms(t', g') && SameBut(t, g, t', g', p)
    requires PoolOf(b) == p && Live(t, g, b) && !Live(t', g', b) && t'.szidx == t.szidx
    requires forall x :: x != b && x in t.mem ==> x in t'.mem && t'.mem[x] == t.mem[x]
    requires forall x :: PoolOf(x) == p && x != b ==> (Live(t', g', x) <==> Live(t, g, x))
    ensures Releases(t, g, t', g', b)
  {
    forall x | x != b
      ensures Live(t', g', x) <==> Live(t, g, x)
    {
      if PoolOf(x) != p { OtherLive(t, g, t', g', p, x); }
    }
    forall x | Live(t, g, x) && x != b
      ensures Kept(t, t', x)
    {
      LiveApart(t, g, x, b);
    }
  }

  // ----- malloc: a used pool -----

  /** p is the first used pool of class i, b the head of its free list. */
  ghost predicate First(t: Tables, g: Shape, i: nat, p: int, b: int) {
    && Inv(t, g, NULL) && i < CLASSES && g.used[i] != [] && p == g.used[i][0]
    && p in t.count && t.szidx[p] == i && p > 0 && p % POOL_SIZE == 0 && p !in g.cached
    && g.frees[p] != [] && b == t.freeblock[p] == g.frees[p][0] && b in t.mem
    && PoolOk(p, t.count[p] + 1, t.mem[b], i, t.capacity[p], g.carved[p], g.frees[p][1..], t.mem)
    && IsBlock(p, i, g.carved[p], b) && b !in g.frees[p][1..] && PoolOf(b) == p && b != NULL
  }

  lemma FirstUsed(t: Tables, g: Shape, i: nat) returns (p: int, b: int)
    requires Inv(t, g, NULL) && i < CLASSES && g.used[i] != []
    ensures Sent(i) in t.next && p == t.next[Sent(i)] && First(t, g, i, p, b)
  {
    p := g.used[i][0];
    assert p in g.used[i];
    b := t.freeblock[p];
    assert Pool(t, g, p);
    PoolPositive(t, g, NULL, p);
    RingAt(t.next, t.prev, Sent(i), g.used[i], 0);
    assert NodeAt(Sent(i), g.used[i], 1) == p;
    PoolTake(p, t.count[p], b, i, t.capacity[p], g.carved[p], g.frees[p], t.mem);
    BlockInside(p, i, g.carved[p], b);
  }

  /** Count one more block in use and pop the free list. */
  function Popped(t: Tables, p: int, b: int): Tables
    requires p in t.count && b in t.mem
  {
    t.(count := t.count[p := t.count[p] + 1], freeblock := t.freeblock[p := t.mem[b]])
  }

  /** More blocks are free. */
  lemma TakeMore(t: Tables, g: Shape, i: nat, p: int, b: int)
    requires First(t, g, i, p, b) && |g.frees[p]| > 1
    ensures Inv(Popped(t, p, b), g.(frees := g.frees[p := g.frees[p][1..]]), NULL)
    ensures Allocates(t, g, Popped(t, p, b), g.(frees := g.frees[p := g.frees[p][1..]]), b)
  {
    TakeMoreInv(t, g, i, p, b);
    TakenLive(t, g, p, b, Popped(t, p, b), g.(frees := g.frees[p := g.frees[p][1..]]));
  }

  /** Lists of the same pools, p among the used ones before and after. */
  lemma UsedKept(t: Tables, g: Shape, t': Tables, g': Shape, p: int)
    requires Doms(t, g) && |g.used| == CLASSES && Used(t, g, NULL)
    requires Doms(t', g') && SameBut(t, g, t', g', p) && g'.used == g.used && p in t.count
    requires t'.szidx[p] == t.szidx[p] && t'.count[p] > 0 && g'.frees[p] != []
    ensures Used(t', g', NULL)
  {
    forall i, x | 0 <= i < CLASSES && x in g'.used[i]
      ensures x in t'.count && x != NULL && t'.szidx[x] == i && t'.count[x] > 0 && g'.frees[x] != []
    {
      assert x in g.used[i];
      assert x != p ==> SamePool(t, g, t', g', x);
    }
  }

  /** A pool that has not changed stays placed while it stays in its list. */
  lemma PlacedKept(t: Tables, g: Shape, t': Tables, g': Shape, p: int, x: int)
    requires Doms(t, g) && |g.used| == CLASSES && Doms(t', g') && |g'.used| == CLASSES && SameBut(t, g, t', g', p)
    requires x in t.count && x != p && Placed(t, g, x)
    requires x in g.cached ==> x in g'.cached
    requires forall j :: 0 <= j < CLASSES && x in g.used[j] ==> x in g'.used[j]
    ensures Placed(t', g', x)
  {
    assert SamePool(t, g, t', g', x);
  }

  /** Pool p is not cached. */
  lemma CachedKept(t: Tables, g: Shape, t': Tables, g': Shape, p: int)
    requires Doms(t, g) && Doms(t', g') && SameBut(t, g, t', g', p) && p !in g.cached
    requires Cached(t.next, t.freepools, g.cached, t.count, NULL) && Chain(t'.next, t.freepools, g.cached)
    ensures Cached(t'.next, t.freepools, g.cached, t'.count, NULL)
  {
    forall x | x in g.cached
      ensures x in t'.count && x != NULL && t'.count[x] == 0
    {
      assert SamePool(t, g, t', g', x);
    }
  }

  /** A pool that stays in its list, with blocks in use and blocks free. */
  lemma StaysUsed(t: Tables, g: Shape, t': Tables, g': Shape, p: int)
    requires Inv(t, g, NULL) && p in t.count && t.szidx[p] < CLASSES && p in g.used[t.szidx[p]] && p !in g.cached
    requires Doms(t', g') && SameBut(t, g, t', g', p) && t'.next == t.next && t'.prev == t.prev && t'.freepools == t.freepools
    requires g'.used == g.used && g'.cached == g.cached && t'.szidx[p] == t.szidx[p] && t'.count[p] > 0 && g'.frees[p] != []
    ensures Rings(t'.next, t'.prev, g'.used) && Used(t', g', NULL) && Cached(t'.next, t'.freepools, g'.cached, t'.count, NULL)
    ensures Placed(t', g', p) && forall x :: x in t.count && x != p && Placed(t, g, x) ==> Placed(t', g', x)
  {
    UsedKept(t, g, t', g', p);
    CachedKept(t, g, t', g', p);
    forall x | x in t.count && x != p && Placed(t, g, x)
      ensures Placed(t', g', x)
    {
      PlacedKept(t, g, t', g', p, x);
    }
  }

  lemma TakeMoreInv(t: Tables, g: Shape, i: nat, p: int, b: int)
    requires First(t, g, i, p, b) && |g.frees[p]| > 1
    ensures Inv(Popped(t, p, b), g.(frees := g.frees[p := g.frees[p][1..]]), NULL)
  {
    var t', g' := Popped(t, p, b), g.(frees := g.frees[p := g.frees[p][1..]]);
    StaysUsed(t, g, t', g', p);
    Rebuild(t, g, t', g', p, NULL);
  }

  /** The block taken is the only one to change hands. */
  lemma TakenLive(t: Tables, g: Shape, p: int, b: int, t': Tables, g': Shape)
    requires Inv(t, g, NULL) && p in t.count && First(t, g, t.szidx[p], p, b)
    requires Doms(t', g') && SameBut(t, g, t', g', p) && t'.mem == t.mem && t'.szidx[p] == t.szidx[p]
    requires g'.carved[p] == g.carved[p] && g'.frees[p] == g.frees[p][1..]
    ensures Allocates(t, g, t', g', b)
  {
    var L := g.frees[p];
    assert L == [b] + L[1..];
    Allocated(t, g, NULL, t', g', p, NULL, b);
  }

  /** None is, but the pool has room: carve the block whose index is the count. */
  lemma TakeCarve(t: Tables, g: Shape, i: nat, p: int, b: int)
    requires First(t, g, i, p, b) && |g.frees[p]| == 1 && t.count[p] + 1 < t.capacity[p]
    ensures var (t', g') := Carved(t, g, i, p, b); Inv(t', g', NULL) && Allocates(t, g, t', g', b)
  {
    var (t', g') := Carved(t, g, i, p, b);
    CarveInv(t, g, i, p, b, t', g');
    CarvedLive(t, g, i, p, b, t', g');
  }

  lemma CarveInv(t: Tables, g: Shape, i: nat, p: int, b: int, t': Tables, g': Shape)
    requires First(t, g, i, p, b) && |g.frees[p]| == 1 && t.count[p] + 1 < t.capacity[p]
    requires (t', g') == Carved(t, g, i, p, b)
    ensures Inv(t', g', NULL)
  {
    CarveSame(t, g, i, p, b, t', g');
    CarvePool(t, g, i, p, b, t', g');
    StaysUsed(t, g, t', g', p);
    Rebuild(t, g, t', g', p, NULL);
  }

  lemma CarvePool(t: Tables, g: Shape, i: nat, p: int, b: int, t': Tables, g': Shape)
    requires First(t, g, i, p, b) && |g.frees[p]| == 1 && t.count[p] + 1 < t.capacity[p]
    requires (t', g') == Carved(t, g, i, p, b) && Doms(t', g')
    ensures Pool(t', g', p)
  {
    assert g.frees[p][1..] == [] && t.mem[b] == NULL;
    PoolCarve(p, t.count[p] + 1, i, t.capacity[p], g.carved[p], t.mem);
  }

  /** Only pool p and a word of its page change. */
  lemma CarveSame(t: Tables, g: Shape, i: nat, p: int, b: int, t': Tables, g': Shape)
    requires First(t, g, i, p, b) && |g.frees[p]| == 1 && t.count[p] + 1 < t.capacity[p]
    requires (t', g') == Carved(t, g, i, p, b)
    ensures Doms(t', g') && SameBut(t, g, t', g', p)
  {
    BlockOf(p, i, g.carved[p] + 1, t.count[p] + 1);
    BlockInside(p, i, g.carved[p] + 1, BlockAt(p, i, t.count[p] + 1));
  }

  function Carved(t: Tables, g: Shape, i: nat, p: int, b: int): (Tables, Shape)
    requires p in t.count && b in t.mem && p in g.carved
  {
    var v := BlockAt(p, i, t.count[p] + 1);
    (Popped(t, p, b).(freeblock := t.freeblock[p := v], mem := t.mem[v := NULL]),
     g.(frees := g.frees[p := [v]], carved := g.carved[p := g.carved[p] + 1]))
  }

  lemma CarvedLive(t: Tables, g: Shape, i: nat, p: int, b: int, t': Tables, g': Shape)
    requires First(t, g, i, p, b) && |g.frees[p]| == 1 && t.count[p] + 1 < t.capacity[p]
    requires (t', g') == Carved(t, g, i, p, b) && Inv(t', g', NULL)
    ensures Allocates(t, g, t', g', b)
  {
    CarveSame(t, g, i, p, b, t', g');
    CarvedBlocks(t, g, i, p, b, t', g');
    assert !Live(t, g, b);
    OneCarved(t, g, i, p, b, t', g', BlockAt(p, i, g.carved[p]));
  }

  lemma CarvedBlocks(t: Tables, g: Shape, i: nat, p: int, b: int, t': Tables, g': Shape)
    requires First(t, g, i, p, b) && |g.frees[p]| == 1 && t.count[p] + 1 < t.capacity[p]
    requires (t', g') == Carved(t, g, i, p, b) && Doms(t', g')
    ensures Live(t', g', b) && forall x :: PoolOf(x) == p ==> Untouched(t, g, t', g', i, b, BlockAt(p, i, g.carved[p]), x)
  {
    forall x | PoolOf(x) == p
      ensures Untouched(t, g, t', g', i, b, BlockAt(p, i, g.carved[p]), x)
    {
      CarvedPage(t, g, i, p, b, t', g', x);
    }
    CarvedPage(t, g, i, p, b, t', g', b);
  }

  /** Block x is live before and after, or neither, and the word at v is not in it. */
  ghost predicate Untouched(t: Tables, g: Shape, t': Tables, g': Shape, i: nat, b: int, v: int, x: int)
    requires Doms(t, g) && Doms(t', g')
  {
    (x != b ==> (Live(t', g', x) <==> Live(t, g, x))) && (Live(t, g, x) ==> !(x <= v < x + BlockSize(i)))
  }

  lemma OneCarved(t: Tables, g: Shape, i: nat, p: int, b: int, t': Tables, g': Shape, v: int)
    requires Inv(t, g, NULL) && Doms(t', g') && SameBut(t, g, t', g', p) && p in t.szidx && t.szidx[p] == i
    requires t'.szidx == t.szidx && t'.mem == t.mem[v := NULL] && PoolOf(b) == p && !Live(t, g, b) && Live(t', g', b)
    requires forall x :: PoolOf(x) == p ==> Untouched(t, g, t', g', i, b, v, x)
    ensures Allocates(t, g, t', g', b)
  {
    forall x | PoolOf(x) == p
      ensures x != b ==> (Live(t', g', x) <==> Live(t, g, x))
      ensures Live(t, g, x) ==> !(x <= v < x + BlockSize(i))
    {
      assert Untouched(t, g, t', g', i, b, v, x);
    }
    Allocated(t, g, NULL, t', g', p, v, b);
  }

  lemma CarvedPage(t: Tables, g: Shape, i: nat, p: int, b: int, t': Tables, g': Shape, x: int)
    requires First(t, g, i, p, b) && |g.frees[p]| == 1 && t.count[p] + 1 < t.capacity[p]
    requires (t', g') == Carved(t, g, i, p, b) && Doms(t', g') && PoolOf(x) == p
    ensures x != b ==> (Live(t', g', x) <==> Live(t, g, x))
    ensures Live(t, g, x) ==> !(x <= BlockAt(p, i, g.carved[p]) < x + BlockSize(i))
    ensures x == b ==> Live(t', g', x)
  {
    var c := g.carved[p];
    assert g.frees[p] == [b] && g'.frees[p] == [BlockAt(p, i, c)] && g'.carved[p] == c + 1;
    Grown(p, i, c, x);
  }

  /** One more carved block: its address is new and in no other block. */
  lemma Grown(p: int, i: nat, c: nat, x: int)
    ensures IsBlock(p, i, c + 1, x) <==> x == BlockAt(p, i, c) || IsBlock(p, i, c, x)
    ensures IsBlock(p, i, c, x) ==> x + BlockSize(i) <= BlockAt(p, i, c)
  {
    BlockOf(p, i, c + 1, c);
    if IsBlock(p, i, c + 1, x) {
      var k: nat :| k < c + 1 && x == BlockAt(p, i, k);
    }
    if IsBlock(p, i, c, x) {
      var k: nat :| k < c && x == BlockAt(p, i, k);
      BlockOf(p, i, c + 1, k);
      Times(k + 1, c, BlockSize(i));
      Distribute(k, BlockSize(i));
    }
  }

  /** None is, and the pool is full: it leaves its list. */
  lemma TakeLast(t: Tables, g: Shape, i: nat, p: int, b: int)
    requires First(t, g, i, p, b) && |g.frees[p]| == 1 && t.count[p] + 1 == t.capacity[p]
    ensures p in t.next && p in t.prev
    ensures var t' := Unlinked(Popped(t, p, b), p);
            var g' := g.(frees := g.frees[p := []], used := g.used[i := g.used[i][1..]]);
            Inv(t', g', NULL) && Allocates(t, g, t', g', b)
  {
    TakeLastInv(t, g, i, p, b);
    var t' := Unlinked(Popped(t, p, b), p);
    var g' := g.(frees := g.frees[p := []], used := g.used[i := g.used[i][1..]]);
    assert g.frees[p][1..] == [];
    TakenLive(t, g, p, b, t', g');
  }

  lemma TakeLastInv(t: Tables, g: Shape, i: nat, p: int, b: int)
    requires First(t, g, i, p, b) && |g.frees[p]| == 1 && t.count[p] + 1 == t.capacity[p]
    ensures p in t.next && p in t.prev
    ensures var t' := Unlinked(Popped(t, p, b), p);
            var g' := g.(frees := g.frees[p := []], used := g.used[i := g.used[i][1..]]);
            Inv(t', g', NULL)
  {
    UnlinkFirst(t, g, i, p);
    var t' := Unlinked(Popped(t, p, b), p);
    var g' := g.(frees := g.frees[p := []], used := g.used[i := g.used[i][1..]]);
    TakeLastSame(t, g, i, p, b, t', g');
    LeavesFirst(t, g, t', g', i, p);
    Rebuild(t, g, t', g', p, NULL);
  }

  lemma UnlinkFirst(t: Tables, g: Shape, i: nat, p: int)
    requires Inv(t, g, NULL) && i < CLASSES && g.used[i] != [] && p == g.used[i][0]
    ensures p in t.next && p in t.prev
    ensures var t' := Unlinked(t, p);
            Rings(t'.next, t'.prev, g.used[i := g.used[i][1..]]) && Chain(t'.next, t.freepools, g.cached)
  {
    UnlinkRing(t, g, i, p, 0);
    assert g.used[i][..0] + g.used[i][1..] == g.used[i][1..];
    CachedFrame(t, g, i, p, Unlinked(t, p).next);
  }

  lemma LeavesFirst(t: Tables, g: Shape, t': Tables, g': Shape, i: nat, p: int)
    requires Inv(t, g, NULL) && i < CLASSES && g.used[i] != [] && p == g.used[i][0] && p !in g.cached
    requires Doms(t', g') && SameBut(t, g, t', g', p) && g'.used == g.used[i := g.used[i][1..]] && g'.cached == g.cached
    requires Chain(t'.next, t.freepools, g.cached)
    ensures Used(t', g', NULL) && Cached(t'.next, t.freepools, g.cached, t'.count, NULL)
    ensures forall x :: x in t.count && x != p && Placed(t, g, x) ==> Placed(t', g', x)
  {
    assert g.used[i][..0] + g.used[i][1..] == g.used[i][1..];
    LeavesRing(t, g, t', g', i, p, 0);
    LeavesPlaced(t, g, t', g', i, p, 0);
    CachedKept(t, g, t', g', p);
  }

  lemma TakeLastSame(t: Tables, g: Shape, i: nat, p: int, b: int, t': Tables, g': Shape)
    requires First(t, g, i, p, b) && |g.frees[p]| == 1 && t.count[p] + 1 == t.capacity[p] && p in t.next && p in t.prev
    requires t' == Unlinked(Popped(t, p, b), p) && g'.carved == g.carved && g'.frees == g.frees[p := []] && g'.home == g.home
    ensures Doms(t', g') && SameBut(t, g, t', g', p) && Pool(t', g', p) && g'.carved[p] == t'.capacity[p]
  {
    assert g.frees[p][1..] == [];
  }

  /** The lists without pool p. */
  lemma LeavesRing(t: Tables, g: Shape, t': Tables, g': Shape, i: nat, p: int, m: nat)
    requires Doms(t, g) && |g.used| == CLASSES && Used(t, g, NULL) && i < CLASSES
    requires NoDup(g.used[i]) && m < |g.used[i]| && p == g.used[i][m]
    requires Doms(t', g') && SameBut(t, g, t', g', p)
    requires g'.used == g.used[i := g.used[i][..m] + g.used[i][m + 1..]]
    ensures Used(t', g', NULL)
  {
    NoDupRemove(g.used[i], m);
    assert p in g.used[i] && t.szidx[p] == i;
    forall j, x | 0 <= j < CLASSES && x in g'.used[j]
      ensures x in t'.count && x != NULL && t'.szidx[x] == j && t'.count[x] > 0 && g'.frees[x] != []
    {
      assert x in g.used[j];
      assert x != p;
      assert SamePool(t, g, t', g', x);
    }
  }

  /** Every other pool stays where it is. */
  lemma LeavesPlaced(t: Tables, g: Shape, t': Tables, g': Shape, i: nat, p: int, m: nat)
    requires Doms(t, g) && |g.used| == CLASSES && i < CLASSES
    requires NoDup(g.used[i]) && m < |g.used[i]| && p == g.used[i][m]
    requires Doms(t', g') && SameBut(t, g, t', g', p)
    requires g'.used == g.used[i := g.used[i][..m] + g.used[i][m + 1..]]
    requires forall x :: x in g.cached ==> x in g'.cached
    ensures forall x :: x in t.count && x != p && Placed(t, g, x) ==> Placed(t', g', x)
  {
    NoDupRemove(g.used[i], m);
    forall x | x in t.count && x != p && Placed(t, g, x)
      ensures Placed(t', g', x)
    {
      PlacedKept(t, g, t', g', p, x);
    }
  }

  /** Unlink a pool from its ring. */
  function Unlinked(t: Tables, p: int): Tables
    requires p in t.next && p in t.prev
  {
    t.(next := t.next[t.prev[p] := t.next[p]], prev := t.prev[t.next[p] := t.prev[p]])
  }

  /** Removing the pool at position m from its ring leaves the other rings alone. */
  lemma UnlinkRing(t: Tables, g: Shape, i: nat, p: int, m: nat)
    requires Inv(t, g, NULL) && i < CLASSES && m < |g.used[i]| && p == g.used[i][m]
    ensures p in t.next && p in t.prev
    ensures var t', R := Unlinked(t, p), g.used[i][..m] + g.used[i][m + 1..];
            Rings(t'.next, t'.prev, g.used[i := R])
    ensures t.prev[p] == Sent(i) || t.prev[p] in g.used[i]
  {
    var L := g.used[i];
    SentinelOutside(t, g, NULL, i);
    RingRemove(t.next, t.prev, Sent(i), L, m);
    NoDupRemove(L, m);
    RingAt(t.next, t.prev, Sent(i), L, m);
    RingAt(t.next, t.prev, Sent(i), L, m + 1);
    assert NodeAt(Sent(i), L, m + 1) == p;
    var a, z := t.prev[p], t.next[p];
    var t', R := Unlinked(t, p), L[..m] + L[m + 1..];
    forall j | 0 <= j < CLASSES
      ensures var M := g.used[i := R][j]; Ring(t'.next, t'.prev, Sent(j), M) && NoDup(M)
    {
      if j != i { OtherRing(t, g, NULL, i, j, a, z, t'.next, t'.prev); }
    }
  }

  /** Ring j does not notice a change at two nodes of ring i. */
  lemma OtherRing(t: Tables, g: Shape, q: int, i: nat, j: nat, a: int, z: int, next': map<int, int>, prev': map<int, int>)
    requires Inv(t, g, q) && i < CLASSES && j < CLASSES && i != j
    requires a == Sent(i) || a in g.used[i]
    requires z == Sent(i) || z in g.used[i]
    requires forall x :: x != a && x in t.next ==> x in next' && next'[x] == t.next[x]
    requires forall x :: x != z && x in t.prev ==> x in prev' && prev'[x] == t.prev[x]
    ensures Ring(next', prev', Sent(j), g.used[j])
  {
    forall x | x == Sent(j) || x in g.used[j]
      ensures x != a && x != z
      ensures (x in t.next ==> x in next' && next'[x] == t.next[x]) && (x in t.prev ==> x in prev' && prev'[x] == t.prev[x])
    {
      RingsDiffer(t, g, q, i, j, a, x);
      RingsDiffer(t, g, q, i, j, z, x);
    }
    RingFrame(t.next, t.prev, next', prev', Sent(j), g.used[j]);
  }

  /** Nor do the cached pools. */
  lemma CachedFrame(t: Tables, g: Shape, i: nat, p: int, next': map<int, int>)
    requires Inv(t, g, NULL) && i < CLASSES && p in t.prev && (t.prev[p] == Sent(i) || t.prev[p] in g.used[i])
    requires forall x :: x != t.prev[p] && x in t.next ==> x in next' && next'[x] == t.next[x]
    ensures Chain(next', t.freepools, g.cached)
  {
    ChainIn(t.next, t.freepools, g.cached);
    forall b | b in g.cached
      ensures b in next' && next'[b] == t.next[b]
    {
      PoolPositive(t, g, NULL, b);
    }
    ChainFrame(t.next, next', t.freepools, g.cached);
  }

  /** Where TakeUsed reads. */
  ghost predicate Readable(t: Tables, g: Shape, p: int) {
    && p in t.count && p in t.freeblock && p in t.capacity && t.freeblock[p] in t.mem && p in g.frees && p in g.carved
    && g.frees[p] != [] && (t.mem[t.freeblock[p]] == NULL ==> p in t.next && p in t.prev)
  }

  /** A block from used pool p of class i, the three ways. */
  ghost function Taken(t: Tables, g: Shape, i: nat, p: int): (Tables, Shape)
    requires i < |g.used| && g.used[i] != [] && Readable(t, g, p)
  {
    var b := t.freeblock[p];
    if t.mem[b] != NULL then (Popped(t, p, b), g.(frees := g.frees[p := g.frees[p][1..]]))
    else if t.count[p] + 1 < t.capacity[p] then Carved(t, g, i, p, b)
    else (Unlinked(Popped(t, p, b), p), g.(frees := g.frees[p := []], used := g.used[i := g.used[i][1..]]))
  }

  lemma TakeAny(t: Tables, g: Shape, i: nat)
    requires Inv(t, g, NULL) && i < CLASSES && g.used[i] != []
    ensures Sent(i) in t.next && Readable(t, g, t.next[Sent(i)]) && t.next[Sent(i)] == g.used[i][0]
    ensures var p := t.next[Sent(i)]; var b, (t', g') := t.freeblock[p], Taken(t, g, i, p);
            && Inv(t', g', NULL) && Allocates(t, g, t', g', b) && PoolOf(b) == p && p in t'.szidx && t'.szidx[p] == i
  {
    var p, b := FirstUsed(t, g, i);
    FreeListLength(t, g, i, p, b);
    if t.mem[b] != NULL {
      TakeMore(t, g, i, p, b);
    } else if t.count[p] + 1 < t.capacity[p] {
      TakeCarve(t, g, i, p, b);
    } else {
      TakeLast(t, g, i, p, b);
    }
  }

  lemma FreeListLength(t: Tables, g: Shape, i: nat, p: int, b: int)
    requires First(t, g, i, p, b)
    ensures t.mem[b] == NULL <==> |g.frees[p]| == 1
    ensures t.count[p] + 1 <= t.capacity[p]
    ensures p in t.next && p in t.prev
  {
    assert g.frees[p] == [b] + g.frees[p][1..];
    RingAt(t.next, t.prev, Sent(i), g.used[i], 0);
    RingAt(t.next, t.prev, Sent(i), g.used[i], 1);
    assert NodeAt(Sent(i), g.used[i], 1) == p;
  }

  // ----- malloc: a pool for an empty class -----

  /** Nothing but links and globals changes, and perhaps a new pool q joins: the
      blocks in use stay as they are. */
  ghost predicate SameHeaders(t: Tables, g: Shape, t': Tables, g': Shape, q: int)
    requires Doms(t, g) && Doms(t', g')
  {
    && t'.mem == t.mem && t.count.Keys <= t'.count.Keys
    && (forall x {:trigger SamePool(t, g, t', g', x)} :: x in t.count ==> SamePool(t, g, t', g', x))
    && (forall x :: x in t'.count ==> x in t.count || (x == q && g'.carved[x] == 0))
  }

  lemma HeadersQuiet(t: Tables, g: Shape, t': Tables, g': Shape, q: int)
    requires Doms(t, g) && Doms(t', g') && SameHeaders(t, g, t', g', q)
    ensures Quiet(t, g, t', g')
  {
    forall x
      ensures Live(t', g', x) <==> Live(t, g, x)
      ensures Live(t, g, x) ==> Kept(t, t', x)
    {
      if PoolOf(x) in t.count { assert SamePool(t, g, t', g', PoolOf(x)); }
    }
  }

  lemma HeadersPool(t: Tables, g: Shape, t': Tables, g': Shape, q: int, x: int)
    requires Doms(t, g) && Doms(t', g') && SameHeaders(t, g, t', g', q) && x in t.count && Pool(t, g, x)
    ensures x in t'.count && Pool(t', g', x)
  {
    assert SamePool(t, g, t', g', x);
  }

  /** The used lists stay, and pool q is in none of them. */
  lemma HeadersUsed(t: Tables, g: Shape, t': Tables, g': Shape, q: int)
    requires Doms(t, g) && |g.used| == CLASSES && Used(t, g, NULL) && Doms(t', g') && SameHeaders(t, g, t', g', q)
    requires g'.used == g.used && (q in t.count ==> t.count[q] == 0)
    ensures Used(t', g', q)
  {
    forall i, x | 0 <= i < CLASSES && x in g'.used[i]
      ensures x in t'.count && x != q && t'.szidx[x] == i && t'.count[x] > 0 && g'.frees[x] != []
    {
      assert x in g.used[i];
      assert SamePool(t, g, t', g', x);
    }
  }

  /** Every pool but q stays placed. */
  lemma HeadersPools(t: Tables, g: Shape, t': Tables, g': Shape, q: int)
    requires Doms(t, g) && |g.used| == CLASSES && AllPools(t, g, NULL) && NULL !in t.count
    requires Doms(t', g') && SameHeaders(t, g, t', g', q) && g'.used == g.used
    requires forall x :: x in g.cached && x != q ==> x in g'.cached
    ensures AllPools(t', g', q)
  {
    forall x | x in t'.count && x != q
      ensures Pool(t', g', x) && Placed(t', g', x)
    {
      assert Pool(t, g, x) && Placed(t, g, x);
      HeadersPool(t, g, t', g', q, x);
      assert SamePool(t, g, t', g', x);
    }
  }

  lemma NullIsNoPool(t: Tables, g: Shape, q: int)
    requires Inv(t, g, q)
    ensures NULL !in t.count
  {
    if NULL in t.count { PoolPositive(t, g, q, NULL); }
  }

  /** Take the first cached pool off its list. */
  lemma Uncache(t: Tables, g: Shape)
    requires Inv(t, g, NULL) && t.freepools != NULL
    ensures var q := t.freepools;
            && q in t.next && q != NULL && g.cached != []
            && var (t', g') := (t.(freepools := t.next[q]), g.(cached := g.cached[1..]));
               Inv(t', g', q) && Quiet(t, g, t', g')
  {
    var q := t.freepools;
    assert g.cached != [] && q == g.cached[0];
    assert q in g.cached && Pool(t, g, q);
    assert g.cached == [q] + g.cached[1..];
    var t', g' := t.(freepools := t.next[q]), g.(cached := g.cached[1..]);
    NullIsNoPool(t, g, NULL);
    HeadersQuiet(t, g, t', g', q);
    HeadersUsed(t, g, t', g', q);
    HeadersPools(t, g, t', g', q);
    HeadersPool(t, g, t', g', q, q);
  }

  /** A page of the current arena becomes a pool; what its header held is junk. */
  function Committed(t: Tables, g: Shape, n: nat, fb: int, cap: nat): (Tables, Shape) {
    var q := t.arenaproto;
    (t.(watermark := t.watermark + 1, arenaproto := q + POOL_SIZE, count := t.count[q := n], freeblock := t.freeblock[q := fb],
        szidx := t.szidx[q := DUMMY], capacity := t.capacity[q := cap]),
     g.(frees := g.frees[q := []], carved := g.carved[q := 0], home := g.home[q := g.current]))
  }

  /** The page is in the arena and is not a pool yet. */
  lemma NextPage(t: Tables, g: Shape, q: int)
    requires Inv(t, g, q) && t.watermark < ARENA_POOLS
    ensures t.arenaproto !in t.count && InArena(t.arenaproto, g.current)
  {
    var a, p := g.current, t.arenaproto;
    PageUp(a, t.watermark);
    assert InArena(p, a);
  }

  /** Rounding up to a page and counting pages stays inside the arena's block. */
  lemma PageUp(a: int, w: nat)
    requires a > 0 && a % ALIGNMENT == 0 && w < ARENA_POOLS
    ensures InArena(Start(a) + w * POOL_SIZE, a)
  {
    var k, m, r := a / ALIGNMENT, a / POOL_SIZE, a % POOL_SIZE;
    Split8(a);
    assert a == POOL_SIZE * m + r && r == 8 * (k - 512 * m);
    assert Start(a) + w * POOL_SIZE == (m + 1 + w) * POOL_SIZE;
    Multiple(m + 1 + w);
  }

  lemma Split8(a: int)
    requires a % 8 == 0
    ensures a == 8 * (a / 8)
  {
  }

  lemma Multiple(m: int)
    ensures (m * POOL_SIZE) % POOL_SIZE == 0
  {
  }

  lemma Commit(t: Tables, g: Shape, n: nat, fb: int, cap: nat)
    requires Inv(t, g, NULL) && t.watermark < ARENA_POOLS
    ensures t.arenaproto != NULL
    ensures var (t', g') := Committed(t, g, n, fb, cap); Inv(t', g', t.arenaproto) && Quiet(t, g, t', g')
  {
    var q := t.arenaproto;
    var (t', g') := Committed(t, g, n, fb, cap);
    NextPage(t, g, NULL);
    NullIsNoPool(t, g, NULL);
    CommitSame(t, g, n, fb, cap);
    HeadersQuiet(t, g, t', g', q);
    HeadersUsed(t, g, t', g', q);
    HeadersPools(t, g, t', g', q);
    assert Cached(t'.next, t'.freepools, g'.cached, t'.count, q) by {
      forall x | x in g'.cached
        ensures x in t'.count && x != q && t'.count[x] == 0
      {
        assert x in t.count;
      }
    }
    PageTaken(t, g, q);
  }

  lemma CommitSame(t: Tables, g: Shape, n: nat, fb: int, cap: nat)
    requires Doms(t, g) && t.arenaproto !in t.count
    ensures var (t', g') := Committed(t, g, n, fb, cap); Doms(t', g') && SameHeaders(t, g, t', g', t.arenaproto)
  {
    var (t', g') := Committed(t, g, n, fb, cap);
    var q := t.arenaproto;
    assert t'.count.Keys == t.count.Keys + {q} && t'.szidx.Keys == t.szidx.Keys + {q} && t'.freeblock.Keys == t.freeblock.Keys + {q};
    assert t'.capacity.Keys == t.capacity.Keys + {q} && g'.frees.Keys == g.frees.Keys + {q};
    assert g'.carved.Keys == g.carved.Keys + {q} && g'.home.Keys == g.home.Keys + {q};
  }

  lemma PageTaken(t: Tables, g: Shape, q: int)
    requires Inv(t, g, NULL) && t.watermark < ARENA_POOLS && q == t.arenaproto && q !in t.count && InArena(q, g.current)
    ensures Space(t.count.Keys + {q}, t.watermark + 1, q + POOL_SIZE, g.home[q := g.current], g.arenas, g.regions, g.current)
  {
  }

  /** What the system hands out is free of everything handed out before. */
  ghost predicate FreshRegion(g: Shape, a: int, n: nat) {
    a > 0 && n > 0 && a !in g.regions && forall r :: r in g.regions ==> Apart(a, n, r, g.regions[r])
  }

  /** A new arena, its pools from the first page boundary on. */
  lemma NewArena(t: Tables, g: Shape, a: int)
    requires Inv(t, g, NULL) && FreshRegion(g, a, ARENA_SIZE + POOL_SIZE) && a % ALIGNMENT == 0
    ensures var t' := t.(watermark := 0, arenaproto := Start(a));
            var g' := g.(arenas := g.arenas + {a}, regions := g.regions[a := ARENA_SIZE + POOL_SIZE], current := a);
            Inv(t', g', NULL) && Quiet(t, g, t', g')
  {
    var t' := t.(watermark := 0, arenaproto := Start(a));
    var g' := g.(arenas := g.arenas + {a}, regions := g.regions[a := ARENA_SIZE + POOL_SIZE], current := a);
    NullIsNoPool(t, g, NULL);
    HeadersQuiet(t, g, t', g', NULL);
    HeadersUsed(t, g, t', g', NULL);
    HeadersPools(t, g, t', g', NULL);
  }

  /** A block from the system. */
  lemma SystemGives(t: Tables, g: Shape, a: int, n: nat)
    requires Inv(t, g, NULL) && FreshRegion(g, a, n)
    ensures Inv(t, g.(regions := g.regions[a := n]), NULL) && Quiet(t, g, t, g.(regions := g.regions[a := n]))
  {
    var g' := g.(regions := g.regions[a := n]);
    NullIsNoPool(t, g, NULL);
    HeadersQuiet(t, g, t, g', NULL);
    HeadersUsed(t, g, t, g', NULL);
    HeadersPools(t, g, t, g', NULL);
  }

  /** A block back to the system. */
  lemma SystemTakes(t: Tables, g: Shape, a: int)
    requires Inv(t, g, NULL) && a in g.regions && a !in g.arenas
    ensures Inv(t, g.(regions := g.regions - {a}), NULL) && Quiet(t, g, t, g.(regions := g.regions - {a}))
  {
    var g' := g.(regions := g.regions - {a});
    NullIsNoPool(t, g, NULL);
    HeadersQuiet(t, g, t, g', NULL);
    HeadersUsed(t, g, t, g', NULL);
    HeadersPools(t, g, t, g', NULL);
  }

  /** An address handed out by the system is in no pool. */
  lemma SystemBlockInNoPool(t: Tables, g: Shape, a: int)
    requires Inv(t, g, NULL) && a in g.regions && a !in g.arenas
    ensures PoolOf(a) !in t.count
  {
  }

  /** Link a pool in at the front of its class. */
  function Frontlinked(t: Tables, p: int, i: nat): Tables
    requires Sent(i) in t.next
  {
    var f := t.next[Sent(i)];
    t.(next := t.next[p := f][Sent(i) := p], prev := t.prev[p := Sent(i)][f := p])
  }

  /** Only ring i notices. */
  lemma FrontlinkRing(t: Tables, g: Shape, q: int, i: nat, p: int)
    requires Inv(t, g, q) && i < CLASSES && p > 0 && (forall j :: 0 <= j < CLASSES ==> p !in g.used[j])
    ensures Sent(i) in t.next
    ensures var t', used' := Frontlinked(t, p, i), g.used[i := [p] + g.used[i]];
            Rings(t'.next, t'.prev, used')
    ensures p !in g.cached ==> Chain(Frontlinked(t, p, i).next, t.freepools, g.cached)
  {
    var L := g.used[i];
    SentinelOutside(t, g, q, i);
    RingPush(t.next, t.prev, Sent(i), L, p);
    NoDupPush(L, p);
    RingAt(t.next, t.prev, Sent(i), L, 0);
    var t', f := Frontlinked(t, p, i), t.next[Sent(i)];
    assert NodeAt(Sent(i), L, 1) == f;
    forall j | 0 <= j < CLASSES
      ensures var M := g.used[i := [p] + L][j]; Ring(t'.next, t'.prev, Sent(j), M) && NoDup(M)
    {
      if j != i { FrontlinkOther(t, g, q, i, j, p, f); }
    }
    if p !in g.cached {
      ChainIn(t.next, t.freepools, g.cached);
      forall b | b in g.cached
        ensures b in t'.next && t'.next[b] == t.next[b]
      {
        PoolPositive(t, g, q, b);
      }
      ChainFrame(t.next, t'.next, t.freepools, g.cached);
    }
  }

  lemma FrontlinkOther(t: Tables, g: Shape, q: int, i: nat, j: nat, p: int, f: int)
    requires Inv(t, g, q) && i < CLASSES && j < CLASSES && i != j && p > 0 && p !in g.used[j]
    requires Sent(i) in t.next && f == t.next[Sent(i)] && (f == Sent(i) || f in g.used[i])
    ensures var t' := Frontlinked(t, p, i); Ring(t'.next, t'.prev, Sent(j), g.used[j])
  {
    var t' := Frontlinked(t, p, i);
    forall x | x == Sent(j) || x in g.used[j]
      ensures (x in t.next ==> x in t'.next && t'.next[x] == t.next[x]) && (x in t.prev ==> x in t'.prev && t'.prev[x] == t.prev[x])
    {
      RingsDiffer(t, g, q, i, j, f, x);
      RingsDiffer(t, g, q, i, j, Sent(i), x);
    }
    RingFrame(t.next, t.prev, t'.next, t'.prev, Sent(j), g.used[j]);
  }

  /** The pool in transit is in no list. */
  lemma LooseInNoList(t: Tables, g: Shape, q: int)
    requires Inv(t, g, q)
    ensures q !in g.cached && forall j :: 0 <= j < CLASSES ==> q !in g.used[j]
  {
    forall j | 0 <= j < CLASSES
      ensures q !in g.used[j]
    {
    }
  }

  /** Set up pool q for class i, whose list is empty: reuse its free list when it
      last held blocks of that class, lay it out anew when not. */
  function Initialised(t: Tables, g: Shape, q: int, i: nat): (Tables, Shape, int)
    requires Doms(t, g) && q in t.count && Sent(i) in t.next && i < |g.used|
    requires t.szidx[q] == i ==> t.freeblock[q] in t.mem && g.frees[q] != []
  {
    var t1 := Frontlinked(t, q, i).(count := t.count[q := 1]);
    var g1 := g.(used := g.used[i := [q] + g.used[i]]);
    if t.szidx[q] == i then
      var b := t.freeblock[q];
      (t1.(freeblock := t.freeblock[q := t.mem[b]]), g1.(frees := g.frees[q := g.frees[q][1..]]), b)
    else
      var f := q + OVERHEAD + BlockSize(i);
      (t1.(szidx := t.szidx[q := i], freeblock := t.freeblock[q := f], mem := t.mem[f := NULL], capacity := t.capacity[q := Capacity(i)]),
       g1.(frees := g.frees[q := [f]], carved := g.carved[q := 2]), q + OVERHEAD)
  }

  lemma InitialisedIs(t: Tables, g: Shape, q: int, i: nat, t': Tables, b: int)
    requires Doms(t, g) && q in t.count && Sent(i) in t.next && i < |g.used|
    requires t.szidx[q] == i ==> t.freeblock[q] in t.mem && g.frees[q] != []
    requires t'.next == Frontlinked(t, q, i).next && t'.prev == Frontlinked(t, q, i).prev && t'.count == t.count[q := 1]
    requires t'.freepools == t.freepools && t'.watermark == t.watermark && t'.arenaproto == t.arenaproto
    requires t.szidx[q] == i ==>
               && b == t.freeblock[q] && t'.freeblock == t.freeblock[q := t.mem[b]]
               && t'.szidx == t.szidx && t'.capacity == t.capacity && t'.mem == t.mem
    requires t.szidx[q] != i ==>
               var f := q + OVERHEAD + BlockSize(i);
               && b == q + OVERHEAD && t'.szidx == t.szidx[q := i] && t'.freeblock == t.freeblock[q := f]
               && t'.mem == t.mem[f := NULL] && t'.capacity == t.capacity[q := Capacity(i)]
    ensures t' == Initialised(t, g, q, i).0 && b == Initialised(t, g, q, i).2
  {
  }

  /** q is in transit and class i has no used pool. */
  ghost predicate Ready(t: Tables, g: Shape, q: int, i: nat) {
    Inv(t, g, q) && q != NULL && i < CLASSES && g.used[i] == [] && q in t.count && q > 0 && q % POOL_SIZE == 0
  }

  /** An empty pool of class i: its whole free list is there to take. */
  lemma EmptyPool(t: Tables, g: Shape, q: int, i: nat)
    requires Ready(t, g, q, i) && t.szidx[q] == i
    ensures var c, L, b := g.carved[q], g.frees[q], t.freeblock[q];
            && |L| >= 2 && b == L[0] && b in t.mem && PoolOk(q, 1, t.mem[b], i, t.capacity[q], c, L[1..], t.mem)
            && PoolOf(b) == q && (forall x :: IsBlock(q, i, c, x) && x !in L[1..] <==> x == b)
  {
    var c, L, b := g.carved[q], g.frees[q], t.freeblock[q];
    PoolTake(q, 0, b, i, t.capacity[q], c, L, t.mem);
    BlockInside(q, i, c, b);
    assert L == [b] + L[1..];
    forall x | IsBlock(q, i, c, x) && x !in L[1..]
      ensures x == b
    {
      if x !in L { Missing(q, i, c, L, x); }
    }
  }

  lemma InitReuse(t: Tables, g: Shape, q: int, i: nat)
    requires Ready(t, g, q, i) && t.szidx[q] == i
    ensures Sent(i) in t.next && t.freeblock[q] in t.mem && g.frees[q] != []
    ensures var (t', g', b) := Initialised(t, g, q, i);
            Inv(t', g', NULL) && Allocates(t, g, t', g', b) && PoolOf(b) == q && t'.szidx[q] == i
  {
    EmptyPool(t, g, q, i);
    LooseInNoList(t, g, q);
    FrontlinkRing(t, g, q, i, q);
    var (t', g', b) := Initialised(t, g, q, i);
    ReuseInv(t, g, q, i, t', g', b);
    FromNoneLive(t, g, q, t', g', NULL, b);
  }

  lemma ReuseInv(t: Tables, g: Shape, q: int, i: nat, t': Tables, g': Shape, b: int)
    requires Ready(t, g, q, i) && t.szidx[q] == i && Sent(i) in t.next && t.freeblock[q] in t.mem && g.frees[q] != []
    requires (t', g', b) == Initialised(t, g, q, i)
    ensures Inv(t', g', NULL) && SameBut(t, g, t', g', q)
  {
    EmptyPool(t, g, q, i);
    LooseInNoList(t, g, q);
    FrontlinkRing(t, g, q, i, q);
    JoinsRing(t, g, q, t', g', i, q);
    Rebuild(t, g, t', g', q, q);
  }

  /** The lists with pool p in front of class i. */
  lemma JoinsRing(t: Tables, g: Shape, q: int, t': Tables, g': Shape, i: nat, p: int)
    requires Inv(t, g, q) && i < CLASSES && p in t.count && p !in g.cached && (forall j :: 0 <= j < CLASSES ==> p !in g.used[j])
    requires Doms(t', g') && SameBut(t, g, t', g', p) && g'.cached == g.cached && t'.freepools == t.freepools
    requires g'.used == g.used[i := [p] + g.used[i]] && Chain(t'.next, t.freepools, g.cached)
    requires t'.szidx[p] == i && t'.count[p] > 0 && g'.frees[p] != []
    ensures Used(t', g', NULL) && Cached(t'.next, t'.freepools, g'.cached, t'.count, NULL)
    ensures Placed(t', g', p) && forall x :: x in t.count && x != p && Placed(t, g, x) ==> Placed(t', g', x)
  {
    NullIsNoPool(t, g, q);
    JoinsUsed(t, g, q, t', g', i, p);
    JoinsPlaced(t, g, t', g', i, p);
    forall x | x in g.cached
      ensures x in t'.count && x != NULL && t'.count[x] == 0
    {
      assert SamePool(t, g, t', g', x);
    }
  }

  lemma JoinsUsed(t: Tables, g: Shape, q: int, t': Tables, g': Shape, i: nat, p: int)
    requires Doms(t, g) && |g.used| == CLASSES && Used(t, g, q) && i < CLASSES && NULL !in t.count
    requires Doms(t', g') && SameBut(t, g, t', g', p) && g'.used == g.used[i := [p] + g.used[i]] && p in t.count
    requires (forall j :: 0 <= j < CLASSES ==> p !in g.used[j]) && t'.szidx[p] == i && t'.count[p] > 0 && g'.frees[p] != []
    ensures Used(t', g', NULL)
  {
    forall j, x | 0 <= j < CLASSES && x in g'.used[j]
      ensures x in t'.count && x != NULL && t'.szidx[x] == j && t'.count[x] > 0 && g'.frees[x] != []
    {
      if x == p && j == i {
      } else {
        assert x in g.used[j];
        assert SamePool(t, g, t', g', x);
      }
    }
  }

  lemma JoinsPlaced(t: Tables, g: Shape, t': Tables, g': Shape, i: nat, p: int)
    requires Doms(t, g) && |g.used| == CLASSES && i < CLASSES
    requires Doms(t', g') && SameBut(t, g, t', g', p) && g'.used == g.used[i := [p] + g.used[i]] && p in t.count
    requires t'.szidx[p] == i && g'.cached == g.cached
    ensures Placed(t', g', p) && forall x :: x in t.count && x != p && Placed(t, g, x) ==> Placed(t', g', x)
  {
    assert p in g'.used[i];
    forall x | x in t.count && x != p && Placed(t, g, x)
      ensures Placed(t', g', x)
    {
      PlacedKept(t, g, t', g', p, x);
    }
  }

  /** No block of q was in use, now exactly b is. */
  lemma FromNoneLive(t: Tables, g: Shape, q: int, t': Tables, g': Shape, a: int, b: int)
    requires Inv(t, g, q) && q in t.count && q != NULL && Doms(t', g') && SameBut(t, g, t', g', q)
    requires forall x :: x != a && x in t.mem ==> x in t'.mem && t'.mem[x] == t.mem[x]
    requires PoolOf(b) == q
    requires forall x :: IsBlock(q, t'.szidx[q], g'.carved[q], x) && x !in g'.frees[q] <==> x == b
    ensures Allocates(t, g, t', g', b)
  {
    forall x | PoolOf(x) == q
      ensures !Live(t, g, x)
    {
      if Live(t, g, x) { LiveInside(t, g, q, x); }
    }
    assert forall x :: PoolOf(x) == q ==> (Live(t', g', x) <==> x == b);
    Allocated(t, g, q, t', g', q, a, b);
  }

  /** Field by field, what setting q up anew for class i leaves. */
  ghost predicate LaidOut(t: Tables, g: Shape, q: int, i: nat, t': Tables, g': Shape)
    requires Sent(i) in t.next && i < |g.used|
  {
    var f, u := q + OVERHEAD + BlockSize(i), Frontlinked(t, q, i);
    && t'.count == t.count[q := 1] && t'.freeblock == t.freeblock[q := f] && t'.szidx == t.szidx[q := i]
    && t'.capacity == t.capacity[q := Capacity(i)] && t'.mem == t.mem[f := NULL] && t'.next == u.next && t'.prev == u.prev
    && t'.freepools == t.freepools && t'.watermark == t.watermark && t'.arenaproto == t.arenaproto
    && g'.used == g.used[i := [q] + g.used[i]] && g'.frees == g.frees[q := [f]] && g'.carved == g.carved[q := 2]
    && g'.cached == g.cached && g'.home == g.home && g'.arenas == g.arenas && g'.regions == g.regions && g'.current == g.current
  }

  lemma FreshFields(t: Tables, g: Shape, q: int, i: nat)
    requires Doms(t, g) && q in t.count && i < |g.used| && t.szidx[q] != i && Sent(i) in t.next
    ensures var (t', g', b) := Initialised(t, g, q, i); LaidOut(t, g, q, i, t', g') && b == q + OVERHEAD
  {
  }

  lemma InitFresh(t: Tables, g: Shape, q: int, i: nat)
    requires Ready(t, g, q, i) && t.szidx[q] != i
    ensures Sent(i) in t.next
    ensures var (t', g', b) := Initialised(t, g, q, i);
            Inv(t', g', NULL) && Allocates(t, g, t', g', b) && PoolOf(b) == q && t'.szidx[q] == i
  {
    LooseInNoList(t, g, q);
    FrontlinkRing(t, g, q, i, q);
    var (t', g', b) := Initialised(t, g, q, i);
    FreshFields(t, g, q, i);
    FreshDone(t, g, q, i, t', g');
  }

  lemma FreshDone(t: Tables, g: Shape, q: int, i: nat, t': Tables, g': Shape)
    requires Ready(t, g, q, i) && Sent(i) in t.next && LaidOut(t, g, q, i, t', g')
    ensures Inv(t', g', NULL) && Allocates(t, g, t', g', q + OVERHEAD) && PoolOf(q + OVERHEAD) == q
  {
    FreshInv(t, g, q, i, t', g');
    FreshLive(t, g, q, i, t', g');
  }

  lemma FreshLive(t: Tables, g: Shape, q: int, i: nat, t': Tables, g': Shape)
    requires Inv(t, g, q) && q in t.count && q > 0 && q % POOL_SIZE == 0 && i < CLASSES && Doms(t', g') && SameBut(t, g, t', g', q)
    requires t'.szidx[q] == i && g'.carved[q] == 2
    requires var f := q + OVERHEAD + BlockSize(i); g'.frees[q] == [f] && t'.mem == t.mem[f := NULL]
    ensures Allocates(t, g, t', g', q + OVERHEAD) && PoolOf(q + OVERHEAD) == q
  {
    NewLayout(q, i, t.mem);
    var f, b := q + OVERHEAD + BlockSize(i), q + OVERHEAD;
    assert forall x :: x != f && x in t.mem ==> x in t'.mem && t'.mem[x] == t.mem[x];
    assert forall x :: IsBlock(q, t'.szidx[q], g'.carved[q], x) && x !in g'.frees[q] <==> x == b;
    FromNoneLive(t, g, q, t', g', f, b);
  }

  lemma FreshInv(t: Tables, g: Shape, q: int, i: nat, t': Tables, g': Shape)
    requires Ready(t, g, q, i) && Sent(i) in t.next && LaidOut(t, g, q, i, t', g')
    ensures Inv(t', g', NULL) && SameBut(t, g, t', g', q)
  {
    NewLayout(q, i, t.mem);
    FreshSame(t, g, q, i, t', g');
    FreshLists(t, g, q, i, t', g');
    assert Pool(t', g', q);
    Rebuild(t, g, t', g', q, q);
  }

  lemma FreshLists(t: Tables, g: Shape, q: int, i: nat, t': Tables, g': Shape)
    requires Ready(t, g, q, i) && Sent(i) in t.next && LaidOut(t, g, q, i, t', g') && Doms(t', g') && SameBut(t, g, t', g', q)
    ensures Rings(t'.next, t'.prev, g'.used) && Used(t', g', NULL) && Cached(t'.next, t'.freepools, g'.cached, t'.count, NULL)
    ensures Placed(t', g', q) && forall x :: x in t.count && x != q && Placed(t, g, x) ==> Placed(t', g', x)
  {
    LooseInNoList(t, g, q);
    FrontlinkRing(t, g, q, i, q);
    JoinsRing(t, g, q, t', g', i, q);
  }

  lemma FreshSame(t: Tables, g: Shape, q: int, i: nat, t': Tables, g': Shape)
    requires Doms(t, g) && q in t.count && i < |g.used| && Sent(i) in t.next
    requires LaidOut(t, g, q, i, t', g') && PoolOf(q + OVERHEAD + BlockSize(i)) == q
    ensures Doms(t', g') && SameBut(t, g, t', g', q)
  {
    var f := q + OVERHEAD + BlockSize(i);
    Update(t.count, q, 1);
    Update(t.freeblock, q, f);
    Update(t.szidx, q, i);
    Update(t.capacity, q, Capacity(i));
    Update(g.frees, q, [f]);
    Update(g.carved, q, 2);
    OneWord(t.mem, t'.mem, q, f, NULL);
    OnePool(t, g, t', g', q);
  }

  lemma NewLayout(q: int, i: nat, mem: map<int, int>)
    requires i < CLASSES && q > 0 && q % POOL_SIZE == 0
    ensures var f := q + OVERHEAD + BlockSize(i);
            && PoolOk(q, 1, f, i, Capacity(i), 2, [f], mem[f := NULL]) && PoolOf(f) == q && PoolOf(q + OVERHEAD) == q
            && forall x :: IsBlock(q, i, 2, x) && x !in [f] <==> x == q + OVERHEAD
  {
    PoolInit(q, i, mem);
    CapacityAtLeastTwo(i);
    BlockOf(q, i, 2, 1);
    BlockInside(q, i, 2, BlockAt(q, i, 0));
    BlockInside(q, i, 2, BlockAt(q, i, 1));
    forall x
      ensures IsBlock(q, i, 2, x) <==> x == BlockAt(q, i, 0) || x == BlockAt(q, i, 1)
    {
      Grown(q, i, 1, x);
      Grown(q, i, 0, x);
    }
  }

  /** Setting up pool q for class i, either way. */
  lemma InitAny(t: Tables, g: Shape, q: int, i: nat)
    requires Inv(t, g, q) && q != NULL && i < CLASSES && g.used[i] == []
    ensures q in t.count && Sent(i) in t.next && t.next[Sent(i)] in t.prev && t.prev[t.next[Sent(i)]] == Sent(i)
    ensures t.szidx[q] == i ==> t.freeblock[q] in t.mem && g.frees[q] != []
    ensures var (t', g', b) := Initialised(t, g, q, i);
            Inv(t', g', NULL) && Allocates(t, g, t', g', b) && PoolOf(b) == q && t'.szidx[q] == i
  {
    PoolPositive(t, g, q, q);
    RingAt(t.next, t.prev, Sent(i), g.used[i], 0);
    if t.szidx[q] == i { InitReuse(t, g, q, i); } else { InitFresh(t, g, q, i); }
  }

  // ----- free -----

  /** The pool of a block in use, and what giving the block back makes of it. */
  ghost predicate Holds(t: Tables, g: Shape, p: int, b: int) {
    && Inv(t, g, NULL) && Live(t, g, b) && p == PoolOf(b) && p in t.count && p > 0 && p % POOL_SIZE == 0
    && t.szidx[p] < CLASSES && t.count[p] > 0 && b != NULL && p !in g.cached
    && PoolOk(p, t.count[p] - 1, b, t.szidx[p], t.capacity[p], g.carved[p], [b] + g.frees[p], t.mem[b := t.freeblock[p]])
    && (t.freeblock[p] == NULL <==> g.frees[p] == [])
    && (g.frees[p] == [] ==> t.count[p] == t.capacity[p] >= 2 && forall j :: 0 <= j < CLASSES ==> p !in g.used[j])
    && (g.frees[p] != [] ==> p in g.used[t.szidx[p]])
  }

  lemma LiveHolds(t: Tables, g: Shape, b: int) returns (p: int)
    requires Inv(t, g, NULL) && Live(t, g, b)
    ensures p == PoolOf(b) && Holds(t, g, p, b)
  {
    p := PoolOf(b);
    LiveInside(t, g, NULL, b);
    PoolPositive(t, g, NULL, p);
    assert Pool(t, g, p) && Placed(t, g, p);
    PoolGive(p, t.count[p], t.freeblock[p], t.szidx[p], t.capacity[p], g.carved[p], g.frees[p], t.mem, b);
  }

  /** Push the block on the free list and count one block less in use. */
  function Given(t: Tables, p: int, b: int): Tables
    requires p in t.count && p in t.freeblock && t.count[p] > 0
  {
    t.(mem := t.mem[b := t.freeblock[p]], freeblock := t.freeblock[p := b], count := t.count[p := t.count[p] - 1])
  }

  /** Only pool p and a word of its page change. */
  lemma GivenSame(t: Tables, g: Shape, p: int, b: int, t': Tables, g': Shape)
    requires Holds(t, g, p, b)
    requires t'.count == Given(t, p, b).count && t'.freeblock == Given(t, p, b).freeblock && t'.mem == Given(t, p, b).mem
    requires t'.szidx == t.szidx && t'.capacity == t.capacity
    requires g'.frees == g.frees[p := [b] + g.frees[p]] && g'.carved == g.carved && g'.home == g.home
    ensures Doms(t', g') && SameBut(t, g, t', g', p) && Pool(t', g', p)
    ensures Releases(t, g, t', g', b)
  {
    GivenPool(t, g, p, b, t', g');
    Released(t, g, t', g', p, b);
  }

  lemma GivenPool(t: Tables, g: Shape, p: int, b: int, t': Tables, g': Shape)
    requires Doms(t, g) && p in t.count && t.count[p] > 0 && PoolOf(b) == p
    requires t'.count == Given(t, p, b).count && t'.freeblock == Given(t, p, b).freeblock && t'.mem == Given(t, p, b).mem
    requires t'.szidx == t.szidx && t'.capacity == t.capacity
    requires g'.frees == g.frees[p := [b] + g.frees[p]] && g'.carved == g.carved && g'.home == g.home
    ensures Doms(t', g') && SameBut(t, g, t', g', p)
  {
    Update(t.count, p, t.count[p] - 1);
    Update(t.freeblock, p, b);
    Update(g.frees, p, [b] + g.frees[p]);
    OneWord(t.mem, t'.mem, p, b, t.freeblock[p]);
    OnePool(t, g, t', g', p);
  }

  /** The pool stays in its list. */
  lemma GiveMore(t: Tables, g: Shape, p: int, b: int)
    requires Holds(t, g, p, b) && g.frees[p] != [] && t.count[p] > 1
    ensures var t', g' := Given(t, p, b), g.(frees := g.frees[p := [b] + g.frees[p]]);
            Inv(t', g', NULL) && Releases(t, g, t', g', b)
  {
    var t', g' := Given(t, p, b), g.(frees := g.frees[p := [b] + g.frees[p]]);
    GivenSame(t, g, p, b, t', g');
    StaysUsed(t, g, t', g', p);
    Rebuild(t, g, t', g', p, NULL);
  }

  /** The pool was full: it joins the list of its class. */
  lemma GiveFull(t: Tables, g: Shape, p: int, b: int)
    requires Holds(t, g, p, b) && g.frees[p] == []
    ensures Sent(t.szidx[p]) in t.next && Sent(t.szidx[p]) in Given(t, p, b).next
    ensures var i := t.szidx[p];
            var t', g' := Frontlinked(Given(t, p, b), p, i), g.(frees := g.frees[p := [b]], used := g.used[i := [p] + g.used[i]]);
            Inv(t', g', NULL) && Releases(t, g, t', g', b)
  {
    var i := t.szidx[p];
    FrontlinkRing(t, g, NULL, i, p);
    var t', g' := Frontlinked(Given(t, p, b), p, i), g.(frees := g.frees[p := [b]], used := g.used[i := [p] + g.used[i]]);
    assert [b] + g.frees[p] == [b];
    GivenSame(t, g, p, b, t', g');
    JoinsRing(t, g, NULL, t', g', i, p);
    Rebuild(t, g, t', g', p, NULL);
  }

  /** Unlink a pool from its list and put it in front of the cached pools. */
  function Retired(t: Tables, p: int): Tables
    requires p in t.next && p in t.prev
  {
    var u := Unlinked(t, p);
    u.(next := u.next[p := t.freepools], freepools := p)
  }

  /** The pool is empty: it leaves its list and is cached. */
  lemma GiveLast(t: Tables, g: Shape, p: int, b: int, m: nat)
    requires Holds(t, g, p, b) && g.frees[p] != [] && t.count[p] == 1
    requires m < |g.used[t.szidx[p]]| && g.used[t.szidx[p]][m] == p
    ensures p in t.next && p in t.prev
    ensures var i := t.szidx[p]; var L := g.used[i];
            var t', g' := Retired(Given(t, p, b), p),
                          g.(frees := g.frees[p := [b] + g.frees[p]], used := g.used[i := L[..m] + L[m + 1..]], cached := [p] + g.cached);
            Inv(t', g', NULL) && Releases(t, g, t', g', b)
  {
    var i := t.szidx[p];
    var L := g.used[i];
    UnlinkRing(t, g, i, p, m);
    var t', g' := Retired(Given(t, p, b), p),
                  g.(frees := g.frees[p := [b] + g.frees[p]], used := g.used[i := L[..m] + L[m + 1..]], cached := [p] + g.cached);
    GivenSame(t, g, p, b, t', g');
    RetiredLists(t, g, i, p, m);
    LeavesRing(t, g, t', g', i, p, m);
    LeavesPlaced(t, g, t', g', i, p, m);
    JoinsCached(t, g, t', g', p);
    Rebuild(t, g, t', g', p, NULL);
  }

  lemma RetiredLists(t: Tables, g: Shape, i: nat, p: int, m: nat)
    requires Inv(t, g, NULL) && i < CLASSES && m < |g.used[i]| && p == g.used[i][m] && p in t.next && p in t.prev && p !in g.cached
    ensures var t', R := Retired(t, p), g.used[i][..m] + g.used[i][m + 1..];
            Rings(t'.next, t'.prev, g.used[i := R]) && Chain(t'.next, p, [p] + g.cached)
  {
    var u, t' := Unlinked(t, p), Retired(t, p);
    var R := g.used[i][..m] + g.used[i][m + 1..];
    UnlinkRing(t, g, i, p, m);
    NoDupRemove(g.used[i], m);
    assert p in g.used[i];
    PoolPositive(t, g, NULL, p);
    CachedFrame(t, g, i, p, u.next);
    ChainPush(u.next, t.freepools, g.cached, p);
    forall j | 0 <= j < CLASSES
      ensures var M := g.used[i := R][j]; Ring(t'.next, t'.prev, Sent(j), M) && NoDup(M)
    {
      var M := g.used[i := R][j];
      assert p !in M;
      RingFrame(u.next, u.prev, t'.next, t'.prev, Sent(j), M);
    }
  }

  lemma JoinsCached(t: Tables, g: Shape, t': Tables, g': Shape, p: int)
    requires Inv(t, g, NULL) && Doms(t', g') && SameBut(t, g, t', g', p) && p in t.count && p !in g.cached
    requires t'.freepools == p && g'.cached == [p] + g.cached && Chain(t'.next, p, [p] + g.cached) && t'.count[p] == 0
    ensures Cached(t'.next, t'.freepools, g'.cached, t'.count, NULL)
  {
    NoDupPush(g.cached, p);
    PoolPositive(t, g, NULL, p);
    forall x | x in g.cached
      ensures x in t'.count && x != NULL && t'.count[x] == 0
    {
      assert SamePool(t, g, t', g', x);
    }
  }

  /** Where free reads and writes. */
  ghost predicate Returnable(t: Tables, g: Shape, p: int, m: nat) {
    && p in t.count && p in t.freeblock && p in t.szidx && t.count[p] > 0 && p in g.frees && t.szidx[p] < |g.used|
    && (if t.freeblock[p] == NULL then
          && Sent(t.szidx[p]) in t.next && t.next[Sent(t.szidx[p])] in t.prev
          && t.prev[t.next[Sent(t.szidx[p])]] == Sent(t.szidx[p])
        else p in t.next && p in t.prev && m < |g.used[t.szidx[p]]|)
  }

  /** Giving block b of pool p back, the three ways; m is the pool's position in
      its list. */
  ghost function Returned(t: Tables, g: Shape, p: int, b: int, m: nat): (Tables, Shape)
    requires Returnable(t, g, p, m)
  {
    var i := t.szidx[p];
    var u, g1 := Given(t, p, b), g.(frees := g.frees[p := [b] + g.frees[p]]);
    if t.freeblock[p] == NULL then (Frontlinked(u, p, i), g1.(used := g.used[i := [p] + g.used[i]]))
    else if t.count[p] > 1 then (u, g1)
    else (Retired(u, p), g1.(used := g.used[i := g.used[i][..m] + g.used[i][m + 1..]], cached := [p] + g.cached))
  }

  lemma GiveAny(t: Tables, g: Shape, b: int) returns (p: int, m: nat)
    requires Inv(t, g, NULL) && Live(t, g, b)
    ensures p == PoolOf(b) && Returnable(t, g, p, m)
    ensures Inv(Returned(t, g, p, b, m).0, Returned(t, g, p, b, m).1, NULL)
    ensures Releases(t, g, Returned(t, g, p, b, m).0, Returned(t, g, p, b, m).1, b)
  {
    p := LiveHolds(t, g, b);
    var i := t.szidx[p];
    m := 0;
    if t.freeblock[p] == NULL {
      RingAt(t.next, t.prev, Sent(i), g.used[i], 0);
      GiveFull(t, g, p, b);
      assert [b] + g.frees[p] == [b];
    } else {
      m :| 0 <= m < |g.used[i]| && g.used[i][m] == p;
      UnlinkRing(t, g, i, p, m);
      if t.count[p] > 1 { GiveMore(t, g, p, b); } else { GiveLast(t, g, p, b, m); }
    }
  }

  lemma ReturnedFrame(t: Tables, g: Shape, p: int, b: int, m: nat)
    requires Returnable(t, g, p, m)
    ensures Returned(t, g, p, b, m).0.mem == t.mem[b := t.freeblock[p]]
    ensures Returned(t, g, p, b, m).1.regions == g.regions && Returned(t, g, p, b, m).1.arenas == g.arenas
  {
  }

  // ----- writes by the program -----

  /** Memory the program holds: a block of a pool, or memory from the system. */
  ghost predicate Held(t: Tables, g: Shape, b: int)
    requires Doms(t, g)
  {
    Live(t, g, b) || (b in g.regions && b !in g.arenas)
  }

  ghost function RoomAt(t: Tables, g: Shape, b: int): int
    requires Doms(t, g) && Held(t, g, b)
  {
    if Live(t, g, b) then SizeOf(t, b) else g.regions[b]
  }

  /** What is held at x stays held, with its size and its words. */
  ghost predicate SameMemory(t: Tables, g: Shape, t': Tables, g': Shape, x: int)
    requires Doms(t, g) && Doms(t', g') && Held(t, g, x)
  {
    && (Live(t', g', x) <==> Live(t, g, x)) && Held(t', g', x) && RoomAt(t', g', x) == RoomAt(t, g, x)
    && forall a :: x <= a < x + RoomAt(t, g, x) && a in t.mem ==> a in t'.mem && t'.mem[a] == t.mem[a]
  }

  /** Memory changes only inside what is held at b. */
  ghost predicate WritesIn(t: Tables, g: Shape, b: int, mem': map<int, int>)
    requires Doms(t, g) && Held(t, g, b)
  {
    forall a :: !(b <= a < b + RoomAt(t, g, b)) && a in t.mem ==> a in mem' && mem'[a] == t.mem[a]
  }

  /** A program that writes only inside memory it holds disturbs neither the lists
      nor any other block. */
  lemma ProgramWrites(t: Tables, g: Shape, b: int, mem': map<int, int>)
    requires Inv(t, g, NULL) && Held(t, g, b) && WritesIn(t, g, b, mem')
    ensures var t' := t.(mem := mem');
            Inv(t', g, NULL) && (forall x :: Live(t', g, x) <==> Live(t, g, x)) && (forall x :: Held(t, g, x) && x != b ==> SameMemory(t, g, t', g, x))
  {
    var t' := t.(mem := mem');
    forall x | x in t.count
      ensures Pool(t', g, x) && Placed(t', g, x)
    {
      assert Pool(t, g, x) && Placed(t, g, x);
      forall f | f in g.frees[x] && f in t.mem
        ensures f in mem' && mem'[f] == t.mem[f]
      {
        FreeUntouched(t, g, b, x, f);
      }
      PoolFrame(x, t.count[x], t.freeblock[x], t.szidx[x], t.capacity[x], g.carved[x], g.frees[x], t.mem, mem');
    }
    forall x | Held(t, g, x) && x != b
      ensures SameMemory(t, g, t', g, x)
    {
      BothApart(t, g, x, b);
    }
  }

  /** A free block's first word is in nothing the program holds. */
  lemma FreeUntouched(t: Tables, g: Shape, b: int, x: int, f: int)
    requires Inv(t, g, NULL) && x in t.count && f in g.frees[x] && Held(t, g, b)
    ensures !(b <= f < b + RoomAt(t, g, b))
  {
    assert Pool(t, g, x);
    PoolPositive(t, g, NULL, x);
    BlockInside(x, t.szidx[x], g.carved[x], f);
    if Live(t, g, b) {
      LiveInside(t, g, NULL, b);
      var p := PoolOf(b);
      if p == x { BlocksApart(x, t.szidx[x], g.carved[x], f, b); } else { PagesApart(p, x); }
    } else {
      assert PoolState.Apart(b, g.regions[b], g.home[x], g.regions[g.home[x]]);
    }
  }

  /** Memory held at b is apart from any other block x in use. */
  lemma HeldApart(t: Tables, g: Shape, x: int, b: int)
    requires Inv(t, g, NULL) && Live(t, g, x) && x != b && Held(t, g, b)
    ensures PoolState.Apart(x, SizeOf(t, x), b, RoomAt(t, g, b))
  {
    if Live(t, g, b) { LiveApart(t, g, x, b); } else { LiveClear(t, g, x, NULL, b); }
  }

  /** Different memory held is apart. */
  lemma BothApart(t: Tables, g: Shape, a: int, b: int)
    requires Inv(t, g, NULL) && Held(t, g, a) && Held(t, g, b) && a != b
    ensures PoolState.Apart(a, RoomAt(t, g, a), b, RoomAt(t, g, b))
  {
    if Live(t, g, a) {
      HeldApart(t, g, a, b);
    } else if Live(t, g, b) {
      HeldApart(t, g, b, a);
    }
  }

  /** Memory from the system is in no pool. */
  lemma RegionOutside(t: Tables, g: Shape, x: int, a: int)
    requires Inv(t, g, NULL) && x in g.regions && x !in g.arenas && x <= a < x + g.regions[x]
    ensures PoolOf(a) !in t.count
  {
  }

  /** One step that leaves live blocks and memory from the system alone. */
  lemma MemoryKept(t: Tables, g: Shape, t': Tables, g': Shape, x: int)
    requires Inv(t, g, NULL) && Inv(t', g', NULL) && Held(t, g, x) && Elsewhere(t, t')
    requires Live(t, g, x) ==> Live(t', g', x) && Kept(t, t', x)
    requires x in g.regions && x !in g.arenas ==> x in g'.regions && g'.regions[x] == g.regions[x] && x !in g'.arenas
    ensures SameMemory(t, g, t', g', x)
  {
    if !Live(t, g, x) {
      SystemBlockInNoPool(t', g', x);
      forall a | x <= a < x + g.regions[x] && a in t.mem
        ensures a in t'.mem && t'.mem[a] == t.mem[a]
      {
        RegionOutside(t', g', x, a);
      }
    }
  }

  ghost predicate SameWord(m: map<int, int>, a: int, m': map<int, int>, b: int) {
    a in m ==> b in m' && m'[b] == m[a]
  }

  /** The n words at p in m are the words at b in m'. */
  ghost predicate Copied(m: map<int, int>, p: int, m': map<int, int>, b: int, n: int) {
    forall a, c {:trigger SameWord(m, a, m', c)} :: p <= a < p + n && c - b == a - p ==> SameWord(m, a, m', c)
  }

  /** No change, then an allocation. */
  lemma QuietThen(t: Tables, g: Shape, t1: Tables, g1: Shape, t2: Tables, g2: Shape, b: int)
    requires Doms(t, g) && Doms(t1, g1) && Doms(t2, g2) && Quiet(t, g, t1, g1) && Allocates(t1, g1, t2, g2, b)
    ensures Allocates(t, g, t2, g2, b)
  {
    forall x | Live(t, g, x)
      ensures Kept(t, t2, x)
    {
      assert Kept(t, t1, x) && Kept(t1, t2, x);
    }
  }
}
