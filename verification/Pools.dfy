/** One pool of equal blocks: geometry, and what its header and free list keep. */
module Pools {
  import opened PoolLists
  import opened Sets

  // ----- sizes -----

  const ALIGNMENT: int := 8
  const SIZEOF_LONG: int := 4
  const SIZEOF_VOID_P: int := 4
  const THRESHOLD: int := (SIZEOF_LONG + SIZEOF_VOID_P) * ALIGNMENT
  const CLASSES: int := THRESHOLD / ALIGNMENT
  const POOL_SIZE: int := 4096
  const DUMMY: int := 0xffff
  const ARENA_POOLS: int := 63
  const ARENA_SIZE: int := 258048

  /** A pool header is five pointers and three 32-bit numbers, rounded up: 32 bytes
      with 32-bit pointers, 56 with 64-bit ones. Everything holds for both. */
  type HeaderSize = n: int | n == 32 || n == 56 witness 56
  const OVERHEAD: HeaderSize

  /** Block size of class i. */
  function BlockSize(i: nat): (r: int)
    ensures r > 0 && r % ALIGNMENT == 0
  {
    (i + 1) * ALIGNMENT
  }

  /** Address of block k of the pool at p. */
  function BlockAt(p: int, i: nat, k: nat): int {
    p + OVERHEAD + k * BlockSize(i)
  }

  function Capacity(i: nat): nat {
    (POOL_SIZE - OVERHEAD) / BlockSize(i)
  }

  function PoolOf(b: int): int {
    b - b % POOL_SIZE
  }

  /** b is one of the first c blocks. */
  ghost predicate IsBlock(p: int, i: nat, c: nat, b: int) {
    exists k: nat :: k < c && b == BlockAt(p, i, k)
  }

  lemma BlockOf(p: int, i: nat, c: nat, k: nat)
    requires k < c
    ensures IsBlock(p, i, c, BlockAt(p, i, k))
  {
  }

  lemma CapacityAtLeastTwo(i: nat)
    requires i < CLASSES
    ensures 2 <= Capacity(i)
  {
    var s := BlockSize(i);
    assert 8 <= s <= 64;
    assert 2 * s <= POOL_SIZE - OVERHEAD;
    QuotientAtLeast(POOL_SIZE - OVERHEAD, s, 2);
  }

  lemma QuotientAtLeast(a: int, s: int, q: int)
    requires s > 0 && q * s <= a
    ensures q <= a / s
  {
    if a / s < q {
      assert a < s * (a / s + 1);
      Times(a / s + 1, q, s);
    }
  }

  lemma Times(a: int, b: int, s: int)
    requires a <= b && s > 0
    ensures a * s <= b * s
  {
  }

  /** Every block of a pool starts behind the header, ends inside the pool and is
      aligned like the pool. */
  lemma BlockInside(p: int, i: nat, c: nat, b: int)
    requires p % POOL_SIZE == 0 && c <= Capacity(i) && IsBlock(p, i, c, b)
    ensures p + OVERHEAD <= b && b + BlockSize(i) <= p + POOL_SIZE
    ensures PoolOf(b) == p && b % ALIGNMENT == 0
  {
    var k: nat :| k < c && b == BlockAt(p, i, k);
    var s := BlockSize(i);
    Times(0, k, s);
    Times(k + 1, Capacity(i), s);
    QuotientFits(POOL_SIZE - OVERHEAD, s);
    Distribute(k, s);
    InPage(p, b);
    EightTimes(k, i);
    Aligned(p, k * (i + 1));
  }

  lemma QuotientFits(a: int, s: int)
    requires s > 0
    ensures (a / s) * s <= a
  {
  }

  lemma Distribute(k: int, s: int)
    ensures (k + 1) * s == k * s + s
  {
  }

  lemma EightTimes(k: int, i: int)
    ensures k * ((i + 1) * 8) == 8 * (k * (i + 1))
  {
  }

  lemma Aligned(p: int, m: int)
    requires p % POOL_SIZE == 0
    ensures (p + OVERHEAD + 8 * m) % 8 == 0
  {
    assert p == 8 * (512 * (p / 4096));
  }

  lemma InPage(p: int, b: int)
    requires p % POOL_SIZE == 0 && p <= b < p + POOL_SIZE
    ensures PoolOf(b) == p
  {
  }

  /** Different blocks of a pool do not overlap. */
  lemma BlocksApart(p: int, i: nat, c: nat, a: int, b: int)
    requires IsBlock(p, i, c, a) && IsBlock(p, i, c, b) && a != b
    ensures a + BlockSize(i) <= b || b + BlockSize(i) <= a
  {
    var k: nat :| k < c && a == BlockAt(p, i, k);
    var m: nat :| m < c && b == BlockAt(p, i, m);
    var s := BlockSize(i);
    if k < m {
      Times(k + 1, m, s);
      Distribute(k, s);
    } else {
      Times(m + 1, k, s);
      Distribute(m, s);
    }
  }

  // ----- counting -----

  ghost function BlockSet(p: int, i: nat, c: nat): (r: set<int>)
    ensures |r| <= c && forall b :: IsBlock(p, i, c, b) ==> b in r
  {
    if c == 0 then {} else
      assert forall b :: IsBlock(p, i, c, b) ==> b == BlockAt(p, i, c - 1) || IsBlock(p, i, c - 1, b);
      BlockSet(p, i, c - 1) + {BlockAt(p, i, c - 1)}
  }

  lemma {:induction false} SetOfList(L: seq<int>)
    requires NoDup(L)
    ensures |set x | x in L| == |L|
    decreases |L|
  {
    if L != [] {
      SetOfList(L[1..]);
      assert L[0] !in L[1..];
      assert (set x | x in L) == {L[0]} + (set x | x in L[1..]);
    }
  }

  /** A free list without duplicates that misses some block is shorter than the
      number of blocks. */
  lemma Missing(p: int, i: nat, c: nat, L: seq<int>, b: int)
    requires NoDup(L) && (forall x :: x in L ==> IsBlock(p, i, c, x)) && IsBlock(p, i, c, b) && b !in L
    ensures |L| < c
  {
    SetOfList(L);
    var S := set x | x in L;
    SubsetCount(S + {b}, BlockSet(p, i, c));
  }

  // ----- the header and the free list -----

  /** count, freeblock, szidx and capacity of the pool at p; c blocks have been
      carved, L of them are free. */
  ghost predicate PoolOk(p: int, count: nat, freeblock: int, i: nat, cap: nat, c: nat, L: seq<int>, mem: map<int, int>) {
    && i < CLASSES && cap == Capacity(i) && 2 <= c <= cap
    && count + |L| == c && NoDup(L) && Chain(mem, freeblock, L)
    && forall b :: b in L ==> IsBlock(p, i, c, b)
  }

  /** Take the head of the free list. */
  lemma PoolTake(p: int, count: nat, fb: int, i: nat, cap: nat, c: nat, L: seq<int>, mem: map<int, int>)
    requires PoolOk(p, count, fb, i, cap, c, L, mem) && L != []
    ensures fb == L[0] && fb in mem && PoolOk(p, count + 1, mem[fb], i, cap, c, L[1..], mem)
    ensures IsBlock(p, i, c, fb) && fb !in L[1..] && fb != NULL
  {
    assert L[0] in L;
    forall b | b in L[1..]
      ensures IsBlock(p, i, c, b)
    {
      assert b in L;
    }
  }

  /** The free list ran dry and the pool has room: the virgin block is the one
      whose index is the count. */
  lemma PoolCarve(p: int, count: nat, i: nat, cap: nat, c: nat, mem: map<int, int>)
    requires PoolOk(p, count, NULL, i, cap, c, [], mem) && count < cap && p > 0
    ensures var b := BlockAt(p, i, count);
            && !IsBlock(p, i, c, b) && b > p
            && PoolOk(p, count, b, i, cap, c + 1, [b], mem[b := NULL])
  {
    var b := BlockAt(p, i, count);
    Times(0, count, BlockSize(i));
    if IsBlock(p, i, c, b) {
      var k: nat :| k < c && b == BlockAt(p, i, k);
      SameIndex(k, count, BlockSize(i));
    }
    BlockOf(p, i, c + 1, count);
    assert Chain(mem[b := NULL], NULL, [b][1..]);
  }

  lemma SameIndex(k: int, m: int, s: int)
    requires k * s == m * s && s > 0
    ensures k == m
  {
    if k < m { Times(k + 1, m, s); Distribute(k, s); }
    if m < k { Times(m + 1, k, s); Distribute(m, s); }
  }

  /** A pool set up for class i: block 0 handed out, block 1 free. */
  lemma PoolInit(p: int, i: nat, mem: map<int, int>)
    requires i < CLASSES && p > 0
    ensures var b, f := BlockAt(p, i, 0), BlockAt(p, i, 1);
            && b == p + OVERHEAD && f == b + BlockSize(i)
            && PoolOk(p, 1, f, i, Capacity(i), 2, [f], mem[f := NULL])
            && IsBlock(p, i, 2, b) && b != f
  {
    var f := BlockAt(p, i, 1);
    CapacityAtLeastTwo(i);
    BlockOf(p, i, 2, 0);
    BlockOf(p, i, 2, 1);
    assert Chain(mem[f := NULL], NULL, [f][1..]);
  }

  /** Give a block back. */
  lemma PoolGive(p: int, count: nat, fb: int, i: nat, cap: nat, c: nat, L: seq<int>, mem: map<int, int>, b: int)
    requires PoolOk(p, count, fb, i, cap, c, L, mem) && IsBlock(p, i, c, b) && b !in L && b != NULL
    ensures count > 0 && PoolOk(p, count - 1, b, i, cap, c, [b] + L, mem[b := fb])
  {
    Missing(p, i, c, L, b);
    ChainPush(mem, fb, L, b);
    NoDupPush(L, b);
  }

  /** A pool does not care about words outside its free blocks. */
  lemma PoolFrame(p: int, count: nat, fb: int, i: nat, cap: nat, c: nat, L: seq<int>, mem: map<int, int>, mem': map<int, int>)
    requires PoolOk(p, count, fb, i, cap, c, L, mem)
    requires forall b :: b in L && b in mem ==> b in mem' && mem'[b] == mem[b]
    ensures PoolOk(p, count, fb, i, cap, c, L, mem')
  {
    ChainIn(mem, fb, L);
    ChainFrame(mem, mem', fb, L);
  }
}
