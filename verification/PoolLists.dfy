/** Pointer lists over address-indexed fields: null-terminated chains and circular
    doubly linked rings with a sentinel. */
module PoolLists {
  const NULL: int := 0

  ghost predicate NoDup(L: seq<int>) {
    forall i, j :: 0 <= i < j < |L| ==> L[i] != L[j]
  }

  // ----- chains -----

  /** Following `link` from head visits exactly L and ends at NULL. */
  ghost predicate Chain(link: map<int, int>, head: int, L: seq<int>)
    decreases |L|
  {
    if L == [] then head == NULL
    else head == L[0] && head != NULL && head in link && Chain(link, link[head], L[1..])
  }

  lemma {:induction false} ChainFrame(link: map<int, int>, link': map<int, int>, head: int, L: seq<int>)
    requires Chain(link, head, L)
    requires forall b :: b in L ==> b in link && b in link' && link'[b] == link[b]
    ensures Chain(link', head, L)
    decreases |L|
  {
    if L != [] {
      forall b | b in L[1..]
        ensures b in link && b in link' && link'[b] == link[b]
      {
        assert b in L;
      }
      assert L[0] in L;
      ChainFrame(link, link', link[head], L[1..]);
    }
  }

  lemma {:induction false} ChainIn(link: map<int, int>, head: int, L: seq<int>)
    requires Chain(link, head, L)
    ensures forall b :: b in L ==> b in link && b != NULL
    decreases |L|
  {
    if L != [] {
      ChainIn(link, link[head], L[1..]);
      assert L == [L[0]] + L[1..];
    }
  }

  /** Pushing an element outside the chain in front. */
  lemma ChainPush(link: map<int, int>, head: int, L: seq<int>, b: int)
    requires Chain(link, head, L) && b !in L && b != NULL
    ensures Chain(link[b := head], b, [b] + L)
  {
    ChainIn(link, head, L);
    ChainFrame(link, link[b := head], head, L);
    assert ([b] + L)[1..] == L;
  }

  // ----- rings -----

  /** The node at position j going round from the sentinel. */
  ghost function NodeAt(s: int, L: seq<int>, j: int): int {
    if 1 <= j <= |L| then L[j - 1] else s
  }

  ghost predicate Linked(next: map<int, int>, prev: map<int, int>, a: int, b: int) {
    a in next && b in prev && next[a] == b && prev[b] == a
  }

  /** Forward and backward links go round the sentinel s and the nodes L. */
  ghost predicate Ring(next: map<int, int>, prev: map<int, int>, s: int, L: seq<int>) {
    forall j, k {:trigger NodeAt(s, L, j), NodeAt(s, L, k)} ::
      0 <= j <= |L| && k == j + 1 ==> Linked(next, prev, NodeAt(s, L, j), NodeAt(s, L, k))
  }

  lemma RingAt(next: map<int, int>, prev: map<int, int>, s: int, L: seq<int>, j: nat)
    requires Ring(next, prev, s, L) && j <= |L|
    ensures Linked(next, prev, NodeAt(s, L, j), NodeAt(s, L, j + 1))
  {
  }

  /** A ring is empty exactly when its sentinel is its own successor. */
  lemma RingEmpty(next: map<int, int>, prev: map<int, int>, s: int, L: seq<int>)
    requires Ring(next, prev, s, L) && s !in L && NoDup(L)
    ensures s in next && next[s] == NodeAt(s, L, 1)
    ensures next[s] in next && (next[next[s]] == next[s] <==> L == [])
  {
    RingAt(next, prev, s, L, 0);
    if L != [] {
      RingAt(next, prev, s, L, 1);
      assert NodeAt(s, L, 1) == L[0];
      if |L| > 1 { assert NodeAt(s, L, 2) == L[1]; } else { assert NodeAt(s, L, 2) == s; }
    }
  }

  /** Links of other nodes may change. */
  lemma RingFrame(next: map<int, int>, prev: map<int, int>, next': map<int, int>, prev': map<int, int>, s: int, L: seq<int>)
    requires Ring(next, prev, s, L)
    requires forall x :: x == s || x in L ==>
               (x in next ==> x in next' && next'[x] == next[x]) && (x in prev ==> x in prev' && prev'[x] == prev[x])
    ensures Ring(next', prev', s, L)
  {
    forall j, k | 0 <= j <= |L| && k == j + 1
      ensures Linked(next', prev', NodeAt(s, L, j), NodeAt(s, L, k))
    {
      RingAt(next, prev, s, L, j);
    }
  }

  /** Insert x behind the sentinel: the two links around it are all that changes. */
  lemma RingPush(next: map<int, int>, prev: map<int, int>, s: int, L: seq<int>, x: int)
    requires Ring(next, prev, s, L) && NoDup(L) && s !in L && x !in L && x != s
    ensures s in next
    ensures var f := next[s];
            Ring(next[x := f][s := x], prev[x := s][f := x], s, [x] + L)
  {
    RingAt(next, prev, s, L, 0);
    var f := next[s];
    var M, next', prev' := [x] + L, next[x := f][s := x], prev[x := s][f := x];
    forall j, k | 0 <= j <= |M| && k == j + 1
      ensures Linked(next', prev', NodeAt(s, M, j), NodeAt(s, M, k))
    {
      if j == 0 {
        assert NodeAt(s, M, 1) == x;
      } else if j == 1 {
        assert NodeAt(s, M, 2) == NodeAt(s, L, 1) == f;
      } else {
        RingAt(next, prev, s, L, j - 1);
        assert NodeAt(s, M, j) == NodeAt(s, L, j - 1) && NodeAt(s, M, k) == NodeAt(s, L, j);
        NodesDiffer(s, L, 1, j);
      }
    }
  }

  lemma NodesDiffer(s: int, L: seq<int>, i: nat, j: nat)
    requires NoDup(L) && s !in L && 1 <= i < j <= |L| + 1
    ensures NodeAt(s, L, i) != NodeAt(s, L, j)
  {
    assert L[i - 1] in L;
  }

  /** Unlink the node at position m: its neighbours point at each other. */
  lemma RingRemove(next: map<int, int>, prev: map<int, int>, s: int, L: seq<int>, m: nat)
    requires Ring(next, prev, s, L) && NoDup(L) && s !in L && m < |L|
    ensures L[m] in next && L[m] in prev
    ensures Ring(next[prev[L[m]] := next[L[m]]], prev[next[L[m]] := prev[L[m]]], s, L[..m] + L[m + 1..])
  {
    RingAt(next, prev, s, L, m);
    RingAt(next, prev, s, L, m + 1);
    var x := L[m];
    assert NodeAt(s, L, m + 1) == x;
    var M, next', prev' := L[..m] + L[m + 1..], next[prev[x] := next[x]], prev[next[x] := prev[x]];
    forall j, k | 0 <= j <= |M| && k == j + 1
      ensures Linked(next', prev', NodeAt(s, M, j), NodeAt(s, M, k))
    {
      Removed(s, L, m, j);
      Removed(s, L, m, k);
      if j < m {
        RingAt(next, prev, s, L, j);
        NodesApart(s, L, j, m);
        NodesDiffer(s, L, k, m + 2);
      } else if j > m {
        RingAt(next, prev, s, L, j + 1);
        NodesApart(s, L, m, j + 1);
        NodesDiffer(s, L, m + 2, k + 1);
      }
    }
  }

  lemma Removed(s: int, L: seq<int>, m: nat, j: nat)
    requires m < |L| && j <= |L|
    ensures NodeAt(s, L[..m] + L[m + 1..], j) == NodeAt(s, L, if j <= m then j else j + 1)
  {
  }

  lemma NodesApart(s: int, L: seq<int>, i: nat, j: nat)
    requires NoDup(L) && s !in L && i < j <= |L|
    ensures NodeAt(s, L, i) != NodeAt(s, L, j)
  {
    assert L[j - 1] in L;
  }

  lemma {:induction false} NoDupPush(L: seq<int>, x: int)
    requires NoDup(L) && x !in L
    ensures NoDup([x] + L)
  {
  }

  lemma NoDupRemove(L: seq<int>, m: nat)
    requires NoDup(L) && m < |L|
    ensures var M := L[..m] + L[m + 1..]; NoDup(M) && L[m] !in M && forall x :: x in M <==> x in L && x != L[m]
  {
    var M := L[..m] + L[m + 1..];
    forall x
      ensures x in M <==> x in L && x != L[m]
    {
      if x in L && x != L[m] {
        var i :| 0 <= i < |L| && L[i] == x;
        if i < m { assert M[i] == x; } else { assert M[i - 1] == x; }
      }
    }
  }
}
