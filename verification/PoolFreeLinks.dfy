/** The Prev links of the free list, which only CreateAt reads.  As long as nodes are created in front and erased,
    the free list is doubly linked up to its head, whose own Prev link is clear unless the last node erased was
    not the first of the allocated list. */
module PoolFreeLinks {
  import opened PoolLinks

  /** Every free node but the head has the one in front of it as its Prev. */
  ghost predicate FreeBack(prev: seq<int>, free: seq<nat>)
    requires Listing(free, |prev|)
  {
    forall k, m {:trigger free[k], free[m]} :: 0 <= k < m < |free| && m == k + 1 ==> prev[free[m]] == free[k]
  }

  // ---- Create ----

  lemma CreatePrev(l: Links, j: nat)
    requires l.Closed() && l.freeHead >= 0 && l.allocatedHead != l.freeHead && l.next[l.freeHead] != l.freeHead
    requires j < |l.prev|
    ensures |Create(l).prev| == |l.prev|
    ensures Create(l).prev[j] ==
            if j == l.allocatedHead then l.freeHead
            else if j == l.freeHead || j == l.next[l.freeHead] then NULL else l.prev[j]
  {
  }

  /** Create keeps the free list doubly linked and clears the Prev of its new head. */
  lemma CreateKeepsFreeBack(l: Links, free: seq<nat>, live: seq<nat>)
    requires LinkedBy(l, free, live) && free != [] && FreeBack(l.prev, free)
    ensures |Create(l).prev| == |l.prev| && Listing(free[1..], |l.prev|)
    ensures FreeBack(Create(l).prev, free[1..])
    ensures |free| > 1 ==> Create(l).prev[free[1]] == NULL
  {
    hide Create, Divided;
    Heads(l, free, live);
    Sides(l, free, live);
    if |free| > 1 {
      assert l.next[free[0]] == free[1];
    }
    forall k | 0 <= k < |free|
      ensures
        |Create(l).prev| == |l.prev| &&
        Create(l).prev[free[k]] == if k <= 1 then NULL else l.prev[free[k]]
    {
      CreatePrev(l, free[k]);
    }
  }

  // ---- Erase ----

  lemma ErasePrev(l: Links, i: nat, j: nat)
    requires l.Closed() && i < |l.flags| && j < |l.prev| && l.next[i] != i && l.prev[i] != i
    ensures |Erase(l, i).prev| == |l.prev|
    ensures l.freeHead != j && l.next[i] != j ==> Erase(l, i).prev[j] == l.prev[j]
    ensures l.freeHead == j ==> Erase(l, i).prev[j] == i
  {
  }

  /** Erase keeps the free list doubly linked; its new head has a clear Prev exactly if it was the first node of
      the allocated list. */
  lemma EraseKeepsFreeBack(l: Links, free: seq<nat>, live: seq<nat>, at: nat)
    requires LinkedBy(l, free, live) && at < |live| && FreeBack(l.prev, free)
    ensures |Erase(l, live[at]).prev| == |l.prev| && Listing([live[at]] + free, |l.prev|)
    ensures FreeBack(Erase(l, live[at]).prev, [live[at]] + free)
    ensures Erase(l, live[at]).prev[live[at]] == NULL <==> at == 0
  {
    hide Erase, Divided;
    var i := live[at];
    Neighbours(l, free, live, at);
    Sides(l, free, live);
    forall j | 0 <= j < |l.prev|
      ensures |Erase(l, i).prev| == |l.prev|
      ensures l.freeHead != j && l.next[i] != j ==> Erase(l, i).prev[j] == l.prev[j]
      ensures l.freeHead == j ==> Erase(l, i).prev[j] == i
    {
      ErasePrev(l, i, j);
    }
  }

  // ---- a new page ----

  /** A new page in front keeps the free list doubly linked, and its head's Prev is clear. */
  lemma PrependKeepsFreeBack(l: Links, count: nat, free: seq<nat>, live: seq<nat>)
    requires LinkedBy(l, free, live) && count > 0 && FreeBack(l.prev, free)
    ensures
      var base := |l.flags|;
      var r := Prepend(Extend(l, count), base, base + count - 1);
      && Listing(Range(base, count) + free, |r.prev|) && FreeBack(r.prev, Range(base, count) + free)
      && r.prev[base] == NULL
  {
    hide Divided;
    var base := |l.flags|;
    RangeThenList(base, count, free);
  }

  /** So CreateAt at the head of the free list is safe after a Create, on a new page and after erasing the first
      node of the allocated list, and not after erasing any other. */
  lemma CreateAtAfterErase(l: Links, free: seq<nat>, live: seq<nat>, at: nat)
    requires LinkedBy(l, free, live) && at < |live|
    ensures Linked(CreateAt(Erase(l, live[at]), live[at])) <==> at == 0
  {
    hide Erase, CreateAt, Divided, Chain, BackChain, Without;
    var r := Erase(l, live[at]);
    EraseKeepsLinked(l, free, live, at);
    CreateAtKeepsLinkedIff(r, [live[at]] + free, Without(live, at), live[at]);
    ErasedHead(l, free, live, at);
  }

  lemma ErasedHead(l: Links, free: seq<nat>, live: seq<nat>, at: nat)
    requires LinkedBy(l, free, live) && at < |live|
    ensures
      var r := Erase(l, live[at]);
      r.freeHead == live[at] && |r.prev| == |l.prev| && r.prev[live[at]] == if at == 0 then NULL else live[at - 1]
  {
    hide Divided;
    Neighbours(l, free, live, at);
    Sides(l, free, live);
  }

  lemma CreateAtAfterCreate(l: Links, free: seq<nat>, live: seq<nat>)
    requires LinkedBy(l, free, live) && |free| > 1
    ensures Linked(CreateAt(Create(l), free[1]))
  {
    hide CreateAt, Create, Divided, Chain, BackChain;
    CreateKeepsLinked(l, free, live);
    CreateAtKeepsLinkedIff(Create(l), free[1..], [free[0]] + live, free[1]);
    CreatedHead(l, free, live);
  }

  lemma CreatedHead(l: Links, free: seq<nat>, live: seq<nat>)
    requires LinkedBy(l, free, live) && |free| > 1
    ensures Create(l).freeHead == free[1] && |Create(l).prev| == |l.prev| && Create(l).prev[free[1]] == NULL
  {
    hide Divided;
    Heads(l, free, live);
    Sides(l, free, live);
    assert l.next[free[0]] == free[1];
  }
}
