/** The links of the node pool as values: every pointer is the index of its node, or NULL.  The pool's
    methods are proved to perform exactly these updates; here they are shown to keep the lists intact. */
module PoolLinks {

  const NULL: int := -1

  datatype Links = Links(freeHead: int, allocatedHead: int, next: seq<int>, prev: seq<int>, flags: seq<bool>)
  {
    predicate Ref(r: int) {
      NULL <= r < |flags|
    }

    /** No link leads outside the pool. */
    predicate Closed() {
      && |next| == |prev| == |flags|
      && Ref(freeHead) && Ref(allocatedHead)
      && (forall i :: 0 <= i < |next| ==> Ref(next[i]))
      && (forall i :: 0 <= i < |prev| ==> Ref(prev[i]))
    }

    function SetNext(node: int, target: int): Links
      requires node < |next|
    {
      if node < 0 then this else this.(next := next[node := target])
    }

    function SetPrev(node: int, target: int): Links
      requires node < |prev|
    {
      if node < 0 then this else this.(prev := prev[node := target])
    }
  }

  function LiveOf(flags: seq<bool>): set<nat> {
    set i: nat | i < |flags| && flags[i]
  }

  // ---- the operations ----

  /** Behind the existing nodes come count more, chained in index order. */
  function Extend(l: Links, count: nat): (r: Links)
    requires l.Closed()
    ensures |r.flags| == |l.flags| + count && r.Closed()
  {
    var base := |l.flags|;
    l.(next := l.next + seq(count, b requires 0 <= b < count => if b + 1 < count then base + b + 1 else NULL),
       prev := l.prev + seq(count, b requires 0 <= b < count => if b > 0 then base + b - 1 else NULL),
       flags := l.flags + seq(count, b requires 0 <= b < count => false))
  }

  /** Takes a node out of the allocated list, trusting its links. */
  function DetachLive(l: Links, i: nat): (r: Links)
    requires l.Closed() && i < |l.flags|
    ensures r.Closed() && r.flags == l.flags
  {
    var l1 := if l.prev[i] >= 0 then l.SetNext(l.prev[i], l.next[i]) else l.(allocatedHead := l.next[i]);
    l1.SetPrev(l1.next[i], l1.prev[i])
  }

  /** Takes a node out of the free list, trusting its links. */
  function DetachFree(l: Links, i: nat): (r: Links)
    requires l.Closed() && i < |l.flags|
    ensures r.Closed() && r.flags == l.flags
  {
    var l1 := if l.prev[i] >= 0 then l.SetNext(l.prev[i], l.next[i]) else l.(freeHead := l.next[i]);
    l1.SetPrev(l1.next[i], l1.prev[i])
  }

  /** Takes the first node out of the free list and clears its links. */
  function TakeFree(l: Links): (r: Links)
    requires l.Closed() && l.freeHead >= 0
    ensures r.Closed() && r.flags == l.flags
  {
    var i := l.freeHead;
    var l1 := l.(freeHead := l.next[i]);
    l1.SetPrev(l1.freeHead, NULL).SetPrev(i, NULL)
  }

  /** Puts a node in front of the allocated list; its Prev is left as it is. */
  function PushLive(l: Links, i: nat): (r: Links)
    requires l.Closed() && i < |l.flags|
    ensures r.Closed() && r.flags == l.flags[i := true]
  {
    var l1 := l.SetNext(i, l.allocatedHead);
    var l2 := l1.SetPrev(l1.allocatedHead, i);
    l2.(allocatedHead := i, flags := l2.flags[i := true])
  }

  /** Puts a node in front of the free list; its Prev is left as it is. */
  function PushFree(l: Links, i: nat): (r: Links)
    requires l.Closed() && i < |l.flags|
    ensures r.Closed() && r.flags == l.flags[i := false]
  {
    var l1 := l.SetNext(i, l.freeHead);
    var l2 := l1.SetPrev(l1.freeHead, i);
    l2.(freeHead := i, flags := l2.flags[i := false])
  }

  /** With no free node left a new page becomes the free list. */
  function Refill(l: Links, perPage: nat): (r: Links)
    requires l.Closed() && perPage > 0
    ensures r.Closed() && r.freeHead >= 0
  {
    if l.freeHead == NULL then Extend(l, perPage).(freeHead := |l.flags|) else l
  }

  /** Puts a new page, ending in `last`, in front of the free list. */
  function Prepend(l: Links, first: nat, last: nat): (r: Links)
    requires l.Closed() && first < |l.flags| && last < |l.flags|
    ensures r.Closed() && r.flags == l.flags
  {
    l.SetNext(last, l.freeHead).SetPrev(l.freeHead, last).(freeHead := first)
  }

  function Create(l: Links): (r: Links)
    requires l.Closed() && l.freeHead >= 0
    ensures r.Closed() && r.flags == l.flags[l.freeHead := true]
  {
    PushLive(TakeFree(l), l.freeHead)
  }

  function CreateAt(l: Links, i: nat): (r: Links)
    requires l.Closed() && i < |l.flags|
    ensures r.Closed() && r.flags == l.flags[i := true]
  {
    PushLive(DetachFree(l, i), i)
  }

  function Erase(l: Links, i: nat): (r: Links)
    requires l.Closed() && i < |l.flags|
    ensures r.Closed() && r.flags == l.flags[i := false]
  {
    PushFree(DetachLive(l, i), i)
  }

  // ---- well-formed lists ----

  ghost predicate Listing(list: seq<nat>, size: nat) {
    && (forall k :: 0 <= k < |list| ==> list[k] < size)
    && forall k, m :: 0 <= k < m < |list| ==> list[k] != list[m]
  }

  function First(list: seq<nat>): int {
    if list == [] then NULL else list[0]
  }

  function Last(list: seq<nat>): nat
    requires list != []
  {
    list[|list| - 1]
  }

  /** Following `next` from head visits exactly `list`. */
  ghost predicate Chain(head: int, next: seq<int>, list: seq<nat>)
    requires Listing(list, |next|)
  {
    && head == First(list)
    && (forall k, m {:trigger list[k], list[m]} :: 0 <= k < m < |list| && m == k + 1 ==> next[list[k]] == list[m])
    && (list != [] ==> next[Last(list)] == NULL)
  }

  ghost predicate BackChain(prev: seq<int>, list: seq<nat>)
    requires Listing(list, |prev|)
  {
    && (forall k, m {:trigger list[k], list[m]} :: 0 <= k < m < |list| && m == k + 1 ==> prev[list[m]] == list[k])
    && (list != [] ==> prev[list[0]] == NULL)
  }

  /** Which node is on which side. */
  ghost predicate Divided(flags: seq<bool>, free: seq<nat>, live: seq<nat>) {
    forall i :: 0 <= i < |flags| ==> (flags[i] <==> i in live) && (!flags[i] <==> i in free)
  }

  /** The two lists are acyclic, share no node and together hold every node; the allocated one can be
      followed backwards as well. */
  ghost predicate LinkedBy(l: Links, free: seq<nat>, live: seq<nat>) {
    && l.Closed() && Listing(free, |l.flags|) && Listing(live, |l.flags|)
    && Chain(l.freeHead, l.next, free) && Chain(l.allocatedHead, l.next, live) && BackChain(l.prev, live)
    && Divided(l.flags, free, live)
  }

  ghost predicate Linked(l: Links) {
    exists free, live :: LinkedBy(l, free, live)
  }

  /** Membership seen through the flags. */
  lemma Sides(l: Links, free: seq<nat>, live: seq<nat>)
    requires LinkedBy(l, free, live)
    ensures forall k :: 0 <= k < |live| ==> l.flags[live[k]]
    ensures forall k :: 0 <= k < |free| ==> !l.flags[free[k]]
  {
    assert forall k :: 0 <= k < |live| ==> live[k] in live;
    assert forall k :: 0 <= k < |free| ==> free[k] in free;
  }

  // ---- lists under one change ----

  lemma ChainAgrees(head: int, next: seq<int>, next': seq<int>, list: seq<nat>)
    requires Listing(list, |next|) && Chain(head, next, list) && |next'| == |next|
    requires forall k :: 0 <= k < |list| ==> next'[list[k]] == next[list[k]]
    ensures Chain(head, next', list)
  {
  }

  lemma ChainTail(head: int, next: seq<int>, list: seq<nat>)
    requires Listing(list, |next|) && Chain(head, next, list) && list != []
    ensures Listing(list[1..], |next|) && next[list[0]] == First(list[1..])
    ensures Chain(First(list[1..]), next, list[1..])
  {
    if |list| > 1 {
      assert next[list[0]] == list[1];
    }
  }

  lemma ChainCons(i: nat, head: int, next: seq<int>, next': seq<int>, list: seq<nat>)
    requires Listing(list, |next|) && Chain(head, next, list) && |next'| == |next|
    requires i < |next| && i !in list && next'[i] == First(list)
    requires forall k :: 0 <= k < |list| ==> next'[list[k]] == next[list[k]]
    ensures Listing([i] + list, |next|) && Chain(i, next', [i] + list)
  {
    var list' := [i] + list;
    assert forall k :: 0 < k < |list'| ==> list'[k] == list[k - 1];
  }

  lemma BackCons(i: nat, prev: seq<int>, prev': seq<int>, list: seq<nat>)
    requires Listing(list, |prev|) && BackChain(prev, list) && |prev'| == |prev|
    requires i < |prev| && i !in list && prev'[i] == NULL
    requires list != [] ==> prev'[list[0]] == i
    requires forall k :: 0 < k < |list| ==> prev'[list[k]] == prev[list[k]]
    ensures Listing([i] + list, |prev|) && BackChain(prev', [i] + list)
  {
    var list' := [i] + list;
    assert forall k :: 0 < k < |list'| ==> list'[k] == list[k - 1];
  }

  function Without(list: seq<nat>, at: nat): seq<nat>
    requires at < |list|
  {
    list[..at] + list[at + 1..]
  }

  lemma WithoutElements(list: seq<nat>, at: nat, size: nat)
    requires Listing(list, size) && at < |list|
    ensures Listing(Without(list, at), size)
    ensures forall i :: i in Without(list, at) <==> i in list && i != list[at]
  {
    var list' := Without(list, at);
    assert forall k :: 0 <= k < |list'| ==> list'[k] == if k < at then list[k] else list[k + 1];
    forall i | i in list && i != list[at]
      ensures i in list'
    {
      var k :| 0 <= k < |list| && list[k] == i;
      assert list'[if k < at then k else k - 1] == i;
    }
  }

  lemma WithoutAt(list: seq<nat>, at: nat)
    requires at < |list|
    ensures |Without(list, at)| == |list| - 1
    ensures forall k {:trigger Without(list, at)[k]} :: 0 <= k < |list| - 1 ==>
            Without(list, at)[k] == if k < at then list[k] else list[k + 1]
  {
  }

  lemma ChainWithout(head: int, next: seq<int>, next': seq<int>, list: seq<nat>, at: nat)
    requires Listing(list, |next|) && Chain(head, next, list) && |next'| == |next| && at < |list|
    requires forall k :: 0 <= k < |list| && k != at && k + 1 != at ==> next'[list[k]] == next[list[k]]
    requires at > 0 ==> next'[list[at - 1]] == next[list[at]]
    ensures Listing(Without(list, at), |next|)
    ensures Chain(if at > 0 then head else next[list[at]], next', Without(list, at))
  {
    WithoutElements(list, at, |next|);
    WithoutAt(list, at);
    hide Without;
    var list' := Without(list, at);
    if at + 1 < |list| {
      assert next[list[at]] == list[at + 1];
    }
    forall k, m | 0 <= k < m < |list'| && m == k + 1
      ensures next'[list'[k]] == list'[m]
    {
      var j := if k < at then k else k + 1;
      if k + 1 != at { assert next[list[j]] == list[j + 1]; }
    }
  }

  lemma BackWithout(prev: seq<int>, prev': seq<int>, list: seq<nat>, at: nat)
    requires Listing(list, |prev|) && BackChain(prev, list) && |prev'| == |prev| && at < |list|
    requires forall k :: 0 <= k < |list| && k != at && k != at + 1 ==> prev'[list[k]] == prev[list[k]]
    requires at + 1 < |list| ==> prev'[list[at + 1]] == prev[list[at]]
    ensures Listing(Without(list, at), |prev|) && BackChain(prev', Without(list, at))
  {
    WithoutElements(list, at, |prev|);
    var list' := Without(list, at);
    assert forall k :: 0 <= k < |list'| ==> list'[k] == if k < at then list[k] else list[k + 1];
    if at > 0 {
      assert prev[list[at]] == list[at - 1];
    }
  }

  // ---- the operations keep the lists ----

  /** What Create writes, given on which side the heads lie. */
  lemma CreateShape(l: Links)
    requires l.Closed() && l.freeHead >= 0 && !l.flags[l.freeHead]
    requires l.allocatedHead >= 0 ==> l.flags[l.allocatedHead]
    requires l.next[l.freeHead] >= 0 ==> !l.flags[l.next[l.freeHead]]
    ensures
      var i, l' := l.freeHead, Create(l);
      && l'.freeHead == l.next[i] && l'.allocatedHead == i && l'.next == l.next[i := l.allocatedHead]
      && l'.prev[i] == NULL
      && forall j :: 0 <= j < |l.prev| && l.flags[j] ==> l'.prev[j] == if j == l.allocatedHead then i else l.prev[j]
  {
  }

  lemma FirstTaken(flags: seq<bool>, free: seq<nat>, live: seq<nat>)
    requires Divided(flags, free, live) && free != [] && Listing(free, |flags|)
    ensures free[0] < |flags| && Divided(flags[free[0] := true], free[1..], [free[0]] + live)
  {
    assert free == [free[0]] + free[1..];
  }

  lemma Heads(l: Links, free: seq<nat>, live: seq<nat>)
    requires LinkedBy(l, free, live)
    ensures l.freeHead == First(free) && l.allocatedHead == First(live)
  {
  }

  lemma CreateKeepsLinked(l: Links, free: seq<nat>, live: seq<nat>)
    requires LinkedBy(l, free, live) && free != []
    ensures l.freeHead == free[0] && LinkedBy(Create(l), free[1..], [free[0]] + live)
  {
    hide Chain, BackChain, Divided, Create;
    var i := free[0];
    Heads(l, free, live);
    Sides(l, free, live);
    ChainTail(l.freeHead, l.next, free);
    CreateShape(l);
    CreateLists(l, Create(l), free, live);
    FirstTaken(l.flags, free, live);
  }

  lemma CreateLists(l: Links, l': Links, free: seq<nat>, live: seq<nat>)
    requires LinkedBy(l, free, live) && free != [] && l'.Closed() && |l'.flags| == |l.flags|
    requires l'.freeHead == First(free[1..]) && l'.allocatedHead == free[0] &&
             l'.next == l.next[free[0] := l.allocatedHead]
    requires l'.prev[free[0]] == NULL
    requires forall j :: 0 <= j < |l.prev| && l.flags[j] ==>
             l'.prev[j] == if j == l.allocatedHead then free[0] else l.prev[j]
    ensures Listing(free[1..], |l.flags|) && Listing([free[0]] + live, |l.flags|)
    ensures Chain(l'.freeHead, l'.next, free[1..]) && Chain(l'.allocatedHead, l'.next, [free[0]] + live)
    ensures BackChain(l'.prev, [free[0]] + live)
  {
    Sides(l, free, live);
    ChainTail(l.freeHead, l.next, free);
    ChainAgrees(l'.freeHead, l.next, l'.next, free[1..]);
    ChainCons(free[0], l.allocatedHead, l.next, l'.next, live);
    BackCons(free[0], l.prev, l'.prev, live);
  }

  /** What Erase writes, given on which side the neighbours lie. */
  lemma EraseShape(l: Links, i: nat)
    requires l.Closed() && i < |l.flags| && l.flags[i]
    requires l.prev[i] >= 0 ==> l.prev[i] != i && l.flags[l.prev[i]]
    requires l.next[i] >= 0 ==> l.next[i] != i && l.flags[l.next[i]]
    requires l.freeHead >= 0 ==> !l.flags[l.freeHead]
    ensures
      var p, n, l' := l.prev[i], l.next[i], Erase(l, i);
      && l'.freeHead == i && l'.allocatedHead == (if p >= 0 then l.allocatedHead else n)
      && (forall j :: 0 <= j < |l.next| ==>
        l'.next[j] == if j == i then l.freeHead else if j == p then n else l.next[j])
      && (forall j :: 0 <= j < |l.prev| && l.flags[j] && j != i ==> l'.prev[j] == if j == n then p else l.prev[j])
  {
  }

  lemma EraseKeepsLinked(l: Links, free: seq<nat>, live: seq<nat>, at: nat)
    requires LinkedBy(l, free, live) && at < |live|
    ensures LinkedBy(Erase(l, live[at]), [live[at]] + free, Without(live, at))
  {
    hide Chain, BackChain, Erase, Without;
    Neighbours(l, free, live, at);
    EraseShape(l, live[at]);
    EraseLists(l, Erase(l, live[at]), free, live, at);
    WithoutElements(live, at, |l.flags|);
  }

  lemma Neighbours(l: Links, free: seq<nat>, live: seq<nat>, at: nat)
    requires LinkedBy(l, free, live) && at < |live|
    ensures l.flags[live[at]]
    ensures l.prev[live[at]] == if at > 0 then live[at - 1] else NULL
    ensures l.next[live[at]] == if at + 1 < |live| then live[at + 1] else NULL
    ensures at > 0 ==> l.flags[live[at - 1]]
    ensures at + 1 < |live| ==> l.flags[live[at + 1]]
    ensures l.freeHead >= 0 ==> !l.flags[l.freeHead]
  {
    Sides(l, free, live);
    if free != [] { assert l.freeHead == free[0]; }
  }

  lemma EraseLists(l: Links, l': Links, free: seq<nat>, live: seq<nat>, at: nat)
    requires LinkedBy(l, free, live) && at < |live| && l'.Closed() && |l'.flags| == |l.flags|
    requires
      var i := live[at];
      var p, n := l.prev[i], l.next[i];
      && l'.freeHead == i && l'.allocatedHead == (if p >= 0 then l.allocatedHead else n)
      && (forall j :: 0 <= j < |l.next| ==>
        l'.next[j] == if j == i then l.freeHead else if j == p then n else l.next[j])
      && (forall j :: 0 <= j < |l.prev| && l.flags[j] && j != i ==> l'.prev[j] == if j == n then p else l.prev[j])
    ensures Listing([live[at]] + free, |l.flags|) && Listing(Without(live, at), |l.flags|)
    ensures Chain(l'.freeHead, l'.next, [live[at]] + free) && Chain(l'.allocatedHead, l'.next, Without(live, at))
    ensures BackChain(l'.prev, Without(live, at))
  {
    Neighbours(l, free, live, at);
    Sides(l, free, live);
    ChainCons(live[at], l.freeHead, l.next, l'.next, free);
    ChainWithout(l.allocatedHead, l.next, l'.next, live, at);
    BackWithout(l.prev, l'.prev, live, at);
  }

  lemma EraseLinked(l: Links, i: nat)
    requires Linked(l) && i < |l.flags| && l.flags[i]
    ensures Linked(Erase(l, i))
  {
    var free, live :| LinkedBy(l, free, live);
    var at :| 0 <= at < |live| && live[at] == i;
    EraseKeepsLinked(l, free, live, at);
  }

  lemma CreateLinked(l: Links)
    requires Linked(l) && l.freeHead >= 0
    ensures !l.flags[l.freeHead] && Linked(Create(l))
  {
    var free, live :| LinkedBy(l, free, live);
    Sides(l, free, live);
    CreateKeepsLinked(l, free, live);
  }

  lemma NextInChain(head: int, next: seq<int>, list: seq<nat>, k: nat)
    requires Listing(list, |next|) && Chain(head, next, list) && k < |list|
    ensures next[list[k]] == if k + 1 < |list| then list[k + 1] else NULL
  {
    if k + 1 < |list| {
      assert next[list[k]] == list[k + 1];
    }
  }

  /** Head and links determine a chain. */
  lemma ChainUnique(head: int, next: seq<int>, a: seq<nat>, b: seq<nat>)
    requires Listing(a, |next|) && Listing(b, |next|) && Chain(head, next, a) && Chain(head, next, b)
    ensures a == b
  {
    if |a| <= |b| {
      ChainPrefix(head, next, a, b);
    } else {
      ChainPrefix(head, next, b, a);
    }
  }

  lemma ChainPrefix(head: int, next: seq<int>, a: seq<nat>, b: seq<nat>)
    requires Listing(a, |next|) && Listing(b, |next|) && Chain(head, next, a) && Chain(head, next, b) && |a| <= |b|
    ensures a == b
  {
    var n := |a|;
    if n > 0 {
      ChainAt(head, next, a, b, n - 1);
      NextInChain(head, next, a, n - 1);
      NextInChain(head, next, b, n - 1);
    }
    forall k | 0 <= k < n
      ensures a[k] == b[k]
    {
      ChainAt(head, next, a, b, k);
    }
  }

  lemma {:induction false} ChainAt(head: int, next: seq<int>, a: seq<nat>, b: seq<nat>, k: nat)
    requires Listing(a, |next|) && Listing(b, |next|) && Chain(head, next, a) && Chain(head, next, b)
    requires k < |a| && k < |b|
    ensures a[k] == b[k]
  {
    if k > 0 {
      ChainAt(head, next, a, b, k - 1);
      NextInChain(head, next, a, k - 1);
      NextInChain(head, next, b, k - 1);
    }
  }

  // ---- new pages ----

  function Range(base: nat, count: nat): (r: seq<nat>)
    ensures |r| == count && forall k :: 0 <= k < count ==> r[k] == base + k
  {
    seq(count, k requires 0 <= k < count => base + k)
  }

  /** CreateAt adds pages until the index exists, each one in front of the free list. */
  function Grow(l: Links, perPage: nat, index: nat): (r: Links)
    requires l.Closed() && perPage > 0
    ensures r.Closed() && index < |r.flags| && |l.flags| <= |r.flags|
    ensures forall i :: 0 <= i < |r.flags| ==> r.flags[i] == (i < |l.flags| && l.flags[i])
    decreases if index < |l.flags| then 0 else index - |l.flags| + 1
  {
    if index < |l.flags| then l
    else
      var base := |l.flags|;
      Grow(Prepend(Extend(l, perPage), base, base + perPage - 1), perPage, index)
  }

  /** Growing on from here ends with `goal`. */
  ghost predicate GrowsTo(l: Links, perPage: nat, index: nat, goal: Links)
    requires l.Closed() && perPage > 0
  {
    Grow(l, perPage, index) == goal
  }

  lemma GrowStart(l: Links, perPage: nat, index: nat)
    requires l.Closed() && perPage > 0
    ensures GrowsTo(l, perPage, index, Grow(l, perPage, index))
  {
  }

  lemma GrowStep(l: Links, perPage: nat, index: nat, goal: Links)
    requires l.Closed() && perPage > 0 && index >= |l.flags| && GrowsTo(l, perPage, index, goal)
    ensures GrowsTo(Prepend(Extend(l, perPage), |l.flags|, |l.flags| + perPage - 1), perPage, index, goal)
  {
  }

  lemma GrowDone(l: Links, perPage: nat, index: nat, goal: Links)
    requires l.Closed() && perPage > 0 && index < |l.flags| && GrowsTo(l, perPage, index, goal)
    ensures goal == l
  {
  }

  lemma GrowNothing(l: Links, perPage: nat, index: nat)
    requires l.Closed() && perPage > 0 && index < |l.flags|
    ensures Grow(l, perPage, index) == l
  {
  }

  lemma CreateAtLive(l: Links, perPage: nat, index: nat)
    requires l.Closed() && perPage > 0
    ensures LiveOf(Grow(l, perPage, index).flags) == LiveOf(l.flags)
    ensures LiveOf(CreateAt(Grow(l, perPage, index), index).flags) == LiveOf(l.flags) + {index}
  {
  }

  /** The node that the next Create takes: the free head, or the first node of a new page. */
  lemma RefillHead(l: Links, perPage: nat)
    requires l.Closed() && perPage > 0
    ensures Refill(l, perPage).freeHead == if l.freeHead == NULL then |l.flags| else l.freeHead
    ensures forall i :: i in LiveOf(l.flags) ==> i < |l.flags|
  {
  }

  lemma CreateLive(l: Links, perPage: nat)
    requires l.Closed() && perPage > 0
    ensures LiveOf(Create(Refill(l, perPage)).flags) == LiveOf(l.flags) + {Refill(l, perPage).freeHead}
  {
  }

  lemma EraseLive(l: Links, i: nat)
    requires l.Closed() && i < |l.flags|
    ensures LiveOf(Erase(l, i).flags) == LiveOf(l.flags) - {i}
  {
  }

  lemma ExtendShape(l: Links, count: nat)
    requires l.Closed() && count > 0
    ensures
      var base, r := |l.flags|, Extend(l, count);
      && r.freeHead == l.freeHead && r.allocatedHead == l.allocatedHead
      && |r.next| == |r.prev| == |r.flags| == base + count
      && (forall j :: 0 <= j < base ==> r.next[j] == l.next[j] && r.prev[j] == l.prev[j] && r.flags[j] == l.flags[j])
      && (forall j :: base <= j < base + count ==> r.next[j] == if j + 1 < base + count then j + 1 else NULL)
      && (forall j :: base <= j < base + count ==> r.prev[j] == if j > base then j - 1 else NULL)
      && (forall j :: base <= j < base + count ==> !r.flags[j])
  {
  }

  /** A page put in front of the free list, which may be empty. */
  lemma PrependKeepsLinked(l: Links, count: nat, free: seq<nat>, live: seq<nat>)
    requires LinkedBy(l, free, live) && count > 0
    ensures
      var base := |l.flags|;
      LinkedBy(Prepend(Extend(l, count), base, base + count - 1), Range(base, count) + free, live)
  {
    hide Prepend, Extend, Chain, BackChain;
    var base := |l.flags|;
    PrependShape(l, count, free, live);
    PrependLists(l, Prepend(Extend(l, count), base, base + count - 1), count, free, live);
    ExtendShape(l, count);
    RangeThenList(base, count, free);
  }

  lemma PrependShape(l: Links, count: nat, free: seq<nat>, live: seq<nat>)
    requires LinkedBy(l, free, live) && count > 0
    ensures
      var base := |l.flags|;
      var r := Prepend(Extend(l, count), base, base + count - 1);
      && r.freeHead == base && r.allocatedHead == l.allocatedHead
      && (forall j :: 0 <= j < base ==> r.next[j] == l.next[j] && r.flags[j] == l.flags[j])
      && (forall j :: base <= j < base + count ==> r.next[j] == if j + 1 < base + count then j + 1 else l.freeHead)
      && (forall j :: 0 <= j < base && l.flags[j] ==> r.prev[j] == l.prev[j])
  {
    var base := |l.flags|;
    ExtendShape(l, count);
    var e := Extend(l, count);
    if free != [] {
      Sides(l, free, live);
      assert l.freeHead == free[0];
    }
  }

  lemma PrependLists(l: Links, r: Links, count: nat, free: seq<nat>, live: seq<nat>)
    requires LinkedBy(l, free, live) && count > 0 && r.Closed() && |r.flags| == |l.flags| + count
    requires r.freeHead == |l.flags| && r.allocatedHead == l.allocatedHead
    requires forall j :: 0 <= j < |l.flags| ==> r.next[j] == l.next[j]
    requires forall j :: |l.flags| <= j < |l.flags| + count ==>
             r.next[j] == if j + 1 < |l.flags| + count then j + 1 else l.freeHead
    requires forall j :: 0 <= j < |l.flags| && l.flags[j] ==> r.prev[j] == l.prev[j]
    ensures Listing(Range(|l.flags|, count) + free, |r.flags|) &&
            Chain(r.freeHead, r.next, Range(|l.flags|, count) + free)
    ensures Listing(live, |r.flags|) && Chain(r.allocatedHead, r.next, live) && BackChain(r.prev, live)
  {
    Sides(l, free, live);
    PageThenList(r.next, l.freeHead, l.next, |l.flags|, count, free);
    ChainExtends(l.allocatedHead, l.next, r.next, live);
    BackExtends(l.prev, r.prev, live);
  }

  lemma RangeThenList(base: nat, count: nat, list: seq<nat>)
    ensures forall i: nat :: i in Range(base, count) + list <==> base <= i < base + count || i in list
  {
    forall i: nat | base <= i < base + count
      ensures i in Range(base, count)
    {
      assert Range(base, count)[i - base] == i;
    }
  }

  lemma PageThenList(next': seq<int>, head: int, next: seq<int>, base: nat, count: nat, list: seq<nat>)
    requires count > 0 && base == |next| && |next'| == base + count
    requires Listing(list, |next|) && Chain(head, next, list)
    requires forall k :: 0 <= k < |list| ==> next'[list[k]] == next[list[k]]
    requires forall j :: base <= j < base + count ==> next'[j] == if j + 1 < base + count then j + 1 else head
    ensures Listing(Range(base, count) + list, |next'|) && Chain(base, next', Range(base, count) + list)
  {
    var all := Range(base, count) + list;
    assert forall k :: 0 <= k < count ==> all[k] == base + k;
    assert forall k :: count <= k < |all| ==> all[k] == list[k - count];
    forall k, m | 0 <= k < m < |all| && m == k + 1
      ensures next'[all[k]] == all[m]
    {
      if k >= count {
        assert next[list[k - count]] == list[m - count];
      }
    }
  }

  lemma ChainExtends(head: int, next: seq<int>, next': seq<int>, list: seq<nat>)
    requires Listing(list, |next|) && Chain(head, next, list) && |next| <= |next'|
    requires forall k :: 0 <= k < |list| ==> next'[list[k]] == next[list[k]]
    ensures Listing(list, |next'|) && Chain(head, next', list)
  {
  }

  lemma BackExtends(prev: seq<int>, prev': seq<int>, list: seq<nat>)
    requires Listing(list, |prev|) && BackChain(prev, list) && |prev| <= |prev'|
    requires forall k :: 0 <= k < |list| ==> prev'[list[k]] == prev[list[k]]
    ensures Listing(list, |prev'|) && BackChain(prev', list)
  {
  }

  lemma PrependLinked(l: Links, count: nat)
    requires Linked(l) && count > 0
    ensures Linked(Prepend(Extend(l, count), |l.flags|, |l.flags| + count - 1))
  {
    var free, live :| LinkedBy(l, free, live);
    PrependKeepsLinked(l, count, free, live);
  }

  lemma LinkedIsClosed(l: Links)
    requires Linked(l)
    ensures l.Closed()
  {
  }

  lemma {:induction false} GrowLinked(l: Links, perPage: nat, index: nat)
    requires Linked(l) && perPage > 0
    ensures Linked(Grow(l, perPage, index))
    decreases if index < |l.flags| then 0 else index - |l.flags| + 1
  {
    hide LinkedBy;
    LinkedIsClosed(l);
    if index >= |l.flags| {
      PrependLinked(l, perPage);
      GrowLinked(Prepend(Extend(l, perPage), |l.flags|, |l.flags| + perPage - 1), perPage, index);
    }
  }

  /** With an empty free list a new page simply becomes the free list. */
  lemma RefillLinked(l: Links, count: nat)
    requires Linked(l) && l.freeHead == NULL && count > 0
    ensures Linked(Extend(l, count).(freeHead := |l.flags|))
  {
    var base := |l.flags|;
    PrependLinked(l, count);
    var e := Extend(l, count);
    assert e.next[base + count - 1] == NULL;
    assert Prepend(e, base, base + count - 1) == e.(freeHead := base) by {
      assert e.next[base + count - 1 := NULL] == e.next;
    }
  }

  // ---- CreateAt and the Prev link it trusts ----

  /** Necessary for well-formed lists: the heads are on their sides, the allocated head has no
      predecessor, and a free node leads to a free node. */
  ghost predicate Sane(l: Links) {
    && l.Closed()
    && (l.freeHead >= 0 ==> !l.flags[l.freeHead])
    && (l.allocatedHead >= 0 ==> l.prev[l.allocatedHead] == NULL)
    && forall p :: 0 <= p < |l.flags| && !l.flags[p] && l.next[p] >= 0 ==> !l.flags[l.next[p]]
  }

  lemma LinkedIsSane(l: Links)
    ensures Linked(l) ==> Sane(l)
  {
    if free, live :| LinkedBy(l, free, live) {
      Sides(l, free, live);
      if free != [] { assert l.freeHead == free[0]; }
      if live != [] { assert l.allocatedHead == live[0]; }
      forall p | 0 <= p < |l.flags| && !l.flags[p] && l.next[p] >= 0
        ensures !l.flags[l.next[p]]
      {
        var k :| 0 <= k < |free| && free[k] == p;
        if k + 1 < |free| {
          assert l.next[free[k]] == free[k + 1];
        }
      }
    }
  }

  /** CreateAt keeps the lists well-formed exactly when the node is the head of the free list and its Prev
      link is clear.  Anywhere else the allocated list gets a head whose Prev is set, or a free node goes
      on pointing at it; and Erase does not clear the Prev of the node it frees. */
  lemma CreateAtKeepsLinkedIff(l: Links, free: seq<nat>, live: seq<nat>, i: nat)
    requires LinkedBy(l, free, live) && i in free
    ensures Linked(CreateAt(l, i)) <==> l.freeHead == i && l.prev[i] == NULL
  {
    Sides(l, free, live);
    if l.freeHead == i && l.prev[i] == NULL {
      CreateAtHead(l, free, live);
    } else {
      var at :| 0 <= at < |free| && free[at] == i;
      CreateAtElsewhere(l, free, live, at);
      LinkedIsSane(CreateAt(l, i));
    }
  }

  /** At the free head with a clear Prev link, CreateAt writes what Create writes. */
  lemma CreateAtHeadShape(l: Links)
    requires l.Closed() && l.freeHead >= 0 && !l.flags[l.freeHead] && l.prev[l.freeHead] == NULL
    requires l.allocatedHead >= 0 ==> l.flags[l.allocatedHead]
    requires l.next[l.freeHead] >= 0 ==> !l.flags[l.next[l.freeHead]]
    ensures
      var i := l.freeHead;
      var l' := CreateAt(l, i);
      && l'.freeHead == l.next[i] && l'.allocatedHead == i && l'.next == l.next[i := l.allocatedHead]
      && l'.prev[i] == NULL
      && forall j :: 0 <= j < |l.prev| && l.flags[j] ==> l'.prev[j] == if j == l.allocatedHead then i else l.prev[j]
  {
  }

  lemma CreateAtHead(l: Links, free: seq<nat>, live: seq<nat>)
    requires LinkedBy(l, free, live) && free != [] && l.prev[free[0]] == NULL
    ensures LinkedBy(CreateAt(l, free[0]), free[1..], [free[0]] + live)
  {
    hide Chain, BackChain, Divided, CreateAt;
    var i := free[0];
    Heads(l, free, live);
    Sides(l, free, live);
    ChainTail(l.freeHead, l.next, free);
    CreateAtHeadShape(l);
    CreateLists(l, CreateAt(l, i), free, live);
    FirstTaken(l.flags, free, live);
  }

  lemma CreateAtElsewhere(l: Links, free: seq<nat>, live: seq<nat>, at: nat)
    requires LinkedBy(l, free, live) && at < |free| && (at > 0 || l.prev[free[at]] != NULL)
    ensures !Sane(CreateAt(l, free[at]))
  {
    var i, r := free[at], CreateAt(l, free[at]);
    Sides(l, free, live);
    if live != [] { assert l.allocatedHead == live[0]; }
    if at == 0 {
      // the free list still starts at i
      assert r.freeHead == i && r.flags[i];
    } else if l.prev[i] == free[at - 1] {
      // i heads the allocated list with its Prev link set
      assert r.allocatedHead == i && r.prev[i] != NULL;
    } else {
      // the node in front of i still points at it
      var p := free[at - 1];
      assert l.next[p] == i;
      assert r.next[p] == i && !r.flags[p] && r.flags[i];
    }
  }

  /** A mixed history that breaks the pool: on a page of two nodes, CreateAt(0), CreateAt(1), Erase(0),
      CreateAt(0) leaves a live node at the head of the free list, and the next Create returns it again. */
  lemma MixedHistoryReturnsLiveIndex()
    ensures
      var empty := Links(NULL, NULL, [], [], []);
      var l := CreateAt(Erase(CreateAt(CreateAt(Grow(empty, 2, 0), 0), 1), 0), 0);
      l.Closed() && l.freeHead == 0 && l.flags[0] && !Linked(l)
  {
    var empty := Links(NULL, NULL, [], [], []);
    assert Grow(empty, 2, 0) == Prepend(Extend(empty, 2), 0, 1);
    var l1 := CreateAt(Grow(empty, 2, 0), 0);
    assert l1 == Links(1, 0, [NULL, NULL], [NULL, NULL], [true, false]);
    var l2 := CreateAt(l1, 1);
    assert l2 == Links(NULL, 1, [NULL, 0], [1, NULL], [true, true]);
    var l3 := Erase(l2, 0);
    assert l3 == Links(0, 1, [NULL, NULL], [1, NULL], [false, true]);
    var l4 := CreateAt(l3, 0);
    assert l4.freeHead == 0 && l4.flags[0];
    LinkedIsSane(l4);
  }
}
