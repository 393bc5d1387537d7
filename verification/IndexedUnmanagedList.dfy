/** The paged node pool with its intrusive free and allocated lists, as objects and references.

    Nodes keep their place and their data; only flags and links move.  Every operation is proved to
    perform exactly the link update that PoolLinks defines, so what PoolLinks shows about the lists holds
    of the objects.  Flags and data are right whatever the links say. */
module UnmanagedList {
  import opened Pages
  import PoolLinks

  class Node<T> {
    const Index: nat
    var Allocated: bool
    var Next: Node?<T>
    var Prev: Node?<T>
    var Data: T

    constructor (index: nat, next: Node?<T>, data: T)
      ensures Index == index && !Allocated && Next == next && Prev == null && Data == data
    {
      Index, Allocated, Next, Prev, Data := index, false, next, null, data;
    }
  }

  /** A reference as a value. */
  function RefOf<T>(n: Node?<T>): int {
    if n == null then PoolLinks.NULL else n.Index
  }

  // ---- nodes in index order, seen as values ----

  ghost predicate KnownIn<T>(ns: seq<Node<T>>, n: Node?<T>) {
    n != null ==> n.Index < |ns| && ns[n.Index] == n
  }

  /** `l` and `values` say what the nodes hold, and no link leads outside. */
  ghost predicate Mirrored<T>(ns: seq<Node<T>>, l: PoolLinks.Links, values: seq<T>)
    reads ns
  {
    && |l.next| == |l.prev| == |l.flags| == |values| == |ns|
    && (forall i :: 0 <= i < |ns| ==> ns[i].Index == i && l.flags[i] == ns[i].Allocated && values[i] == ns[i].Data)
    && (forall i {:trigger ns[i].Next} {:trigger l.next[i]} :: 0 <= i < |ns| ==>
          KnownIn(ns, ns[i].Next) && l.next[i] == RefOf(ns[i].Next))
    && (forall i {:trigger ns[i].Prev} {:trigger l.prev[i]} :: 0 <= i < |ns| ==>
          KnownIn(ns, ns[i].Prev) && l.prev[i] == RefOf(ns[i].Prev))
  }

  /** New nodes with the indices from `start` on: unallocated, initialized and chained in index order. */
  ghost predicate NewPage<T>(page: seq<Node<T>>, start: nat, initializer: nat -> T)
    reads page
  {
    && (forall b :: 0 <= b < |page| ==>
          page[b].Index == start + b && !page[b].Allocated && page[b].Data == initializer(start + b))
    && (forall b {:trigger page[b].Next} :: 0 <= b < |page| ==>
      page[b].Next == if b + 1 < |page| then page[b + 1] else null)
    && (forall b {:trigger page[b].Prev} :: 0 <= b < |page| ==> page[b].Prev == if b > 0 then page[b - 1] else null)
  }

  /** What the initializer puts into the slots of a new page. */
  function InitialData<T>(start: nat, count: nat, initializer: nat -> T): (r: seq<T>)
    ensures |r| == count && forall b :: 0 <= b < count ==> r[b] == initializer(start + b)
  {
    seq(count, b requires 0 <= b < count => initializer(start + b))
  }

  /** Nodes, links and values extended by a new page still mirror each other. */
  lemma GrownMirrored<T>(ns: seq<Node<T>>, page: seq<Node<T>>, l: PoolLinks.Links, before: seq<T>,
                         initializer: nat -> T)
    requires Mirrored(ns, l, before) && l.Closed() && |page| > 0 && NewPage(page, |ns|, initializer)
    ensures page[0].Index == |ns| && page[|page| - 1].Index == |ns| + |page| - 1
    ensures |before| == |ns| &&
            Mirrored(ns + page, PoolLinks.Extend(l, |page|), before + InitialData(|ns|, |page|, initializer))
  {
    hide PoolLinks.Extend;
    PoolLinks.ExtendShape(l, |page|);
    GrownNext(ns, page, l, PoolLinks.Extend(l, |page|), before, initializer);
    GrownPrev(ns, page, l, PoolLinks.Extend(l, |page|), before, initializer);
  }

  lemma GrownNext<T>(ns: seq<Node<T>>, page: seq<Node<T>>, l: PoolLinks.Links, r: PoolLinks.Links, before: seq<T>,
                     initializer: nat -> T)
    requires Mirrored(ns, l, before) && NewPage(page, |ns|, initializer) && |r.next| == |ns| + |page|
    requires forall j :: 0 <= j < |ns| ==> r.next[j] == l.next[j]
    requires forall j :: |ns| <= j < |ns| + |page| ==>
             r.next[j] == if j + 1 < |ns| + |page| then j + 1 else PoolLinks.NULL
    ensures forall i {:trigger (ns + page)[i].Next} {:trigger r.next[i]} :: 0 <= i < |ns + page| ==>
              KnownIn(ns + page, (ns + page)[i].Next) && r.next[i] == RefOf((ns + page)[i].Next)
  {
    var all := ns + page;
    forall i | 0 <= i < |all|
      ensures KnownIn(all, all[i].Next) && r.next[i] == RefOf(all[i].Next)
    {
      if i < |ns| {
        assert all[i] == ns[i];
      } else {
        assert all[i] == page[i - |ns|];
        assert i + 1 < |all| ==> all[i + 1] == page[i + 1 - |ns|];
      }
    }
  }

  lemma GrownPrev<T>(ns: seq<Node<T>>, page: seq<Node<T>>, l: PoolLinks.Links, r: PoolLinks.Links, before: seq<T>,
                     initializer: nat -> T)
    requires Mirrored(ns, l, before) && NewPage(page, |ns|, initializer) && |r.prev| == |ns| + |page|
    requires forall j :: 0 <= j < |ns| ==> r.prev[j] == l.prev[j]
    requires forall j :: |ns| <= j < |ns| + |page| ==> r.prev[j] == if j > |ns| then j - 1 else PoolLinks.NULL
    ensures forall i {:trigger (ns + page)[i].Prev} {:trigger r.prev[i]} :: 0 <= i < |ns + page| ==>
              KnownIn(ns + page, (ns + page)[i].Prev) && r.prev[i] == RefOf((ns + page)[i].Prev)
  {
    var all := ns + page;
    forall i | 0 <= i < |all|
      ensures KnownIn(all, all[i].Prev) && r.prev[i] == RefOf(all[i].Prev)
    {
      if i < |ns| {
        assert all[i] == ns[i];
      } else {
        assert all[i] == page[i - |ns|];
        assert i > |ns| ==> all[i - 1] == page[i - 1 - |ns|];
      }
    }
  }

  function Keys<T>(visited: seq<(nat, T)>): (r: seq<nat>)
    ensures |r| == |visited| && forall k :: 0 <= k < |visited| ==> r[k] == visited[k].0
  {
    seq(|visited|, k requires 0 <= k < |visited| => visited[k].0)
  }

  // ---- the pool ----

  class IndexedUnmanagedList<T> {
    const NodesPerPage: nat
    const BlockInitializer: nat -> T
    var pages: seq<seq<Node<T>>>
    var freeHead: Node?<T>
    var allocatedHead: Node?<T>

    // all nodes in index order, and their links and data as values
    ghost var nodes: seq<Node<T>>
    ghost var links: PoolLinks.Links
    ghost var values: seq<T>

    ghost predicate Known(n: Node?<T>)
      reads this`nodes
    {
      KnownIn(nodes, n)
    }

    /** The pages hold the nodes in index order, no link leads outside, and `links` and `values` say what
        the nodes hold. */
    ghost predicate Indexed()
      reads this, nodes
    {
      && Paged(pages, NodesPerPage, nodes)
      && Mirrored(nodes, links, values)
      && Known(freeHead) && links.freeHead == RefOf(freeHead)
      && Known(allocatedHead) && links.allocatedHead == RefOf(allocatedHead)
    }

    /** Nodes keep their data and new ones are initialized. */
    ghost predicate Initialized(before: seq<T>, after: seq<T>) {
      && |before| <= |after|
      && forall i :: 0 <= i < |after| ==> after[i] == if i < |before| then before[i] else BlockInitializer(i)
    }

    /** The live indices. */
    ghost function LiveSet(): set<nat>
      reads this`links
    {
      PoolLinks.LiveOf(links.flags)
    }

    /** Both lists are well-formed; see PoolLinks.LinkedBy. */
    ghost predicate Linked()
      reads this, nodes
    {
      Indexed() && PoolLinks.Linked(links)
    }

    constructor (nodesPerPage: nat, initializer: nat -> T)
      requires nodesPerPage > 0
      ensures Linked() && nodes == [] && LiveSet() == {} && values == []
      ensures NodesPerPage == nodesPerPage && BlockInitializer == initializer
    {
      NodesPerPage := nodesPerPage;
      BlockInitializer := initializer;
      pages, freeHead, allocatedHead := [], null, null;
      nodes, values := [], [];
      links := PoolLinks.Links(PoolLinks.NULL, PoolLinks.NULL, [], [], []);
      new;
      assert PoolLinks.LinkedBy(links, [], []);
    }

    // ---- single link writes ----

    method SetNext(node: Node<T>, target: Node?<T>)
      requires Indexed() && Known(node) && Known(target)
      modifies this`links, node`Next
      ensures Indexed() && links == old(links).SetNext(node.Index, RefOf(target))
    {
      node.Next := target;
      links := links.SetNext(node.Index, RefOf(target));
    }

    method SetPrev(node: Node<T>, target: Node?<T>)
      requires Indexed() && Known(node) && Known(target)
      modifies this`links, node`Prev
      ensures Indexed() && links == old(links).SetPrev(node.Index, RefOf(target))
    {
      node.Prev := target;
      links := links.SetPrev(node.Index, RefOf(target));
    }

    method SetAllocated(node: Node<T>, flag: bool)
      requires Indexed() && Known(node)
      modifies this`links, node`Allocated
      ensures Indexed() && links == old(links).(flags := old(links).flags[node.Index := flag])
    {
      node.Allocated := flag;
      links := links.(flags := links.flags[node.Index := flag]);
    }

    method SetFreeHead(node: Node?<T>)
      requires Indexed() && Known(node)
      modifies this`links, this`freeHead
      ensures Indexed() && freeHead == node && links == old(links).(freeHead := RefOf(node))
    {
      freeHead := node;
      links := links.(freeHead := RefOf(node));
    }

    method SetAllocatedHead(node: Node?<T>)
      requires Indexed() && Known(node)
      modifies this`links, this`allocatedHead
      ensures Indexed() && allocatedHead == node && links == old(links).(allocatedHead := RefOf(node))
    {
      allocatedHead := node;
      links := links.(allocatedHead := RefOf(node));
    }

    lemma LinksClosed()
      requires Indexed()
      ensures links.Closed()
    {
    }

    lemma Sizes()
      requires Indexed()
      ensures NodesPerPage > 0 && |links.flags| == |nodes| == |values|
    {
    }

    lemma DataOf(index: nat)
      requires Indexed() && index < |nodes|
      ensures index < |values| && values[index] == nodes[index].Data
    {
    }

    lemma Covers(index: nat)
      requires Indexed()
      ensures NodesPerPage > 0 && |links.flags| == |nodes| && (index / NodesPerPage < |pages| <==> index < |nodes|)
    {
      PagedLookup(pages, NodesPerPage, nodes, index);
    }

    // ---- lookup ----

    method Lookup(index: nat) returns (node: Node?<T>)
      requires Paged(pages, NodesPerPage, nodes)
      ensures node == if index < |nodes| then nodes[index] else null
    {
      PagedLookup(pages, NodesPerPage, nodes, index);
      if index / NodesPerPage >= |pages| {
        return null;
      }
      return pages[index / NodesPerPage][index % NodesPerPage];
    }

    /** The node of a live index, null otherwise. */
    method Get(index: nat) returns (node: Node?<T>)
      requires Indexed()
      ensures node == if index in LiveSet() then nodes[index] else null
      ensures node != null <==> index in LiveSet()
      ensures node != null ==> index < |values| == |nodes| && node.Index == index && node.Data == values[index]
    {
      node := Lookup(index);
      if node != null && !node.Allocated {
        node := null;
      }
    }

    /** A user writing through the reference to a live node's data. */
    method SetData(index: nat, data: T)
      requires Indexed() && index in LiveSet()
      modifies this`values, nodes
      ensures Indexed() && index < |values| == |nodes| && |old(values)| == |values| &&
              values == old(values)[index := data]
      ensures LiveSet() == old(LiveSet()) && (old(Linked()) ==> Linked())
    {
      var node := Get(index);
      node.Data := data;
      values := values[index := data];
    }

    // ---- erase ----

    /** Frees a live index and leaves every other flag and all data alone; anything else is a no-op.
        Well-formed lists stay well-formed. */
    method Erase(index: nat)
      requires Indexed()
      modifies this`links, this`freeHead, this`allocatedHead, nodes
      ensures Indexed()
      ensures links == if index in old(LiveSet()) then PoolLinks.Erase(old(links), index) else old(links)
      ensures LiveSet() == old(LiveSet()) - {index}
      ensures old(Linked()) ==> Linked()
    {
      LinksClosed();
      if index < |nodes| {
        PoolLinks.EraseLive(links, index);
        if Linked() && links.flags[index] { PoolLinks.EraseLinked(links, index); }
      }
      var node := Lookup(index);
      if node != null && node.Allocated {
        EraseNode(node);
      }
    }

    method EraseNode(node: Node<T>)
      requires Indexed() && Known(node) && links.Closed()
      modifies this`links, this`freeHead, this`allocatedHead, nodes
      ensures Indexed() && links == PoolLinks.Erase(old(links), node.Index)
    {
      assert PoolLinks.Erase(links, node.Index) ==
             PoolLinks.PushFree(PoolLinks.DetachLive(links, node.Index), node.Index);
      hide *;
      DetachLive(node);
      PushFree(node);
    }

    method DetachLive(node: Node<T>)
      requires Indexed() && Known(node) && links.Closed()
      modifies this`links, this`allocatedHead, nodes
      ensures Indexed() && links == PoolLinks.DetachLive(old(links), node.Index)
    {
      if node.Prev != null {
        SetNext(node.Prev, node.Next);
      } else {
        SetAllocatedHead(node.Next);
      }
      if node.Next != null {
        SetPrev(node.Next, node.Prev);
      }
    }

    method PushFree(node: Node<T>)
      requires Indexed() && Known(node) && links.Closed()
      modifies this`links, this`freeHead, nodes
      ensures Indexed() && links == PoolLinks.PushFree(old(links), node.Index)
    {
      SetNext(node, freeHead);
      if freeHead != null {
        SetPrev(freeHead, node);
      }
      SetAllocated(node, false);
      SetFreeHead(node);
    }

    // ---- new pages ----

    /** The page is laid out from its last slot to its first. */
    method BuildPage(base: nat) returns (page: seq<Node<T>>)
      ensures |page| == NodesPerPage && NewPage(page, base, BlockInitializer)
      ensures forall b :: 0 <= b < |page| ==> fresh(page[b])
    {
      page := [];
      var i := NodesPerPage;
      while i > 0
        invariant 0 <= i <= NodesPerPage && |page| == NodesPerPage - i
        invariant NewPage(page, base + i, BlockInitializer)
        invariant forall b :: 0 <= b < |page| ==> fresh(page[b])
      {
        i := i - 1;
        page := PutInFront(page, base + i);
      }
    }

    method PutInFront(page: seq<Node<T>>, index: nat) returns (page': seq<Node<T>>)
      requires NewPage(page, index + 1, BlockInitializer)
      modifies page
      ensures |page'| == |page| + 1 && page'[1..] == page && fresh(page'[0]) && NewPage(page', index, BlockInitializer)
    {
      var head := if page == [] then null else page[0];
      var node := new Node(index, head, BlockInitializer(index));
      if head != null {
        head.Prev := node;
      }
      page' := [node] + page;
      forall b | 0 < b < |page'|
        ensures page'[b] == page[b - 1]
        ensures page'[b].Index == index + b && !page'[b].Allocated && page'[b].Data == BlockInitializer(index + b)
        ensures page'[b].Next == (if b + 1 < |page'| then page'[b + 1] else null) && page'[b].Prev == page'[b - 1]
      {
        assert page'[b] == page[b - 1] && page'[b].Next == page[b - 1].Next;
        assert b > 1 ==> page[b - 1] != head;
      }
    }

    method ExtendPage() returns (headOfNewPage: Node<T>, lastOfNewPage: Node<T>)
      requires Indexed() && links.Closed()
      modifies this`pages, this`nodes, this`links, this`values
      ensures Indexed() && links == PoolLinks.Extend(old(links), NodesPerPage)
      ensures old(nodes) <= nodes && (forall i :: |old(nodes)| <= i < |nodes| ==> fresh(nodes[i]))
      ensures |nodes| == |old(nodes)| + NodesPerPage && Initialized(old(values), values)
      ensures Known(headOfNewPage) && headOfNewPage.Index == |old(nodes)|
      ensures Known(lastOfNewPage) && lastOfNewPage.Index == |old(nodes)| + NodesPerPage - 1
    {
      var page := BuildPage(|pages| * NodesPerPage);
      assert Indexed() && links == old(links);
      headOfNewPage, lastOfNewPage := AppendPage(page);
    }

    method AppendPage(page: seq<Node<T>>) returns (first: Node<T>, last: Node<T>)
      requires Indexed() && links.Closed() && |page| == NodesPerPage && NewPage(page, |nodes|, BlockInitializer)
      modifies this`pages, this`nodes, this`links, this`values
      ensures Indexed() && nodes == old(nodes) + page
      ensures links == PoolLinks.Extend(old(links), NodesPerPage)
      ensures Initialized(old(values), values)
      ensures Known(first) && first.Index == |old(nodes)|
      ensures Known(last) && last.Index == |old(nodes)| + NodesPerPage - 1
    {
      hide NewPage, Mirrored, PoolLinks.Extend;
      PagedExtend(pages, NodesPerPage, nodes, page);
      ghost var ns, l, before := nodes, links, values;
      pages := pages + [page];
      nodes := nodes + page;
      links := PoolLinks.Extend(links, NodesPerPage);
      values := values + InitialData(|ns|, NodesPerPage, BlockInitializer);
      PoolLinks.ExtendShape(l, NodesPerPage);
      GrownMirrored(ns, page, l, before, BlockInitializer);
      return page[0], page[NodesPerPage - 1];
    }

    // ---- create ----

    method RefillFree()
      requires Indexed()
      modifies this`pages, this`nodes, this`links, this`values, this`freeHead
      ensures Indexed() && links.Closed() && old(links).Closed()
      ensures links == PoolLinks.Refill(old(links), NodesPerPage) && freeHead != null &&
              freeHead.Index == links.freeHead
      ensures old(nodes) <= nodes && (forall i :: |old(nodes)| <= i < |nodes| ==> fresh(nodes[i]))
      ensures Initialized(old(values), values)
    {
      LinksClosed();
      if freeHead == null {
        RefillEmpty();
      }
    }

    method RefillEmpty()
      requires Indexed() && freeHead == null && links.Closed()
      modifies this`pages, this`nodes, this`links, this`values, this`freeHead
      ensures Indexed() && links.Closed() && freeHead != null
      ensures links == PoolLinks.Refill(old(links), NodesPerPage)
      ensures old(nodes) <= nodes && (forall i :: |old(nodes)| <= i < |nodes| ==> fresh(nodes[i]))
      ensures Initialized(old(values), values)
    {
      var head, _ := ExtendPage();
      SetFreeHead(head);
    }

    method TakeFree() returns (node: Node<T>)
      requires Indexed() && links.Closed() && freeHead != null
      modifies this`links, this`freeHead, nodes
      ensures Indexed() && Known(node) && node == old(freeHead)
      ensures links == PoolLinks.TakeFree(old(links))
    {
      node := freeHead;
      SetFreeHead(freeHead.Next);
      if freeHead != null {
        SetPrev(freeHead, null);
      }
      SetPrev(node, null);
    }

    method PushLive(node: Node<T>)
      requires Indexed() && Known(node) && links.Closed()
      modifies this`links, this`allocatedHead, nodes
      ensures Indexed() && links == PoolLinks.PushLive(old(links), node.Index)
    {
      SetNext(node, allocatedHead);
      if allocatedHead != null {
        SetPrev(allocatedHead, node);
      }
      SetAllocatedHead(node);
      SetAllocated(node, true);
    }

    method CreateFirst() returns (node: Node<T>)
      requires Indexed() && links.Closed() && freeHead != null
      modifies this`links, this`freeHead, this`allocatedHead, nodes
      ensures Indexed() && Known(node) && node == old(freeHead)
      ensures links == PoolLinks.Create(old(links))
    {
      node := TakeFree();
      PushLive(node);
    }

    /** The links after the next Create. */
    ghost function CreatedLinks(): (r: PoolLinks.Links)
      requires Indexed()
      reads this, nodes
    {
      LinksClosed();
      PoolLinks.Create(PoolLinks.Refill(links, NodesPerPage))
    }

    /** Allocates the first free node, of a new page if there is none; every other flag and all data stay.
        With well-formed lists that index was not live and the lists stay well-formed; whatever the links
        say, the index was live before exactly if a live node headed the free list. */
    method Create() returns (index: nat, node: Node<T>)
      requires Indexed()
      modifies this`pages, this`nodes, this`links, this`values, this`freeHead, this`allocatedHead, nodes
      ensures Indexed() && index < |nodes| == |values| && nodes[index] == node && node.Index == index
      ensures node.Data == values[index] && links == old(CreatedLinks())
      ensures LiveSet() == old(LiveSet()) + {index}
      ensures old(freeHead) != null ==> node == old(freeHead)
      ensures index in old(LiveSet()) <==> old(freeHead) != null && old(freeHead).Index in old(LiveSet())
      ensures old(Linked()) ==> Linked() && index !in old(LiveSet())
      ensures old(nodes) <= nodes && (forall i :: |old(nodes)| <= i < |nodes| ==> fresh(nodes[i]))
      ensures Initialized(old(values), values)
    {
      hide Indexed, Mirrored, Paged, Slot, Initialized, PoolLinks.Linked, PoolLinks.LiveOf, PoolLinks.Create,
           PoolLinks.Refill;
      LinksClosed();
      Sizes();
      HeadRef();
      PoolLinks.RefillHead(links, NodesPerPage);
      if PoolLinks.Linked(links) {
        CreatedAfterRefill(links);
      }
      PoolLinks.CreateLive(links, NodesPerPage);
      RefillFree();
      node := CreateFirst();
      index := node.Index;
      Sizes();
      DataOf(index);
    }

    lemma HeadRef()
      requires Indexed()
      ensures links.freeHead == RefOf(freeHead) && Known(freeHead)
    {
    }

    lemma CreatedAfterRefill(l: PoolLinks.Links)
      requires l.Closed() && PoolLinks.Linked(l) && NodesPerPage > 0
      ensures
        var r := PoolLinks.Refill(l, NodesPerPage);
        var c := PoolLinks.Create(r);
        PoolLinks.Linked(c) && r.freeHead >= 0 && r.freeHead !in PoolLinks.LiveOf(l.flags)
    {
      var r := PoolLinks.Refill(l, NodesPerPage);
      if l.freeHead == PoolLinks.NULL {
        PoolLinks.RefillLinked(l, NodesPerPage);
      }
      PoolLinks.CreateLinked(r);
    }

    // ---- create at a given index ----

    /** A new page goes in front of the free list. */
    method PrependPage()
      requires Indexed() && links.Closed()
      modifies this`pages, this`nodes, this`links, this`values, this`freeHead, nodes
      ensures Indexed() && links.Closed()
      ensures links == PoolLinks.Prepend(PoolLinks.Extend(old(links), NodesPerPage), |old(nodes)|,
                                         |old(nodes)| + NodesPerPage - 1)
      ensures old(nodes) <= nodes && (forall i :: |old(nodes)| <= i < |nodes| ==> fresh(nodes[i]))
      ensures |nodes| == |old(nodes)| + NodesPerPage && Initialized(old(values), values)
    {
      hide *;
      Sizes();
      ghost var l, base := links, |nodes|;
      var head, last := ExtendPage();
      Sizes();
      HangPage(head, last);
    }

    method HangPage(head: Node<T>, last: Node<T>)
      requires Indexed() && links.Closed() && Known(head) && Known(last)
      modifies this`links, this`freeHead, nodes
      ensures Indexed()
      ensures links == PoolLinks.Prepend(old(links), head.Index, last.Index)
    {
      SetNext(last, freeHead);
      if freeHead != null {
        SetPrev(freeHead, last);
      }
      SetFreeHead(head);
    }

    method DetachFree(node: Node<T>)
      requires Indexed() && Known(node) && links.Closed()
      modifies this`links, this`freeHead, nodes
      ensures Indexed() && links == PoolLinks.DetachFree(old(links), node.Index)
    {
      if node.Prev != null {
        SetNext(node.Prev, node.Next);
      } else {
        SetFreeHead(node.Next);
      }
      if node.Next != null {
        SetPrev(node.Next, node.Prev);
      }
    }

    /** One round of growing. */
    method GrowOnce(index: nat, ghost goal: PoolLinks.Links)
      requires Indexed() && links.Closed() && index >= |nodes| && PoolLinks.GrowsTo(links, NodesPerPage, index, goal)
      modifies this`pages, this`nodes, this`links, this`values, this`freeHead, nodes
      ensures Indexed() && links.Closed() && PoolLinks.GrowsTo(links, NodesPerPage, index, goal)
      ensures |nodes| == |old(nodes)| + NodesPerPage && old(nodes) <= nodes
      ensures (forall i :: |old(nodes)| <= i < |nodes| ==> fresh(nodes[i])) && Initialized(old(values), values)
    {
      hide *;
      Sizes();
      PoolLinks.GrowStep(links, NodesPerPage, index, goal);
      PrependPage();
    }

    /** Adds pages until the index exists. */
    method GrowTo(index: nat)
      requires Indexed() && links.Closed()
      modifies this`pages, this`nodes, this`links, this`values, this`freeHead, nodes
      ensures Indexed() && index < |nodes| && links == PoolLinks.Grow(old(links), NodesPerPage, index)
      ensures index < |old(nodes)| ==> nodes == old(nodes)
      ensures old(nodes) <= nodes && (forall i :: |old(nodes)| <= i < |nodes| ==> fresh(nodes[i]))
      ensures Initialized(old(values), values)
    {
      hide Indexed, Mirrored, Paged, Slot, PoolLinks.Grow, PoolLinks.GrowsTo;
      Covers(index);
      ghost var goal := PoolLinks.Grow(links, NodesPerPage, index);
      PoolLinks.GrowStart(links, NodesPerPage, index);
      while index / NodesPerPage >= |pages|
        invariant Indexed() && links.Closed()
        invariant index / NodesPerPage < |pages| <==> index < |nodes|
        invariant index < |old(nodes)| ==> nodes == old(nodes)
        invariant PoolLinks.GrowsTo(links, NodesPerPage, index, goal)
        invariant old(nodes) <= nodes && (forall i :: |old(nodes)| <= i < |nodes| ==> fresh(nodes[i]))
        invariant Initialized(old(values), values)
        decreases index - |nodes|
      {
        GrowOnce(index, goal);
        Covers(index);
      }
      Sizes();
      PoolLinks.GrowDone(links, NodesPerPage, index, goal);
    }

    method MakeLive(node: Node<T>)
      requires Indexed() && Known(node) && links.Closed()
      modifies this`links, this`freeHead, this`allocatedHead, nodes
      ensures Indexed() && links == PoolLinks.CreateAt(old(links), node.Index)
    {
      DetachFree(node);
      PushLive(node);
    }

    /** The links after a CreateAt of an index that is not live. */
    ghost function CreatedAtLinks(index: nat): (r: PoolLinks.Links)
      requires Indexed()
      reads this, nodes
    {
      LinksClosed();
      PoolLinks.CreateAt(PoolLinks.Grow(links, NodesPerPage, index), index)
    }

    /** Allocates the given index unless it is live already, whatever the links say; every other flag and
        all data stay. */
    method CreateAt(index: nat) returns (node: Node?<T>)
      requires Indexed()
      modifies this`pages, this`nodes, this`links, this`values, this`freeHead, this`allocatedHead, nodes
      ensures Indexed() && (node == null <==> index in old(LiveSet()))
      ensures links == if node == null then old(links) else old(CreatedAtLinks(index))
      ensures node == null ==> nodes == old(nodes) && values == old(values)
      ensures node != null ==> index < |nodes| && nodes[index] == node && node.Index == index
      ensures LiveSet() == old(LiveSet()) + {index}
      ensures old(nodes) <= nodes && (forall i :: |old(nodes)| <= i < |nodes| ==> fresh(nodes[i]))
      ensures Initialized(old(values), values)
    {
      hide Indexed, Mirrored, Paged, Initialized, PoolLinks.LiveOf, PoolLinks.CreateAt, PoolLinks.Grow;
      LinksClosed();
      Sizes();
      PoolLinks.CreateAtLive(links, NodesPerPage, index);
      PoolLinks.RefillHead(links, NodesPerPage);
      if index < |nodes| { PoolLinks.GrowNothing(links, NodesPerPage, index); }
      GrowTo(index);
      Sizes();
      FlagOf(index);
      var found := Lookup(index);
      if found.Allocated {
        SameData(old(values), values);
        LiveMore(index);
        return null;
      }
      MakeLive(found);
      return found;
    }

    lemma FlagOf(index: nat)
      requires Indexed() && index < |nodes|
      ensures nodes[index].Allocated <==> index in LiveSet()
      ensures nodes[index].Index == index && Paged(pages, NodesPerPage, nodes)
    {
    }

    lemma SameData(before: seq<T>, after: seq<T>)
      requires Initialized(before, after) && |before| == |after|
      ensures before == after
    {
    }

    lemma LiveMore(index: nat)
      requires index in LiveSet()
      ensures LiveSet() + {index} == LiveSet()
    {
    }

    // ---- iteration ----

    /** Following Next from the allocated head goes through exactly these indices and comes to null. */
    ghost predicate AllocatedChain(list: seq<nat>)
      requires |links.next| == |nodes|
      reads this
    {
      PoolLinks.Listing(list, |nodes|) && PoolLinks.Chain(links.allocatedHead, links.next, list)
    }

    /** Following the allocated list visits the indices of its chain, each once and with its data; it ends
        exactly because the chain does.  With well-formed lists the chain ends, and holds exactly the live
        indices. */
    method Iterate() returns (visited: seq<(nat, T)>)
      requires Indexed() && |links.next| == |nodes| && exists list :: AllocatedChain(list)
      ensures AllocatedChain(Keys(visited))
      ensures forall k :: 0 <= k < |visited| ==> visited[k].0 < |values| && visited[k].1 == values[visited[k].0]
      ensures forall k, m :: 0 <= k < m < |visited| ==> visited[k].0 != visited[m].0
      ensures Linked() ==> forall i: nat :: i in LiveSet() <==> i in Keys(visited)
    {
      ghost var list :| AllocatedChain(list);
      hide Indexed, Mirrored, Paged, PoolLinks.Linked, PoolLinks.Listing, PoolLinks.Chain;
      Sizes();
      ChainStart(list);
      visited := [];
      var currentNode := allocatedHead;
      while currentNode != null
        invariant |visited| <= |list| && Keys(visited) == list[..|visited|]
        invariant forall k :: 0 <= k < |visited| ==> visited[k].0 < |values| && visited[k].1 == values[visited[k].0]
        invariant At(list, |visited|, currentNode)
        decreases |list| - |visited|
      {
        ChainNext(list, |visited|, currentNode);
        visited := visited + [(currentNode.Index, currentNode.Data)];
        currentNode := currentNode.Next;
      }
      assert list[..|visited|] == list;
      VisitedOnce(visited);
      if Linked() {
        ChainIsLive(list);
      }
    }

    /** The node that stands at position k of a chain, null behind its end. */
    ghost predicate At(list: seq<nat>, k: nat, n: Node?<T>)
      reads this`nodes
    {
      k <= |list| && if k < |list| then list[k] < |nodes| && n == nodes[list[k]] else n == null
    }

    lemma ChainStart(list: seq<nat>)
      requires Indexed() && |links.next| == |nodes| && AllocatedChain(list)
      ensures At(list, 0, allocatedHead)
    {
    }

    lemma ChainNext(list: seq<nat>, k: nat, n: Node<T>)
      requires Indexed() && |links.next| == |nodes| && AllocatedChain(list) && At(list, k, n)
      ensures k < |list| && n.Index == list[k] < |values| && n.Data == values[list[k]] && At(list, k + 1, n.Next)
    {
      assert n == nodes[list[k]];
      PoolLinks.NextInChain(links.allocatedHead, links.next, list, k);
    }

    lemma VisitedOnce(visited: seq<(nat, T)>)
      requires Indexed() && |links.next| == |nodes| && AllocatedChain(Keys(visited))
      ensures forall k, m :: 0 <= k < m < |visited| ==> visited[k].0 != visited[m].0
    {
      hide Indexed, PoolLinks.Chain;
      assert forall k :: 0 <= k < |visited| ==> Keys(visited)[k] == visited[k].0;
    }

    lemma ChainIsLive(list: seq<nat>)
      requires Indexed() && |links.next| == |nodes| && AllocatedChain(list) && PoolLinks.Linked(links)
      ensures forall i: nat :: i in LiveSet() <==> i in list
    {
      hide Mirrored, Paged;
      ghost var free, live :| PoolLinks.LinkedBy(links, free, live);
      PoolLinks.ChainUnique(links.allocatedHead, links.next, list, live);
      PoolLinks.Sides(links, free, live);
    }

    /** Well-formed lists have such a chain, so they can always be iterated. */
    lemma LinkedCanIterate()
      requires Linked()
      ensures |links.next| == |nodes| && exists list :: AllocatedChain(list)
    {
      ghost var free, live :| PoolLinks.LinkedBy(links, free, live);
      assert AllocatedChain(live);
    }
  }
}
