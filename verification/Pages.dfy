/** Fixed-size pages as one index space: index i lives at slot i % perPage of page i / perPage. */
module Pages {

  /** The index of slot b of page p. */
  function Slot(perPage: nat, p: nat, b: nat): nat {
    p * perPage + b
  }

  /** Index i lives at slot i % perPage of page i / perPage. */
  ghost predicate Paged<N>(pages: seq<seq<N>>, perPage: nat, flat: seq<N>) {
    && perPage > 0
    && |flat| == Slot(perPage, |pages|, 0)
    && (forall p :: 0 <= p < |pages| ==> |pages[p]| == perPage)
    && forall p, b {:trigger Slot(perPage, p, b)} :: 0 <= p < |pages| && 0 <= b < perPage ==>
         Slot(perPage, p, b) < |flat| && flat[Slot(perPage, p, b)] == pages[p][b]
  }

  lemma Multiples(a: nat, b: nat, c: nat)
    requires a <= b
    ensures a * c <= b * c
  {
  }

  /** Page and slot are determined by the index. */
  lemma SlotUnique(perPage: nat, p: nat, b: nat, q: nat, c: nat)
    requires b < perPage && c < perPage
    ensures Slot(perPage, p, b) == Slot(perPage, q, c) <==> p == q && b == c
  {
    if p < q {
      Multiples(p + 1, q, perPage);
    } else if q < p {
      Multiples(q + 1, p, perPage);
    }
  }

  lemma SlotBound(perPage: nat, p: nat, b: nat, count: nat)
    requires b < perPage
    ensures Slot(perPage, p, b) < Slot(perPage, count, 0) <==> p < count
  {
    if p < count {
      Multiples(p + 1, count, perPage);
    } else {
      Multiples(count, p, perPage);
    }
  }

  lemma SlotOf(perPage: nat, index: nat)
    requires perPage > 0
    ensures index % perPage < perPage && Slot(perPage, index / perPage, index % perPage) == index
  {
  }

  lemma PagedLookup<N>(pages: seq<seq<N>>, perPage: nat, flat: seq<N>, index: nat)
    requires Paged(pages, perPage, flat)
    ensures perPage > 0 && (index / perPage < |pages| <==> index < |flat|)
    ensures index < |flat| ==> pages[index / perPage][index % perPage] == flat[index]
  {
    hide Slot;
    SlotOf(perPage, index);
    SlotBound(perPage, index / perPage, index % perPage, |pages|);
  }

  lemma PagedExtend<N>(pages: seq<seq<N>>, perPage: nat, flat: seq<N>, page: seq<N>)
    requires Paged(pages, perPage, flat) && |page| == perPage
    ensures Paged(pages + [page], perPage, flat + page)
  {
    var pages', flat' := pages + [page], flat + page;
    NextPage(perPage, |pages|);
    hide Slot;
    forall p, b | 0 <= p < |pages'| && 0 <= b < perPage
      ensures Slot(perPage, p, b) < |flat'| && flat'[Slot(perPage, p, b)] == pages'[p][b]
    {
      if p == |pages| {
        assert Slot(perPage, p, b) == |flat| + b;
      }
    }
  }

  lemma NextPage(perPage: nat, count: nat)
    ensures Slot(perPage, count + 1, 0) == Slot(perPage, count, 0) + perPage
    ensures forall b: nat :: Slot(perPage, count, b) == Slot(perPage, count, 0) + b
  {
  }

  lemma PagedWrite<N>(pages: seq<seq<N>>, perPage: nat, flat: seq<N>, p: nat, b: nat, x: N)
    requires Paged(pages, perPage, flat) && p < |pages| && b < perPage
    ensures Slot(perPage, p, b) < |flat| && Paged(pages[p := pages[p][b := x]], perPage, flat[Slot(perPage, p, b) := x])
  {
    hide Slot;
    var pages', flat' := pages[p := pages[p][b := x]], flat[Slot(perPage, p, b) := x];
    forall q, c | 0 <= q < |pages'| && 0 <= c < perPage
      ensures Slot(perPage, q, c) < |flat'| && flat'[Slot(perPage, q, c)] == pages'[q][c]
    {
      SlotUnique(perPage, p, b, q, c);
    }
  }

  /** Writing one slot of one page writes one index. */
  lemma PagedUpdate<N>(pages: seq<seq<N>>, perPage: nat, flat: seq<N>, index: nat, x: N)
    requires Paged(pages, perPage, flat) && index < |flat|
    ensures
      var p, b := index / perPage, index % perPage;
      p < |pages| && b < |pages[p]| && Paged(pages[p := pages[p][b := x]], perPage, flat[index := x])
  {
    PagedLookup(pages, perPage, flat, index);
    SlotOf(perPage, index);
    hide Slot;
    PagedWrite(pages, perPage, flat, index / perPage, index % perPage, x);
  }

  // ---- pages of plain values ----

  /** Adds pages until the index exists; what is there keeps its index. */
  method GrowPages<N>(pages: seq<seq<N>>, perPage: nat, ghost flat: seq<N>, filler: N, index: nat)
    returns (pages': seq<seq<N>>, ghost flat': seq<N>)
    requires Paged(pages, perPage, flat)
    ensures Paged(pages', perPage, flat') && index < |flat'| && flat <= flat'
    ensures pages <= pages' && |pages'| == if index / perPage < |pages| then |pages| else index / perPage + 1
  {
    pages', flat' := pages, flat;
    while index / perPage >= |pages'|
      invariant Paged(pages', perPage, flat') && flat <= flat' && pages <= pages'
      invariant |pages'| <= if index / perPage < |pages| then |pages| else index / perPage + 1
      decreases index / perPage - |pages'|
    {
      var page := seq(perPage, _ => filler);
      PagedExtend(pages', perPage, flat', page);
      pages', flat' := pages' + [page], flat' + page;
    }
    PagedLookup(pages', perPage, flat', index);
  }

  method WriteSlot<N>(pages: seq<seq<N>>, perPage: nat, ghost flat: seq<N>, index: nat, x: N)
      returns (pages': seq<seq<N>>)
    requires Paged(pages, perPage, flat) && index < |flat|
    ensures Paged(pages', perPage, flat[index := x])
  {
    PagedUpdate(pages, perPage, flat, index, x);
    var p, b := index / perPage, index % perPage;
    return pages[p := pages[p][b := x]];
  }

  method ReadSlot<N>(pages: seq<seq<N>>, perPage: nat, ghost flat: seq<N>, index: nat) returns (x: N)
    requires Paged(pages, perPage, flat) && index < |flat|
    ensures x == flat[index]
  {
    PagedLookup(pages, perPage, flat, index);
    return pages[index / perPage][index % perPage];
  }
}
