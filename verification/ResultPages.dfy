/** The per-thread result pages of the parallel executor and the iteration over all of them. */
module ResultPages {
  import opened Types
  import opened Ring

  /** The byte offset of element k. */
  function Offset(size: nat, k: nat): nat {
    size * k
  }

  lemma OffsetNext(size: nat, k: nat)
    ensures Offset(size, k + 1) == Offset(size, k) + size
  {
  }

  lemma OffsetMonotone(size: nat, j: nat, k: nat)
    requires j <= k
    ensures Offset(size, j) <= Offset(size, k)
  {
    assert size * j <= size * k;
  }

  /** The elements that the first `count` blocks of `size` bytes hold. */
  function ElementsOf(page: seq<byte>, size: nat, count: nat): (r: seq<seq<byte>>)
    requires Offset(size, count) <= |page|
    ensures |r| == count
  {
    if count == 0 then []
    else
      OffsetNext(size, count - 1);
      ElementsOf(page, size, count - 1) + [page[Offset(size, count - 1)..Offset(size, count)]]
  }

  lemma {:induction false} ElementAt(page: seq<byte>, size: nat, count: nat, k: nat)
    requires Offset(size, count) <= |page| && k < count
    ensures Offset(size, k) + size <= |page| && Offset(size, k) + size == Offset(size, k + 1)
    ensures ElementsOf(page, size, count)[k] == page[Offset(size, k)..Offset(size, k) + size]
  {
    OffsetNext(size, k);
    OffsetNext(size, count - 1);
    OffsetMonotone(size, k + 1, count);
    if k < count - 1 {
      ElementAt(page, size, count - 1, k);
    }
  }

  /** Elements depend on the bytes in front of their end only. */
  lemma {:induction false} ElementsAgree(a: seq<byte>, b: seq<byte>, size: nat, count: nat)
    requires Offset(size, count) <= |a| && Offset(size, count) <= |b| &&
             a[..Offset(size, count)] == b[..Offset(size, count)]
    ensures ElementsOf(a, size, count) == ElementsOf(b, size, count)
  {
    if count > 0 {
      var m, n := Offset(size, count - 1), Offset(size, count);
      OffsetNext(size, count - 1);
      assert a[..m] == a[..n][..m] && b[..m] == b[..n][..m];
      assert a[m..n] == a[..n][m..] && b[m..n] == b[..n][m..];
      ElementsAgree(a, b, size, count - 1);
    }
  }

  /** Writing one block behind the elements appends it. */
  lemma ElementWritten(page: seq<byte>, size: nat, count: nat, data: seq<byte>)
    requires |data| == size && Offset(size, count + 1) <= |page| && Offset(size, count) + size <= |page|
    ensures Offset(size, count) <= |page|
    ensures ElementsOf(Overwrite(page, Offset(size, count), data), size, count + 1) ==
            ElementsOf(page, size, count) + [data]
  {
    var at := Offset(size, count);
    var page' := Overwrite(page, at, data);
    OffsetNext(size, count);
    assert page'[at..at + size] == data;
    assert page'[..at] == page[..at];
    ElementsAgree(page', page, size, count);
  }

  class WorkerThreadResult {
    const elementSize: nat
    var PageSize: nat
    var ElementCount: nat
    var Page: array<byte>

    ghost predicate Valid()
      reads this, Page
    {
      PageSize == Page.Length && Offset(elementSize, ElementCount) <= PageSize
    }

    ghost function Elements(): (r: seq<seq<byte>>)
      requires Valid()
      reads this, Page
      ensures |r| == ElementCount
    {
      ElementsOf(Page[..], elementSize, ElementCount)
    }

    constructor (elementSize: nat)
      ensures Valid() && Elements() == [] && PageSize == 0 && this.elementSize == elementSize && fresh(Page)
    {
      this.elementSize := elementSize;
      PageSize, ElementCount := 0, 0;
      Page := new byte[0];
    }

    /** A new call starts with no results; the page stays. */
    method Reset()
      requires Valid()
      modifies this`ElementCount
      ensures Valid() && Elements() == [] && Page[..] == old(Page[..])
    {
      ElementCount := 0;
    }

    /** Doubles the page until it has the requested size, keeping all earlier bytes.  It ends exactly
        because a page that has to grow has a size, or gets one from the base. */
    method ExtendPageAtLeast(base: nat, atLeast: nat)
      requires Valid() && (base > 0 || PageSize > 0 || atLeast == 0)
      modifies this`Page, this`PageSize
      ensures Valid() && PageSize >= atLeast && PageSize >= old(PageSize)
      ensures Page[..old(PageSize)] == old(Page[..]) && Elements() == old(Elements())
      ensures PageSize == old(PageSize) || PageSize == base || PageSize < 2 * atLeast
      ensures Page == old(Page) || fresh(Page)
    {
      while PageSize < atLeast
        invariant PageSize == Page.Length && PageSize >= old(PageSize) && Page[..old(PageSize)] == old(Page[..])
        invariant PageSize == old(PageSize) || PageSize == base || PageSize < 2 * atLeast
        invariant base > 0 || PageSize > 0 || atLeast == 0
        invariant Page == old(Page) || fresh(Page)
        decreases atLeast - PageSize
      {
        var oldSize := PageSize;
        var newSize := if PageSize == 0 then base else PageSize * 2;
        var newBlock := new byte[newSize];
        CopyIn(newBlock, 0, Page[..oldSize]);
        assert newBlock[..oldSize] == Page[..];
        Page := newBlock;
        PageSize := newSize;
      }
      SamePrefix(old(Page[..]), Page[..], Offset(elementSize, ElementCount));
      ElementsAgree(old(Page[..]), Page[..], elementSize, ElementCount);
    }

    /** Appends one result, growing the page where needed. */
    method Append(base: nat, data: seq<byte>)
      requires Valid() && |data| == elementSize && (base > 0 || elementSize == 0)
      modifies this`Page, this`PageSize, this`ElementCount, Page
      ensures Valid() && Elements() == old(Elements()) + [data]
      ensures Page == old(Page) || fresh(Page)
    {
      hide ElementsOf, Overwrite;
      ExtendPageAtLeast(base, Offset(elementSize, ElementCount + 1));
      OffsetNext(elementSize, ElementCount);
      ElementWritten(Page[..], elementSize, ElementCount, data);
      CopyIn(Page, Offset(elementSize, ElementCount), data);
      ElementCount := ElementCount + 1;
    }
  }

  lemma SamePrefix(a: seq<byte>, b: seq<byte>, n: nat)
    requires n <= |a| <= |b| && b[..|a|] == a
    ensures a[..n] == b[..n]
  {
    assert b[..n] == b[..|a|][..n];
  }

  /** The pages of all threads, and what they hold. */
  ghost predicate Holding(threadResults: seq<WorkerThreadResult>, lists: seq<seq<seq<byte>>>)
    reads threadResults, set r | r in threadResults :: r.Page
  {
    && |threadResults| == |lists|
    && forall t :: 0 <= t < |lists| ==> threadResults[t].Valid() && threadResults[t].Elements() == lists[t]
  }

  /** The elements in front of a position. */
  function Before<T>(lists: seq<seq<T>>, t: nat, e: nat): seq<T>
    requires t <= |lists| && (if t < |lists| then e <= |lists[t]| else e == 0)
  {
    if t < |lists| then Concat(lists[..t]) + lists[t][..e] else Concat(lists)
  }

  lemma BeforeNextList<T>(lists: seq<seq<T>>, t: nat)
    requires t < |lists|
    ensures Before(lists, t, |lists[t]|) == Before(lists, t + 1, 0)
  {
    assert lists[..t + 1][..t] == lists[..t] && lists[t][..|lists[t]|] == lists[t];
    if t + 1 < |lists| {
      assert Concat(lists[..t + 1]) + lists[t + 1][..0] == Concat(lists[..t + 1]);
    } else {
      assert lists[..t + 1] == lists;
    }
  }

  lemma BeforeNextElement<T>(lists: seq<seq<T>>, t: nat, e: nat)
    requires t < |lists| && e < |lists[t]|
    ensures Before(lists, t, e + 1) == Before(lists, t, e) + [lists[t][e]]
  {
    assert lists[t][..e + 1] == lists[t][..e] + [lists[t][e]];
  }

  /** The iterator over all pages: a thread and an element index. */
  class Iterator {
    const threadResults: seq<WorkerThreadResult>
    var currentThreadResultIndex: nat
    var currentResultElementIndex: nat

    /** At the end, or at an element: threads without results are never stopped at. */
    ghost predicate Valid(lists: seq<seq<seq<byte>>>)
      reads this, threadResults, set r | r in threadResults :: r.Page
    {
      && Holding(threadResults, lists)
      && currentThreadResultIndex <= |lists|
      && (if currentThreadResultIndex < |lists| then currentResultElementIndex < |lists[currentThreadResultIndex]|
          else currentResultElementIndex == 0)
    }

    ghost function Passed(lists: seq<seq<seq<byte>>>): seq<seq<byte>>
      requires Valid(lists)
      reads this, threadResults, set r | r in threadResults :: r.Page
    {
      Before(lists, currentThreadResultIndex, currentResultElementIndex)
    }

    /** begin(): the first element of the first thread that has one. */
    constructor Begin(threadResults: seq<WorkerThreadResult>, ghost lists: seq<seq<seq<byte>>>)
      requires Holding(threadResults, lists)
      ensures Valid(lists) && this.threadResults == threadResults && Passed(lists) == []
    {
      this.threadResults := threadResults;
      currentThreadResultIndex, currentResultElementIndex := 0, 0;
      new;
      while currentThreadResultIndex < |threadResults| && threadResults[currentThreadResultIndex].ElementCount == 0
        invariant currentThreadResultIndex <= |threadResults| && currentResultElementIndex == 0
        invariant Before(lists, currentThreadResultIndex, 0) == []
        invariant Holding(threadResults, lists)
      {
        BeforeNextList(lists, currentThreadResultIndex);
        currentThreadResultIndex := currentThreadResultIndex + 1;
      }
    }

    /** The comparison with end(). */
    method AtEnd(ghost lists: seq<seq<seq<byte>>>) returns (atEnd: bool)
      requires Valid(lists)
      ensures atEnd <==> currentThreadResultIndex == |lists|
      ensures atEnd ==> Passed(lists) == Concat(lists)
    {
      atEnd := currentThreadResultIndex >= |threadResults|;
    }

    method Current(ghost lists: seq<seq<seq<byte>>>) returns (element: seq<byte>)
      requires Valid(lists) && currentThreadResultIndex < |lists|
      ensures element == lists[currentThreadResultIndex][currentResultElementIndex]
    {
      var r := threadResults[currentThreadResultIndex];
      ElementAt(r.Page[..], r.elementSize, r.ElementCount, currentResultElementIndex);
      var at := Offset(r.elementSize, currentResultElementIndex);
      return r.Page[at..at + r.elementSize];
    }

    /** operator++: passes exactly the current element. */
    method Next(ghost lists: seq<seq<seq<byte>>>)
      requires Valid(lists) && currentThreadResultIndex < |lists|
      modifies this
      ensures Valid(lists) && old(currentThreadResultIndex) <= currentThreadResultIndex
      ensures Passed(lists) ==
              old(Passed(lists)) + [lists[old(currentThreadResultIndex)][old(currentResultElementIndex)]]
      ensures currentThreadResultIndex == old(currentThreadResultIndex) ==>
              currentResultElementIndex == old(currentResultElementIndex) + 1
    {
      hide ElementsOf, Before, WorkerThreadResult.Valid, Concat;
      ghost var t, e := currentThreadResultIndex, currentResultElementIndex;
      BeforeNextElement(lists, t, e);
      currentResultElementIndex := currentResultElementIndex + 1;
      while currentThreadResultIndex < |threadResults| &&
            currentResultElementIndex >= threadResults[currentThreadResultIndex].ElementCount
        invariant Holding(threadResults, lists) && t <= currentThreadResultIndex <= |lists|
        invariant currentThreadResultIndex == t ==> currentResultElementIndex == e + 1
        invariant currentThreadResultIndex > t ==> currentResultElementIndex == 0
        invariant Before(lists, currentThreadResultIndex, currentResultElementIndex) ==
                  Before(lists, t, e) + [lists[t][e]]
        decreases |threadResults| - currentThreadResultIndex
      {
        BeforeNextList(lists, currentThreadResultIndex);
        currentResultElementIndex := 0;
        currentThreadResultIndex := currentThreadResultIndex + 1;
      }
    }
  }

  /** The range-based loop over an ExecutionResults visits exactly the concatenation of all threads'
      results, in order. */
  method VisitAll(threadResults: seq<WorkerThreadResult>, ghost lists: seq<seq<seq<byte>>>)
      returns (visited: seq<seq<byte>>)
    requires Holding(threadResults, lists)
    ensures visited == Concat(lists)
  {
    hide ElementsOf, Before, Concat, WorkerThreadResult.Valid;
    visited := [];
    var it := new Iterator.Begin(threadResults, lists);
    while true
      invariant it.Valid(lists) && it.threadResults == threadResults && visited == it.Passed(lists)
      decreases |lists| - it.currentThreadResultIndex,
                if it.currentThreadResultIndex < |lists|
                then |lists[it.currentThreadResultIndex]| - it.currentResultElementIndex else 0
    {
      var atEnd := it.AtEnd(lists);
      if atEnd {
        return;
      }
      var element := it.Current(lists);
      visited := visited + [element];
      it.Next(lists);
    }
  }
}
