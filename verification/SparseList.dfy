/** Values that never move, addressed by caller-chosen sparse indices, with a dense listing of the live
    indices.  Only EmplaceAt, EraseBySparseIndex and Get are used, and nothing here depends on the state
    of the node pool's lists: its allocation flags are enough. */
module SparseLists {
  import opened DensePairing
  import opened Types
  import opened Pages
  import opened UnmanagedList
  import PoolLinks

  datatype SparseBlock<T> = SparseBlock(denseIndex: nat, data: T)

  function DenseIndices<T>(blocks: seq<SparseBlock<T>>): (r: seq<nat>)
    ensures |r| == |blocks| && forall i :: 0 <= i < |blocks| ==> r[i] == blocks[i].denseIndex
  {
    seq(|blocks|, i requires 0 <= i < |blocks| => blocks[i].denseIndex)
  }

  /** The finite map that the live blocks stand for. */
  function MapOf<T>(live: set<nat>, blocks: seq<SparseBlock<T>>): map<nat, T>
    requires forall i :: i in live ==> i < |blocks|
  {
    map i | i in live :: blocks[i].data
  }

  /** The pure state of a list: which indices are live, what the blocks hold, the dense listing. */
  ghost predicate Consistent<T>(live: set<nat>, blocks: seq<SparseBlock<T>>, dense: seq<nat>, count: nat) {
    Paired(live, DenseIndices(blocks), dense, count)
  }

  lemma ConsistentFacts<T>(live: set<nat>, blocks: seq<SparseBlock<T>>, dense: seq<nat>, count: nat)
    requires Consistent(live, blocks, dense, count)
    ensures count <= |dense| && forall i :: i in live ==> i < |blocks|
    ensures MapOf(live, blocks).Keys == live
  {
  }

  lemma Emplaced<T>(live: set<nat>, before: seq<SparseBlock<T>>, dense: seq<nat>, count: nat,
                    after: seq<SparseBlock<T>>, dense': seq<nat>, i: nat, data: T)
    requires Consistent(live, before, dense, count) && i !in live
    requires |before| <= |after| && i < |after| && after[i] == SparseBlock(count, data)
    requires forall j :: 0 <= j < |before| && j != i ==> after[j] == before[j]
    requires count < |dense'| && dense'[count] == i && forall d :: 0 <= d < count ==> dense'[d] == dense[d]
    ensures Consistent(live + {i}, after, dense', count + 1)
    ensures MapOf(live + {i}, after) == MapOf(live, before)[i := data]
  {
    InsertPaired(live, DenseIndices(before), dense, count, DenseIndices(after), dense', i);
  }

  lemma Erased<T>(live: set<nat>, before: seq<SparseBlock<T>>, dense: seq<nat>, count: nat,
                  after: seq<SparseBlock<T>>, dense': seq<nat>, i: nat)
    requires Consistent(live, before, dense, count) && i in live && count > 0
    requires |after| == |before| && |dense'| == |dense|
    requires
      var hole, last := before[i].denseIndex, dense[count - 1];
      && (forall j :: 0 <= j < |before| && j != i ==>
            after[j] == if j == last then SparseBlock(hole, before[j].data) else before[j])
      && (forall d :: 0 <= d < count - 1 ==> dense'[d] == if d == hole then last else dense[d])
    ensures Consistent(live - {i}, after, dense', count - 1)
    ensures MapOf(live - {i}, after) == MapOf(live, before) - {i}
  {
    RemovePaired(live, DenseIndices(before), dense, count, DenseIndices(after), dense', i);
  }

  /** Where the block to erase stands: in a dense slot below the count, and the last slot's index is live. */
  lemma EraseFacts<T>(live: set<nat>, blocks: seq<SparseBlock<T>>, dense: seq<nat>, count: nat, i: nat)
    requires Consistent(live, blocks, dense, count) && i in live
    ensures 0 < count <= |dense| && i < |blocks| && blocks[i].denseIndex < count
    ensures dense[count - 1] in live && (dense[count - 1] == i <==> blocks[i].denseIndex == count - 1)
  {
    assert DenseIndices(blocks)[i] == blocks[i].denseIndex;
  }

  class SparseList<T> {
    const DenseBlocksPerPage: nat
    const sparseBlocks: IndexedUnmanagedList<SparseBlock<T>>
    var count: nat
    var densePages: seq<seq<nat>>

    ghost var dense: seq<nat>
    ghost var contents: map<nat, T>
    ghost var Repr: set<object>

    ghost predicate Owned()
      reads this, sparseBlocks
    {
      && this in Repr && sparseBlocks in Repr
      && (forall k :: 0 <= k < |sparseBlocks.nodes| ==> sparseBlocks.nodes[k] in Repr)
    }

    ghost predicate Valid()
      reads this, sparseBlocks, Repr
      ensures Valid() ==> this in Repr && sparseBlocks in Repr
    {
      && Owned()
      && sparseBlocks.Indexed() && Paged(densePages, DenseBlocksPerPage, dense)
      && Consistent(sparseBlocks.LiveSet(), sparseBlocks.values, dense, count)
      && contents == MapOf(sparseBlocks.LiveSet(), sparseBlocks.values)
    }

    constructor (denseBlocksPerPage: nat, sparseNodesPerPage: nat, uninitialized: T)
      requires denseBlocksPerPage > 0 && sparseNodesPerPage > 0
      ensures Valid() && contents == map[] && fresh(Repr)
    {
      hide PoolLinks.Linked, PoolLinks.LiveOf, IndexedUnmanagedList<SparseBlock<T>>.Indexed;
      DenseBlocksPerPage := denseBlocksPerPage;
      sparseBlocks := new IndexedUnmanagedList(sparseNodesPerPage, (_: nat) => SparseBlock(NULL_INDEX, uninitialized));
      count, densePages, dense, contents := 0, [], [], map[];
      new;
      Repr := {this, sparseBlocks};
    }

    // ---- the map operations ----

    /** Adds a value under the given index, unless that index is live, which is the crash check (null).  The
        value is stored in the node of that index, where it stays; every other node keeps its place. */
    method EmplaceAt(sparseIndex: nat, data: T) returns (node: Node?<SparseBlock<T>>)
      requires Valid()
      modifies Repr
      ensures Valid() && fresh(Repr - old(Repr)) && old(sparseBlocks.nodes) <= sparseBlocks.nodes
      ensures node == null <==> sparseIndex in old(contents)
      ensures contents == if node == null then old(contents) else old(contents)[sparseIndex := data]
      ensures node != null ==> sparseIndex < |sparseBlocks.nodes| && node == sparseBlocks.nodes[sparseIndex]
    {
      hide Paged, PoolLinks.LiveOf, IndexedUnmanagedList<SparseBlock<T>>.Indexed, Consistent, MapOf;
      ghost var live, before, listing, n := sparseBlocks.LiveSet(), sparseBlocks.values, dense, count;
      ConsistentFacts(live, before, listing, n);
      node := sparseBlocks.CreateAt(sparseIndex);
      if node == null {
        return;
      }
      Repr := Repr + set k | 0 <= k < |sparseBlocks.nodes| :: sparseBlocks.nodes[k];
      EmplaceImpl(sparseIndex, data);
      Emplaced(live, before, listing, n, sparseBlocks.values, dense, sparseIndex, data);
      contents := MapOf(sparseBlocks.LiveSet(), sparseBlocks.values);
    }

    /** Records a fresh node's dense slot and data. */
    method EmplaceImpl(sparseIndex: nat, data: T)
      requires Owned() && sparseBlocks.Indexed() && Paged(densePages, DenseBlocksPerPage, dense)
      requires sparseIndex in sparseBlocks.LiveSet()
      modifies this`count, this`densePages, this`dense, sparseBlocks`values, sparseBlocks.nodes
      ensures sparseBlocks.Indexed() && Paged(densePages, DenseBlocksPerPage, dense)
      ensures sparseBlocks.LiveSet() == old(sparseBlocks.LiveSet())
      ensures sparseIndex < |sparseBlocks.values| && |sparseBlocks.values| == |old(sparseBlocks.values)|
      ensures sparseBlocks.values == old(sparseBlocks.values)[sparseIndex := SparseBlock(old(count), data)]
      ensures count == old(count) + 1 && old(count) < |dense| && dense[old(count)] == sparseIndex
      ensures |old(dense)| <= |dense|
      ensures forall d :: 0 <= d < |old(dense)| && d != old(count) ==> dense[d] == old(dense)[d]
    {
      hide Paged, PoolLinks.LiveOf, IndexedUnmanagedList<SparseBlock<T>>.Indexed;
      var denseIndex := count;
      sparseBlocks.SetData(sparseIndex, SparseBlock(denseIndex, data));
      count := count + 1;
      densePages, dense := GrowPages(densePages, DenseBlocksPerPage, dense, 0, denseIndex);
      densePages := WriteSlot(densePages, DenseBlocksPerPage, dense, denseIndex, sparseIndex);
      dense := dense[denseIndex := sparseIndex];
    }

    /** Erases a live index and nothing else: the last entry of the dense listing moves into the hole.  An
        index that is not live is the crash check, reported as false; no other crash check can fail. */
    method EraseBySparseIndex(sparseIndex: nat) returns (erased: bool)
      requires Valid()
      modifies Repr
      ensures Valid() && Repr == old(Repr) && sparseBlocks.nodes == old(sparseBlocks.nodes)
      ensures erased <==> sparseIndex in old(contents)
      ensures contents == old(contents) - {sparseIndex}
    {
      hide Paged, PoolLinks.LiveOf, PoolLinks.Erase, IndexedUnmanagedList<SparseBlock<T>>.Indexed, Consistent, MapOf;
      ghost var live, before, listing, n := sparseBlocks.LiveSet(), sparseBlocks.values, dense, count;
      ConsistentFacts(live, before, listing, n);
      var sparseBlock := sparseBlocks.Get(sparseIndex);
      if sparseBlock == null {
        assert contents - {sparseIndex} == contents;
        return false;
      }
      EraseFacts(live, before, listing, n, sparseIndex);
      var eraseDenseIndex := Unregister(sparseIndex);
      if eraseDenseIndex != count {
        var moved := MoveLast(eraseDenseIndex);
        if !moved {
          return false;
        }
      }
      Erased(live, before, listing, n, sparseBlocks.values, dense, sparseIndex);
      contents := MapOf(sparseBlocks.LiveSet(), sparseBlocks.values);
      return true;
    }

    /** Frees the node of a live index; returns the dense slot it was listed in. */
    method Unregister(sparseIndex: nat) returns (eraseDenseIndex: nat)
      requires Owned() && sparseBlocks.Indexed() && sparseIndex in sparseBlocks.LiveSet() && count > 0
      modifies this`count, sparseBlocks, sparseBlocks.nodes
      ensures sparseBlocks.Indexed() && sparseBlocks.nodes == old(sparseBlocks.nodes) && count == old(count) - 1
      ensures sparseBlocks.LiveSet() == old(sparseBlocks.LiveSet()) - {sparseIndex}
      ensures |sparseBlocks.values| == |old(sparseBlocks.values)| && sparseIndex < |sparseBlocks.values|
      ensures eraseDenseIndex == old(sparseBlocks.values)[sparseIndex].denseIndex
      ensures forall j :: 0 <= j < |sparseBlocks.values| && j != sparseIndex ==>
              sparseBlocks.values[j] == old(sparseBlocks.values)[j]
    {
      hide PoolLinks.LiveOf, PoolLinks.Erase, IndexedUnmanagedList<SparseBlock<T>>.Indexed;
      var sparseBlock := sparseBlocks.Get(sparseIndex);
      eraseDenseIndex := sparseBlock.Data.denseIndex;
      sparseBlocks.SetData(sparseIndex, SparseBlock(NULL_INDEX, sparseBlock.Data.data));
      sparseBlocks.Erase(sparseIndex);
      count := count - 1;
    }

    /** Moves the dense entry behind the count into a hole.  False where the program would follow a null
        pointer or fail its page check. */
    method MoveLast(hole: nat) returns (moved: bool)
      requires Owned() && sparseBlocks.Indexed() && Paged(densePages, DenseBlocksPerPage, dense) && count < |dense|
      modifies this`densePages, this`dense, sparseBlocks`values, sparseBlocks.nodes
      ensures sparseBlocks.Indexed() && sparseBlocks.LiveSet() == old(sparseBlocks.LiveSet())
      ensures Paged(densePages, DenseBlocksPerPage, dense)
      ensures moved <==> hole < |old(dense)| && old(dense)[count] in sparseBlocks.LiveSet()
      ensures moved ==>
                var last := old(dense)[count];
                && dense == old(dense)[hole := last] && last < |old(sparseBlocks.values)|
                && sparseBlocks.values ==
                  old(sparseBlocks.values)[last := SparseBlock(hole, old(sparseBlocks.values)[last].data)]
    {
      hide Paged, PoolLinks.LiveOf, IndexedUnmanagedList<SparseBlock<T>>.Indexed;
      PagedLookup(densePages, DenseBlocksPerPage, dense, hole);
      if hole / DenseBlocksPerPage >= |densePages| {
        return false;
      }
      var swapSparseIndex := ReadSlot(densePages, DenseBlocksPerPage, dense, count);
      var swapSparseBlock := sparseBlocks.Get(swapSparseIndex);
      if swapSparseBlock == null {
        return false;
      }
      densePages := WriteSlot(densePages, DenseBlocksPerPage, dense, hole, swapSparseIndex);
      dense := dense[hole := swapSparseIndex];
      sparseBlocks.SetData(swapSparseIndex, SparseBlock(hole, swapSparseBlock.Data.data));
      return true;
    }

    method Get(sparseIndex: nat) returns (data: Option<T>)
      requires Valid()
      ensures data == if sparseIndex in contents then Some(contents[sparseIndex]) else None
    {
      var sparseBlock := sparseBlocks.Get(sparseIndex);
      if sparseBlock == null {
        return None;
      }
      return Some(sparseBlock.Data.data);
    }

    /** Going through the dense listing from 0 to the count meets every key exactly once, with its value. */
    method Iterate() returns (visited: seq<(nat, T)>)
      requires Valid()
      ensures |visited| == |contents|
      ensures forall k :: 0 <= k < |visited| ==> visited[k].0 in contents && contents[visited[k].0] == visited[k].1
      ensures forall k, m :: 0 <= k < m < |visited| ==> visited[k].0 != visited[m].0
      ensures forall i :: i in contents ==> exists k :: 0 <= k < |visited| && visited[k].0 == i
    {
      hide Paged, PoolLinks.LiveOf, IndexedUnmanagedList<SparseBlock<T>>.Indexed;
      visited := [];
      var denseIndex := 0;
      while denseIndex < count
        invariant denseIndex == |visited| <= count
        invariant forall k :: 0 <= k < denseIndex ==>
                    visited[k].0 == dense[k] && dense[k] in contents && visited[k].1 == contents[dense[k]]
      {
        var sparseIndex := ReadSlot(densePages, DenseBlocksPerPage, dense, denseIndex);
        var sparseBlock := sparseBlocks.Get(sparseIndex);
        visited := visited + [(sparseIndex, sparseBlock.Data.data)];
        denseIndex := denseIndex + 1;
      }
      PairedCount(sparseBlocks.LiveSet(), DenseIndices(sparseBlocks.values), dense, count);
      assert contents.Keys == sparseBlocks.LiveSet();
      forall i | i in contents
        ensures exists k :: 0 <= k < |visited| && visited[k].0 == i
      {
        var k := DenseIndices(sparseBlocks.values)[i];
        assert visited[k].0 == i;
      }
    }
  }
}
