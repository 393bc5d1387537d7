/** Values kept densely, addressed by stable sparse indices. */
module SparseArrays {
  import opened DensePairing
  import opened Pages
  import opened UnmanagedList
  import opened Types
  import PoolLinks

  datatype DenseBlock<T> = DenseBlock(sparseIndex: nat, data: T)

  function SparseIndices<T>(dense: seq<DenseBlock<T>>): (r: seq<nat>)
    ensures |r| == |dense| && forall d :: 0 <= d < |dense| ==> r[d] == dense[d].sparseIndex
  {
    seq(|dense|, d requires 0 <= d < |dense| => dense[d].sparseIndex)
  }

  /** The finite map a consistent state stands for. */
  function MapOf<T>(live: set<nat>, toDense: seq<nat>, dense: seq<DenseBlock<T>>): map<nat, T>
    requires forall i :: i in live ==> i < |toDense| && toDense[i] < |dense|
  {
    map i | i in live :: dense[toDense[i]].data
  }

  lemma EmplacedMap<T>(live: set<nat>, toDense: seq<nat>, dense: seq<DenseBlock<T>>, count: nat,
                       toDense': seq<nat>, dense': seq<DenseBlock<T>>, i: nat, data: T)
    requires Paired(live, toDense, SparseIndices(dense), count) && i !in live
    requires |toDense| <= |toDense'| && i < |toDense'| && toDense'[i] == count
    requires forall j :: 0 <= j < |toDense| && j != i ==> toDense'[j] == toDense[j]
    requires count < |dense'| && dense'[count] == DenseBlock(i, data)
    requires forall d :: 0 <= d < count ==> dense'[d] == dense[d]
    ensures Paired(live + {i}, toDense', SparseIndices(dense'), count + 1)
    ensures MapOf(live + {i}, toDense', dense') == MapOf(live, toDense, dense)[i := data]
  {
    InsertPaired(live, toDense, SparseIndices(dense), count, toDense', SparseIndices(dense'), i);
  }

  lemma ErasedMap<T>(live: set<nat>, toDense: seq<nat>, dense: seq<DenseBlock<T>>, count: nat,
                     toDense': seq<nat>, dense': seq<DenseBlock<T>>, i: nat)
    requires Paired(live, toDense, SparseIndices(dense), count) && i in live && count > 0
    requires |toDense'| == |toDense| && |dense'| == |dense|
    requires
      var hole, last := toDense[i], dense[count - 1].sparseIndex;
      && (forall j :: 0 <= j < |toDense| && j != i ==> toDense'[j] == if j == last then hole else toDense[j])
      && (forall d :: 0 <= d < count - 1 ==> dense'[d] == if d == hole then dense[count - 1] else dense[d])
    ensures Paired(live - {i}, toDense', SparseIndices(dense'), count - 1)
    ensures MapOf(live - {i}, toDense', dense') == MapOf(live, toDense, dense) - {i}
  {
    RemovePaired(live, toDense, SparseIndices(dense), count, toDense', SparseIndices(dense'), i);
  }

  class SparseArray<T> {
    const DenseBlocksPerPage: nat
    const Uninitialized: DenseBlock<T>    // what a fresh dense page happens to hold
    const sparseBlocks: IndexedUnmanagedList<nat>
    var count: nat
    var densePages: seq<seq<DenseBlock<T>>>
    ghost var dense: seq<DenseBlock<T>>

    ghost predicate Valid()
      reads this, sparseBlocks, sparseBlocks.nodes
    {
      && sparseBlocks.Linked()
      && Paged(densePages, DenseBlocksPerPage, dense)
      && Paired(sparseBlocks.LiveSet(), sparseBlocks.values, SparseIndices(dense), count)
    }

    ghost function Contents(): map<nat, T>
      requires Valid()
      reads this, sparseBlocks, sparseBlocks.nodes
    {
      MapOf(sparseBlocks.LiveSet(), sparseBlocks.values, dense)
    }

    constructor (denseBlocksPerPage: nat, sparseNodesPerPage: nat, uninitialized: DenseBlock<T>)
      requires denseBlocksPerPage > 0 && sparseNodesPerPage > 0
      ensures Valid() && Contents() == map[] && fresh(sparseBlocks) && sparseBlocks.nodes == []
    {
      DenseBlocksPerPage, Uninitialized := denseBlocksPerPage, uninitialized;
      sparseBlocks := new IndexedUnmanagedList(sparseNodesPerPage, (_: nat) => 0);
      count, densePages, dense := 0, [], [];
      new;
      assert sparseBlocks.LiveSet() == {};
    }

    // ---- the map operations ----

    /** Takes a free sparse index and points it at a dense slot. */
    method Register(denseIndex: nat) returns (sparseIndex: nat)
      requires sparseBlocks.Linked()
      modifies sparseBlocks, sparseBlocks.nodes
      ensures sparseBlocks.Linked() && sparseIndex !in old(sparseBlocks.LiveSet())
      ensures sparseBlocks.LiveSet() == old(sparseBlocks.LiveSet()) + {sparseIndex}
      ensures |old(sparseBlocks.values)| <= |sparseBlocks.values| && sparseIndex < |sparseBlocks.values|
      ensures sparseBlocks.values[sparseIndex] == denseIndex
      ensures forall j :: 0 <= j < |old(sparseBlocks.values)| && j != sparseIndex ==>
                sparseBlocks.values[j] == old(sparseBlocks.values)[j]
      ensures forall i :: |old(sparseBlocks.nodes)| <= i < |sparseBlocks.nodes| ==> fresh(sparseBlocks.nodes[i])
    {
      hide PoolLinks.Linked, PoolLinks.LiveOf, IndexedUnmanagedList<nat>.Indexed;
      var index, _ := sparseBlocks.Create();
      sparseBlocks.SetData(index, denseIndex);
      return index;
    }

    /** Adds a value under an index that was not in use. */
    method Emplace(data: T) returns (sparseIndex: nat)
      requires Valid()
      modifies this, sparseBlocks, sparseBlocks.nodes
      ensures Valid() && sparseIndex !in old(Contents()) && Contents() == old(Contents())[sparseIndex := data]
      ensures forall i :: |old(sparseBlocks.nodes)| <= i < |sparseBlocks.nodes| ==> fresh(sparseBlocks.nodes[i])
    {
      hide Paged, PoolLinks.Linked, PoolLinks.LiveOf, IndexedUnmanagedList<nat>.Indexed;
      ghost var live, toDense, blocks, n := sparseBlocks.LiveSet(), sparseBlocks.values, dense, count;
      var denseIndex := count;
      sparseIndex := Register(denseIndex);
      count := count + 1;
      densePages, dense := GrowPages(densePages, DenseBlocksPerPage, dense, Uninitialized, denseIndex);
      densePages := WriteSlot(densePages, DenseBlocksPerPage, dense, denseIndex, DenseBlock(sparseIndex, data));
      dense := dense[denseIndex := DenseBlock(sparseIndex, data)];
      EmplacedMap(live, toDense, blocks, n, sparseBlocks.values, dense, sparseIndex, data);
    }

    /** Marks a live sparse index as pointing nowhere and frees it. */
    method Unregister(sparseIndex: nat)
      requires sparseBlocks.Linked() && sparseIndex in sparseBlocks.LiveSet()
      modifies sparseBlocks, sparseBlocks.nodes
      ensures sparseBlocks.Linked() && sparseBlocks.nodes == old(sparseBlocks.nodes)
      ensures sparseBlocks.LiveSet() == old(sparseBlocks.LiveSet()) - {sparseIndex}
      ensures |sparseBlocks.values| == |old(sparseBlocks.values)|
      ensures forall j :: 0 <= j < |sparseBlocks.values| && j != sparseIndex ==>
              sparseBlocks.values[j] == old(sparseBlocks.values)[j]
    {
      hide PoolLinks.Linked, PoolLinks.LiveOf, PoolLinks.Erase, IndexedUnmanagedList<nat>.Indexed;
      sparseBlocks.SetData(sparseIndex, NULL_INDEX);
      sparseBlocks.Erase(sparseIndex);
    }

    /** Moves the dense block behind the count into a hole, and its sparse block along. */
    method MoveLast(hole: nat) returns (moved: bool)
      requires sparseBlocks.Linked() && Paged(densePages, DenseBlocksPerPage, dense) && count < |dense| &&
               hole < |dense|
      modifies this`densePages, this`dense, sparseBlocks, sparseBlocks.nodes
      ensures sparseBlocks.Linked() && sparseBlocks.nodes == old(sparseBlocks.nodes)
      ensures Paged(densePages, DenseBlocksPerPage, dense) && sparseBlocks.LiveSet() == old(sparseBlocks.LiveSet())
      ensures moved <==> old(dense)[count].sparseIndex in sparseBlocks.LiveSet()
      ensures moved ==> dense == old(dense)[hole := old(dense)[count]]
      ensures moved ==> old(dense)[count].sparseIndex < |old(sparseBlocks.values)|
      ensures moved ==> sparseBlocks.values == old(sparseBlocks.values)[old(dense)[count].sparseIndex := hole]
    {
      hide Paged, PoolLinks.Linked, PoolLinks.LiveOf, IndexedUnmanagedList<nat>.Indexed;
      var lastDenseBlock := ReadSlot(densePages, DenseBlocksPerPage, dense, count);
      var lastSparseBlock := sparseBlocks.Get(lastDenseBlock.sparseIndex);
      if lastSparseBlock == null {
        return false;
      }
      sparseBlocks.SetData(lastDenseBlock.sparseIndex, hole);
      densePages := WriteSlot(densePages, DenseBlocksPerPage, dense, hole, lastDenseBlock);
      dense := dense[hole := lastDenseBlock];
      return true;
    }

    /** Erases a live index and nothing else: the last dense block moves into the freed slot.  An index
        that is not live is the crash check, reported as false. */
    method EraseBySparseIndex(sparseIndex: nat) returns (erased: bool)
      requires Valid()
      modifies this, sparseBlocks, sparseBlocks.nodes
      ensures Valid() && sparseBlocks.nodes == old(sparseBlocks.nodes)
      ensures erased <==> sparseIndex in old(Contents())
      ensures Contents() == old(Contents()) - {sparseIndex}
    {
      hide Paged, PoolLinks.Linked, PoolLinks.LiveOf, IndexedUnmanagedList<nat>.Indexed;
      var eraseSparseBlock := sparseBlocks.Get(sparseIndex);
      if eraseSparseBlock == null {
        assert Contents() - {sparseIndex} == Contents();
        return false;
      }
      ghost var live, toDense, blocks, n := sparseBlocks.LiveSet(), sparseBlocks.values, dense, count;
      var eraseDenseIndex := eraseSparseBlock.Data;
      Unregister(sparseIndex);
      count := count - 1;
      if eraseDenseIndex != count {
        var moved := MoveLast(eraseDenseIndex);
        if !moved {
          return false;
        }
      }
      ErasedMap(live, toDense, blocks, n, sparseBlocks.values, dense, sparseIndex);
      return true;
    }

    /** The value of a live index, None otherwise. */
    method Get(sparseIndex: nat) returns (data: Option<T>)
      requires Valid()
      ensures data == if sparseIndex in Contents() then Some(Contents()[sparseIndex]) else None
    {
      var sparseBlock := sparseBlocks.Get(sparseIndex);
      if sparseBlock == null {
        return None;
      }
      var denseBlock := ReadSlot(densePages, DenseBlocksPerPage, dense, sparseBlock.Data);
      return Some(denseBlock.data);
    }

    /** Going through the dense slots from 0 to the count lists every key exactly once with its value. */
    method Iterate() returns (visited: seq<(nat, T)>)
      requires Valid()
      ensures |visited| == |Contents()|
      ensures forall k :: 0 <= k < |visited| ==> visited[k].0 in Contents() && Contents()[visited[k].0] == visited[k].1
      ensures forall k, m :: 0 <= k < m < |visited| ==> visited[k].0 != visited[m].0
      ensures forall i :: i in Contents() ==> exists k :: 0 <= k < |visited| && visited[k].0 == i
    {
      hide Paged, PoolLinks.Linked, PoolLinks.LiveOf, IndexedUnmanagedList<nat>.Indexed;
      visited := [];
      var denseIndex := 0;
      while denseIndex < count
        invariant denseIndex == |visited| <= count
        invariant forall k :: 0 <= k < denseIndex ==> visited[k] == (dense[k].sparseIndex, dense[k].data)
      {
        var denseBlock := ReadSlot(densePages, DenseBlocksPerPage, dense, denseIndex);
        visited := visited + [(denseBlock.sparseIndex, denseBlock.data)];
        denseIndex := denseIndex + 1;
      }
      PairedCount(sparseBlocks.LiveSet(), sparseBlocks.values, SparseIndices(dense), count);
      assert Contents().Keys == sparseBlocks.LiveSet();
      forall i | i in Contents()
        ensures exists k :: 0 <= k < |visited| && visited[k].0 == i
      {
        assert visited[sparseBlocks.values[i]].0 == i;
      }
    }
  }
}
