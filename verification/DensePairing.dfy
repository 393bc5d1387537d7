/** The sparse/dense pairing shared by SparseArray and SparseList: live sparse indices on one side, the
    dense slots below the count on the other. */
module DensePairing {

  /** The program's mark for "no dense slot". */
  const NULL_INDEX: nat := 0xFFFF_FFFF

  /** The two directions are mutually inverse: dense slots [0, count) are exactly the live indices. */
  ghost predicate Paired(live: set<nat>, toDense: seq<nat>, toSparse: seq<nat>, count: nat) {
    && count <= |toSparse|
    && (forall i :: i in live ==> i < |toDense| && toDense[i] < count && toSparse[toDense[i]] == i)
    && forall d :: 0 <= d < count ==> toSparse[d] in live && toSparse[d] < |toDense| && toDense[toSparse[d]] == d
  }

  /** A new index takes the slot at the count. */
  lemma InsertPaired(live: set<nat>, toDense: seq<nat>, toSparse: seq<nat>, count: nat,
                     toDense': seq<nat>, toSparse': seq<nat>, i: nat)
    requires Paired(live, toDense, toSparse, count) && i !in live
    requires |toDense| <= |toDense'| && i < |toDense'| && toDense'[i] == count
    requires forall j :: 0 <= j < |toDense| && j != i ==> toDense'[j] == toDense[j]
    requires count < |toSparse'| && toSparse'[count] == i && forall d :: 0 <= d < count ==> toSparse'[d] == toSparse[d]
    ensures Paired(live + {i}, toDense', toSparse', count + 1)
  {
  }

  /** Swap and pop: the last slot's index moves into the freed slot. */
  lemma RemovePaired(live: set<nat>, toDense: seq<nat>, toSparse: seq<nat>, count: nat,
                     toDense': seq<nat>, toSparse': seq<nat>, i: nat)
    requires Paired(live, toDense, toSparse, count) && i in live
    requires |toDense'| == |toDense| && |toSparse'| == |toSparse| && count > 0
    requires
      var hole, last := toDense[i], toSparse[count - 1];
      && (forall j :: 0 <= j < |toDense| && j != i ==> toDense'[j] == if j == last then hole else toDense[j])
      && (forall d :: 0 <= d < count - 1 ==> toSparse'[d] == if d == hole then last else toSparse[d])
    ensures Paired(live - {i}, toDense', toSparse', count - 1)
  {
  }

  /** The live indices are listed without repetition, and there are `count` of them. */
  lemma {:induction false} PairedCount(live: set<nat>, toDense: seq<nat>, toSparse: seq<nat>, count: nat)
    requires Paired(live, toDense, toSparse, count)
    ensures |live| == count
    ensures forall d, e :: 0 <= d < e < count ==> toSparse[d] != toSparse[e]
    decreases count
  {
    if count == 0 {
      assert live == {};
    } else {
      var i := toSparse[count - 1];
      assert live == (live - {i}) + {i};
      PairedCount(live - {i}, toDense, toSparse, count - 1);
    }
  }
}
