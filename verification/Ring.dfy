/** Index arithmetic of the byte rings: one slot is always left free, so head == tail means empty.
    The contents of a ring are defined by position, `buf[(head + k) % capacity]`, and the size and split
    computations of the program are proved against that definition. */
module Ring {

  import opened Arithmetic
  import opened Types

  /** Where an index arrives after n more elements: `(index + n) % capacity`, see AdvanceIsModulo. */
  function Advance(capacity: nat, index: nat, n: nat): (r: nat)
    requires index < capacity && n <= capacity
    ensures r < capacity
  {
    if index + n < capacity then index + n else index + n - capacity
  }

  lemma AdvanceIsModulo(capacity: nat, index: nat, n: nat)
    requires index < capacity && n <= capacity
    ensures Advance(capacity, index, n) == (index + n) % capacity
  {
    var q := if index + n < capacity then 0 else 1;
    RemainderUnique(index + n, capacity, q, Advance(capacity, index, n));
  }

  function GetRingBufferSize(capacity: nat, head: nat, tail: nat): (r: nat)
    requires head < capacity && tail < capacity
    ensures r < capacity && Advance(capacity, head, r) == tail
  {
    if head <= tail then tail - head else capacity - head + tail
  }

  /** The bytes between head and tail, in queue order. */
  function Contents<T>(buf: seq<T>, head: nat, tail: nat): (r: seq<T>)
    requires head < |buf| && tail < |buf|
    ensures |r| == GetRingBufferSize(|buf|, head, tail)
    ensures forall k {:trigger r[k]} :: 0 <= k < |r| ==> r[k] == buf[Advance(|buf|, head, k)]
  {
    var n := GetRingBufferSize(|buf|, head, tail);
    seq(n, k requires 0 <= k < n => buf[Advance(|buf|, head, k)])
  }

  /** How a transfer of n bytes starting at index splits at the end of the buffer. */
  function Split(capacity: nat, index: nat, n: nat): (nat, nat)
    requires index < capacity
  {
    var primary := if n <= capacity - index then n else capacity - index;
    (primary, n - primary)
  }

  function GetWritableSizes(capacity: nat, head: nat, tail: nat, sizeToWrite: nat): Option<(nat, nat)>
    requires head < capacity && tail < capacity
  {
    var available := capacity - GetRingBufferSize(capacity, head, tail) - 1;
    if available < sizeToWrite then None else Some(Split(capacity, tail, sizeToWrite))
  }

  function GetReadableSizes(capacity: nat, head: nat, tail: nat, sizeToRead: nat): Option<(nat, nat)>
    requires head < capacity && tail < capacity
  {
    if GetRingBufferSize(capacity, head, tail) < sizeToRead then None else Some(Split(capacity, head, sizeToRead))
  }

  function Overwrite<T>(buf: seq<T>, at: nat, data: seq<T>): (r: seq<T>)
    requires at + |data| <= |buf|
    ensures |r| == |buf|
  {
    buf[..at] + data + buf[at + |data|..]
  }

  /** Two copies, the second one from the start of the buffer, as the split prescribes. */
  function WriteSplit<T>(buf: seq<T>, tail: nat, data: seq<T>): (r: seq<T>)
    requires tail < |buf| && |data| <= |buf|
    ensures |r| == |buf|
  {
    var (primary, secondary) := Split(|buf|, tail, |data|);
    Overwrite(Overwrite(buf, tail, data[..primary]), 0, data[primary..])
  }

  /** What the two copies of a wrapped read assemble. */
  function ReadSplit<T>(buf: seq<T>, head: nat, n: nat): (r: seq<T>)
    requires head < |buf| && n <= |buf|
    ensures |r| == n
  {
    var (primary, secondary) := Split(|buf|, head, n);
    buf[head..head + primary] + buf[..secondary]
  }

  /** Position by position, a split write puts data[k] where the k-th byte after the tail belongs and
      touches nothing else. */
  lemma WriteSplitAt<T>(buf: seq<T>, tail: nat, data: seq<T>, k: nat)
    requires tail < |buf| && |data| <= |buf| && k < |buf|
    ensures WriteSplit(buf, tail, data)[Advance(|buf|, tail, k)]
         == if k < |data| then data[k] else buf[Advance(|buf|, tail, k)]
  {
  }

  /** Writing at the tail and moving it appends to the contents, for every position of head and tail. */
  lemma WriteAppends<T>(buf: seq<T>, head: nat, tail: nat, data: seq<T>)
    requires head < |buf| && tail < |buf|
    requires GetWritableSizes(|buf|, head, tail, |data|).Some?
    ensures Contents(WriteSplit(buf, tail, data), head, Advance(|buf|, tail, |data|)) ==
            Contents(buf, head, tail) + data
  {
    var size := GetRingBufferSize(|buf|, head, tail);
    var buf', tail' := WriteSplit(buf, tail, data), Advance(|buf|, tail, |data|);
    forall k | 0 <= k < size + |data|
      ensures Contents(buf', head, tail')[k] == (Contents(buf, head, tail) + data)[k]
    {
      if k < size {
        // the k-th byte lies k + (capacity - size) places after the tail, beyond the data
        WriteSplitAt(buf, tail, data, |buf| - size + k);
      } else {
        WriteSplitAt(buf, tail, data, k - size);
      }
    }
  }

  /** Reading with the split yields the queue's prefix. */
  lemma ReadIsPrefix<T>(buf: seq<T>, head: nat, tail: nat, n: nat)
    requires head < |buf| && tail < |buf|
    requires GetReadableSizes(|buf|, head, tail, n).Some?
    ensures ReadSplit(buf, head, n) == Contents(buf, head, tail)[..n]
  {
  }

  /** Moving the head drops a prefix. */
  lemma AdvanceHeadDrops<T>(buf: seq<T>, head: nat, tail: nat, n: nat)
    requires head < |buf| && tail < |buf| && n <= GetRingBufferSize(|buf|, head, tail)
    ensures Contents(buf, Advance(|buf|, head, n), tail) == Contents(buf, head, tail)[n..]
  {
    var size, head' := GetRingBufferSize(|buf|, head, tail), Advance(|buf|, head, n);
    forall k | 0 <= k < size - n
      ensures Contents(buf, head', tail)[k] == Contents(buf, head, tail)[n..][k]
    {
      assert Advance(|buf|, head', k) == Advance(|buf|, head, n + k);
    }
  }

  // ---- unsplit transfers ----

  /** An unsplit write behind the tail appends to the contents. */
  lemma ContiguousAppends<T>(buf: seq<T>, head: nat, tail: nat, data: seq<T>)
    requires head < |buf| && tail < |buf| && |data| <= |buf| - tail
    requires |data| < |buf| - GetRingBufferSize(|buf|, head, tail)
    ensures Contents(Overwrite(buf, tail, data), head, Advance(|buf|, tail, |data|)) == Contents(buf, head, tail) + data
  {
    assert data[..|data|] == data && data[|data|..] == [];
    var once := Overwrite(buf, tail, data);
    assert Overwrite(once, 0, []) == once;
    WriteAppends(buf, head, tail, data);
  }

  /** One more chunk written behind the bytes already moved. */
  lemma FillStep<T>(buf: seq<T>, head: nat, tail: nat, before: seq<T>, moved: seq<T>, data: seq<T>)
    requires head < |buf| && tail < |buf|
    requires |before| == GetRingBufferSize(|buf|, head, tail) && |before| + |moved| + |data| < |buf|
    requires |data| <= |buf| - Advance(|buf|, tail, |moved|)
    requires Contents(buf, head, Advance(|buf|, tail, |moved|)) == before + moved
    ensures Contents(Overwrite(buf, Advance(|buf|, tail, |moved|), data), head, Advance(|buf|, tail, |moved + data|))
         == before + (moved + data)
  {
    var tail' := Advance(|buf|, tail, |moved|);
    ContiguousAppends(buf, head, tail', data);
    assert Advance(|buf|, tail', |data|) == Advance(|buf|, tail, |moved + data|);
    assert before + moved + data == before + (moved + data);
  }

  /** The unpublished bytes behind the tail do not show in the contents. */
  lemma Unpublished<T>(buf: seq<T>, head: nat, tail: nat, before: seq<T>, moved: seq<T>)
    requires head < |buf| && tail < |buf|
    requires |before| == GetRingBufferSize(|buf|, head, tail) && |before| + |moved| < |buf|
    requires Contents(buf, head, Advance(|buf|, tail, |moved|)) == before + moved
    ensures Contents(buf, head, tail) == before
  {
    forall k | 0 <= k < |before|
      ensures Contents(buf, head, tail)[k] == before[k]
    {
      assert Contents(buf, head, Advance(|buf|, tail, |moved|))[k] == (before + moved)[k];
    }
  }

  /** Two copies, one behind the other. */
  lemma TwoCopies<T>(buf: seq<T>, a: seq<T>, b: seq<T>)
    requires |a| + |b| <= |buf|
    ensures Overwrite(Overwrite(buf, 0, a), |a|, b)[..|a| + |b|] == a + b
  {
  }

  // ---- the copies on real arrays ----

  /** memcpy of a value into a fixed-size buffer. */
  method CopyIn<T>(dst: array<T>, at: nat, src: seq<T>)
    requires at + |src| <= dst.Length
    modifies dst
    ensures dst[..] == Overwrite(old(dst[..]), at, src)
  {
    for k := 0 to |src|
      invariant dst[..] == Overwrite(old(dst[..]), at, src[..k])
    {
      dst[at + k] := src[k];
      assert src[..k + 1] == src[..k] + [src[k]];
    }
    assert src[..|src|] == src;
  }

  /** The two copies that put data behind the tail. */
  method CopyInSplit<T>(dst: array<T>, tail: nat, data: seq<T>)
    requires tail < dst.Length && |data| <= dst.Length
    modifies dst
    ensures dst[..] == WriteSplit(old(dst[..]), tail, data)
  {
    var (primary, secondary) := Split(dst.Length, tail, |data|);
    CopyIn(dst, tail, data[..primary]);
    CopyIn(dst, 0, data[primary..]);
  }
}
