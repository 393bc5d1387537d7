/** The single-producer single-consumer byte ring, used by one thread at a time. */
module SpscRing {
  import opened Types
  import opened Ring

  /** Buffer and tail after an enqueue: all of the data or nothing. */
  function Enqueued(buf: seq<byte>, head: nat, tail: nat, data: seq<byte>): (seq<byte>, nat)
    requires head < |buf| && tail < |buf|
  {
    if GetRingBufferSize(|buf|, head, tail) + |data| <= |buf| - 1 then
      (WriteSplit(buf, tail, data), Advance(|buf|, tail, |data|))
    else (buf, tail)
  }

  class SpscRingBuffer {
    const Capacity: nat
    const MaxBlockSize: nat
    const ringBuffer: array<byte>
    const tempDequeueBuffer: array<byte>
    var head: nat
    var tail: nat

    ghost predicate Valid()
      reads this, ringBuffer
    {
      && Capacity > 0 && ringBuffer.Length == Capacity && tempDequeueBuffer.Length == MaxBlockSize
      && ringBuffer != tempDequeueBuffer
      && head < Capacity && tail < Capacity
    }

    ghost function Queue(): seq<byte>
      requires Valid()
      reads this, ringBuffer
    {
      Contents(ringBuffer[..], head, tail)
    }

    constructor (capacity: nat, maxBlockSize: nat)
      requires capacity > 0
      ensures Valid() && Queue() == [] && Capacity == capacity && MaxBlockSize == maxBlockSize
      ensures fresh(ringBuffer) && fresh(tempDequeueBuffer)
    {
      Capacity, MaxBlockSize := capacity, maxBlockSize;
      ringBuffer := new byte[capacity];
      tempDequeueBuffer := new byte[maxBlockSize];
      head, tail := 0, 0;
    }

    /** Size and free space as the two loaded indices show them. */
    method GetBufferStatus() returns (loadedHead: nat, loadedTail: nat, size: nat, availableSize: nat)
      requires Valid()
      ensures loadedHead == head && loadedTail == tail
      ensures size == |Queue()| && size + availableSize == Capacity - 1
    {
      loadedHead, loadedTail := head, tail;
      size := if loadedTail >= loadedHead then loadedTail - loadedHead else loadedTail + Capacity - loadedHead;
      availableSize := Capacity - size - 1;
    }

    /** Appends all of data or nothing. */
    method TryEnqueue(data: seq<byte>) returns (ok: bool)
      requires Valid()
      modifies this`tail, ringBuffer
      ensures Valid() && (ok <==> old(|Queue()|) + |data| <= Capacity - 1)
      ensures Queue() == old(Queue()) + (if ok then data else [])
      ensures (ringBuffer[..], tail) == Enqueued(old(ringBuffer[..]), head, old(tail), data)
    {
      var _, loadedTail, _, availableSize := GetBufferStatus();
      if availableSize < |data| {
        return false;
      }
      WriteAppends(ringBuffer[..], head, tail, data);
      CopyInSplit(ringBuffer, loadedTail, data);
      tail := Advance(Capacity, loadedTail, |data|);
      return true;
    }

    method Dequeue(size: nat)
      requires Valid() && size <= |Queue()|
      modifies this`head
      ensures Valid() && Queue() == old(Queue())[size..]
    {
      AdvanceHeadDrops(ringBuffer[..], head, tail, size);
      head := Advance(Capacity, head, size);
    }

    /** The first `size` bytes, in place or reassembled when they wrap; the queue is left alone.  The program
        reassembles without comparing sizes; `overrun` is the case in which the temporary buffer is too
        small, and it is exactly a view that wraps and is larger than the maximal block. */
    method TryPeek(size: nat) returns (view: Option<seq<byte>>, overrun: bool)
      requires Valid()
      modifies tempDequeueBuffer
      ensures Valid() && Queue() == old(Queue())
      ensures overrun <==> size <= |Queue()| && size > MaxBlockSize && head + size > Capacity
      ensures !overrun ==> view == if size <= |Queue()| then Some(Queue()[..size]) else None
    {
      hide Contents;
      var loadedHead, _, available, _ := GetBufferStatus();
      if available < size {
        return None, false;
      }
      ReadIsPrefix(ringBuffer[..], head, tail, size);
      if Capacity - loadedHead >= size {
        assert ringBuffer[loadedHead..loadedHead + size] + ringBuffer[..0] == ringBuffer[loadedHead..loadedHead + size];
        return Some(ringBuffer[loadedHead..loadedHead + size]), false;
      }
      if size > tempDequeueBuffer.Length {
        return None, true;
      }
      Reassemble(loadedHead, size);
      return Some(tempDequeueBuffer[..size]), false;
    }

    /** The two copies of a view that wraps. */
    method Reassemble(loadedHead: nat, size: nat)
      requires Valid() && loadedHead < Capacity && Capacity - loadedHead < size <= Capacity && size <= MaxBlockSize
      modifies tempDequeueBuffer
      ensures tempDequeueBuffer[..size] == ReadSplit(ringBuffer[..], loadedHead, size)
    {
      var primarySize := Capacity - loadedHead;
      var secondarySize := size - primarySize;
      TwoCopies(tempDequeueBuffer[..], ringBuffer[loadedHead..loadedHead + primarySize], ringBuffer[..secondarySize]);
      CopyIn(tempDequeueBuffer, 0, ringBuffer[loadedHead..loadedHead + primarySize]);
      CopyIn(tempDequeueBuffer, primarySize, ringBuffer[..secondarySize]);
    }
  }
}

/** The same ring with its two sides running concurrently.  Each side loads the head, then the tail,
    copies byte by byte and finally stores its own index; every such action is one step, and the side's
    loaded indices may be stale by the time it uses them. */
module SpscProtocol {
  import opened Types
  import opened Counting
  import opened Ring
  import opened SpscRing

  /** `lengthAtLoad` records the queue's length at the moment the other side's index was loaded; it only
      observes. */
  datatype Producer =
    | Idle
    | HeadLoaded(data: seq<byte>, head: nat, lengthAtLoad: nat)
    | BothLoaded(data: seq<byte>, head: nat, tail: nat, lengthAtLoad: nat)
    | Copying(data: seq<byte>, tail: nat, copied: nat)

  datatype Consumer =
    | NoView
    | OwnHeadLoaded(size: nat, head: nat)
    | SnapshotLoaded(size: nat, head: nat, tail: nat, lengthAtLoad: nat)
    | Reassembling(size: nat, head: nat, copied: nat)
    | View(size: nat, head: nat, direct: bool)

  /** `enqueued` and `dequeued` record the bytes published by tail stores and released by head stores. */
  datatype State = State(buf: seq<byte>, temp: seq<byte>, head: nat, tail: nat,
                         producer: Producer, consumer: Consumer,
                         enqueued: seq<byte>, dequeued: seq<byte>)
  {
    predicate Shape() {
      |buf| > 0 && head < |buf| && tail < |buf|
    }

    function Queue(): seq<byte>
      requires Shape()
    {
      Contents(buf, head, tail)
    }

    /** What the consumer sees through the pointer it was given. */
    function Viewed(): seq<byte>
      requires consumer.View?
      requires if consumer.direct then consumer.head + consumer.size <= |buf| else consumer.size <= |temp|
    {
      if consumer.direct then buf[consumer.head..consumer.head + consumer.size] else temp[..consumer.size]
    }
  }

  ghost predicate Init(s: State) {
    && s.Shape() && s.head == 0 && s.tail == 0 && s.producer.Idle? && s.consumer.NoView?
    && s.enqueued == [] && s.dequeued == []
  }

  /** TryEnqueue may be called when the producer is idle; TryPeek, and Dequeue with at most what was peeked,
      when the consumer is between calls. */
  datatype Label =
    | CallEnqueue(data: seq<byte>)
    | ProducerStep
    | CallPeek(size: nat)
    | ConsumerStep
    | Dequeue(size: nat)

  function Next(s: State, l: Label): Option<State>
    requires s.Shape()
  {
    match l
    case CallEnqueue(data) =>
      if s.producer.Idle? then Some(s.(producer := HeadLoaded(data, s.head, |s.Queue()|))) else None
    case ProducerStep => ProducerNext(s)
    case CallPeek(size) =>
      if s.consumer.NoView? || s.consumer.View? then Some(s.(consumer := OwnHeadLoaded(size, s.head))) else None
    case ConsumerStep => ConsumerNext(s)
    case Dequeue(n) =>
      if s.consumer.View? && n <= s.consumer.size && n <= |s.Queue()| then
        Some(s.(head := Advance(|s.buf|, s.head, n), consumer := NoView, dequeued := s.dequeued + s.Queue()[..n]))
      else None
  }

  function Available(capacity: nat, head: nat, tail: nat): nat
    requires head < capacity && tail < capacity
  {
    capacity - GetRingBufferSize(capacity, head, tail) - 1
  }

  function ProducerNext(s: State): Option<State>
    requires s.Shape()
  {
    match s.producer
    case Idle => None
    case HeadLoaded(data, head, len) => Some(s.(producer := BothLoaded(data, head, s.tail, len)))
    case BothLoaded(data, head, tail, _) =>
      if head >= |s.buf| || tail >= |s.buf| then None
      else if Available(|s.buf|, head, tail) < |data| then Some(s.(producer := Idle))
      else Some(s.(producer := Copying(data, tail, 0)))
    case Copying(data, tail, k) =>
      if tail >= |s.buf| || |data| > |s.buf| then None
      else if k < |data| then
        Some(s.(buf := s.buf[Advance(|s.buf|, tail, k) := data[k]], producer := Copying(data, tail, k + 1)))
      else
        Some(s.(tail := Advance(|s.buf|, tail, |data|), enqueued := s.enqueued + data, producer := Idle))
  }

  function ConsumerNext(s: State): Option<State>
    requires s.Shape()
  {
    match s.consumer
    case OwnHeadLoaded(size, head) => Some(s.(consumer := SnapshotLoaded(size, head, s.tail, |s.Queue()|)))
    case SnapshotLoaded(size, head, tail, _) =>
      if head >= |s.buf| || tail >= |s.buf| then None
      else if GetRingBufferSize(|s.buf|, head, tail) < size then Some(s.(consumer := NoView))
      else if |s.buf| - head >= size then Some(s.(consumer := View(size, head, true)))
      else if size > |s.temp| then None
      else Some(s.(consumer := Reassembling(size, head, 0)))
    case Reassembling(size, head, k) =>
      if head >= |s.buf| || size > |s.temp| || size > |s.buf| then None
      else if k < size then
        Some(s.(temp := s.temp[k := s.buf[Advance(|s.buf|, head, k)]], consumer := Reassembling(size, head, k + 1)))
      else Some(s.(consumer := View(size, head, false)))
    case _ => None
  }

  // ---- the invariant ----

  /** The producer's stale view only underestimates the free space, and what it has copied so far lies
      behind the tail, outside the queue. */
  ghost predicate ProducerInv(s: State)
    requires s.Shape()
  {
    match s.producer
    case Idle => true
    case HeadLoaded(_, head, len) =>
      head < |s.buf| && |s.Queue()| <= len == GetRingBufferSize(|s.buf|, head, s.tail)
    case BothLoaded(_, head, tail, len) =>
      head < |s.buf| && tail == s.tail && |s.Queue()| <= len == GetRingBufferSize(|s.buf|, head, tail)
    case Copying(data, tail, k) =>
      && tail == s.tail && k <= |data| && |s.Queue()| + |data| < |s.buf|
      && forall j :: 0 <= j < k ==> s.buf[Advance(|s.buf|, tail, j)] == data[j]
  }

  /** The consumer's stale view only underestimates the data, and what it has been shown is the queue's
      prefix. */
  ghost predicate ConsumerInv(s: State)
    requires s.Shape()
  {
    match s.consumer
    case NoView => true
    case OwnHeadLoaded(_, head) => head == s.head
    case SnapshotLoaded(size, head, tail, len) =>
      && head == s.head && tail < |s.buf|
      && len == GetRingBufferSize(|s.buf|, head, tail) <= |s.Queue()|
    case Reassembling(size, head, k) =>
      && head == s.head && k <= size <= |s.temp| && size <= |s.Queue()|
      && forall j :: 0 <= j < k ==> s.temp[j] == s.Queue()[j]
    case View(size, head, direct) =>
      && head == s.head && size <= |s.Queue()|
      && (if direct then head + size <= |s.buf| else size <= |s.temp| && s.temp[..size] == s.Queue()[..size])
  }

  ghost predicate Inv(s: State) {
    && s.Shape()
    && s.enqueued == s.dequeued + s.Queue()
    && ProducerInv(s) && ConsumerInv(s)
  }

  /** A copied byte lands behind the tail, so the queue does not change. */
  lemma CopyOutsideQueue(buf: seq<byte>, head: nat, tail: nat, k: nat, b: byte)
    requires head < |buf| && tail < |buf| && GetRingBufferSize(|buf|, head, tail) + k < |buf| - 1
    ensures Contents(buf[Advance(|buf|, tail, k) := b], head, tail) == Contents(buf, head, tail)
  {
  }

  /** Publishing the copied bytes appends them. */
  lemma PublishAppends(buf: seq<byte>, head: nat, tail: nat, data: seq<byte>)
    requires head < |buf| && tail < |buf| && GetRingBufferSize(|buf|, head, tail) + |data| < |buf|
    requires forall j :: 0 <= j < |data| ==> buf[Advance(|buf|, tail, j)] == data[j]
    ensures Contents(buf, head, Advance(|buf|, tail, |data|)) == Contents(buf, head, tail) + data
  {
    var size := GetRingBufferSize(|buf|, head, tail);
    forall k | size <= k < size + |data|
      ensures Contents(buf, head, Advance(|buf|, tail, |data|))[k] == data[k - size]
    {
      assert Advance(|buf|, head, k) == Advance(|buf|, tail, k - size);
      assert buf[Advance(|buf|, tail, k - size)] == data[k - size];
    }
  }

  /** Every step keeps the invariant, and seen from outside it is one atomic queue operation: publishing
      appends, Dequeue drops what was released, every other step leaves the queue as it is. */
  lemma NextRefines(s: State, l: Label)
    requires Inv(s) && Next(s, l).Some?
    ensures
      var s' := Next(s, l).value;
      && Inv(s') && |s'.buf| == |s.buf|
      && s'.Queue() ==
           if l.ProducerStep? && s.producer.Copying? && s.producer.copied == |s.producer.data| then
             s.Queue() + s.producer.data
           else if l.Dequeue? then s.Queue()[l.size..]
           else s.Queue()
  {
    match l
    case ProducerStep =>
      if s.producer.Copying? {
        ProducerCopyStep(s);
      }
    case Dequeue(n) =>
      DequeueStep(s, n);
    case ConsumerStep =>
      ConsumerStepKeeps(s);
    case _ =>
  }

  lemma DequeueStep(s: State, n: nat)
    requires Inv(s) && Next(s, Dequeue(n)).Some?
    ensures
      var s' := Next(s, Dequeue(n)).value;
      Inv(s') && |s'.buf| == |s.buf| && s'.Queue() == s.Queue()[n..]
  {
    hide Contents;
    AdvanceHeadDrops(s.buf, s.head, s.tail, n);
    assert s.Queue() == s.Queue()[..n] + s.Queue()[n..];
  }

  lemma ConsumerStepKeeps(s: State)
    requires Inv(s) && Next(s, ConsumerStep).Some?
    ensures
      var s' := Next(s, ConsumerStep).value;
      Inv(s') && |s'.buf| == |s.buf| && s'.Queue() == s.Queue()
  {
    var s' := Next(s, ConsumerStep).value;
    assert s'.Queue() == s.Queue() && ProducerInv(s');
    if s.consumer.Reassembling? {
      var size, k := s.consumer.size, s.consumer.copied;
      if k < size {
        assert s.Queue()[k] == s.buf[Advance(|s.buf|, s.head, k)];
      } else {
        assert s.temp[..size] == s.Queue()[..size];
      }
    }
  }

  lemma ProducerCopyStep(s: State)
    requires Inv(s) && s.producer.Copying? && Next(s, ProducerStep).Some?
    ensures
      var s' := Next(s, ProducerStep).value;
      && Inv(s') && |s'.buf| == |s.buf|
      && s'.Queue() == s.Queue() + (if s.producer.copied == |s.producer.data| then s.producer.data else [])
  {
    var data, k := s.producer.data, s.producer.copied;
    if k < |data| {
      CopyOutsideQueue(s.buf, s.head, s.tail, k, data[k]);
    } else {
      PublishAppends(s.buf, s.head, s.tail, data);
      assert s.dequeued + s.Queue() + data == s.dequeued + (s.Queue() + data);
    }
  }

  // ---- what both sides may rely on, over whole runs ----

  ghost predicate Execution(states: seq<State>, labels: seq<Label>) {
    && |states| == |labels| + 1
    && (forall k :: 0 <= k < |states| ==> states[k].Shape())
    && Init(states[0])
    && forall k :: 0 <= k < |labels| ==> Next(states[k], labels[k]) == Some(states[k + 1])
  }

  lemma {:induction false} ReachableInv(states: seq<State>, labels: seq<Label>, k: nat)
    requires Execution(states, labels) && k < |states|
    ensures Inv(states[k]) && |states[k].buf| == |states[0].buf|
  {
    if k > 0 {
      ReachableInv(states, labels, k - 1);
      assert Next(states[k - 1], labels[k - 1]) == Some(states[k]);
      NextRefines(states[k - 1], labels[k - 1]);
    }
  }

  /** A FIFO byte queue of at most Capacity - 1 bytes: what was dequeued is a prefix of what was
      enqueued, and the queue holds exactly the rest. */
  lemma FifoBounded(states: seq<State>, labels: seq<Label>, k: nat)
    requires Execution(states, labels) && k < |states|
    ensures states[k].enqueued == states[k].dequeued + states[k].Queue()
    ensures |states[k].Queue()| <= |states[0].buf| - 1
  {
    ReachableInv(states, labels, k);
  }

  /** A peeked view, direct or reassembled, equals the queue's prefix in every state until it is given
      up, whatever the producer does meanwhile. */
  lemma ViewIsPrefix(states: seq<State>, labels: seq<Label>, k: nat)
    requires Execution(states, labels) && k < |states| && states[k].consumer.View?
    ensures
      var s := states[k];
      && s.consumer.size <= |s.Queue()|
      && (if s.consumer.direct then s.consumer.head + s.consumer.size <= |s.buf| else s.consumer.size <= |s.temp|)
      && s.Viewed() == s.Queue()[..s.consumer.size]
  {
    ReachableInv(states, labels, k);
  }

  /** TryEnqueue refuses exactly when the data did not fit at the moment the head was loaded; by the time
      of the refusal there may only be more room. */
  lemma RefusalJustified(states: seq<State>, labels: seq<Label>, k: nat)
    requires Execution(states, labels) && k < |labels| && labels[k].ProducerStep? && states[k].producer.BothLoaded?
    ensures
      var p := states[k].producer;
      && (states[k + 1].producer.Idle? <==> p.lengthAtLoad + |p.data| > |states[k].buf| - 1)
      && |states[k].Queue()| <= p.lengthAtLoad
  {
    ReachableInv(states, labels, k);
    assert Next(states[k], labels[k]) == Some(states[k + 1]);
  }

  /** TryPeek comes back empty exactly when the data was not there at the moment the tail was loaded. */
  lemma EmptyPeekJustified(states: seq<State>, labels: seq<Label>, k: nat)
    requires Execution(states, labels) && k < |labels| && labels[k].ConsumerStep? && states[k].consumer.SnapshotLoaded?
    ensures
      var c := states[k].consumer;
      && (states[k + 1].consumer.NoView? <==> c.lengthAtLoad < c.size)
      && c.lengthAtLoad <= |states[k].Queue()|
  {
    ReachableInv(states, labels, k);
    assert Next(states[k], labels[k]) == Some(states[k + 1]);
  }

  // ---- every operation ends ----

  /** The steps the producer's operation still has to take. */
  function ProducerWork(p: Producer): nat {
    match p
    case Idle => 0
    case HeadLoaded(data, _, _) => |data| + 3
    case BothLoaded(data, _, _, _) => |data| + 2
    case Copying(data, _, k) => if k <= |data| then |data| - k + 1 else 0
  }

  function ConsumerWork(c: Consumer): nat {
    match c
    case OwnHeadLoaded(size, _) => size + 3
    case SnapshotLoaded(size, _, _, _) => size + 2
    case Reassembling(size, _, k) => if k <= size then size - k + 1 else 0
    case _ => 0
  }

  /** The peeked bytes are there, but wrap and do not fit the temporary buffer. */
  predicate Overrun(s: State) {
    && s.Shape() && s.consumer.SnapshotLoaded? && s.consumer.head < |s.buf| && s.consumer.tail < |s.buf|
    && s.consumer.size <= GetRingBufferSize(|s.buf|, s.consumer.head, s.consumer.tail)
    && s.consumer.head + s.consumer.size > |s.buf| && s.consumer.size > |s.temp|
  }

  /** A side inside an operation can always take its next step, the consumer unless its view overruns. */
  lemma CanStep(s: State)
    requires Inv(s)
    ensures ProducerWork(s.producer) > 0 <==> Next(s, ProducerStep).Some?
    ensures ConsumerWork(s.consumer) > 0 && !Overrun(s) <==> Next(s, ConsumerStep).Some?
  {
  }

  /** A side's own step lowers its work, the other side's steps and calls leave it alone. */
  lemma WorkStep(s: State, l: Label)
    requires Inv(s) && Next(s, l).Some?
    ensures
      var s' := Next(s, l).value;
      && (l.ProducerStep? ==> ProducerWork(s'.producer) < ProducerWork(s.producer) && s'.consumer == s.consumer)
      && (l.ConsumerStep? ==> ConsumerWork(s'.consumer) < ConsumerWork(s.consumer) && s'.producer == s.producer)
      && (l.CallEnqueue? ==> ProducerWork(s'.producer) == |l.data| + 3 && s'.consumer == s.consumer)
      && (l.CallPeek? ==> ConsumerWork(s'.consumer) == l.size + 3 && s'.producer == s.producer)
      && (l.Dequeue? ==> ConsumerWork(s'.consumer) == 0 && s'.producer == s.producer)
  {
  }

  function Taken(labels: seq<Label>, l: Label): nat {
    if labels == [] then 0 else Taken(labels[..|labels| - 1], l) + B2N(labels[|labels| - 1] == l)
  }

  /** Every operation finishes: until its next call a side takes at most as many steps as its operation has
      work left at the start, |data| + 3 for an enqueue and size + 3 for a peek, however the sides
      interleave; and by CanStep it is never stuck before, except where a view overruns. */
  lemma {:induction false} OperationsFinish(states: seq<State>, labels: seq<Label>, j: nat, k: nat)
    requires Execution(states, labels) && j <= k < |states|
    ensures (forall i :: j <= i < k ==> !labels[i].CallEnqueue?) ==>
              Taken(labels[j..k], ProducerStep) + ProducerWork(states[k].producer) <= ProducerWork(states[j].producer)
    ensures (forall i :: j <= i < k ==> !labels[i].CallPeek?) ==>
              Taken(labels[j..k], ConsumerStep) + ConsumerWork(states[k].consumer) <= ConsumerWork(states[j].consumer)
  {
    hide Next, Inv, Init, ProducerWork, ConsumerWork;
    if j < k {
      OperationsFinish(states, labels, j, k - 1);
      assert labels[j..k][..k - 1 - j] == labels[j..k - 1] && labels[j..k][k - 1 - j] == labels[k - 1];
      StepOf(states, labels, k - 1);
      WorkStep(states[k - 1], labels[k - 1]);
    }
  }

  lemma StepOf(states: seq<State>, labels: seq<Label>, k: nat)
    requires Execution(states, labels) && k < |labels|
    ensures Inv(states[k]) && Next(states[k], labels[k]) == Some(states[k + 1])
  {
    ReachableInv(states, labels, k);
  }

  // ---- one side alone does what the object does ----

  /** The producer's steps up to the end of its operation. */
  function ProducerAlone(s: State): State
    requires s.Shape()
    decreases ProducerWork(s.producer)
  {
    match ProducerNext(s)
    case None => s
    case Some(s') =>
      if s'.Shape() && ProducerWork(s'.producer) < ProducerWork(s.producer) then ProducerAlone(s') else s'
  }

  /** The buffer after the first k bytes have been copied one by one. */
  function CopyBytes(buf: seq<byte>, tail: nat, data: seq<byte>, k: nat): (r: seq<byte>)
    requires tail < |buf| && k <= |data| <= |buf|
    ensures |r| == |buf|
  {
    if k == 0 then buf else CopyBytes(buf, tail, data, k - 1)[Advance(|buf|, tail, k - 1) := data[k - 1]]
  }

  lemma {:induction false} CopyBytesAt(buf: seq<byte>, tail: nat, data: seq<byte>, k: nat, m: nat)
    requires tail < |buf| && k <= |data| <= |buf| && m < |buf|
    ensures CopyBytes(buf, tail, data, k)[Advance(|buf|, tail, m)] ==
            if m < k then data[m] else buf[Advance(|buf|, tail, m)]
  {
    if k > 0 {
      CopyBytesAt(buf, tail, data, k - 1, m);
    }
  }

  /** Copying byte by byte writes what the two copies of a split write. */
  lemma CopyBytesIsSplit(buf: seq<byte>, tail: nat, data: seq<byte>)
    requires tail < |buf| && |data| <= |buf|
    ensures CopyBytes(buf, tail, data, |data|) == WriteSplit(buf, tail, data)
  {
    forall i | 0 <= i < |buf|
      ensures CopyBytes(buf, tail, data, |data|)[i] == WriteSplit(buf, tail, data)[i]
    {
      var m := if i >= tail then i - tail else i + |buf| - tail;
      CopyBytesAt(buf, tail, data, |data|, m);
      WriteSplitAt(buf, tail, data, m);
    }
  }

  lemma {:induction false} CopyAlone(s: State, start: seq<byte>, data: seq<byte>, tail: nat, k: nat)
    requires s.Shape() && |start| == |s.buf| && tail < |s.buf| && k <= |data| <= |s.buf|
    requires s.producer == Copying(data, tail, k) && s.buf == CopyBytes(start, tail, data, k)
    ensures ProducerAlone(s) ==
            s.(buf := CopyBytes(start, tail, data, |data|), tail := Advance(|s.buf|, tail, |data|),
               enqueued := s.enqueued + data, producer := Idle)
    decreases |data| - k
  {
    if k < |data| {
      CopyAlone(ProducerNext(s).value, start, data, tail, k + 1);
    } else {
      var done := ProducerNext(s).value;
      assert ProducerAlone(done) == done;
    }
  }

  /** TryEnqueue's steps without interruption leave buffer and tail exactly as SpscRingBuffer.TryEnqueue does. */
  lemma EnqueueAlone(s: State, data: seq<byte>)
    requires Inv(s) && s.producer.Idle?
    ensures
      var r := ProducerAlone(Next(s, CallEnqueue(data)).value);
      && r.producer.Idle? && r.head == s.head && r.temp == s.temp && r.consumer == s.consumer
      && (r.buf, r.tail) == Enqueued(s.buf, s.head, s.tail, data)
  {
    var s1 := Next(s, CallEnqueue(data)).value;
    var s2 := ProducerNext(s1).value;
    var s3 := ProducerNext(s2).value;
    assert ProducerAlone(s1) == ProducerAlone(s2) == ProducerAlone(s3);
    if s3.producer.Copying? {
      CopyAlone(s3, s.buf, data, s.tail, 0);
      CopyBytesIsSplit(s.buf, s.tail, data);
    } else {
      assert ProducerAlone(s3) == s3;
    }
  }

  function ConsumerAlone(s: State): State
    requires s.Shape()
    decreases ConsumerWork(s.consumer)
  {
    match ConsumerNext(s)
    case None => s
    case Some(s') =>
      if s'.Shape() && ConsumerWork(s'.consumer) < ConsumerWork(s.consumer) then ConsumerAlone(s') else s'
  }

  /** TryPeek's steps without interruption end as SpscRingBuffer.TryPeek does: no view exactly when the bytes
      are not there, an overrun exactly when the object reports one, and otherwise the queue's prefix. */
  lemma PeekAlone(s: State, size: nat)
    requires Inv(s) && (s.consumer.NoView? || s.consumer.View?)
    ensures
      var r := ConsumerAlone(Next(s, CallPeek(size)).value);
      && Inv(r) && r.Queue() == s.Queue() && r.head == s.head && r.tail == s.tail && r.buf == s.buf
      && (r.consumer.NoView? <==> size > |s.Queue()|)
      && (Overrun(r) <==> size <= |s.Queue()| && size > |s.temp| && s.head + size > |s.buf|)
      && (!r.consumer.NoView? && !Overrun(r) ==>
            && r.consumer.View? && r.consumer.size == size && size <= |r.Queue()|
            && (if r.consumer.direct then r.consumer.head + size <= |r.buf| else size <= |r.temp|)
            && r.Viewed() == s.Queue()[..size])
  {
    hide Next, ConsumerNext, ProducerInv, ConsumerInv;
    var s2 := s.(consumer := SnapshotLoaded(size, s.head, s.tail, |s.Queue()|));
    PeekLoads(s, size);
    PeekDecides(s2);
    var r := ConsumerAlone(s2);
    if r.consumer.View? { ViewOf(r); }
  }

  lemma PeekLoads(s: State, size: nat)
    requires Inv(s) && (s.consumer.NoView? || s.consumer.View?)
    ensures
      var s2 := s.(consumer := SnapshotLoaded(size, s.head, s.tail, |s.Queue()|));
      Inv(s2) && ConsumerAlone(Next(s, CallPeek(size)).value) == ConsumerAlone(s2)
  {
    var s1 := s.(consumer := OwnHeadLoaded(size, s.head));
    assert Next(s, CallPeek(size)) == Some(s1);
    assert s1.Queue() == s.Queue();
  }

  lemma PeekDecides(s: State)
    requires Inv(s) && s.consumer.SnapshotLoaded? && s.consumer.tail == s.tail
    ensures
      var r, c := ConsumerAlone(s), s.consumer;
      && Inv(r) && r.Queue() == s.Queue() && r.head == s.head && r.tail == s.tail && r.buf == s.buf
      && |r.temp| == |s.temp|
      && (if Overrun(s) then r == s
          else if c.size > |s.Queue()| then r.consumer.NoView?
          else r.consumer.View? && r.consumer.size == c.size)
  {
    hide Contents;
    if Overrun(s) {
      assert ConsumerAlone(s) == s;
    } else {
      var s' := ConsumerNext(s).value;
      assert Next(s, ConsumerStep) == Some(s');
      ConsumerStepKeeps(s);
      assert ConsumerAlone(s) == ConsumerAlone(s');
      ReassembleAlone(s');
    }
  }

  lemma ViewOf(s: State)
    requires Inv(s) && s.consumer.View?
    ensures s.consumer.size <= |s.Queue()|
    ensures if s.consumer.direct then s.consumer.head + s.consumer.size <= |s.buf| else s.consumer.size <= |s.temp|
    ensures s.Viewed() == s.Queue()[..s.consumer.size]
  {
  }

  /** From the first copy, or from the finished view. */
  lemma {:induction false} ReassembleAlone(s: State)
    requires Inv(s) && (s.consumer.NoView? || s.consumer.View? || s.consumer.Reassembling?)
    ensures
      var r := ConsumerAlone(s);
      && Inv(r) && r.Queue() == s.Queue() && |r.temp| == |s.temp|
      && r.head == s.head && r.tail == s.tail && r.buf == s.buf
      && (if s.consumer.Reassembling? then r.consumer == View(s.consumer.size, s.head, false) else r == s)
    decreases ConsumerWork(s.consumer)
  {
    if s.consumer.Reassembling? {
      NextRefines(s, ConsumerStep);
      WorkStep(s, ConsumerStep);
      ReassembleAlone(ConsumerNext(s).value);
    }
  }
}
