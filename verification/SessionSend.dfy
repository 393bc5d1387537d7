/** The buffer code of the sending half of a session: message queue -> TLS -> send ring -> socket.  It
    implements, on the real ring, the send path on which SessionProtocol reasons about the threads. */
module SessionSend {
  import opened Types
  import opened Ring
  import opened Framing
  import opened SessionProtocol

  class SessionSender {
    const bufferCapacity: nat
    const sendTlsBuffer: array<byte>
    var isSendOnline: bool
    var shouldClose: bool
    var sendTlsBufferHead: nat
    var sendTlsBufferTail: nat
    var sendAppQueue: seq<Message>
    var writeBio: seq<byte>

    ghost predicate Valid()
      reads this, sendTlsBuffer
    {
      && bufferCapacity > 0 && sendTlsBuffer.Length == bufferCapacity
      && sendTlsBufferHead < bufferCapacity && sendTlsBufferTail < bufferCapacity
    }

    ghost function Ring(): seq<byte>
      requires Valid()
      reads this, sendTlsBuffer
    {
      Contents(sendTlsBuffer[..], sendTlsBufferHead, sendTlsBufferTail)
    }

    constructor (capacity: nat)
      requires capacity > 0
      ensures Valid() && Ring() == [] && sendAppQueue == [] && writeBio == [] && bufferCapacity == capacity
      ensures !isSendOnline && !shouldClose
      ensures fresh(sendTlsBuffer)
    {
      bufferCapacity := capacity;
      sendTlsBuffer := new byte[capacity];
      isSendOnline, shouldClose := false, false;
      sendTlsBufferHead, sendTlsBufferTail := 0, 0;
      sendAppQueue, writeBio := [], [];
    }

    method PushMessage(message: Message)
      modifies this`sendAppQueue
      ensures sendAppQueue == old(sendAppQueue) + [message]
    {
      sendAppQueue := sendAppQueue + [message];
    }

    /** Messages pushed by actors while the sender is at work. */
    method Arrive(messages: seq<Message>)
      modifies this`sendAppQueue
      ensures sendAppQueue == old(sendAppQueue) + messages
    {
      for k := 0 to |messages|
        invariant sendAppQueue == old(sendAppQueue) + messages[..k]
      {
        PushMessage(messages[k]);
        assert messages[..k + 1] == messages[..k] + [messages[k]];
      }
      assert messages[..|messages|] == messages;
    }

    /** Queue to BIO: until the queue is found empty, every message is encrypted in push order, those that
        arrive before the k-th look included.  `tlsFails(k)` says whether the k-th SSL_write meets a TLS
        error; that alone ends the loop early. */
    method EncryptQueue(arrivals: seq<seq<Message>>, tlsFails: nat -> bool)
        returns (result: ProcessResult, ghost taken: nat)
      modifies this`sendAppQueue, this`writeBio
      ensures taken <= Looks(|old(sendAppQueue)|, arrivals) <= |arrivals|
      ensures result.Success? ==>
                && sendAppQueue == [] && taken == Looks(|old(sendAppQueue)|, arrivals)
                && writeBio == old(writeBio) + EncodeAll(old(sendAppQueue) + Concat(arrivals[..taken]))
      ensures result.Failed? ==> exists k: nat :: k < |old(sendAppQueue) + Concat(arrivals[..taken])| && tlsFails(k)
    {
      hide Encode, EncodeAll, Concat;
      NothingYet(sendAppQueue, writeBio, arrivals);
      var k, calls := 0, 0;
      ghost var done: seq<Message> := [];
      while true
        invariant k <= |arrivals| && calls == |done|
        invariant Looks(|old(sendAppQueue)|, arrivals) == k + Looks(|sendAppQueue|, arrivals[k..])
        invariant done + sendAppQueue == old(sendAppQueue) + Concat(arrivals[..k])
        invariant writeBio == old(writeBio) + EncodeAll(done)
        decreases |arrivals| - k, |sendAppQueue|
      {
        if k < |arrivals| {
          OneLook(old(sendAppQueue), done, sendAppQueue, arrivals, k);
          Arrive(arrivals[k]);
          k := k + 1;
        }
        TakeFront(done, sendAppQueue, []);
        if sendAppQueue == [] {
          break;
        }
        var message := sendAppQueue[0];
        sendAppQueue := sendAppQueue[1..];
        if tlsFails(calls) {
          return Failed, k;
        }
        calls := calls + 1;
        EncryptOne(old(writeBio), done, message);
        writeBio := writeBio + Encode(message);
        done := done + [message];
      }
      assert done + [] == done;
      return Success, k;
    }

    /** BIO_read into the ring: at least one byte, at most `limit`. */
    method BioRead(at: nat, limit: nat) returns (n: nat)
      requires at + limit <= sendTlsBuffer.Length && limit > 0 && writeBio != []
      modifies this`writeBio, sendTlsBuffer
      ensures 0 < n <= limit && n <= |old(writeBio)|
      ensures writeBio == old(writeBio)[n..]
      ensures sendTlsBuffer[..] == Overwrite(old(sendTlsBuffer[..]), at, old(writeBio)[..n])
    {
      n :| 0 < n <= limit && n <= |writeBio|;
      CopyIn(sendTlsBuffer, at, writeBio[..n]);
      writeBio := writeBio[n..];
    }

    /** BIO to ring, chunk by chunk behind the tail, which is published at the end.  Success appends the
        whole BIO to the ring; failure, which means exactly that it did not fit, publishes nothing. */
    method DrainBio() returns (result: ProcessResult)
      requires Valid()
      modifies this`writeBio, this`sendTlsBufferTail, sendTlsBuffer
      ensures Valid()
      ensures result.Success? <==> |old(Ring())| + |old(writeBio)| < bufferCapacity
      ensures result.Success? ==> writeBio == [] && Ring() == old(Ring()) + old(writeBio)
      ensures result.Failed? ==> Ring() == old(Ring())
    {
      hide Contents, Overwrite;
      var loadedHead, loadedTail := sendTlsBufferHead, sendTlsBufferTail;
      ghost var before, all := Ring(), writeBio;
      var totalEnqueued := 0;
      while |writeBio| > 0
        invariant sendTlsBufferTail == loadedTail && totalEnqueued <= |all| && |before| + totalEnqueued < bufferCapacity
        invariant writeBio == all[totalEnqueued..]
        invariant Contents(sendTlsBuffer[..], loadedHead, Advance(bufferCapacity, loadedTail, totalEnqueued)) ==
                  before + all[..totalEnqueued]
        decreases |writeBio|
      {
        var adjustedTail := Advance(bufferCapacity, loadedTail, totalEnqueued);
        var size :=
          if loadedHead <= adjustedTail then adjustedTail - loadedHead else bufferCapacity - loadedHead + adjustedTail;
        var room := bufferCapacity - size - 1;
        var enqueuableSize := if room <= bufferCapacity - adjustedTail then room else bufferCapacity - adjustedTail;
        if enqueuableSize == 0 {
          Unpublished(sendTlsBuffer[..], loadedHead, loadedTail, before, all[..totalEnqueued]);
          return Failed;
        }
        ghost var buf := sendTlsBuffer[..];
        var n := BioRead(adjustedTail, enqueuableSize);
        ChunkAppends(buf, loadedHead, loadedTail, before, all, totalEnqueued, n);
        totalEnqueued := totalEnqueued + n;
      }
      if totalEnqueued > 0 {
        sendTlsBufferTail := Advance(bufferCapacity, loadedTail, totalEnqueued);
      }
      assert all[..totalEnqueued] == all;
      return Success;
    }

    /** On success the ring has grown by exactly the encodings of the queued messages, behind what it
        held; no byte that was still unsent has changed.  Without a TLS error it succeeds exactly when all
        of it fits below the capacity. */
    method TryProcessSendBuffers(arrivals: seq<seq<Message>>, tlsFails: nat -> bool)
      returns (result: ProcessResult, ghost taken: nat)
      requires Valid()
      modifies this`sendAppQueue, this`writeBio, this`sendTlsBufferTail, sendTlsBuffer
      ensures Valid() && taken <= |arrivals|
      ensures result.Success? ==>
                && sendAppQueue == [] && writeBio == [] && taken == Looks(|old(sendAppQueue)|, arrivals)
                && Ring() == old(Ring()) + (old(writeBio) + EncodeAll(old(sendAppQueue) + Concat(arrivals[..taken])))
      ensures result.Success? ==> Room(old(Ring()), old(writeBio), old(sendAppQueue) + Concat(arrivals[..taken]))
      ensures
        (forall k :: !tlsFails(k)) &&
          Room(old(Ring()), old(writeBio), old(sendAppQueue) + Concat(arrivals[..taken])) ==>
          result.Success?
      ensures result.Failed? ==> Ring() == old(Ring())
    {
      hide Contents, Overwrite;
      result, taken := EncryptQueue(arrivals, tlsFails);
      if result.Success? {
        result := DrainBio();
      }
    }

    /** Ring, pending bytes and these messages together stay below the capacity. */
    ghost predicate Room(ring: seq<byte>, bio: seq<byte>, messages: seq<Message>) {
      |ring| + |bio| + |EncodeAll(messages)| < bufferCapacity
    }

    /** What a send hands to the socket: the contiguous part of the ring's contents.  It is empty only if
        the ring is, and it is all of the contents unless they wrap. */
    method SendWindow() returns (offset: nat, length: nat)
      requires Valid()
      ensures offset + length <= bufferCapacity && length <= |Ring()|
      ensures sendTlsBuffer[offset..offset + length] == Ring()[..length]
      ensures length == 0 <==> Ring() == []
      ensures length == |Ring()| || offset + length == bufferCapacity
    {
      var loadedHead, loadedTail := sendTlsBufferHead, sendTlsBufferTail;
      offset := loadedHead;
      length := if loadedTail >= loadedHead then loadedTail - loadedHead else bufferCapacity - loadedHead;
    }

    /** TrySendAsync: at most one send is online, nothing is submitted when there is nothing to send, and what
        is submitted is a nonempty contiguous prefix of the ring.  `accepted` is whether the socket takes the
        request; after every failure the flag is down again, and what a refused request covers stays in the
        ring.  `processed` says that the buffers were processed. */
    method TrySendAsync(arrivals: seq<seq<Message>>, tlsFails: nat -> bool, accepted: bool)
      returns (ok: bool, submitted: bool, offset: nat, length: nat, ghost taken: nat, ghost processed: bool)
      requires Valid()
      modifies this`isSendOnline, this`sendAppQueue, this`writeBio, this`sendTlsBufferTail, sendTlsBuffer
      ensures Valid() && isSendOnline == (old(isSendOnline) || submitted) && taken <= |arrivals|
      ensures submitted <==> processed && accepted
      ensures
        var idle := old(Ring()) == [] && old(sendAppQueue) == [];
        && (ok <==> old(isSendOnline) || (!shouldClose && (idle || submitted)))
        && (processed ==> !old(isSendOnline) && !shouldClose && !idle)
        && (!old(isSendOnline) && !shouldClose && !idle && (forall k :: !tlsFails(k)) &&
            Room(old(Ring()), old(writeBio), old(sendAppQueue) + Concat(arrivals[..taken])) ==>
              processed)
        && (old(isSendOnline) || shouldClose || idle ==>
              sendAppQueue == old(sendAppQueue) && writeBio == old(writeBio))
      ensures !processed ==> Ring() == old(Ring())
      ensures processed ==>
                && sendAppQueue == [] && writeBio == []
                && Ring() == old(Ring()) + (old(writeBio) + EncodeAll(old(sendAppQueue) + Concat(arrivals[..taken])))
                && Room(old(Ring()), old(writeBio), old(sendAppQueue) + Concat(arrivals[..taken]))
                && 0 < length <= |Ring()| && offset + length <= bufferCapacity
                && sendTlsBuffer[offset..offset + length] == Ring()[..length]
                && (length == |Ring()| || offset + length == bufferCapacity)
    {
      hide Contents, EncodeAll;
      ok, submitted, offset, length, taken, processed := true, false, 0, 0, 0, false;
      if isSendOnline {
        return;
      }
      if shouldClose {
        ok := false;
        return;
      }
      isSendOnline := true;
      if sendTlsBufferHead == sendTlsBufferTail && sendAppQueue == [] {
        isSendOnline := false;
        return;
      }
      SomethingToSend(old(Ring()), old(writeBio), sendAppQueue, Concat(arrivals[..Looks(|sendAppQueue|, arrivals)]));
      var result;
      result, taken := TryProcessSendBuffers(arrivals, tlsFails);
      if result.Failed? {
        isSendOnline := false;
        ok := false;
        return;
      }
      offset, length := SendWindow();
      processed := true;
      if !accepted {
        isSendOnline := false;
        ok := false;
        return;
      }
      submitted := true;
    }

    method TryPostSend(bytesTransferred: nat)
      requires Valid() && bytesTransferred <= |Ring()|
      modifies this`isSendOnline, this`sendTlsBufferHead
      ensures Valid() && !isSendOnline && Ring() == old(Ring())[bytesTransferred..]
    {
      isSendOnline := false;
      AdvanceHeadDrops(sendTlsBuffer[..], sendTlsBufferHead, sendTlsBufferTail, bytesTransferred);
      sendTlsBufferHead := Advance(bufferCapacity, sendTlsBufferHead, bytesTransferred);
    }
  }

  /** How many of the arrivals come before the queue is found empty, starting with n queued messages. */
  function Looks(n: nat, arrivals: seq<seq<Message>>): (r: nat)
    ensures r <= |arrivals|
    decreases |arrivals|
  {
    if arrivals == [] then 0
    else if n + |arrivals[0]| == 0 then 1
    else 1 + Looks(n + |arrivals[0]| - 1, arrivals[1..])
  }

  lemma SomethingToSend(ring: seq<byte>, bio: seq<byte>, queue: seq<Message>, arrived: seq<Message>)
    requires ring != [] || queue != []
    ensures ring + (bio + EncodeAll(queue + arrived)) != []
  {
    if queue != [] {
      assert (queue + arrived)[0] == queue[0];
    }
  }

  /** Taking the front message over keeps the total. */
  lemma TakeFront(done: seq<Message>, queue: seq<Message>, arrived: seq<Message>)
    ensures done + (queue + arrived) == done + queue + arrived
    ensures queue != [] ==> done + [queue[0]] + queue[1..] == done + queue
  {
  }

  /** The k-th look at the queue, with what has arrived before it. */
  lemma OneLook(before: seq<Message>, done: seq<Message>, queue: seq<Message>, arrivals: seq<seq<Message>>, k: nat)
    requires k < |arrivals| && done + queue == before + Concat(arrivals[..k])
    ensures done + (queue + arrivals[k]) == before + Concat(arrivals[..k + 1])
    ensures Looks(|queue|, arrivals[k..]) ==
            if queue + arrivals[k] == [] then 1 else 1 + Looks(|queue + arrivals[k]| - 1, arrivals[k + 1..])
  {
    assert arrivals[..k + 1][..k] == arrivals[..k];
    assert before + (Concat(arrivals[..k]) + arrivals[k]) == before + Concat(arrivals[..k]) + arrivals[k];
    assert arrivals[k..][1..] == arrivals[k + 1..];
  }

  lemma NothingYet(queue: seq<Message>, bio: seq<byte>, arrivals: seq<seq<Message>>)
    ensures bio + EncodeAll([]) == bio && arrivals[0..] == arrivals
    ensures [] + queue == queue + Concat(arrivals[..0])
  {
  }

  lemma EncryptOne(bio: seq<byte>, done: seq<Message>, m: Message)
    ensures bio + EncodeAll(done) + Encode(m) == bio + EncodeAll(done + [m])
  {
    hide Encode;
    EncodeAllAppend(done, [m]);
    assert EncodeAll([m]) == Encode(m) + EncodeAll([]);
    assert bio + EncodeAll(done) + Encode(m) == bio + (EncodeAll(done) + Encode(m));
  }

  /** The next chunk of what the BIO held goes behind the bytes already staged. */
  lemma ChunkAppends(buf: seq<byte>, head: nat, tail: nat, before: seq<byte>, all: seq<byte>, done: nat, n: nat)
    requires head < |buf| && tail < |buf| && |before| == GetRingBufferSize(|buf|, head, tail)
    requires done + n <= |all| && |before| + done + n < |buf| && n <= |buf| - Advance(|buf|, tail, done)
    requires Contents(buf, head, Advance(|buf|, tail, done)) == before + all[..done]
    ensures
      var chunk := all[done..][..n];
      Contents(Overwrite(buf, Advance(|buf|, tail, done), chunk), head, Advance(|buf|, tail, done + n)) ==
        before + all[..done + n]
  {
    FillStep(buf, head, tail, before, all[..done], all[done..][..n]);
    assert all[..done] + all[done..][..n] == all[..done + n];
  }

  // ---- the steps of the protocol add up to the buffer code ----

  function PushEach(p: SendPath, ms: seq<Message>): SendPath
    decreases |ms|
  {
    if ms == [] then p else PushEach(p.Push(ms[0]), ms[1..])
  }

  lemma {:induction false} PushEachAppends(p: SendPath, ms: seq<Message>)
    ensures PushEach(p, ms) == p.(queue := p.queue + ms, pushed := p.pushed + ms)
    decreases |ms|
  {
    if ms == [] {
      assert p.queue + [] == p.queue && p.pushed + [] == p.pushed;
    } else {
      PushEachAppends(p.Push(ms[0]), ms[1..]);
      assert p.queue + [ms[0]] + ms[1..] == p.queue + ms && p.pushed + [ms[0]] + ms[1..] == p.pushed + ms;
    }
  }

  /** The send path after its owner has popped and encrypted message by message until it finds the queue
      empty, with `arrivals[k]` pushed by other threads before the k-th look. */
  function EncryptedAll(p: SendPath, arrivals: seq<seq<Message>>): SendPath
    decreases |arrivals|, |PushEach(p, NextBatch(arrivals)).queue|
  {
    var p1 := PushEach(p, NextBatch(arrivals));
    if p1.queue == [] then p1
    else
      PushEachAppends(p1.Pop().Encrypt(), NextBatch(Later(arrivals)));
      EncryptedAll(p1.Pop().Encrypt(), Later(arrivals))
  }

  function NextBatch(arrivals: seq<seq<Message>>): seq<Message> {
    if arrivals == [] then [] else arrivals[0]
  }

  function Later(arrivals: seq<seq<Message>>): seq<seq<Message>> {
    if arrivals == [] then [] else arrivals[1..]
  }

  lemma {:induction false} EncryptedAllBytes(p: SendPath, arrivals: seq<seq<Message>>)
    requires p.hand == []
    ensures
      var arrived := Concat(arrivals[..Looks(|p.queue|, arrivals)]);
      EncryptedAll(p, arrivals) ==
      p.(queue := [], bio := p.bio + EncodeAll(p.queue + arrived), pushed := p.pushed + arrived)
    decreases |arrivals|, |PushEach(p, NextBatch(arrivals)).queue|
  {
    var now := NextBatch(arrivals);
    PushEachAppends(p, now);
    var p1 := PushEach(p, now);
    if p1.queue == [] {
      NothingArrived(p, arrivals);
    } else {
      var q := p1.Pop().Encrypt();
      PushEachAppends(q, NextBatch(Later(arrivals)));
      EncryptedAllBytes(q, Later(arrivals));
      var later := Concat(Later(arrivals)[..Looks(|q.queue|, Later(arrivals))]);
      OneMore(p.queue, now, later, p.bio, p.pushed);
      ArrivedInOrder(|p.queue|, arrivals);
    }
  }

  lemma NothingArrived(p: SendPath, arrivals: seq<seq<Message>>)
    requires p.queue == [] && NextBatch(arrivals) == []
    ensures
      var arrived := Concat(arrivals[..Looks(0, arrivals)]);
      arrived == [] && p.bio + EncodeAll(p.queue + arrived) == p.bio && p.pushed + arrived == p.pushed
      && PushEach(p, NextBatch(arrivals)) == p
  {
    PushEachAppends(p, []);
    if arrivals != [] {
      assert arrivals[..1] == [arrivals[0]] && arrivals[..1][..0] == [];
    }
  }

  /** What arrives before the queue is found empty: the first batch and what arrives later. */
  lemma ArrivedInOrder(n: nat, arrivals: seq<seq<Message>>)
    requires n + |NextBatch(arrivals)| > 0
    ensures Concat(arrivals[..Looks(n, arrivals)])
         == NextBatch(arrivals) + Concat(Later(arrivals)[..Looks(n + |NextBatch(arrivals)| - 1, Later(arrivals))])
  {
    if arrivals != [] {
      var k := Looks(n + |arrivals[0]| - 1, arrivals[1..]);
      assert arrivals[..k + 1] == [arrivals[0]] + arrivals[1..][..k];
      ConcatCons(arrivals[0], arrivals[1..][..k]);
    }
  }

  /** Encrypting the front message and then the rest. */
  lemma OneMore(queue: seq<Message>, now: seq<Message>, later: seq<Message>, bio: seq<byte>, pushed: seq<Message>)
    requires queue + now != []
    ensures
      var all := queue + now;
      && bio + EncodeAll([all[0]]) + EncodeAll(all[1..] + later) == bio + EncodeAll(queue + (now + later))
      && pushed + now + later == pushed + (now + later)
  {
    var all := queue + now;
    assert queue + (now + later) == [all[0]] + (all[1..] + later);
    EncodeAllAppend([all[0]], all[1..] + later);
    assert bio + EncodeAll([all[0]]) + EncodeAll(all[1..] + later) ==
           bio + (EncodeAll([all[0]]) + EncodeAll(all[1..] + later));
  }

  /** While the bytes move, more messages may arrive. */
  datatype Movement = Bytes(n: nat) | Arrival(m: Message)

  function MovedBytes(moves: seq<Movement>): nat {
    if moves == [] then 0 else (if moves[0].Bytes? then moves[0].n else 0) + MovedBytes(moves[1..])
  }

  function ArrivedLate(moves: seq<Movement>): seq<Message> {
    if moves == [] then [] else (if moves[0].Arrival? then [moves[0].m] else []) + ArrivedLate(moves[1..])
  }

  function StagedAll(p: SendPath, moves: seq<Movement>): SendPath
    requires MovedBytes(moves) <= |p.bio|
    decreases |moves|
  {
    if moves == [] then p
    else
      match moves[0]
      case Bytes(n) => StagedAll(p.Stage(n), moves[1..])
      case Arrival(m) => StagedAll(p.Push(m), moves[1..])
  }

  /** The path once all bytes are staged and these messages have come in. */
  function Staged(p: SendPath, late: seq<Message>): SendPath {
    p.(staged := p.staged + p.bio, bio := [], queue := p.queue + late, pushed := p.pushed + late)
  }

  lemma StagedFirst(p: SendPath, n: nat, m: Message, late: seq<Message>)
    requires n <= |p.bio|
    ensures Staged(p.Stage(n), late) == Staged(p, late) && Staged(p.Push(m), late) == Staged(p, [m] + late)
  {
    assert p.staged + p.bio[..n] + p.bio[n..] == p.staged + p.bio;
    assert p.queue + [m] + late == p.queue + ([m] + late) && p.pushed + [m] + late == p.pushed + ([m] + late);
  }

  lemma {:induction false} StagedAllBytes(p: SendPath, moves: seq<Movement>)
    requires MovedBytes(moves) == |p.bio|
    ensures StagedAll(p, moves) == Staged(p, ArrivedLate(moves))
    decreases |moves|
  {
    hide Staged;
    if moves == [] {
      StagedNothing(p);
    } else {
      var late := ArrivedLate(moves[1..]);
      match moves[0]
      case Bytes(n) =>
        StagedFirst(p, n, Message(0, []), late);
        StagedAllBytes(p.Stage(n), moves[1..]);
        assert [] + late == late;
      case Arrival(m) =>
        StagedFirst(p, 0, m, late);
        StagedAllBytes(p.Push(m), moves[1..]);
    }
  }

  lemma StagedNothing(p: SendPath)
    requires p.bio == []
    ensures Staged(p, []) == p
  {
    assert p.staged + [] == p.staged && p.queue + [] == p.queue && p.pushed + [] == p.pushed;
  }

  /** SessionProtocol's steps, taken from a resting path through the whole of TryProcessSendBuffers while other
      threads push at any point, leave BIO and ring exactly as SessionSender.TryProcessSendBuffers does, in
      however many chunks the bytes move; messages that arrive after the queue was found empty stay in it. */
  lemma StepsMatchBuffers(p: SendPath, arrivals: seq<seq<Message>>, moves: seq<Movement>)
    requires p.hand == [] && p.staged == []
    requires MovedBytes(moves) == |EncryptedAll(p, arrivals).bio|
    ensures
      var arrived := Concat(arrivals[..Looks(|p.queue|, arrivals)]);
      StagedAll(EncryptedAll(p, arrivals), moves).Publish() ==
      p.(queue := ArrivedLate(moves), bio := [], ring := p.ring + (p.bio + EncodeAll(p.queue + arrived)),
         pushed := p.pushed + arrived + ArrivedLate(moves))
  {
    hide EncryptedAll, StagedAll;
    EncryptedAllBytes(p, arrivals);
    StagedAllBytes(EncryptedAll(p, arrivals), moves);
    assert [] + EncryptedAll(p, arrivals).bio == EncryptedAll(p, arrivals).bio;
    assert [] + ArrivedLate(moves) == ArrivedLate(moves);
  }
}
