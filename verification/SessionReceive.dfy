/** The receiving half of a session: kernel -> TLS ring -> TLS -> application ring -> frames.

    TLS is an order-preserving byte stream: what is written to the read BIO comes out of SSL_read in the
    same order, in chunks of any size.  What it holds back is the end of the stream, an unfinished record
    or whatever follows the peer's closing notice; `rest` is its length.  `tlsFails` says which calls of
    SSL_read meet a TLS error. */
module SessionReceive {
  import opened Types
  import opened Ring
  import opened Framing

  datatype SslOutcome = Bytes(data: seq<byte>) | Nothing | Error

  /** A completion of n bytes into an empty ring is readable exactly when n is below the capacity:
      filling the whole buffer brings the tail back to the head, and the ring looks empty. */
  lemma CompletionReadable(buf: seq<byte>, at: nat, data: seq<byte>)
    requires at < |buf| && |data| <= |buf| - at
    ensures Contents(Overwrite(buf, at, data), at, Advance(|buf|, at, |data|)) == data <==> |data| < |buf|
  {
    if |data| < |buf| {
      ContiguousAppends(buf, at, at, data);
    } else {
    }
  }

  // ---- bodies that have to be assembled ----

  /** The frame's body wraps and is larger than the buffer in which wrapped bodies are assembled. */
  predicate TooLarge(m: Message, head: nat, capacity: nat, limit: nat)
    requires head < capacity && MESSAGE_HEADER_SIZE <= capacity
  {
    |m.body| > limit && Advance(capacity, head, MESSAGE_HEADER_SIZE) + |m.body| > capacity
  }

  /** Draining these ring contents, which start at `head`, comes to a frame that is too large where it lies. */
  ghost predicate Overruns(app: seq<byte>, head: nat, capacity: nat, limit: nat)
    requires head < capacity && |app| < capacity && MESSAGE_HEADER_SIZE <= capacity
    decreases |app|
  {
    FirstFrame(app).Some? &&
    (TooLarge(FirstFrame(app).value, head, capacity, limit) ||
     Overruns(app[FrameSize(app)..], Advance(capacity, head, FrameSize(app)), capacity, limit))
  }

  /** Frames within the limit never overrun, wherever they lie. */
  lemma {:induction false} FittingNeverOverruns(app: seq<byte>, head: nat, capacity: nat, limit: nat)
    requires head < capacity && |app| < capacity && MESSAGE_HEADER_SIZE <= capacity && FramesFit(app, limit)
    ensures !Overruns(app, head, capacity, limit)
    decreases |app|
  {
    if FirstFrame(app).Some? {
      FirstFits(app, limit);
      RestFits(app, limit);
      FittingNeverOverruns(app[FrameSize(app)..], Advance(capacity, head, FrameSize(app)), capacity, limit);
    }
  }

  lemma RestFits(app: seq<byte>, limit: nat)
    requires FramesFit(app, limit) && FirstFrame(app).Some?
    ensures FramesFit(app[FrameSize(app)..], limit)
  {
    var rest := app[FrameSize(app)..];
    assert Drain(app).0 == [FirstFrame(app).value] + Drain(rest).0;
    AllFitParts([FirstFrame(app).value], Drain(rest).0, limit);
  }

  const EXAMPLE_FRAME: seq<byte> := [0, 0, 0, 3, 0, 0, 0]

  lemma ExampleParses()
    ensures FirstFrame(EXAMPLE_FRAME) == Some(Message(0, [0, 0, 0])) && FrameSize(EXAMPLE_FRAME) == 7
  {
    assert LoadField(EXAMPLE_FRAME, 0) == 0 && LoadField(EXAMPLE_FRAME, 2) == 768;
    assert Htons(0) == 0 && Htons(768) == 3;
    assert EXAMPLE_FRAME[4..7] == [0, 0, 0];
  }

  /** A ring of 8 bytes with messages of at most 2: a complete frame with a body of 3 bytes overruns where
      it wraps at head 2, and is returned in place at head 0. */
  lemma OverrunDependsOnPosition()
    ensures Contents([0, 0, 0, 0, 0, 3, 0, 0], 2, 1) == EXAMPLE_FRAME == Contents([0, 0, 0, 3, 0, 0, 0, 0], 0, 7)
    ensures Overruns(EXAMPLE_FRAME, 2, 8, 2) && !Overruns(EXAMPLE_FRAME, 0, 8, 2)
  {
    hide FirstFrame, FrameSize;
    ExampleParses();
    assert EXAMPLE_FRAME[7..] == [];
    EmptyHasNoFrame();
  }

  lemma EmptyHasNoFrame()
    ensures FirstFrame([]).None?
  {
  }

  class SessionReceiver {
    const messageMaxSize: nat
    const bufferCapacity: nat
    const receiveTlsBuffer: array<byte>
    const receiveAppBuffer: array<byte>
    const receiveContiguousPopBuffer: array<byte>

    var isReceiveOnline: bool
    var shouldClose: bool
    var receiveTlsBufferHead: nat
    var receiveTlsBufferTail: nat
    var receiveAppBufferHead: nat
    var receiveAppBufferTail: nat
    var readBio: seq<byte>
    var delivered: seq<Message>

    // what the peer's completions carried, and how much of it was popped
    ghost var received: seq<byte>
    ghost var popped: seq<byte>

    ghost predicate Shape()
      reads this, receiveTlsBuffer, receiveAppBuffer, receiveContiguousPopBuffer
    {
      && bufferCapacity == 4 * messageMaxSize && messageMaxSize > 0
      && receiveTlsBuffer.Length == bufferCapacity && receiveAppBuffer.Length == bufferCapacity
      && receiveContiguousPopBuffer.Length == messageMaxSize
      && receiveTlsBuffer != receiveAppBuffer && receiveTlsBuffer != receiveContiguousPopBuffer
      && receiveAppBuffer != receiveContiguousPopBuffer
      && receiveTlsBufferHead < bufferCapacity && receiveTlsBufferTail < bufferCapacity
      && receiveAppBufferHead < bufferCapacity && receiveAppBufferTail < bufferCapacity
    }

    ghost function Tls(): seq<byte>
      requires Shape()
      reads this, receiveTlsBuffer, receiveAppBuffer, receiveContiguousPopBuffer
    {
      Contents(receiveTlsBuffer[..], receiveTlsBufferHead, receiveTlsBufferTail)
    }

    ghost function App(): seq<byte>
      requires Shape()
      reads this, receiveTlsBuffer, receiveAppBuffer, receiveContiguousPopBuffer
    {
      Contents(receiveAppBuffer[..], receiveAppBufferHead, receiveAppBufferTail)
    }

    /** The received bytes not yet popped, in stream order. */
    ghost function InFlight(): seq<byte>
      requires Shape()
      reads this, receiveTlsBuffer, receiveAppBuffer, receiveContiguousPopBuffer
    {
      App() + (readBio + Tls())
    }

    /** What was popped consists of whole frames, exactly those delivered. */
    ghost predicate Framed()
      reads this, receiveTlsBuffer, receiveAppBuffer, receiveContiguousPopBuffer
    {
      Shape() && Drain(popped) == (delivered, [])
    }

    /** Conservation: every received byte is popped, in the application ring, inside TLS or in the TLS
        ring, in this order. */
    ghost predicate Valid()
      reads this, receiveTlsBuffer, receiveAppBuffer, receiveContiguousPopBuffer
    {
      Framed() && received == popped + InFlight()
    }

    constructor (messageMaxSize: nat)
      requires messageMaxSize > 0
      ensures Valid() && this.messageMaxSize == messageMaxSize && received == [] && !isReceiveOnline && Tls() == []
      ensures fresh(receiveTlsBuffer) && fresh(receiveAppBuffer) && fresh(receiveContiguousPopBuffer)
    {
      this.messageMaxSize := messageMaxSize;
      bufferCapacity := 4 * messageMaxSize;
      receiveTlsBuffer := new byte[4 * messageMaxSize];
      receiveAppBuffer := new byte[4 * messageMaxSize];
      receiveContiguousPopBuffer := new byte[messageMaxSize];
      isReceiveOnline, shouldClose := false, false;
      receiveTlsBufferHead, receiveTlsBufferTail, receiveAppBufferHead, receiveAppBufferTail := 0, 0, 0, 0;
      readBio, delivered, received, popped := [], [], [], [];
    }

    // ---- TLS ring -> BIO -> application ring ----

    /** SSL_read into the application ring: at most `limit` bytes of what TLS does not hold back. */
    method SslRead(at: nat, limit: nat, rest: nat, fails: bool) returns (outcome: SslOutcome)
      requires at + limit <= receiveAppBuffer.Length && limit > 0 && rest <= |readBio|
      modifies this`readBio, receiveAppBuffer
      ensures outcome.Error? <==> fails
      ensures outcome.Nothing? <==> !fails && |old(readBio)| == rest
      ensures outcome.Bytes? ==>
                && 0 < |outcome.data| <= limit && old(readBio) == outcome.data + readBio && rest <= |readBio|
                && receiveAppBuffer[..] == Overwrite(old(receiveAppBuffer[..]), at, outcome.data)
      ensures !outcome.Bytes? ==> readBio == old(readBio) && receiveAppBuffer[..] == old(receiveAppBuffer[..])
    {
      if fails {
        return Error;
      }
      if |readBio| == rest {
        return Nothing;
      }
      var n: nat :| 0 < n <= limit && n <= |readBio| - rest;
      outcome := Bytes(readBio[..n]);
      CopyIn(receiveAppBuffer, at, readBio[..n]);
      readBio := readBio[n..];
    }

    method FeedBio()
      requires Shape()
      modifies this`readBio, this`receiveTlsBufferHead
      ensures Shape() && Tls() == [] && App() == old(App())
      ensures readBio == old(readBio + Tls())
    {
      hide Contents;
      var loadedHead, loadedTail := receiveTlsBufferHead, receiveTlsBufferTail;
      ghost var pending := Tls();
      var totalDecrypted := 0;
      while true
        invariant totalDecrypted <= |pending| && readBio == old(readBio) + pending[..totalDecrypted]
        invariant receiveTlsBufferHead == loadedHead
        decreases |pending| - totalDecrypted
      {
        var adjustedHead := Advance(bufferCapacity, loadedHead, totalDecrypted);
        var decryptableSize :=
          if adjustedHead <= loadedTail then loadedTail - adjustedHead else bufferCapacity - adjustedHead;
        FeedStep(receiveTlsBuffer[..], loadedHead, loadedTail, totalDecrypted);
        if decryptableSize == 0 {
          break;
        }
        readBio := readBio + receiveTlsBuffer[adjustedHead..adjustedHead + decryptableSize];
        totalDecrypted := totalDecrypted + decryptableSize;
      }
      if totalDecrypted > 0 {
        receiveTlsBufferHead := Advance(bufferCapacity, loadedHead, totalDecrypted);
      }
      assert Tls() == [];
    }

    /** There is room for what TLS hands out, with one byte to spare: a ring that gets completely full fails. */
    ghost predicate Room(app: seq<byte>, bio: seq<byte>, rest: nat) {
      |app| + |bio| - rest < bufferCapacity - 1
    }

    /** Without a TLS error this succeeds exactly when there is room, and then everything TLS does not hold
        back has moved to the end of the application ring.  On failure the ring's contents are as before. */
    method FillApp(rest: nat, tlsFails: nat -> bool) returns (result: ProcessResult)
      requires Shape() && rest <= |readBio|
      modifies this`readBio, this`receiveAppBufferTail, receiveAppBuffer
      ensures Shape() && Tls() == old(Tls())
      ensures result.Success? ==> Room(old(App()), old(readBio), rest)
      ensures (forall k :: !tlsFails(k)) && Room(old(App()), old(readBio), rest) ==> result.Success?
      ensures result.Success? ==> App() + readBio == old(App() + readBio) && |readBio| == rest
      ensures result.Failed? ==> App() == old(App())
    {
      var loadedHead, loadedTail := receiveAppBufferHead, receiveAppBufferTail;
      var size := GetRingBufferSize(bufferCapacity, loadedHead, loadedTail);
      var available := bufferCapacity - size - 1;
      ghost var before := App();
      ghost var moved: seq<byte> := [];
      var totalEnqueued, calls := 0, 0;
      while true
        invariant totalEnqueued == |moved| <= available && moved + readBio == old(readBio) && rest <= |readBio|
        invariant Contents(receiveAppBuffer[..], loadedHead, Advance(bufferCapacity, loadedTail, totalEnqueued)) ==
                  before + moved
        invariant receiveTlsBuffer[..] == old(receiveTlsBuffer[..]) && receiveAppBufferTail == loadedTail
        decreases available - totalEnqueued
      {
        var adjustedTail := Advance(bufferCapacity, loadedTail, totalEnqueued);
        var adjustedAvailable := available - totalEnqueued;
        if adjustedAvailable == 0 {
          Unpublished(receiveAppBuffer[..], loadedHead, loadedTail, before, moved);
          return Failed;
        }
        var enqueuableSize :=
          if adjustedAvailable <= bufferCapacity - adjustedTail then adjustedAvailable
          else bufferCapacity - adjustedTail;
        ghost var buf := receiveAppBuffer[..];
        var outcome := SslRead(adjustedTail, enqueuableSize, rest, tlsFails(calls));
        calls := calls + 1;
        match outcome
        case Nothing => break;
        case Error =>
          Unpublished(receiveAppBuffer[..], loadedHead, loadedTail, before, moved);
          return Failed;
        case Bytes(data) =>
          FillStep(buf, loadedHead, loadedTail, before, moved, data);
          moved := moved + data;
          totalEnqueued := totalEnqueued + |data|;
      }
      if totalEnqueued > 0 {
        receiveAppBufferTail := Advance(bufferCapacity, loadedTail, totalEnqueued);
      }
      Assoc(before, moved, readBio);
      return Success;
    }

    method TryProcessReceiveBuffers(rest: nat, tlsFails: nat -> bool) returns (result: ProcessResult)
      requires Shape() && rest <= |readBio| + |Tls()|
      modifies this`readBio, this`receiveTlsBufferHead, this`receiveAppBufferTail, receiveAppBuffer
      ensures Shape() && Tls() == []
      ensures result.Success? ==> Room(old(App()), old(readBio + Tls()), rest)
      ensures (forall k :: !tlsFails(k)) && Room(old(App()), old(readBio + Tls()), rest) ==> result.Success?
      ensures result.Success? ==> App() + readBio == old(InFlight()) && |readBio| == rest
      ensures result.Failed? ==> App() == old(App())
    {
      hide Contents;
      FeedBio();
      result := FillApp(rest, tlsFails);
    }

    // ---- completions ----

    /** Arms a receive on [tail, capacity); `accepted` is whether the socket took the request. */
    method TryReceiveAsync(accepted: bool) returns (armed: bool)
      requires Shape()
      modifies this`isReceiveOnline
      ensures Tls() == [] ==> (armed <==> !old(isReceiveOnline) && !shouldClose && accepted)
      ensures isReceiveOnline == (old(isReceiveOnline) || armed)
    {
      if isReceiveOnline || shouldClose {
        return false;
      }
      isReceiveOnline := true;
      var bufferSize := GetRingBufferSize(bufferCapacity, receiveTlsBufferHead, receiveTlsBufferTail);
      var writableSize := bufferCapacity - receiveTlsBufferTail;
      if bufferSize == bufferCapacity - 1 || writableSize == 0 {
        isReceiveOnline := false;
        return false;
      }
      if !accepted {
        isReceiveOnline := false;
        return false;
      }
      return true;
    }

    /** The kernel fills the armed window; the ring was empty, so no unread byte can be overwritten. */
    method Arrive(data: seq<byte>)
      requires Shape() && Tls() == [] && |data| <= bufferCapacity - receiveTlsBufferTail
      modifies receiveTlsBuffer
      ensures Shape() && Tls() == [] && App() == old(App())
      ensures receiveTlsBuffer[..] == Overwrite(old(receiveTlsBuffer[..]), receiveTlsBufferTail, data)
    {
      CopyIn(receiveTlsBuffer, receiveTlsBufferTail, data);
    }

    /** Publishes a completion: the new bytes become readable unless they fill the whole buffer. */
    method PublishTail(bytesTransferred: nat, ghost data: seq<byte>)
      requires Shape() && Tls() == [] && |data| == bytesTransferred <= bufferCapacity - receiveTlsBufferTail
      requires receiveTlsBuffer[receiveTlsBufferTail..receiveTlsBufferTail + bytesTransferred] == data
      modifies this`isReceiveOnline, this`receiveTlsBufferTail
      ensures !isReceiveOnline && Shape() && App() == old(App())
      ensures InFlight() == old(InFlight()) + (if bytesTransferred < bufferCapacity then data else [])
    {
      isReceiveOnline := false;
      ghost var at, buf := receiveTlsBufferTail, receiveTlsBuffer[..];
      assert at == receiveTlsBufferHead;
      assert Overwrite(buf, at, data) == buf;
      if bytesTransferred < bufferCapacity {
        ContiguousAppends(buf, at, at, data);
      }
      receiveTlsBufferTail := Advance(bufferCapacity, receiveTlsBufferTail, bytesTransferred);
      assert Tls() == if bytesTransferred < bufferCapacity then data else [];
    }

    /** What a completion adds to the stream: nothing when it fills the whole buffer. */
    ghost function Arrived(data: seq<byte>): seq<byte> {
      if |data| < bufferCapacity then data else []
    }

    /** Without a TLS error a completion is processed exactly when there is room for what TLS hands out, and
        then the received stream is kept; a completion that fills the whole buffer is lost as a whole. */
    method TryPostReceive(bytesTransferred: nat, ghost data: seq<byte>, rest: nat, tlsFails: nat -> bool)
        returns (ok: bool)
      requires Valid() && Tls() == [] && |data| == bytesTransferred <= bufferCapacity - receiveTlsBufferTail
      requires receiveTlsBuffer[receiveTlsBufferTail..receiveTlsBufferTail + bytesTransferred] == data
      requires rest <= |readBio| + |Arrived(data)|
      modifies this`isReceiveOnline, this`receiveTlsBufferTail, this`readBio, this`receiveTlsBufferHead
      modifies this`receiveAppBufferTail, this`received, receiveAppBuffer
      ensures !isReceiveOnline && Framed() && Tls() == []
      ensures received == old(received) + Arrived(data)
      ensures ok ==> Room(old(App()), old(readBio) + Arrived(data), rest)
      ensures (forall k :: !tlsFails(k)) && Room(old(App()), old(readBio) + Arrived(data), rest) ==> ok
      ensures ok ==> Valid() && |readBio| == rest && App() + readBio == old(App()) + (old(readBio) + Arrived(data))
      ensures !ok ==> App() == old(App())
    {
      hide Contents, Drain;
      PublishTail(bytesTransferred, data);
      ghost var app, bio, inFlight := App(), readBio, InFlight();
      received := received + Arrived(data);
      // with no renegotiation the buffers are processed once
      var result := TryProcessReceiveBuffers(rest, tlsFails);
      ok := result.Success?;
      if ok {
        assert readBio + [] == readBio;
      }
    }

    // ---- frames ----

    /** The body either in place or, when it wraps, assembled in the pop buffer; None where the assembled
        body would not fit there. */
    method ReadBody(bodyHead: nat, bodySize: nat) returns (body: Option<seq<byte>>)
      requires Shape() && bodyHead < bufferCapacity && bodySize < bufferCapacity
      modifies receiveContiguousPopBuffer
      ensures body == if bodySize > messageMaxSize && bodyHead + bodySize > bufferCapacity then None
                      else Some(ReadSplit(receiveAppBuffer[..], bodyHead, bodySize))
    {
      var (primaryBody, secondaryBody) := Split(bufferCapacity, bodyHead, bodySize);
      if primaryBody == bodySize {
        assert receiveAppBuffer[bodyHead..bodyHead + bodySize] + receiveAppBuffer[..0]
            == receiveAppBuffer[bodyHead..bodyHead + bodySize];
        return Some(receiveAppBuffer[bodyHead..bodyHead + bodySize]);
      }
      if bodySize > receiveContiguousPopBuffer.Length {
        return None;
      }
      TwoCopies(receiveContiguousPopBuffer[..], receiveAppBuffer[bodyHead..bodyHead + primaryBody],
        receiveAppBuffer[..secondaryBody]);
      CopyIn(receiveContiguousPopBuffer, 0, receiveAppBuffer[bodyHead..bodyHead + primaryBody]);
      CopyIn(receiveContiguousPopBuffer, primaryBody, receiveAppBuffer[..secondaryBody]);
      return Some(receiveContiguousPopBuffer[..bodySize]);
    }

    /** The first complete frame of the application ring, read across the wrap position where needed.  The
        program copies a wrapped body into the pop buffer without comparing the sizes; `overrun` is the case
        in which it does not fit, and it is exactly the one in which the frame is too large where it lies. */
    method PeekReceivedMessage() returns (result: Option<Message>, overrun: bool)
      requires Shape()
      modifies receiveContiguousPopBuffer
      ensures Shape() && App() == old(App()) && Tls() == old(Tls())
      ensures overrun <==> FirstFrame(App()).Some?
                           && TooLarge(FirstFrame(App()).value, receiveAppBufferHead, bufferCapacity, messageMaxSize)
      ensures !overrun ==> result == FirstFrame(App())
    {
      hide Htons, LoadField, TypeField, SizeField, Contents;
      var loadedHead, loadedTail := receiveAppBufferHead, receiveAppBufferTail;
      ghost var buf, app := receiveAppBuffer[..], App();
      var readableHeader := GetReadableSizes(bufferCapacity, loadedHead, loadedTail, MESSAGE_HEADER_SIZE);
      if readableHeader.None? {
        return None, false;
      }
      var (primaryHeader, secondaryHeader) := readableHeader.value;
      var header := receiveAppBuffer[loadedHead..loadedHead + primaryHeader] + receiveAppBuffer[..secondaryHeader];
      HeaderRead(buf, loadedHead, loadedTail);
      var messageType, bodySize := TypeField(header), SizeField(header);

      var bodyHead := Advance(bufferCapacity, loadedHead, MESSAGE_HEADER_SIZE);
      AdvanceHeadDrops(buf, loadedHead, loadedTail, MESSAGE_HEADER_SIZE);
      var readableBody := GetReadableSizes(bufferCapacity, bodyHead, loadedTail, bodySize);
      if readableBody.None? {
        return None, false;
      }
      ReadIsPrefix(buf, bodyHead, loadedTail, bodySize);
      BodyOf(app);
      var body := ReadBody(bodyHead, bodySize);
      if body.None? {
        return None, true;
      }
      return Some(Message(messageType, body.value)), false;
    }

    method PopReceivedMessage(size: nat)
      requires Shape() && size <= |App()|
      modifies this`receiveAppBufferHead
      ensures Shape() && Tls() == old(Tls()) && App() == old(App())[size..]
      ensures receiveAppBufferHead == Advance(bufferCapacity, old(receiveAppBufferHead), size)
    {
      AdvanceHeadDrops(receiveAppBuffer[..], receiveAppBufferHead, receiveAppBufferTail, size);
      receiveAppBufferHead := Advance(bufferCapacity, receiveAppBufferHead, size);
    }

    /** One round of the peek/pop loop: the first frame moves from the ring to the actor. */
    method DeliverFirst() returns (more: bool, overrun: bool)
      requires Framed()
      modifies this`receiveAppBufferHead, this`delivered, this`popped, receiveContiguousPopBuffer
      ensures Framed() && Tls() == old(Tls()) && popped + App() == old(popped + App())
      ensures overrun <==> FirstFrame(old(App())).Some?
                           && TooLarge(FirstFrame(old(App())).value, old(receiveAppBufferHead),
                                       bufferCapacity, messageMaxSize)
      ensures more <==> FirstFrame(old(App())).Some? && !overrun
      ensures more ==>
                && delivered == old(delivered) + [FirstFrame(old(App())).value]
                && App() == old(App())[FrameSize(old(App()))..]
                && receiveAppBufferHead == Advance(bufferCapacity, old(receiveAppBufferHead), FrameSize(old(App())))
      ensures !more ==>
                && delivered == old(delivered) && App() == old(App())
                && receiveAppBufferHead == old(receiveAppBufferHead)
    {
      hide Contents, Drain, FirstFrame, FrameSize, TooLarge;
      ghost var app := App();
      var message;
      message, overrun := PeekReceivedMessage();
      if overrun || message.None? {
        return false, overrun;
      }
      PopFirst(popped, app);
      FrameLength(app);
      delivered := delivered + [message.value];
      popped := popped + app[..FrameSize(app)];
      PopReceivedMessage(MESSAGE_HEADER_SIZE + |message.value.body|);
      return true, false;
    }

    /** The drain loop delivers exactly the complete frames of the application ring, in order, unless it
        comes to one that is too large where it lies; then the frames in front of that one are delivered. */
    method DeliverMessages() returns (overrun: bool)
      requires Framed()
      modifies this`receiveAppBufferHead, this`delivered, this`popped, receiveContiguousPopBuffer
      ensures Framed() && Tls() == old(Tls()) && popped + App() == old(popped + App())
      ensures overrun <==> Overruns(old(App()), old(receiveAppBufferHead), bufferCapacity, messageMaxSize)
      ensures delivered + Drain(App()).0 == old(delivered) + Drain(old(App())).0
      ensures overrun ==> FirstFrame(App()).Some?
      ensures !overrun ==> delivered == old(delivered) + Drain(old(App())).0 && App() == Drain(old(App())).1
    {
      hide Contents, Drain, FirstFrame, FrameSize;
      var more := true;
      overrun := false;
      while more
        invariant Framed() && Tls() == old(Tls()) && popped + App() == old(popped + App())
        invariant delivered + Drain(App()).0 == old(delivered) + Drain(old(App())).0
        invariant Drain(App()).1 == Drain(old(App())).1
        invariant if overrun then Overruns(old(App()), old(receiveAppBufferHead), bufferCapacity, messageMaxSize)
                  else Overruns(App(), receiveAppBufferHead, bufferCapacity, messageMaxSize)
                       == Overruns(old(App()), old(receiveAppBufferHead), bufferCapacity, messageMaxSize)
        invariant overrun ==> FirstFrame(App()).Some? && !more
        invariant !more && !overrun ==> FirstFrame(App()).None?
        decreases more, |App()|
      {
        DrainUnfold(delivered, App());
        more, overrun := DeliverFirst();
      }
      DrainUnfold(delivered, App());
      assert delivered + [] == delivered;
    }

    /** The application ring's contents when the drain loop starts. */
    ghost function Drained(app: seq<byte>, bio: seq<byte>, rest: nat, processed: bool): seq<byte>
      requires rest <= |bio|
    {
      if processed then app + bio[..|bio| - rest] else app
    }

    /** A receive completion as the server handles it: process, re-arm, deliver.  Without a TLS error it is
        processed exactly when there is room.  If it is, and no frame is too large where it lies, the actor
        has been given exactly the frames of everything received so far, up to the end TLS holds back, and
        the application ring holds exactly the incomplete frame.  The TLS ring is empty again in any case,
        so the next receive cannot overwrite unread bytes. */
    method PostReceive(bytesTransferred: nat, ghost data: seq<byte>, accepted: bool, rest: nat, tlsFails: nat -> bool)
      returns (succeeded: bool, overrun: bool, ghost processed: bool)
      requires Valid() && Tls() == [] && |data| == bytesTransferred <= bufferCapacity - receiveTlsBufferTail
      requires receiveTlsBuffer[receiveTlsBufferTail..receiveTlsBufferTail + bytesTransferred] == data
      requires rest <= |readBio| + |Arrived(data)|
      modifies this`isReceiveOnline, this`receiveTlsBufferTail, this`readBio, this`receiveTlsBufferHead
      modifies this`receiveAppBufferTail, this`receiveAppBufferHead, this`delivered, this`received, this`popped
      modifies receiveAppBuffer, receiveContiguousPopBuffer
      ensures Framed() && Tls() == [] && (processed ==> Valid())
      ensures received == old(received) + Arrived(data)
      ensures processed ==> Room(old(App()), old(readBio) + Arrived(data), rest)
      ensures (forall k :: !tlsFails(k)) && Room(old(App()), old(readBio) + Arrived(data), rest) ==> processed
      ensures
        var ring := Drained(old(App()), old(readBio) + Arrived(data), rest, processed);
        && |ring| < bufferCapacity
        && (overrun <==> Overruns(ring, old(receiveAppBufferHead), bufferCapacity, messageMaxSize))
      ensures processed ==> rest <= |received| && received[|received| - rest..] == readBio
      ensures processed && !overrun ==> Drain(received[..|received| - rest]) == (delivered, App())
      ensures processed && !overrun && rest == 0 ==> Drain(received) == (delivered, App())
      ensures succeeded <==> processed && bytesTransferred > 0 && !shouldClose && accepted
      ensures isReceiveOnline <==> succeeded
      ensures !processed && !overrun ==> delivered == old(delivered) + Drain(old(App())).0
    {
      hide Drain, FirstFrame, FrameSize, Contents, Overruns, TooLarge;
      ghost var app, bio := App(), readBio + Arrived(data);
      var ok := TryPostReceive(bytesTransferred, data, rest, tlsFails);
      processed := ok;
      succeeded := false;
      if ok && bytesTransferred > 0 {
        succeeded := TryReceiveAsync(accepted);
      }
      if ok {
        MovedIsFront(app, bio, App(), readBio);
      }
      DrainLeavesIncomplete(App());
      Assoc(popped, App(), readBio);
      assert readBio + [] == readBio;
      overrun := DeliverMessages();
      if !overrun { StreamDrained(popped, App()); }
      Assoc(popped, App(), readBio);
      if ok {
        var stream := popped + App();
        assert received == stream + readBio;
        assert received[..|received| - rest] == stream && received[|received| - rest..] == readBio;
        assert rest == 0 ==> received[..|received| - rest] == received;
      }
    }
  }

  lemma MovedIsFront(app: seq<byte>, bio: seq<byte>, app': seq<byte>, bio': seq<byte>)
    requires app' + bio' == app + bio && |bio'| <= |bio|
    ensures app' == app + bio[..|bio| - |bio'|]
  {
    var n := |bio| - |bio'|;
    assert app' == (app' + bio')[..|app'|];
    assert (app + bio)[..|app| + n] == app + bio[..n];
  }

  lemma FrameLength(app: seq<byte>)
    requires FirstFrame(app).Some?
    ensures FrameSize(app) == MESSAGE_HEADER_SIZE + |FirstFrame(app).value.body|
  {
  }

  /** The body of a readable frame. */
  lemma BodyOf(app: seq<byte>)
    requires |app| >= MESSAGE_HEADER_SIZE && |app| - MESSAGE_HEADER_SIZE >= Announced(app)
    ensures FirstFrame(app) == Some(Message(TypeField(app), app[MESSAGE_HEADER_SIZE..][..Announced(app)]))
  {
    assert app[MESSAGE_HEADER_SIZE..][..Announced(app)] ==
           app[MESSAGE_HEADER_SIZE..MESSAGE_HEADER_SIZE + Announced(app)];
  }

  lemma Assoc(a: seq<byte>, b: seq<byte>, c: seq<byte>)
    ensures a + (b + c) == (a + b) + c
  {
  }

  /** The header bytes read with the split are the first bytes of the contents. */
  lemma HeaderRead(buf: seq<byte>, head: nat, tail: nat)
    requires head < |buf| && tail < |buf|
    requires GetRingBufferSize(|buf|, head, tail) >= MESSAGE_HEADER_SIZE
    ensures
      var header := ReadSplit(buf, head, MESSAGE_HEADER_SIZE);
      && TypeField(header) == TypeField(Contents(buf, head, tail))
      && SizeField(header) == SizeField(Contents(buf, head, tail))
  {
    ReadIsPrefix(buf, head, tail, MESSAGE_HEADER_SIZE);
  }

  /** Behind a stretch of whole frames, draining goes on with what follows. */
  lemma DrainOn(popped: seq<byte>, more: seq<byte>)
    requires Drain(popped).1 == []
    ensures Drain(popped + more) == (Drain(popped).0 + Drain(more).0, Drain(more).1)
  {
    hide FirstFrame, FrameSize;
    var rest := Drain(popped).1;
    DrainAppend(popped, more);
    assert rest + more == more;
  }

  /** Popping one frame extends the popped stream by exactly that frame. */
  lemma PopFirst(popped: seq<byte>, app: seq<byte>)
    requires FirstFrame(app).Some? && Drain(popped).1 == []
    ensures
      var frame := app[..FrameSize(app)];
      && popped + frame + app[FrameSize(app)..] == popped + app
      && Drain(popped + frame) == (Drain(popped).0 + [FirstFrame(app).value], [])
  {
    var frame := app[..FrameSize(app)];
    FrameAlone(app);
    DrainOn(popped, frame);
    assert app == frame + app[FrameSize(app)..];
    Assoc(popped, frame, app[FrameSize(app)..]);
  }

  /** The bytes of a first frame parse to that frame and nothing else. */
  lemma FrameAlone(app: seq<byte>)
    requires FirstFrame(app).Some?
    ensures Drain(app[..FrameSize(app)]) == ([FirstFrame(app).value], [])
  {
    var end := FrameSize(app);
    var frame := app[..end];
    assert SizeField(frame) == SizeField(app) && TypeField(frame) == TypeField(app);
    assert frame[MESSAGE_HEADER_SIZE..end] == app[MESSAGE_HEADER_SIZE..end];
    assert FirstFrame(frame) == FirstFrame(app) && FrameSize(frame) == end;
    DrainUnfold([], frame);
    assert frame[end..] == [];
    assert Drain([]) == ([], []);
    assert [] + [FirstFrame(app).value] + [] == [FirstFrame(app).value];
    assert [] + Drain(frame).0 == Drain(frame).0;
  }

  /** Delivering the first frame and draining the rest is draining the whole. */
  lemma DrainUnfold(delivered: seq<Message>, app: seq<byte>)
    ensures FirstFrame(app).Some? ==>
              var rest := app[FrameSize(app)..];
              && delivered + Drain(app).0 == delivered + [FirstFrame(app).value] + Drain(rest).0
              && Drain(app).1 == Drain(rest).1
    ensures FirstFrame(app).None? ==> Drain(app) == ([], app)
  {
  }

  lemma StreamDrained(popped: seq<byte>, app: seq<byte>)
    requires Drain(popped).1 == [] && FirstFrame(app).None?
    ensures Drain(popped + app) == (Drain(popped).0, app)
  {
    DrainOn(popped, app);
    DrainUnfold([], app);
    assert Drain(popped).0 + [] == Drain(popped).0;
  }

  /** The contiguous stretch behind the bytes already taken: it is empty only at the end, and it
      continues the queue. */
  lemma FeedStep(buf: seq<byte>, head: nat, tail: nat, taken: nat)
    requires head < |buf| && tail < |buf| && taken <= GetRingBufferSize(|buf|, head, tail)
    ensures
      var at := Advance(|buf|, head, taken);
      var n := if at <= tail then tail - at else |buf| - at;
      var pending := Contents(buf, head, tail);
      && (n == 0 <==> taken == |pending|)
      && at + n <= |buf| && taken + n <= |pending|
      && pending[..taken] + buf[at..at + n] == pending[..taken + n]
  {
  }
}
