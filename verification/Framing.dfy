/** The wire format: a four byte header, message type and body size as 16-bit fields in network byte
    order, followed by the body. */
module Framing {
  import opened Types

  const MESSAGE_HEADER_SIZE: nat := 4

  datatype Message = Message(messageType: uint16, body: seq<byte>)

  /** Masking and shifting written as quotient and remainder: the two bytes change places. */
  function Htons(value: uint16): uint16 {
    value / 0x100 + (value % 0x100) * 0x100
  }

  /** A 16-bit field of the header struct as it lies in memory on the little-endian host. */
  function StoreField(v: uint16): (r: seq<byte>)
    ensures |r| == 2
  {
    [v % 0x100, v / 0x100]
  }

  /** Reading such a field back at its offset in the struct. */
  function LoadField(s: seq<byte>, at: nat): uint16
    requires at + 2 <= |s|
  {
    var low: int, high: int := s[at], s[at + 1];
    low + high * 0x100
  }

  /** The conversion of a body length to the 16-bit parameter of Htons. */
  function Truncate16(n: nat): uint16 {
    n % 0x1_0000
  }

  /** The bytes PushMessage queues for one message. */
  function Encode(m: Message): (r: seq<byte>)
    ensures |r| == MESSAGE_HEADER_SIZE + |m.body|
  {
    StoreField(Htons(m.messageType)) + StoreField(Htons(Truncate16(|m.body|))) + m.body
  }

  function EncodeAll(ms: seq<Message>): seq<byte> {
    if ms == [] then [] else Encode(ms[0]) + EncodeAll(ms[1..])
  }

  function TypeField(s: seq<byte>): uint16
    requires |s| >= MESSAGE_HEADER_SIZE
  {
    Htons(LoadField(s, 0))
  }

  function SizeField(s: seq<byte>): uint16
    requires |s| >= MESSAGE_HEADER_SIZE
  {
    Htons(LoadField(s, 2))
  }

  /** The body size a complete header announces. */
  function Announced(s: seq<byte>): nat
    requires |s| >= MESSAGE_HEADER_SIZE
  {
    SizeField(s)
  }

  /** The first frame of a byte queue, None while it is incomplete. */
  function FirstFrame(s: seq<byte>): Option<Message> {
    if |s| < MESSAGE_HEADER_SIZE || |s| - MESSAGE_HEADER_SIZE < Announced(s) then None
    else Some(Message(TypeField(s), s[MESSAGE_HEADER_SIZE..MESSAGE_HEADER_SIZE + Announced(s)]))
  }

  function FrameSize(s: seq<byte>): (n: nat)
    requires FirstFrame(s).Some?
    ensures MESSAGE_HEADER_SIZE <= n <= |s|
  {
    MESSAGE_HEADER_SIZE + Announced(s)
  }

  /** All complete frames of a byte queue, and the bytes left over. */
  function Drain(s: seq<byte>): (seq<Message>, seq<byte>)
    decreases |s|
  {
    match FirstFrame(s)
    case None => ([], s)
    case Some(m) =>
      var (ms, rest) := Drain(s[FrameSize(s)..]);
      ([m] + ms, rest)
  }

  // ---- one frame ----

  lemma HtonsInvolution(v: uint16)
    ensures Htons(Htons(v)) == v
  {
    var q, r := v / 0x100, v % 0x100;
    assert (q + r * 0x100) / 0x100 == r && (q + r * 0x100) % 0x100 == q;
  }

  lemma LoadStore(v: uint16)
    ensures LoadField(StoreField(v), 0) == v
  {
    assert v == v % 0x100 + (v / 0x100) * 0x100;
  }

  lemma FieldRoundTrip(v: uint16)
    ensures Htons(LoadField(StoreField(Htons(v)), 0)) == v
  {
    hide Htons, StoreField, LoadField;
    LoadStore(Htons(v));
    HtonsInvolution(v);
  }

  /** The header of an encoded message announces its length modulo 2^16. */
  lemma HeaderOfEncode(m: Message, rest: seq<byte>)
    ensures Announced(Encode(m) + rest) == |m.body| % 0x1_0000
    ensures TypeField(Encode(m) + rest) == m.messageType
  {
    hide Htons;
    var s := Encode(m) + rest;
    var size := StoreField(Htons(Truncate16(|m.body|)));
    assert s[2] == size[0] && s[3] == size[1];
    FieldRoundTrip(m.messageType);
    FieldRoundTrip(Truncate16(|m.body|));
  }

  /** The bytes of a frame: both fields of the header have their high byte first, and the body follows. */
  lemma EncodeLayout(m: Message)
    ensures
      var frame := Encode(m);
      var t0: int, t1: int, n0: int, n1: int := frame[0], frame[1], frame[2], frame[3];
      t0 * 0x100 + t1 == m.messageType && n0 * 0x100 + n1 == |m.body| % 0x1_0000 && frame[4..] == m.body
  {
    hide Htons, StoreField;
    var t, n := StoreField(Htons(m.messageType)), StoreField(Htons(Truncate16(|m.body|)));
    StoredLayout(m.messageType);
    StoredLayout(Truncate16(|m.body|));
    assert Encode(m) == t + n + m.body;
    assert Encode(m)[0] == t[0] && Encode(m)[1] == t[1] && Encode(m)[2] == n[0] && Encode(m)[3] == n[1];
  }

  lemma StoredLayout(v: uint16)
    ensures var s := StoreField(Htons(v)); var high: int, low: int := s[0], s[1]; high * 0x100 + low == v
  {
    var q, r := v / 0x100, v % 0x100;
    assert (q + r * 0x100) / 0x100 == r && (q + r * 0x100) % 0x100 == q;
  }

  /** What is read as a frame: it is complete exactly when the bytes that bytes 2 and 3 announce are there. */
  lemma FrameLayout(s: seq<byte>)
    ensures |s| < 4 ==> FirstFrame(s).None?
    ensures |s| >= 4 ==>
              var t0: int, t1: int, n0: int, n1: int := s[0], s[1], s[2], s[3];
              var size := n0 * 0x100 + n1;
              FirstFrame(s) == if |s| - 4 < size then None else Some(Message(t0 * 0x100 + t1, s[4..4 + size]))
  {
    if |s| >= 4 {
      FieldLayout(s, 0);
      FieldLayout(s, 2);
    }
  }

  lemma FieldLayout(s: seq<byte>, at: nat)
    requires at + 2 <= |s|
    ensures var high: int, low: int := s[at], s[at + 1]; Htons(LoadField(s, at)) == high * 0x100 + low
  {
    var low: int, high: int := s[at], s[at + 1];
    assert (low + high * 0x100) / 0x100 == high && (low + high * 0x100) % 0x100 == low;
  }

  /** A message survives the encoding, whatever follows it, exactly when its body length fits the
      16-bit field; a longer body comes back cut to its length modulo 2^16. */
  lemma FrameRoundTrip(m: Message, rest: seq<byte>)
    ensures FirstFrame(Encode(m) + rest) == Some(Message(m.messageType, m.body[..|m.body| % 0x1_0000]))
    ensures FirstFrame(Encode(m) + rest) == Some(m) <==> |m.body| < 0x1_0000
  {
    hide StoreField, Htons, TypeField, Announced;
    HeaderOfEncode(m, rest);
    var s, n := Encode(m) + rest, |m.body| % 0x1_0000;
    assert s[MESSAGE_HEADER_SIZE..MESSAGE_HEADER_SIZE + n] == m.body[..n];
  }

  /** A proper prefix of a frame is never taken for a frame. */
  lemma StrictPrefixIncomplete(m: Message, n: nat)
    requires |m.body| < 0x1_0000 && n < |Encode(m)|
    ensures FirstFrame(Encode(m)[..n]) == None
  {
    HeaderOfEncode(m, []);
    assert Encode(m) + [] == Encode(m);
    if n >= MESSAGE_HEADER_SIZE {
      assert SizeField(Encode(m)[..n]) == SizeField(Encode(m));
    }
  }

  // ---- streams ----

  ghost predicate Sendable(ms: seq<Message>) {
    forall i :: 0 <= i < |ms| ==> |ms[i].body| < 0x1_0000
  }

  lemma DrainOneFrame(m: Message, rest: seq<byte>)
    requires |m.body| < 0x1_0000
    ensures Drain(Encode(m) + rest) == ([m] + Drain(rest).0, Drain(rest).1)
  {
    FrameRoundTrip(m, rest);
    HeaderOfEncode(m, rest);
    assert (Encode(m) + rest)[FrameSize(Encode(m) + rest)..] == rest;
  }

  /** Any sequence of messages followed by an incomplete frame parses back to exactly that sequence,
      leaving exactly the incomplete frame. */
  lemma {:induction false} StreamRoundTrip(ms: seq<Message>, p: seq<byte>)
    requires Sendable(ms) && FirstFrame(p) == None
    ensures Drain(EncodeAll(ms) + p) == (ms, p)
  {
    if ms == [] {
      assert EncodeAll(ms) + p == p;
      assert Drain(p) == ([], p);
    } else {
      var rest := EncodeAll(ms[1..]) + p;
      assert EncodeAll(ms) + p == Encode(ms[0]) + rest;
      StreamRoundTrip(ms[1..], p);
      DrainOneFrame(ms[0], rest);
      assert [ms[0]] + ms[1..] == ms;
    }
  }

  lemma {:induction false} EncodeAllAppend(a: seq<Message>, b: seq<Message>)
    ensures EncodeAll(a + b) == EncodeAll(a) + EncodeAll(b)
  {
    if a == [] {
      assert a + b == b;
    } else {
      assert (a + b)[1..] == a[1..] + b;
      EncodeAllAppend(a[1..], b);
      assert (a + b)[0] == a[0];
      assert Encode(a[0]) + (EncodeAll(a[1..]) + EncodeAll(b)) == Encode(a[0]) + EncodeAll(a[1..]) + EncodeAll(b);
    }
  }

  /** A complete first frame does not change when more bytes arrive. */
  lemma FirstFrameStable(a: seq<byte>, b: seq<byte>)
    requires FirstFrame(a).Some?
    ensures FirstFrame(a + b) == FirstFrame(a) && FrameSize(a + b) == FrameSize(a)
    ensures (a + b)[FrameSize(a)..] == a[FrameSize(a)..] + b
  {
    var end := FrameSize(a);
    assert (a + b)[MESSAGE_HEADER_SIZE..end] == a[MESSAGE_HEADER_SIZE..end];
  }

  /** Draining early and continuing later is the same as draining everything at once. */
  lemma {:induction false} DrainAppend(a: seq<byte>, b: seq<byte>)
    ensures
      var (ms, rest) := Drain(a);
      Drain(a + b) == (ms + Drain(rest + b).0, Drain(rest + b).1)
    decreases |a|
  {
    hide FirstFrame, FrameSize;
    if FirstFrame(a).Some? {
      FirstFrameStable(a, b);
      DrainAppend(a[FrameSize(a)..], b);
      var (ms, rest) := Drain(a[FrameSize(a)..]);
      assert Drain(a) == ([FirstFrame(a).value] + ms, rest);
      assert [FirstFrame(a).value] + ms + Drain(rest + b).0 == [FirstFrame(a).value] + (ms + Drain(rest + b).0);
    } else {
      assert Drain(a) == ([], a);
      assert [] + Drain(a + b).0 == Drain(a + b).0;
    }
  }

  lemma {:induction false} DrainLeavesIncomplete(s: seq<byte>)
    ensures FirstFrame(Drain(s).1) == None
    decreases |s|
  {
    if FirstFrame(s).Some? {
      DrainLeavesIncomplete(s[FrameSize(s)..]);
    }
  }

  /** The receiver's view: drain after each chunk, keeping what is left for the next one. */
  function DrainChunks(chunks: seq<seq<byte>>): (seq<Message>, seq<byte>) {
    if chunks == [] then ([], [])
    else
      var (ms, rest) := DrainChunks(chunks[..|chunks| - 1]);
      var (more, rest') := Drain(rest + chunks[|chunks| - 1]);
      (ms + more, rest')
  }

  lemma {:induction false} FragmentationInvisible(chunks: seq<seq<byte>>)
    ensures DrainChunks(chunks) == Drain(Concat(chunks))
  {
    if chunks == [] {
      assert FirstFrame([]) == None;
    } else {
      var front := chunks[..|chunks| - 1];
      FragmentationInvisible(front);
      DrainAppend(Concat(front), chunks[|chunks| - 1]);
    }
  }

  /** Framing round trip: however the encoded stream is cut into chunks, the peek/pop loop returns
      exactly the messages sent and keeps exactly the incomplete tail. */
  lemma FramingRoundTrip(ms: seq<Message>, last: Message, n: nat, chunks: seq<seq<byte>>)
    requires Sendable(ms) && |last.body| < 0x1_0000 && n < |Encode(last)|
    requires Concat(chunks) == EncodeAll(ms) + Encode(last)[..n]
    ensures DrainChunks(chunks) == (ms, Encode(last)[..n])
  {
    StrictPrefixIncomplete(last, n);
    StreamRoundTrip(ms, Encode(last)[..n]);
    FragmentationInvisible(chunks);
  }

  // ---- frames that fit the buffers ----

  ghost predicate AllFit(ms: seq<Message>, limit: nat) {
    forall k :: 0 <= k < |ms| ==> |ms[k].body| <= limit
  }

  lemma AllFitParts(a: seq<Message>, b: seq<Message>, limit: nat)
    requires AllFit(a + b, limit)
    ensures AllFit(a, limit) && AllFit(b, limit)
  {
    assert forall k :: 0 <= k < |a| ==> a[k] == (a + b)[k];
    assert forall k :: 0 <= k < |b| ==> b[k] == (a + b)[|a| + k];
  }

  /** Every complete frame of the stream has a body of at most `limit` bytes. */
  ghost predicate FramesFit(s: seq<byte>, limit: nat) {
    AllFit(Drain(s).0, limit)
  }

  lemma FirstFits(s: seq<byte>, limit: nat)
    requires FramesFit(s, limit) && FirstFrame(s).Some?
    ensures |FirstFrame(s).value.body| <= limit
  {
    assert Drain(s).0[0] == FirstFrame(s).value;
  }
}
