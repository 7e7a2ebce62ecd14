/** The length-prefixed frame format of the client's TCP stream: the encoder of
    `InternalSendPbcFunc` and the decoder of `ReceivedMessageDelegate`.

    A frame is a 4-byte little-endian payload length followed by the payload.  The
    decoder computes the frame size in 32-bit unsigned arithmetic, so the model does too. */
module Framing {

  type Byte = x: int | 0 <= x < 256

  type Bytes = seq<Byte>

  const HEADER_LEN := 4

  const WORD := 0x1_0000_0000

  /** Reading the first four bytes as a `uint32`. */
  function ReadLength(b: Bytes): (n: nat)
    requires |b| >= HEADER_LEN
    ensures n < WORD
  {
    b[0] as int + 0x100 * b[1] as int + 0x1_0000 * b[2] as int + 0x100_0000 * b[3] as int
  }

  function WriteLength(n: nat): (b: Bytes)
    requires n < WORD
    ensures |b| == HEADER_LEN
  {
    [n % 0x100, n / 0x100 % 0x100, n / 0x1_0000 % 0x100, n / 0x100_0000]
  }

  /** A length is written with its least significant byte first, and read back. */
  lemma LengthRoundTrip(n: nat, tail: Bytes)
    requires n < WORD
    ensures ReadLength(WriteLength(n) + tail) == n
    ensures var b := WriteLength(n);
            b[0] as nat + 256 * (b[1] as nat + 256 * (b[2] as nat + 256 * b[3] as nat)) == n
  {
    var b := WriteLength(n) + tail;
    assert b[0] == n % 0x100 && b[1] == n / 0x100 % 0x100;
    assert b[2] == n / 0x1_0000 % 0x100 && b[3] == n / 0x100_0000;
    var hi := n / 0x100;
    assert hi / 0x100 == n / 0x1_0000 && hi / 0x1_0000 == n / 0x100_0000;
    assert hi / 0x100 / 0x100 == n / 0x100_0000;
  }

  /** A payload whose frame size does not wrap around. */
  predicate Payload(p: Bytes) {
    |p| < WORD - HEADER_LEN
  }

  predicate Payloads(ps: seq<Bytes>) {
    forall i | 0 <= i < |ps| :: Payload(ps[i])
  }

  function Encode(p: Bytes): Bytes {
    WriteLength(|p| % WORD) + p
  }

  function EncodeAll(ps: seq<Bytes>): Bytes {
    if ps == [] then [] else Encode(ps[0]) + EncodeAll(ps[1..])
  }

  function Concat(chunks: seq<Bytes>): Bytes {
    if chunks == [] then [] else chunks[0] + Concat(chunks[1..])
  }

  /** What one invocation of the decoder leaves behind: the payloads put on the message
      queue, the bytes left in the buffer, and whether it asked for an array of negative
      size, which the `TArray` constructor refuses. */
  datatype Decoded = Decoded(messages: seq<Bytes>, residual: Bytes, fault: bool)

  /** The frame size in `uint32` arithmetic. */
  function FrameSize(b: Bytes): (n: nat)
    requires |b| >= HEADER_LEN
  {
    (HEADER_LEN + ReadLength(b)) % WORD
  }

  /** The decoder's loop goes on: more than a header is there, and the frame is complete. */
  predicate Ready(b: Bytes) {
    |b| > HEADER_LEN && FrameSize(b) <= |b|
  }

  predicate Wraps(b: Bytes)
    requires |b| >= HEADER_LEN
  {
    HEADER_LEN + ReadLength(b) >= WORD
  }

  /** Decoding a buffer, one frame after the other. */
  function Decode(b: Bytes): Decoded {
    if !Ready(b) then Decoded([], b, false)
    else if Wraps(b) then Decoded([], b, true)
    else
      var n := FrameSize(b);
      var rest := Decode(b[n..]);
      rest.(messages := [b[HEADER_LEN..n]] + rest.messages)
  }

  /** One step of the decoder; the frame is never empty. */
  lemma DecodeStep(b: Bytes)
    ensures !Ready(b) ==> Decode(b) == Decoded([], b, false)
    ensures Ready(b) && Wraps(b) ==> Decode(b) == Decoded([], b, true)
    ensures Ready(b) && !Wraps(b) ==>
              && HEADER_LEN <= FrameSize(b) <= |b|
              && Decode(b) == Decode(b[FrameSize(b)..]).(
                   messages := [b[HEADER_LEN..FrameSize(b)]] + Decode(b[FrameSize(b)..]).messages)
  {
    hide ReadLength;
  }

  /** Bytes that follow do not change the frame in front. */
  lemma FrameAppend(a: Bytes, b: Bytes)
    requires Ready(a)
    ensures Ready(a + b) && FrameSize(a + b) == FrameSize(a) && (Wraps(a + b) <==> Wraps(a))
    ensures !Wraps(a) ==> HEADER_LEN <= FrameSize(a) <= |a|
    ensures !Wraps(a) ==> (a + b)[HEADER_LEN..FrameSize(a)] == a[HEADER_LEN..FrameSize(a)]
    ensures !Wraps(a) ==> (a + b)[FrameSize(a)..] == a[FrameSize(a)..] + b
  {
    ReadLengthAppend(a, b);
    hide ReadLength;
  }

  lemma ReadLengthAppend(a: Bytes, b: Bytes)
    requires |a| >= HEADER_LEN
    ensures ReadLength(a + b) == ReadLength(a)
  {
    assert forall i | 0 <= i < HEADER_LEN :: (a + b)[i] == a[i];
  }

  /** The decoder's state between invocations, in the form the code has: a buffer shrunk in
      place and a queue appended to. */
  class Decoder {
    var dataBuffer: Bytes
    var messageQueue: seq<Bytes>
    var faulted: bool

    constructor ()
      ensures dataBuffer == [] && messageQueue == [] && !faulted
    {
      dataBuffer, messageQueue, faulted := [], [], false;
    }

    method OnReceived()
      modifies this
      ensures messageQueue == old(messageQueue) + Decode(old(dataBuffer)).messages
      ensures dataBuffer == Decode(old(dataBuffer)).residual
      ensures faulted == (old(faulted) || Decode(old(dataBuffer)).fault)
    {
      hide ReadLength, Decode;
      DecodeStep(dataBuffer);
      var size := |dataBuffer|;
      ghost var done := [];
      while |dataBuffer| > HEADER_LEN
        invariant size == |dataBuffer|
        invariant faulted == old(faulted)
        invariant messageQueue == old(messageQueue) + done
        invariant Decode(old(dataBuffer)) ==
                  Decode(dataBuffer).(messages := done + Decode(dataBuffer).messages)
        decreases |dataBuffer|
      {
        DecodeStep(dataBuffer);
        var length := ReadLength(dataBuffer);
        if size < (HEADER_LEN + length) % WORD {
          return;
        }
        if HEADER_LEN + length >= WORD {
          faulted := true;
          return;
        }
        var toData := dataBuffer[HEADER_LEN..HEADER_LEN + length];
        ghost var before := dataBuffer;
        dataBuffer := dataBuffer[HEADER_LEN + length..];
        DecodeStep(before);
        assert done + ([toData] + Decode(dataBuffer).messages) == (done + [toData]) + Decode(dataBuffer).messages;
        size := |dataBuffer|;
        messageQueue := messageQueue + [toData];
        done := done + [toData];
      }
      DecodeStep(dataBuffer);
    }
  }

  // ---------------------------------------------------------------- chunking

  /** Feeding chunks one by one to a decoder whose buffer holds `residual`. */
  function DecodeChunks(residual: Bytes, chunks: seq<Bytes>): Decoded
    decreases |chunks|
  {
    if chunks == [] then Decoded([], residual, false)
    else
      var first := Decode(residual + chunks[0]);
      if first.fault then first
      else
        var rest := DecodeChunks(first.residual, chunks[1..]);
        rest.(messages := first.messages + rest.messages)
  }

  /** Nothing is left to decode in a residual. */
  lemma {:induction false} ResidualStuck(b: Bytes)
    ensures !Decode(b).fault ==> !Ready(Decode(b).residual)
    decreases |b|
  {
    hide Wraps, FrameSize, Decode;
    DecodeStep(b);
    if Ready(b) && !Wraps(b) {
      ResidualStuck(b[FrameSize(b)..]);
    }
  }

  /** Decoding `a + b` at once, or `a` first and then what it left followed by `b`. */
  lemma {:induction false} DecodeAppend(a: Bytes, b: Bytes)
    ensures var first := Decode(a);
            var rest := Decode(first.residual + b);
            && (first.fault ==> Decode(a + b).fault && Decode(a + b).messages == first.messages)
            && (!first.fault ==> Decode(a + b) == rest.(messages := first.messages + rest.messages))
    decreases |a|
  {
    hide Decode, Wraps, FrameSize;
    DecodeStep(a);
    if Ready(a) {
      FrameAppend(a, b);
      DecodeStep(a + b);
      if !Wraps(a) {
        var n := FrameSize(a);
        DecodeAppend(a[n..], b);
        var inner := Decode(a[n..]);
        var rest := Decode(inner.residual + b);
        assert ([a[HEADER_LEN..n]] + inner.messages) + rest.messages == [a[HEADER_LEN..n]] + (inner.messages + rest.messages);
      }
    } else {
      var rest := Decode(a + b);
      assert [] + rest.messages == rest.messages;
    }
  }

  /** Decoding is chunking-independent: however a byte stream is split, the same messages
      are enqueued, the decoder faults in the same cases, and if it does not, it is left
      with the same residual as decoding the whole stream at once. */
  lemma {:induction false} ChunkingIndependent(residual: Bytes, chunks: seq<Bytes>)
    requires !Ready(residual)
    ensures var parts, whole := DecodeChunks(residual, chunks), Decode(residual + Concat(chunks));
            && parts.messages == whole.messages
            && parts.fault == whole.fault
            && (!whole.fault ==> parts == whole)
    decreases |chunks|
  {
    if chunks == [] {
      assert residual + Concat(chunks) == residual;
    } else {
      var first := Decode(residual + chunks[0]);
      assert residual + Concat(chunks) == (residual + chunks[0]) + Concat(chunks[1..]);
      DecodeAppend(residual + chunks[0], Concat(chunks[1..]));
      if !first.fault {
        ResidualStuck(residual + chunks[0]);
        ChunkingIndependent(first.residual, chunks[1..]);
      }
    }
  }

  // ---------------------------------------------------------------- round trip

  lemma EncodedIsReady(p: Bytes, tail: Bytes)
    requires Payload(p)
    ensures |Encode(p) + tail| >= HEADER_LEN
    ensures ReadLength(Encode(p) + tail) == |p|
    ensures Ready(Encode(p) + tail) <==> p + tail != []
    ensures !Wraps(Encode(p) + tail) && FrameSize(Encode(p) + tail) == HEADER_LEN + |p|
    ensures (Encode(p) + tail)[HEADER_LEN..HEADER_LEN + |p|] == p
    ensures (Encode(p) + tail)[HEADER_LEN + |p|..] == tail
  {
    hide ReadLength, WriteLength;
    LengthRoundTrip(|p|, p + tail);
    assert Encode(p) + tail == WriteLength(|p|) + (p + tail);
  }

  lemma LengthWritten(b: Bytes)
    requires |b| >= HEADER_LEN
    ensures WriteLength(ReadLength(b)) == b[..HEADER_LEN]
  {
    var n := ReadLength(b);
    var h := WriteLength(n);
    BytesOfLength(b[0], b[1], b[2], b[3], n);
  }

  lemma BytesOfLength(b0: int, b1: int, b2: int, b3: int, n: int)
    requires 0 <= b0 < 0x100 && 0 <= b1 < 0x100 && 0 <= b2 < 0x100 && 0 <= b3 < 0x100
    requires n == b0 + 0x100 * b1 + 0x1_0000 * b2 + 0x100_0000 * b3
    ensures n % 0x100 == b0 && n / 0x100 % 0x100 == b1
    ensures n / 0x1_0000 % 0x100 == b2 && n / 0x100_0000 == b3
  {
    var q := b2 + 0x100 * b3;
    var p := b1 + 0x100 * q;
    LastByte(b0, p);
    LastByte(b1, q);
    LastByte(b2, b3);
    DivTwice(n);
    DivTwice(n / 0x100);
  }

  lemma LastByte(b: int, q: int)
    requires 0 <= b < 0x100
    ensures (b + 0x100 * q) % 0x100 == b && (b + 0x100 * q) / 0x100 == q
  {
  }

  lemma DivTwice(n: nat)
    ensures n / 0x100 / 0x100 == n / 0x1_0000
    ensures n / 0x100 / 0x1_0000 == n / 0x100_0000
  {
  }

  lemma ReadyIsEncoded(b: Bytes)
    requires Ready(b) && !Wraps(b)
    ensures Payload(b[HEADER_LEN..FrameSize(b)])
    ensures b == Encode(b[HEADER_LEN..FrameSize(b)]) + b[FrameSize(b)..]
  {
    hide ReadLength, WriteLength;
    LengthWritten(b);
    var n := FrameSize(b);
    var payload := b[HEADER_LEN..n];
    assert |payload| % WORD == ReadLength(b);
    assert b == (b[..HEADER_LEN] + payload) + b[n..];
  }

  /** What decoding means, without an algorithm: `ms` and `r` are the outcome of decoding
      `b` exactly when `b` is the frames of `ms` followed by `r`, `r` holds no complete
      frame, and the last frame is not an empty one with nothing behind it, which the
      decoder leaves in the buffer. */
  lemma {:induction false} DecodeCharacterized(b: Bytes, ms: seq<Bytes>, r: Bytes)
    ensures Decode(b) == Decoded(ms, r, false) <==>
            && Payloads(ms)
            && b == EncodeAll(ms) + r
            && !Ready(r)
            && (ms == [] || ms[|ms| - 1] != [] || r != [])
    decreases |b|, |ms|
  {
    hide ReadLength, WriteLength, Decode, Wraps, FrameSize, Encode;
    DecodeStep(b);
    if ms == [] {
      assert EncodeAll(ms) + r == r;
    } else {
      var p, more := ms[0], ms[1..];
      assert ms == [p] + more;
      var tail := EncodeAll(more) + r;
      assert EncodeAll(ms) + r == Encode(p) + tail;
      if Ready(b) && !Wraps(b) {
        var n := FrameSize(b);
        ReadyIsEncoded(b);
        DecodeCharacterized(b[n..], more, r);
        if Payload(p) {
          EncodedIsReady(p, tail);
        }
      } else if Payloads(ms) {
        EncodedIsReady(p, tail);
        if p + tail == [] {
          EncodeAllEmpty(more);
        }
      }
    }
  }

  /** The decoder asks for an array of negative size exactly when, behind the complete frames of
      some payloads, a header announces 2^32 - 4 bytes or more and anything at all follows it. */
  lemma {:induction false} FaultCharacterized(b: Bytes, ms: seq<Bytes>, r: Bytes)
    ensures Decode(b) == Decoded(ms, r, true) <==>
            && Payloads(ms)
            && b == EncodeAll(ms) + r
            && |r| > HEADER_LEN && ReadLength(r) >= WORD - HEADER_LEN
    decreases |b|, |ms|
  {
    WrapsWhen(r);
    hide ReadLength, WriteLength, Decode, Wraps, FrameSize, Encode;
    DecodeStep(b);
    if ms == [] {
      assert EncodeAll(ms) + r == r;
    } else {
      var p, more := ms[0], ms[1..];
      assert ms == [p] + more;
      var tail := EncodeAll(more) + r;
      assert EncodeAll(ms) + r == Encode(p) + tail;
      if Ready(b) && !Wraps(b) {
        ReadyIsEncoded(b);
        FaultCharacterized(b[FrameSize(b)..], more, r);
        if Payload(p) {
          EncodedIsReady(p, tail);
        }
      } else if Payloads(ms) && r != [] {
        EncodedIsReady(p, tail);
      }
    }
  }

  /** With such a length the 32-bit frame size is at most 3, so the frame counts as complete. */
  lemma WrapsWhen(b: Bytes)
    ensures Ready(b) && Wraps(b) <==> |b| > HEADER_LEN && ReadLength(b) >= WORD - HEADER_LEN
  {
    hide ReadLength;
  }

  /** Five bytes are enough. */
  lemma FiveBytesFault()
    ensures Decode([255, 255, 255, 255, 0]) == Decoded([], [255, 255, 255, 255, 0], true)
  {
    var b: Bytes := [255, 255, 255, 255, 0];
    assert ReadLength(b) == WORD - 1;
    assert EncodeAll([]) + b == b;
    FaultCharacterized(b, [], b);
  }

  lemma EncodeAllEmpty(ps: seq<Bytes>)
    ensures EncodeAll(ps) == [] ==> ps == []
  {
  }

  lemma {:induction false} EncodeAllAppend(ps: seq<Bytes>, qs: seq<Bytes>)
    ensures EncodeAll(ps + qs) == EncodeAll(ps) + EncodeAll(qs)
  {
    if ps == [] {
      assert ps + qs == qs;
    } else {
      assert (ps + qs)[1..] == ps[1..] + qs;
      EncodeAllAppend(ps[1..], qs);
    }
  }

  lemma EncodedEmpty()
    ensures EncodeAll([[]]) == [0, 0, 0, 0]
    ensures !Ready([0, 0, 0, 0])
  {
    assert EncodeAll([[]]) == Encode([]) + EncodeAll([]);
    assert Encode([]) == WriteLength(0);
  }

  lemma RoundTripTrailingEmpty(front: seq<Bytes>)
    requires Payloads(front)
    ensures Decode(EncodeAll(front + [[]])) == Decoded(front, [0, 0, 0, 0], false)
  {
    hide *;
    EncodedEmpty();
    EncodeAllAppend(front, [[]]);
    DecodeCharacterized(EncodeAll(front + [[]]), front, [0, 0, 0, 0]);
  }

  lemma PayloadsPrefix(ps: seq<Bytes>, n: nat)
    requires Payloads(ps) && n <= |ps|
    ensures Payloads(ps[..n])
  {
  }

  lemma NotReadyEmpty()
    ensures !Ready([])
  {
  }

  /** Payloads encoded and concatenated come out identical, in order and with an empty
      residual, exactly when the last one is not empty.  The `> 4` of the decoder's loop
      (and not `>= 4`) is what holds a trailing empty payload back. */
  lemma RoundTrip(ps: seq<Bytes>)
    requires Payloads(ps)
    ensures Decode(EncodeAll(ps)) == Decoded(ps, [], false) <==> ps == [] || ps[|ps| - 1] != []
    ensures ps != [] && ps[|ps| - 1] == [] ==>
              Decode(EncodeAll(ps)) == Decoded(ps[..|ps| - 1], [0, 0, 0, 0], false)
  {
    hide *;
    if ps != [] && ps[|ps| - 1] == [] {
      var front := ps[..|ps| - 1];
      assert ps == front + [[]];
      PayloadsPrefix(ps, |ps| - 1);
      RoundTripTrailingEmpty(front);
    } else {
      assert EncodeAll(ps) + [] == EncodeAll(ps);
      NotReadyEmpty();
      DecodeCharacterized(EncodeAll(ps), ps, []);
    }
  }

  /** The two together: payloads that end with a non-empty one survive any re-chunking. */
  lemma RoundTripChunked(ps: seq<Bytes>, chunks: seq<Bytes>)
    requires Payloads(ps) && (ps == [] || ps[|ps| - 1] != [])
    requires Concat(chunks) == EncodeAll(ps)
    ensures DecodeChunks([], chunks) == Decoded(ps, [], false)
  {
    ChunkingIndependent([], chunks);
    assert [] + Concat(chunks) == Concat(chunks);
    RoundTrip(ps);
  }

  /** A receiver that has so far seen only part of the encoded stream has enqueued a
      prefix of the payloads, and has not faulted. */
  lemma PrefixDelivery(ps: seq<Bytes>, received: Bytes)
    requires Payloads(ps)
    requires received <= EncodeAll(ps)
    ensures !Decode(received).fault
    ensures Decode(received).messages <= ps
  {
    hide Decode, EncodeAll, ReadLength, Ready;
    var missing := EncodeAll(ps)[|received|..];
    assert EncodeAll(ps) == received + missing;
    DecodeAppend(received, missing);
    RoundTrip(ps);
  }
}
