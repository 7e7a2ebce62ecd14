/** The socket thread of one connection: the partial-send loop, the partial-receive loop and
    the two buffers it shares with the game thread.

    The socket and the game thread are an environment that is free to do anything: a script
    gives, for every step at which the thread looks at shared state or at the socket, what
    the game thread did just before and how the socket answers.  Every finite prefix of every
    execution is a run of `Run` on some script. */
module TcpSocketRunnable {
  import opened Framing

  /** One step of the environment: buffers the game thread enqueued, messages it took, whether
      it asked for a stop, and the answer of the socket operation that follows. */
  datatype Env = Env(
    sends: seq<Bytes>, ticks: nat, stop: bool,
    connected: bool, ok: bool, count: nat, incoming: Bytes)

  function Min(a: nat, b: nat): nat {
    if a < b then a else b
  }

  lemma {:induction false} ConcatAppend(a: seq<Bytes>, b: seq<Bytes>)
    ensures Concat(a + b) == Concat(a) + Concat(b)
  {
    if a == [] {
      assert a + b == b;
    } else {
      assert (a + b)[1..] == a[1..] + b;
      ConcatAppend(a[1..], b);
    }
  }

  lemma PieceOfFront(buffers: seq<Bytes>, from: nat, n: nat)
    requires buffers != [] && from + n <= |buffers[0]|
    ensures from + n <= |Concat(buffers)|
    ensures Concat(buffers)[from..] == buffers[0][from..from + n] + Concat(buffers)[from + n..]
  {
    assert Concat(buffers) == buffers[0] + Concat(buffers[1..]);
  }

  // ---------------------------------------------------------------- an environment that lets it work

  /** From step `from` on the connection is up, no operation fails, nobody asks for a stop and
      nothing more is enqueued. */
  predicate Calm(script: seq<Env>, from: nat) {
    forall i | from <= i < |script| ::
      script[i].connected && script[i].ok && !script[i].stop && script[i].sends == []
  }

  /** From there on every operation gets at least one byte across; ... */
  predicate Moves(script: seq<Env>, from: nat) {
    forall i | from <= i < |script| :: script[i].count > 0 && script[i].incoming != []
  }

  /** ... or sends a whole buffer at once. */
  predicate SendsWhole(script: seq<Env>, from: nat, buffers: seq<Bytes>) {
    forall i, j | from <= i < |script| && 0 <= j < |buffers| :: |buffers[j]| <= script[i].count
  }

  /** The most steps it then takes to send a buffer, or to read as many bytes. */
  function Steps(n: nat): nat {
    if n == 0 then 1 else n
  }

  /** The most steps it takes to empty the queue, with a look at it after each buffer. */
  function Work(buffers: seq<Bytes>): nat {
    if buffers == [] then 0 else Steps(|buffers[0]|) + 1 + Work(buffers[1..])
  }

  /** The next `n` bytes that arrive from step `from` on. */
  function Arriving(script: seq<Env>, from: nat, n: nat): (r: Bytes)
    ensures |r| <= n
    decreases |script| - from
  {
    if n == 0 || from >= |script| then []
    else
      var k := Min(|script[from].incoming|, n);
      script[from].incoming[..k] + Arriving(script, from + 1, n - k)
  }

  /** The connection is up at step `from`, no stop has been asked for, and from then on the
      environment is calm and moves on. */
  predicate Working(script: seq<Env>, from: nat, stopped: bool) {
    && from < |script| && script[from].connected && !script[from].stop && !stopped
    && Calm(script, from + 1) && Moves(script, from + 1)
  }

  lemma CalmLater(script: seq<Env>, from: nat, i: nat)
    requires from <= i
    ensures Calm(script, from) ==> Calm(script, i)
    ensures Moves(script, from) ==> Moves(script, i)
  {
  }

  /** One more look at the state while it works: at the first, nobody asks for a stop; later it is
      calm, too. */
  lemma WorksAt(script: seq<Env>, from: nat, i: nat, stopped: bool)
    requires Working(script, from, stopped) && from <= i
    ensures i < |script| ==> script[i].connected && !script[i].stop && (i > from ==> script[i].sends == [])
    ensures from < |script| && !stopped && Calm(script, i + 1) && Moves(script, i + 1)
  {
  }

  lemma CalmAt(script: seq<Env>, from: nat, i: nat)
    requires Calm(script, from) && from <= i < |script|
    ensures script[i].connected && script[i].ok && !script[i].stop && script[i].sends == []
  {
  }

  lemma MovesAt(script: seq<Env>, from: nat, i: nat)
    requires Moves(script, from) && from <= i < |script|
    ensures script[i].count > 0 && script[i].incoming != []
  {
  }

  lemma NoneLeft(script: seq<Env>, from: nat, got: Bytes)
    ensures got + Arriving(script, from, 0) == got
  {
  }

  /** One more piece has arrived. */
  lemma ArrivingNext(script: seq<Env>, from: nat, n: nat, k: nat, got: Bytes, all: Bytes)
    requires from < |script| && k == Min(|script[from].incoming|, n) && got + Arriving(script, from, n) == all
    ensures (got + script[from].incoming[..k]) + Arriving(script, from + 1, n - k) == all
  {
    if n > 0 {
      var piece, rest := script[from].incoming[..k], Arriving(script, from + 1, n - k);
      assert (got + piece) + rest == got + (piece + rest);
    }
  }

  /** The bytes that were pending at step `ask`, if the script goes on for long enough, are received
      behind `received` and decoded. */
  predicate PendingIsRead(script: seq<Env>, ask: nat, received: Bytes, decoded: Bytes) {
    ask < |script| && ask + 1 + script[ask].count <= |script| ==>
      received + Arriving(script, ask + 1, script[ask].count) <= decoded
  }

  lemma ReadLater(script: seq<Env>, ask: nat, received: Bytes, decoded: Bytes, more: Bytes)
    requires decoded <= more
    ensures PendingIsRead(script, ask, received, decoded) ==> PendingIsRead(script, ask, received, more)
  {
  }

  /** Their number does not depend on how they arrive. */
  lemma {:induction false} AllArrive(script: seq<Env>, from: nat, n: nat)
    requires Moves(script, from) && from + n <= |script|
    ensures |Arriving(script, from, n)| == n
    decreases n
  {
    if n > 0 {
      AllArrive(script, from + 1, n - Min(|script[from].incoming|, n));
    }
  }

  // ---------------------------------------------------------------- the socket thread

  /** The state shared by the two threads, with the history of the current connection. */
  class Shared {
    var sendBuffer: seq<Bytes>
    const decoder: Decoder

    // All buffers enqueued and all bytes the peer can have seen since Connect.
    ghost var enqueued: seq<Bytes>
    ghost var wire: Bytes
    // How much of the buffer in front has been sent: the loop's SendedCount.
    ghost var sentOfFront: nat
    // All bytes read from the socket, those of them handed to the decoder, and the messages
    // the decoder has put on the queue and what it left in the buffer.
    ghost var received: Bytes
    ghost var decoded: Bytes
    ghost var delivered: seq<Bytes>
    ghost var residual: Bytes
    // Messages that were still queued at Connect, and those the game thread has taken since.
    ghost var carried: seq<Bytes>
    ghost var taken: seq<Bytes>

    /** Nothing of what was enqueued is lost, repeated or reordered on its way to the wire. */
    ghost predicate SendConserved()
      reads this
    {
      && sentOfFront <= |Concat(sendBuffer)|
      && (sendBuffer == [] ==> sentOfFront == 0)
      && (sendBuffer != [] ==> sentOfFront <= |sendBuffer[0]|)
      && wire + Concat(sendBuffer)[sentOfFront..] == Concat(enqueued)
    }

    /** What has been delivered is the decoding, in one piece, of bytes really received, and
        the game thread gets it once and in order. */
    ghost predicate Delivered()
      reads this, decoder
    {
      && decoded <= received
      && delivered == Decode(decoded).messages
      && decoder.faulted == Decode(decoded).fault
      && (!decoder.faulted ==> residual == Decode(decoded).residual)
      && taken + decoder.messageQueue == carried + delivered
    }

    ghost predicate Valid()
      reads this, decoder
    {
      SendConserved() && Delivered()
    }

    /** The thread is between two rounds: no buffer is partly sent, and all that was received
        has been given to the decoder. */
    ghost predicate Idle()
      reads this, decoder
    {
      && sentOfFront == 0
      && decoder.dataBuffer == residual
      && decoded == received
      && !decoder.faulted
    }

    /** The peer can have seen nothing but a prefix of what was enqueued. */
    lemma WireIsPrefix()
      requires Valid()
      ensures wire <= Concat(enqueued)
    {
    }

    constructor ()
      ensures Valid()
      ensures sendBuffer == [] && decoder.dataBuffer == []
      ensures fresh(decoder)
      ensures enqueued == [] && received == []
      ensures Idle()
    {
      decoder := new Decoder();
      sendBuffer := [];
      enqueued, wire, sentOfFront := [], [], 0;
      received, decoded, delivered, residual := [], [], [], [];
      carried, taken := [], [];
    }

    /** `Empty` on both buffers: the history of a new connection starts. */
    method Reset()
      requires !decoder.faulted
      modifies this, decoder`dataBuffer
      ensures Valid() && Idle()
      ensures sendBuffer == [] && decoder.dataBuffer == []
      ensures enqueued == [] && wire == [] && received == [] && delivered == [] && taken == []
      ensures carried == decoder.messageQueue
    {
      sendBuffer := [];
      decoder.dataBuffer := [];
      enqueued, wire, sentOfFront := [], [], 0;
      received, decoded, delivered, residual := [], [], [], [];
      carried, taken := decoder.messageQueue, [];
    }

    /** What the game thread may do between two steps of the socket thread: it only appends
        to the send queue and only takes from the message queue. */
    method Interfere(e: Env)
      requires Valid()
      modifies this`sendBuffer, this`enqueued, this`taken, decoder`messageQueue
      ensures Valid()
      ensures sendBuffer == old(sendBuffer) + e.sends
      ensures enqueued == old(enqueued) + e.sends
      ensures decoder.messageQueue == old(decoder.messageQueue)[Min(e.ticks, |old(decoder.messageQueue)|)..]
    {
      hide Decode, Concat;
      ConcatAppend(sendBuffer, e.sends);
      ConcatAppend(enqueued, e.sends);
      ghost var unsent := Concat(sendBuffer)[sentOfFront..];
      assert (Concat(sendBuffer) + Concat(e.sends))[sentOfFront..] == unsent + Concat(e.sends);
      assert wire + (unsent + Concat(e.sends)) == (wire + unsent) + Concat(e.sends);
      sendBuffer := sendBuffer + e.sends;
      enqueued := enqueued + e.sends;
      var n := Min(e.ticks, |decoder.messageQueue|);
      assert decoder.messageQueue == decoder.messageQueue[..n] + decoder.messageQueue[n..];
      taken := taken + decoder.messageQueue[..n];
      decoder.messageQueue := decoder.messageQueue[n..];
    }
  }

  class Runnable {
    const shared: Shared
    var connectionError: bool
    var manuallyStop: bool
    // How many steps of the script have been used.
    var pos: nat

    ghost predicate Valid()
      reads this, shared, shared.decoder
    {
      shared.Valid()
    }

    constructor (shared: Shared)
      requires shared.Valid()
      ensures this.shared == shared
      ensures Valid() && !connectionError && !manuallyStop && pos == 0
    {
      this.shared := shared;
      connectionError, manuallyStop, pos := false, false, 0;
    }

    method Stop()
      modifies this`manuallyStop
      ensures manuallyStop
    {
      manuallyStop := true;
    }

    /** The next step of the environment, or None at the end of the script. */
    method Observe(script: seq<Env>) returns (more: bool, e: Env)
      requires Valid()
      modifies this`pos, this`manuallyStop, shared`sendBuffer, shared`enqueued, shared`taken, shared.decoder`messageQueue
      ensures Valid()
      ensures more == (old(pos) < |script|)
      ensures !more ==> pos == old(pos) >= |script| && shared.sendBuffer == old(shared.sendBuffer)
      ensures more ==> pos == old(pos) + 1 && e == script[old(pos)]
      ensures more ==> shared.sendBuffer == old(shared.sendBuffer) + e.sends
      ensures more ==> shared.enqueued == old(shared.enqueued) + e.sends
      ensures old(shared.enqueued) <= shared.enqueued
      ensures manuallyStop <==> old(manuallyStop) || (more && e.stop)
    {
      if pos >= |script| {
        return false, Env([], 0, false, false, false, 0, []);
      }
      more, e := true, script[pos];
      pos := pos + 1;
      shared.Interfere(e);
      if e.stop {
        manuallyStop := true;
      }
    }

    /** Sending the buffer in front of the queue, in as many pieces as the socket likes. */
    method SendFront(script: seq<Env>) returns (more: bool)
      requires Valid() && shared.sendBuffer != [] && shared.sentOfFront == 0
      requires !connectionError
      modifies this, shared`sendBuffer, shared`enqueued, shared`taken, shared`wire, shared`sentOfFront
      modifies shared.decoder`messageQueue
      ensures Valid()
      ensures old(pos) <= pos && (more ==> old(pos) < pos <= |script|)
      ensures more && !connectionError ==>
                && shared.sentOfFront == 0
                && shared.wire == old(shared.wire) + old(shared.sendBuffer)[0]
      ensures old(shared.wire) <= shared.wire <= old(shared.wire) + old(shared.sendBuffer)[0]
      ensures old(shared.enqueued) <= shared.enqueued
      ensures !more ==> pos >= |script|
      ensures old(manuallyStop) ==> manuallyStop
      // In a calm environment it gets done.
      ensures Calm(script, old(pos)) ==>
                && !connectionError && manuallyStop == old(manuallyStop)
                && shared.sendBuffer == if more then old(shared.sendBuffer)[1..] else old(shared.sendBuffer)
      ensures Calm(script, old(pos)) && Moves(script, old(pos)) &&
              old(pos) + Steps(|old(shared.sendBuffer)[0]|) <= |script| ==>
                more && pos <= old(pos) + Steps(|old(shared.sendBuffer)[0]|)
      ensures Calm(script, old(pos)) && old(pos) < |script| &&
              |old(shared.sendBuffer)[0]| <= script[old(pos)].count ==>
                more && pos == old(pos) + 1
    {
      hide Decode, Concat, Calm, Moves, Shared.SendConserved, Shared.Delivered;
      ghost var calm, moves := Calm(script, pos), Moves(script, pos);
      var buffer := shared.sendBuffer[0];
      var totalCount := |buffer|;
      var sendedCount := 0;
      var first := true;
      assert buffer[..0] == [];
      while first || sendedCount < totalCount
        invariant Valid()
        invariant shared.sendBuffer != [] && shared.sendBuffer[0] == buffer
        invariant shared.sentOfFront == sendedCount <= totalCount
        invariant shared.wire == old(shared.wire) + buffer[..sendedCount]
        invariant old(shared.enqueued) <= shared.enqueued
        invariant !connectionError
        invariant old(pos) <= pos && (!first ==> old(pos) < pos <= |script|)
        invariant first ==> pos == old(pos)
        invariant old(manuallyStop) ==> manuallyStop
        invariant calm ==> manuallyStop == old(manuallyStop) && shared.sendBuffer == old(shared.sendBuffer)
        invariant calm && moves ==> pos <= old(pos) + if totalCount == 0 && !first then 1 else sendedCount
        invariant !first && totalCount <= script[old(pos)].count ==> sendedCount == totalCount && pos == old(pos) + 1
        decreases |script| - pos
      {
        var e;
        more, e := Observe(script);
        if !more {
          return false;
        }
        if calm {
          CalmAt(script, old(pos), pos - 1);
        }
        if moves {
          MovesAt(script, old(pos), pos - 1);
        }
        if !e.ok {
          connectionError := true;
          return true;
        }
        var bytesSent := Min(e.count, totalCount - sendedCount);
        SendStep(bytesSent);
        assert buffer[..sendedCount + bytesSent] == buffer[..sendedCount] + buffer[sendedCount..sendedCount + bytesSent];
        sendedCount := sendedCount + bytesSent;
        first := false;
      }
      more := true;
      assert buffer[..totalCount] == buffer;
      PopFront();
    }

    /** The socket accepts `n` more bytes of the buffer in front. */
    method SendStep(n: nat)
      requires Valid() && shared.sendBuffer != []
      requires shared.sentOfFront + n <= |shared.sendBuffer[0]|
      modifies shared`wire, shared`sentOfFront
      ensures Valid()
      ensures shared.sentOfFront == old(shared.sentOfFront) + n
      ensures shared.wire == old(shared.wire) + shared.sendBuffer[0][old(shared.sentOfFront)..shared.sentOfFront]
    {
      hide Decode, Concat;
      ghost var from := shared.sentOfFront;
      ghost var piece := shared.sendBuffer[0][from..from + n];
      PieceOfFront(shared.sendBuffer, from, n);
      ghost var rest := Concat(shared.sendBuffer)[from + n..];
      assert shared.wire + (piece + rest) == (shared.wire + piece) + rest;
      shared.wire := shared.wire + piece;
      shared.sentOfFront := from + n;
    }

    method PopFront()
      requires Valid() && shared.sendBuffer != []
      requires shared.sentOfFront == |shared.sendBuffer[0]|
      modifies shared`sendBuffer, shared`sentOfFront
      ensures Valid()
      ensures shared.sendBuffer == old(shared.sendBuffer)[1..] && shared.sentOfFront == 0
    {
      ghost var front, rest := shared.sendBuffer[0], Concat(shared.sendBuffer[1..]);
      assert (front + rest)[|front|..] == rest[0..];
      shared.sendBuffer := shared.sendBuffer[1..];
      shared.sentOfFront := 0;
    }

    /** The buffer holds the residual followed by the bytes `got` from the socket. */
    method NewDataReceived(ghost got: Bytes)
      requires Valid() && !shared.decoder.faulted
      requires shared.received == shared.decoded + got
      requires shared.decoder.dataBuffer == shared.residual + got
      modifies shared`decoded, shared`delivered, shared`residual, shared.decoder
      ensures Valid()
      ensures shared.decoded == shared.received && shared.residual == shared.decoder.dataBuffer
      ensures shared.delivered == old(shared.delivered) + Decode(old(shared.residual) + got).messages
    {
      hide Decode, Concat;
      DecodeAppend(shared.decoded, got);
      shared.decoder.OnReceived();
      ghost var fresh' := Decode(shared.residual + got).messages;
      assert (shared.carried + shared.delivered) + fresh' == shared.carried + (shared.delivered + fresh');
      shared.delivered := shared.delivered + fresh';
      shared.residual := shared.decoder.dataBuffer;
      shared.decoded := shared.received;
    }

    /** `SetNum`: `n` bytes behind what is in the buffer. */
    method MakeRoom(n: nat)
      requires Valid()
      modifies shared.decoder`dataBuffer
      ensures Valid()
      ensures |shared.decoder.dataBuffer| == |old(shared.decoder.dataBuffer)| + n
      ensures old(shared.decoder.dataBuffer) <= shared.decoder.dataBuffer
    {
      hide Decode, Concat;
      shared.decoder.dataBuffer := shared.decoder.dataBuffer + seq(n, i => 0);
    }

    /** The socket fills in a piece at position `at` of the buffer. */
    method ReadStep(at: nat, piece: Bytes)
      requires Valid() && at + |piece| <= |shared.decoder.dataBuffer|
      modifies shared`received, shared.decoder`dataBuffer
      ensures Valid()
      ensures shared.received == old(shared.received) + piece
      ensures |shared.decoder.dataBuffer| == |old(shared.decoder.dataBuffer)|
      ensures shared.decoder.dataBuffer[..at + |piece|] == old(shared.decoder.dataBuffer)[..at] + piece
    {
      hide Decode, Concat;
      shared.decoder.dataBuffer := shared.decoder.dataBuffer[..at] + piece + shared.decoder.dataBuffer[at + |piece|..];
      shared.received := shared.received + piece;
    }

    /** The receive half of one round: room is made for `pending` bytes, they are read in as
        many pieces as the socket likes, and only if all of them arrived is the decoder run,
        on the residual followed by bytes really received. */
    method Receive(script: seq<Env>, pending: nat) returns (more: bool)
      requires Valid() && !connectionError && !shared.decoder.faulted
      requires shared.decoder.dataBuffer == shared.residual
      requires shared.decoded == shared.received
      modifies this, shared`sendBuffer, shared`enqueued, shared`taken
      modifies shared`received, shared`decoded, shared`delivered, shared`residual, shared.decoder
      ensures Valid()
      ensures old(pos) <= pos && (more ==> old(pos) < pos) && (!more ==> pos >= |script|)
      ensures more && !connectionError && !manuallyStop && !shared.decoder.faulted ==>
                && shared.decoder.dataBuffer == shared.residual
                && shared.decoded == shared.received
                && |shared.received| == |old(shared.received)| + pending
      ensures old(shared.received) <= shared.received
      ensures shared.sentOfFront == old(shared.sentOfFront)
      ensures old(shared.sendBuffer) <= shared.sendBuffer && old(shared.enqueued) <= shared.enqueued
      ensures old(manuallyStop) ==> manuallyStop
      ensures old(shared.decoded) <= shared.decoded
      // In a calm environment it gets done.
      ensures Calm(script, old(pos)) ==>
                !connectionError && manuallyStop == old(manuallyStop) && shared.sendBuffer == old(shared.sendBuffer)
      ensures Calm(script, old(pos)) && Moves(script, old(pos)) && old(pos) + Steps(pending) <= |script| &&
              !old(manuallyStop) ==>
                more && shared.decoded == old(shared.received) + Arriving(script, old(pos), pending)
    {
      hide Decode, Concat, Calm, Moves, Arriving, Steps, Shared.SendConserved, Shared.Delivered;
      MakeRoom(pending);
      ghost var got;
      more, got := ReadPending(script, pending);
      if more && !manuallyStop && !connectionError {
        NewDataReceived(got);
      }
    }

    /** The room behind the residual is filled. */
    method ReadPending(script: seq<Env>, pending: nat) returns (more: bool, ghost got: Bytes)
      requires Valid() && !connectionError && !shared.decoder.faulted
      requires |shared.decoder.dataBuffer| == |shared.residual| + pending && shared.residual <= shared.decoder.dataBuffer
      modifies this, shared`sendBuffer, shared`enqueued, shared`taken, shared`received
      modifies shared.decoder`messageQueue, shared.decoder`dataBuffer
      ensures Valid()
      ensures old(pos) <= pos && (more ==> old(pos) < pos) && (!more ==> pos >= |script|)
      ensures shared.received == old(shared.received) + got
      ensures more && !connectionError ==> |got| == pending && shared.decoder.dataBuffer == shared.residual + got
      ensures shared.sentOfFront == old(shared.sentOfFront)
      ensures old(shared.sendBuffer) <= shared.sendBuffer && old(shared.enqueued) <= shared.enqueued
      ensures old(manuallyStop) ==> manuallyStop
      ensures Calm(script, old(pos)) ==>
                !connectionError && manuallyStop == old(manuallyStop) && shared.sendBuffer == old(shared.sendBuffer)
      ensures Calm(script, old(pos)) && Moves(script, old(pos)) && old(pos) + Steps(pending) <= |script| ==>
                more && got == Arriving(script, old(pos), pending)
    {
      hide Decode, Concat, Calm, Moves, Arriving, Shared.SendConserved, Shared.Delivered;
      var originalNum := |shared.decoder.dataBuffer| - pending;
      var bytesReadTotal := 0;
      got := [];
      ghost var calm, moves, arriving := Calm(script, pos), Moves(script, pos), Arriving(script, pos, pending);
      var first := true;
      while first || bytesReadTotal < pending
        invariant Valid() && !connectionError
        invariant |got| == bytesReadTotal <= pending
        invariant shared.received == old(shared.received) + got
        invariant |shared.decoder.dataBuffer| == originalNum + pending
        invariant shared.decoder.dataBuffer[..originalNum + bytesReadTotal] == shared.residual + got
        invariant old(pos) <= pos && (!first ==> old(pos) < pos) && (first ==> bytesReadTotal == 0)
        invariant shared.sentOfFront == old(shared.sentOfFront)
        invariant old(shared.sendBuffer) <= shared.sendBuffer && old(shared.enqueued) <= shared.enqueued
        invariant old(manuallyStop) ==> manuallyStop
        invariant calm ==> manuallyStop == old(manuallyStop) && shared.sendBuffer == old(shared.sendBuffer)
        invariant calm && moves ==> pos <= old(pos) + if pending == 0 && !first then 1 else bytesReadTotal
        invariant got + Arriving(script, pos, pending - bytesReadTotal) == arriving
        decreases |script| - pos
      {
        var e;
        more, e := Observe(script);
        if !more {
          return;
        }
        if calm {
          CalmAt(script, old(pos), pos - 1);
        }
        if moves {
          MovesAt(script, old(pos), pos - 1);
        }
        if !e.ok {
          connectionError := true;
          return;
        }
        var bytesRead := Min(|e.incoming|, pending - bytesReadTotal);
        ghost var piece := e.incoming[..bytesRead];
        ReadStep(originalNum + bytesReadTotal, e.incoming[..bytesRead]);
        ArrivingNext(script, pos - 1, pending - bytesReadTotal, bytesRead, got, arriving);
        got := got + piece;
        bytesReadTotal := bytesReadTotal + bytesRead;
        first := false;
      }
      more := true;
      NoneLeft(script, pos, got);
      assert shared.decoder.dataBuffer[..originalNum + bytesReadTotal] == shared.decoder.dataBuffer;
    }

    /** The sending half of one round: the queue is emptied buffer by buffer. */
    method SendQueued(script: seq<Env>) returns (more: bool)
      requires Valid() && !connectionError && shared.sentOfFront == 0
      modifies this, shared`sendBuffer, shared`enqueued, shared`taken, shared`wire, shared`sentOfFront
      modifies shared.decoder`messageQueue
      ensures Valid()
      ensures old(pos) <= pos && (more ==> old(pos) < pos) && (!more ==> pos >= |script|)
      ensures more && !manuallyStop && !connectionError ==> shared.sentOfFront == 0
      ensures old(shared.wire) <= shared.wire && old(shared.enqueued) <= shared.enqueued
      // When it is done, everything that has been enqueued is on the wire.
      ensures more && !manuallyStop && !connectionError ==>
                shared.sendBuffer == [] && shared.wire == Concat(shared.enqueued)
      // In a calm environment it gets done.
      ensures Calm(script, old(pos)) ==>
                && !connectionError && manuallyStop == old(manuallyStop)
                && |shared.sendBuffer| <= |old(shared.sendBuffer)|
      ensures Calm(script, old(pos)) && Moves(script, old(pos)) && !old(manuallyStop) &&
              old(pos) + 1 + Work(old(shared.sendBuffer)) <= |script| ==>
                more
      ensures Calm(script, old(pos)) && SendsWhole(script, old(pos), old(shared.sendBuffer)) && !old(manuallyStop) &&
              old(pos) + 1 + 2 * |old(shared.sendBuffer)| <= |script| ==>
                more && pos == old(pos) + 1 + 2 * |old(shared.sendBuffer)|
    {
      hide Decode, Concat, Shared.SendConserved, Shared.Delivered;
      ghost var calm, moves := Calm(script, pos), Moves(script, pos);
      ghost var buffers, k := shared.sendBuffer, 0;
      ghost var whole := SendsWhole(script, pos, buffers);
      var e;
      more, e := Observe(script);
      while more && !manuallyStop && !connectionError && shared.sendBuffer != []
        invariant Valid()
        invariant more && !connectionError ==> shared.sentOfFront == 0
        invariant old(pos) <= pos && (more ==> old(pos) < pos <= |script|) && (!more ==> pos >= |script|)
        invariant old(shared.wire) <= shared.wire && old(shared.enqueued) <= shared.enqueued
        invariant calm ==>
                    && !connectionError && manuallyStop == old(manuallyStop)
                    && (more ==> k <= |buffers| && shared.sendBuffer == buffers[k..])
                    && |shared.sendBuffer| <= |buffers|
        invariant calm && moves && !old(manuallyStop) && old(pos) + 1 + Work(buffers) <= |script| ==>
                    more && pos + Work(shared.sendBuffer) <= old(pos) + 1 + Work(buffers)
        invariant calm && whole && !old(manuallyStop) && old(pos) + 1 + 2 * |buffers| <= |script| ==>
                    more && pos + 2 * |shared.sendBuffer| == old(pos) + 1 + 2 * |buffers|
        decreases |script| - pos, more && !connectionError
      {
        k := k + 1;
        more := SendFront(script);
        if more && !connectionError {
          more, e := Observe(script);
        }
      }
      if more && !manuallyStop && !connectionError {
        AllSent(shared);
      }
    }

    /** One round of the loop.  If it is completed, everything enqueued before it is on the wire,
        and all bytes the socket said were pending, at step `asked`, have been received and
        given to the decoder. */
    method Round(script: seq<Env>) returns (more: bool, ghost asked: nat)
      requires Valid() && !connectionError && shared.Idle()
      modifies this, shared`sendBuffer, shared`enqueued, shared`taken, shared`wire, shared`sentOfFront
      modifies shared`received, shared`decoded, shared`delivered, shared`residual, shared.decoder
      ensures Valid()
      ensures old(shared.wire) <= shared.wire && old(shared.enqueued) <= shared.enqueued
      ensures old(shared.received) <= shared.received
      ensures old(pos) <= pos && (more ==> old(pos) < pos) && (!more ==> pos >= |script|)
      ensures more && !manuallyStop && !connectionError && !shared.decoder.faulted ==>
                && shared.Idle()
                && Concat(old(shared.enqueued)) <= shared.wire
                && old(pos) < asked < pos && asked < |script|
                && |shared.received| == |old(shared.received)| + if script[asked].ok then script[asked].count else 0
      ensures old(shared.decoded) <= shared.decoded
      // In a calm environment the queue stays empty, ...
      ensures Calm(script, old(pos)) && !old(manuallyStop) ==>
                && !manuallyStop && !connectionError
                && (old(shared.sendBuffer) == [] ==> shared.sendBuffer == [])
      // ... or becomes so, ...
      ensures Calm(script, old(pos)) && Moves(script, old(pos)) && !old(manuallyStop) &&
              old(pos) + 1 + Work(old(shared.sendBuffer)) <= |script| ==>
                shared.sendBuffer == []
      // ... and the bytes pending after that are received and decoded.
      ensures Calm(script, old(pos)) && Moves(script, old(pos)) && !old(manuallyStop) &&
              SendsWhole(script, old(pos), old(shared.sendBuffer)) ==>
                PendingIsRead(script, old(pos) + 1 + 2 * |old(shared.sendBuffer)|, old(shared.received), shared.decoded)
    {
      hide Decode, Concat, Calm, Moves, SendsWhole, Arriving, Work, Shared.SendConserved;
      ghost var calm, moves := Calm(script, pos), Moves(script, pos);
      more := SendQueued(script);
      asked := pos;
      if !more || manuallyStop || connectionError {
        return;
      }
      ConcatGrows(old(shared.enqueued), shared.enqueued);
      var e;
      more, e := Observe(script);
      if !more {
        return;
      }
      if calm {
        CalmAt(script, old(pos), pos - 1);
        CalmLater(script, old(pos), pos);
      }
      if e.ok && e.count > 0 {
        more := Receive(script, e.count);
      }
    }

    /** The thread's loop.  Whatever the environment does, and wherever the script ends, the
        conservation laws of `Shared.Valid` hold, and the history only grows. */
    method Run(script: seq<Env>)
      requires Valid() && !connectionError && shared.Idle()
      modifies this, shared`sendBuffer, shared`enqueued, shared`taken, shared`wire, shared`sentOfFront
      modifies shared`received, shared`decoded, shared`delivered, shared`residual, shared.decoder
      ensures Valid()
      ensures old(shared.wire) <= shared.wire
      ensures old(shared.received) <= shared.received
      ensures pos >= |script| || manuallyStop || connectionError || shared.decoder.faulted ||
              (pos > 0 && !script[pos - 1].connected)
      // If from some step on the environment is calm and moves on for long enough, everything that
      // was enqueued until then is on the wire, ...
      ensures Working(script, old(pos), old(manuallyStop)) ==>
                var buffers := old(shared.sendBuffer) + script[old(pos)].sends;
                old(pos) + 2 + Work(buffers) <= |script| ==>
                  && old(shared.enqueued) + script[old(pos)].sends <= shared.enqueued
                  && shared.sendBuffer == [] && shared.wire == Concat(shared.enqueued)
      // ... and what was pending after that has been received and decoded.
      ensures Working(script, old(pos), old(manuallyStop)) ==>
                var buffers := old(shared.sendBuffer) + script[old(pos)].sends;
                SendsWhole(script, old(pos) + 1, buffers) ==>
                  PendingIsRead(script, old(pos) + 2 + 2 * |buffers|, old(shared.received), shared.decoded)
    {
      hide Decode, Concat, Calm, Moves, SendsWhole, Arriving, Work, Working, PendingIsRead, Shared.SendConserved, Shared.Delivered;
      ghost var start, stopped := pos, manuallyStop;
      ghost var sends := if pos < |script| then script[pos].sends else [];
      ghost var buffers := shared.sendBuffer + sends;
      ghost var ask := pos + 2 + 2 * |buffers|;
      ghost var working := Working(script, pos, manuallyStop);
      ghost var enough := working && start + 2 + Work(buffers) <= |script|;
      ghost var asks := working && SendsWhole(script, pos + 1, buffers);
      while true
        invariant Valid() && !connectionError && shared.Idle()
        invariant old(shared.wire) <= shared.wire
        invariant old(shared.received) <= shared.received
        invariant start <= pos && old(shared.decoded) <= shared.decoded
        invariant pos == start ==>
                    && shared.sendBuffer == old(shared.sendBuffer) && shared.enqueued == old(shared.enqueued)
                    && shared.received == old(shared.received) && manuallyStop == stopped
        invariant pos > start && working ==>
                    && !manuallyStop && Calm(script, pos) && Moves(script, pos)
                    && old(shared.enqueued) + sends <= shared.enqueued
        invariant pos > start && enough ==> shared.sendBuffer == []
        invariant pos > start && asks ==> PendingIsRead(script, ask, old(shared.received), shared.decoded)
        decreases |script| - pos
      {
        ghost var before := pos;
        var more, e := Observe(script);
        if working {
          WorksAt(script, start, before, stopped);
        }
        if !more || manuallyStop || !e.connected {
          if shared.sendBuffer == [] {
            AllSent(shared);
          }
          return;
        }
        ghost var asked, here, decoded;
        here, decoded := pos, shared.decoded;
        more, asked := Round(script);
        if working {
          CalmLater(script, here, pos);
          ReadLater(script, ask, old(shared.received), decoded, shared.decoded);
        }
        if !more || manuallyStop || connectionError || shared.decoder.faulted {
          if shared.sendBuffer == [] {
            AllSent(shared);
          }
          return;
        }
      }
    }
  }

  lemma ConcatGrows(a: seq<Bytes>, b: seq<Bytes>)
    requires a <= b
    ensures Concat(a) <= Concat(b)
  {
    assert b == a + b[|a|..];
    ConcatAppend(a, b[|a|..]);
  }

  lemma AllSent(shared: Shared)
    requires shared.Valid() && shared.sendBuffer == []
    ensures shared.wire == Concat(shared.enqueued)
  {
    assert shared.wire + [] == shared.wire;
  }

  /** Two ends joined: payloads encoded and enqueued on one side arrive on the other, whatever
      was sent or received in pieces, as a prefix of themselves. */
  lemma EndToEnd(sender: Shared, receiver: Shared, payloads: seq<Bytes>)
    requires sender.Valid() && receiver.Valid()
    requires Payloads(payloads) && Concat(sender.enqueued) == EncodeAll(payloads)
    requires receiver.received <= sender.wire
    ensures receiver.delivered <= payloads
    ensures !receiver.decoder.faulted
  {
    hide Decode, Concat, EncodeAll;
    sender.WireIsPrefix();
    assert receiver.decoded <= EncodeAll(payloads);
    PrefixDelivery(payloads, receiver.decoded);
  }
}
