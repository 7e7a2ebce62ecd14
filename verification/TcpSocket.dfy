/** The life of connections around the two buffers: `FTCPSocket`, the message queue of
    `UMgrMessage`, and the disconnect tasks a failed socket thread posts to the game thread. */
module TcpSocket {
  import opened Framing
  import opened TcpSocketRunnable

  class Socket {
    const shared: Shared
    var runnable: Runnable?

    ghost predicate Valid()
      reads this, shared, shared.decoder, runnable
    {
      && shared.Valid()
      && (runnable != null ==> runnable.shared == shared)
    }

    constructor ()
      ensures Valid() && runnable == null && fresh(shared) && fresh(shared.decoder)
      ensures !shared.decoder.faulted
    {
      shared := new Shared();
      runnable := null;
    }

    /** Connecting starts from empty buffers, unless there is a connection already: then it
        does nothing.  What the new thread puts on the wire was enqueued after this call,
        and what it decodes was received after it. */
    method Connect()
      requires Valid() && !shared.decoder.faulted
      modifies this`runnable, shared, shared.decoder`dataBuffer
      ensures Valid()
      ensures old(runnable) != null ==>
                runnable == old(runnable) && unchanged(shared) && unchanged(shared.decoder)
      ensures old(runnable) == null ==>
                && runnable != null && fresh(runnable)
                && runnable.pos == 0 && !runnable.connectionError && !runnable.manuallyStop
                && shared.Idle()
                && shared.sendBuffer == [] && shared.decoder.dataBuffer == []
                && shared.enqueued == [] && shared.wire == [] && shared.received == []
                && shared.delivered == [] && shared.taken == []
                && shared.carried == old(shared.decoder.messageQueue)
    {
      if runnable == null {
        shared.Reset();
        runnable := new Runnable(shared);
      }
    }

    /** Sending enqueues on a connection and is a no-op without one. */
    method Send(data: Bytes)
      requires Valid()
      modifies shared`sendBuffer, shared`enqueued, shared`taken, shared.decoder`messageQueue
      ensures Valid()
      ensures shared.sendBuffer == if runnable == null then old(shared.sendBuffer) else old(shared.sendBuffer) + [data]
      ensures shared.enqueued == if runnable == null then old(shared.enqueued) else old(shared.enqueued) + [data]
      ensures shared.decoder.messageQueue == old(shared.decoder.messageQueue)
    {
      if runnable != null {
        shared.Interfere(Env([data], 0, false, true, true, 0, []));
      }
    }

    /** The socket thread of this connection, together with everything the game thread does
        meanwhile. */
    method Thread(script: seq<Env>)
      requires Valid() && runnable != null
      requires !runnable.connectionError && shared.Idle()
      modifies runnable, shared`sendBuffer, shared`enqueued, shared`taken, shared`wire, shared`sentOfFront
      modifies shared`received, shared`decoded, shared`delivered, shared`residual, shared.decoder
      ensures Valid()
      ensures shared.carried == old(shared.carried)
      ensures shared.wire <= Concat(shared.enqueued)
      ensures shared.taken + shared.decoder.messageQueue == shared.carried + Decode(shared.decoded).messages
      ensures shared.decoded <= shared.received
      // In an environment that lets it work for long enough, everything is sent, ...
      ensures Working(script, old(runnable.pos), old(runnable.manuallyStop)) ==>
                var sends := script[old(runnable.pos)].sends;
                old(runnable.pos) + 2 + Work(old(shared.sendBuffer) + sends) <= |script| ==>
                  shared.sendBuffer == [] && shared.wire == Concat(shared.enqueued) && old(shared.enqueued) + sends <= shared.enqueued
      // ... and what is pending then is received.
      ensures Working(script, old(runnable.pos), old(runnable.manuallyStop)) ==>
                var buffers := old(shared.sendBuffer) + script[old(runnable.pos)].sends;
                SendsWhole(script, old(runnable.pos) + 1, buffers) ==>
                  PendingIsRead(script, old(runnable.pos) + 2 + 2 * |buffers|, old(shared.received), shared.decoded)
    {
      runnable.Run(script);
      shared.WireIsPrefix();
    }

    /** Stop the thread, wait for it, forget it.  Returns whether the disconnected delegate
        is executed. */
    method Disconnect() returns (notified: bool)
      requires Valid()
      modifies this`runnable, runnable
      ensures Valid() && runnable == null
      ensures notified == (old(runnable) != null)
      ensures old(runnable) != null ==> old(runnable).manuallyStop
    {
      notified := runnable != null;
      if runnable != null {
        runnable.Stop();
        runnable := null;
      }
    }
  }

  // ---------------------------------------------------------------- connections over time

  /** A task posted to the game thread by the thread of a connection: to tell the game that it is
      connected, or to disconnect after a failure. */
  datatype Posted = TellConnected(connection: nat) | DoDisconnect(connection: nat)

  /** Which connection is up, which messages wait for the game thread and which requests for a
      delayed response (by the connection they came from), which calls are outstanding (by the
      connection they were made on, 0 if on none), and which tasks have been posted. */
  datatype Life = Life(
    current: nat, announced: bool, failed: bool, last: nat,
    queue: seq<nat>, delayed: seq<nat>, outstanding: seq<nat>, posted: seq<Posted>,
    // What has happened so far.
    effects: seq<Effect>)

  /** Something that happens while connection `during` is up, 0 standing for none, because of
      connection `cause`, 0 standing for the game. */
  datatype Effect =
    | Ended(cause: nat, during: nat)       // the connection is ended
    | Told(cause: nat, during: nat)        // the game is told that it is connected
    | Handled(cause: nat, during: nat)     // a message is handled
    | Answered(cause: nat, during: nat)    // a delayed response is sent
    | Settled(cause: nat, during: nat)     // an outstanding call is settled
  {
    /** It has nothing to do with another connection. */
    predicate Own() {
      cause == 0 || during == 0 || cause == during
    }
  }

  /** Connections are numbered from 1. */
  datatype Event =
    | Connect                      // UMgrMessage::Connect
    | Disconnect                   // UMgrMessage::Disconnect, which also empties the message queue
    | Announce                     // the thread has connected and posts a task
    | SocketError                  // the thread fails and, not being stopped, posts a task
    | RunTask                      // the game thread runs the oldest task
    | Queued                       // the decoder puts a message on the queue
    | TakeMessage(delays: bool)    // TickMessageQueue; the handler may ask for a delay
    | DoDelayed(i: nat)            // DoDelayResponse for one of the requests that wait
    | MakeCall                     // RpcChannel::Send
    | TakeResponse(i: nat)         // TickMessageQueue, with the response to an outstanding call

  const START := Life(0, false, false, 0, [], [], [], [], [])

  function Happens(l: Life, e: Effect): Life {
    l.(effects := l.effects + [e])
  }

  function End(l: Life, cause: nat): Life {
    if l.current == 0 then l
    else Happens(l, Ended(cause, l.current)).(current := 0, announced := false, failed := false)
  }

  function Next(l: Life, e: Event): Life {
    match e
    case Connect =>
      if l.current != 0 then l
      else l.(current := l.last + 1, last := l.last + 1, announced := false, failed := false)
    case Disconnect =>
      End(l, 0).(queue := [])
    case Announce =>
      if l.current == 0 || l.announced || l.failed then l
      else l.(announced := true, posted := l.posted + [TellConnected(l.current)])
    case SocketError =>
      if l.current == 0 || l.failed then l
      else l.(failed := true, posted := l.posted + [DoDisconnect(l.current)])
    case RunTask =>
      if l.posted == [] then l
      else
        var rest := l.(posted := l.posted[1..]);
        if l.posted[0].TellConnected? then Happens(rest, Told(l.posted[0].connection, l.current))
        else End(rest, l.posted[0].connection)
    case Queued =>
      if l.current == 0 || l.failed then l else l.(queue := l.queue + [l.current])
    case TakeMessage(delays) =>
      if l.queue == [] then l
      else Happens(l, Handled(l.queue[0], l.current)).(
             queue := l.queue[1..], delayed := if delays then l.delayed + [l.queue[0]] else l.delayed)
    case DoDelayed(i) =>
      if i >= |l.delayed| then l
      else Happens(l, Answered(l.delayed[i], l.current)).(delayed := Without(l.delayed, i))
    case MakeCall =>
      l.(outstanding := l.outstanding + [l.current])
    case TakeResponse(i) =>
      if l.queue == [] || i >= |l.outstanding| then l
      else Happens(Happens(l, Handled(l.queue[0], l.current)), Settled(l.outstanding[i], l.current)).(
             queue := l.queue[1..], outstanding := Without(l.outstanding, i))
  }

  function Without(s: seq<nat>, i: nat): (r: seq<nat>)
    requires i < |s|
    ensures forall j | 0 <= j < |r| :: r[j] in s
  {
    s[..i] + s[i + 1..]
  }

  function Run(l: Life, es: seq<Event>): Life
    decreases |es|
  {
    if es == [] then l else Run(Next(l, es[0]), es[1..])
  }

  /** No connection has ever had an effect on another. */
  predicate Separate(l: Life) {
    forall i | 0 <= i < |l.effects| :: l.effects[i].Own()
  }

  /** Nothing is left of earlier connections. */
  predicate NothingLeft(l: Life) {
    && l.posted == [] && l.queue == [] && l.delayed == []
    && forall i | 0 <= i < |l.outstanding| :: l.outstanding[i] == 0
  }

  /** Every Connect that opens a connection is made when nothing is left of earlier ones. */
  predicate Careful(l: Life, es: seq<Event>)
    decreases |es|
  {
    es == [] ||
    (&& (es[0] == Connect && l.current == 0 ==> NothingLeft(l))
     && Careful(Next(l, es[0]), es[1..]))
  }

  /** What is left is of the connection that is up. */
  predicate LeftOwn(l: Life) {
    l.current != 0 ==>
      && (forall i | 0 <= i < |l.posted| :: l.posted[i].connection == l.current)
      && (forall i | 0 <= i < |l.queue| :: l.queue[i] == l.current)
      && (forall i | 0 <= i < |l.delayed| :: l.delayed[i] == l.current)
      && (forall i | 0 <= i < |l.outstanding| :: l.outstanding[i] in {0, l.current})
  }

  predicate OwnOnly(l: Life) {
    LeftOwn(l) && Separate(l)
  }

  lemma StepOwnOnly(l: Life, e: Event)
    requires OwnOnly(l) && (e == Connect && l.current == 0 ==> NothingLeft(l))
    ensures OwnOnly(Next(l, e))
  {
    hide Next, LeftOwn, Separate;
    StepLeftOwn(l, e);
    StepSeparate(l, e);
  }

  lemma StepLeftOwn(l: Life, e: Event)
    requires LeftOwn(l) && (e == Connect && l.current == 0 ==> NothingLeft(l))
    ensures LeftOwn(Next(l, e))
  {
  }

  lemma StepSeparate(l: Life, e: Event)
    requires LeftOwn(l) && Separate(l)
    ensures Separate(Next(l, e))
  {
    var n := Next(l, e);
    assert forall i | 0 <= i < |l.effects| :: n.effects[i] == l.effects[i];
  }

  /** The code does not tie what is left of a connection to it.  Callers who reconnect only when
      nothing is left never see one connection affect the next. */
  lemma {:induction false} CarefulRunsAreSafe(l: Life, es: seq<Event>)
    requires OwnOnly(l) && Careful(l, es)
    ensures Separate(Run(l, es))
    decreases |es|
  {
    hide Next;
    if es != [] {
      StepOwnOnly(l, es[0]);
      CarefulRunsAreSafe(Next(l, es[0]), es[1..]);
    }
  }

  /** The game's own disconnect empties the message queue; one that follows an error does not. */
  lemma OnlyTheGameEmptiesTheQueue(l: Life)
    ensures Next(l, Disconnect).queue == [] && Next(l, Disconnect).current == 0
    ensures l.posted != [] ==> Next(l, RunTask).queue == l.queue
    ensures l.posted != [] && l.posted[0].DoDisconnect? ==> Next(l, RunTask).current == 0
    ensures forall e :: e !in {Disconnect, RunTask} ==> Next(l, e).current == l.current || (e == Connect && l.current == 0)
    // Nothing else is dropped by either.
    ensures Next(l, Disconnect) == Next(l, Disconnect).(posted := l.posted, delayed := l.delayed, outstanding := l.outstanding)
    ensures l.posted != [] ==>
              Next(l, RunTask) == Next(l, RunTask).(posted := l.posted[1..], delayed := l.delayed, outstanding := l.outstanding)
  {
  }

  /** Tasks posted are different, and a connection that has not been announced or has not failed
      has no task that says so; ... */
  predicate PostedOnce(l: Life) {
    && l.current <= l.last
    && (forall i, j | 0 <= i < j < |l.posted| :: l.posted[i] != l.posted[j])
    && (forall i | 0 <= i < |l.posted| ::
          && 0 < l.posted[i].connection <= l.last
          && (l.posted[i].connection == l.current ==> if l.posted[i].TellConnected? then l.announced else l.failed))
  }

  /** ... and the game has been told only of connections that were announced, once of each. */
  predicate ToldOnce(l: Life) {
    && (forall i | 0 <= i < |l.effects| && l.effects[i].Told? ::
          && 0 < l.effects[i].cause <= l.last && (l.effects[i].cause == l.current ==> l.announced)
          && TellConnected(l.effects[i].cause) !in l.posted)
    && (forall i, j | 0 <= i < j < |l.effects| && l.effects[i].Told? && l.effects[j].Told? ::
          l.effects[i].cause != l.effects[j].cause)
  }

  lemma PostedOnceStep(l: Life, e: Event)
    requires PostedOnce(l)
    ensures PostedOnce(Next(l, e))
  {
    hide Without;
    if e == RunTask && l.posted != [] {
      var n := Next(l, e);
      assert forall i | 0 <= i < |n.posted| :: n.posted[i] == l.posted[i + 1];
    }
  }

  lemma ToldOnceStep(l: Life, e: Event)
    requires PostedOnce(l) && ToldOnce(l)
    ensures ToldOnce(Next(l, e))
  {
    hide Without;
    match e
    case RunTask => ToldOnceTask(l);
    case TakeMessage(_) => OthersDoNotTell(l, e);
    case DoDelayed(_) => OthersDoNotTell(l, e);
    case TakeResponse(_) => OthersDoNotTell(l, e);
    case Disconnect => OthersDoNotTell(l, e);
    case _ =>
  }

  lemma OthersDoNotTell(l: Life, e: Event)
    requires ToldOnce(l) && (e.TakeMessage? || e.DoDelayed? || e.TakeResponse? || e.Disconnect?)
    ensures ToldOnce(Next(l, e))
  {
    hide Without;
    var n := Next(l, e);
    assert forall i | 0 <= i < |l.effects| :: n.effects[i] == l.effects[i];
    assert forall i | |l.effects| <= i < |n.effects| :: !n.effects[i].Told?;
  }

  lemma ToldOnceTask(l: Life)
    requires PostedOnce(l) && ToldOnce(l)
    ensures ToldOnce(Next(l, RunTask))
  {
    if l.posted != [] {
      var n := Next(l, RunTask);
      assert forall i | 0 <= i < |l.effects| :: n.effects[i] == l.effects[i];
      assert forall i | 0 <= i < |n.posted| :: n.posted[i] == l.posted[i + 1];
      assert l.posted[0] in l.posted && l.posted[0] !in n.posted;
    }
  }

  /** Over every run, the game is told of each connection at most once. */
  lemma {:induction false} ToldAtMostOnce(l: Life, es: seq<Event>)
    requires PostedOnce(l) && ToldOnce(l)
    ensures PostedOnce(Run(l, es)) && ToldOnce(Run(l, es))
    decreases |es|
  {
    hide Next, PostedOnce, ToldOnce;
    if es != [] {
      PostedOnceStep(l, es[0]);
      ToldOnceStep(l, es[0]);
      ToldAtMostOnce(Next(l, es[0]), es[1..]);
    }
  }

  /** Everything comes from connections made so far. */
  predicate Past(l: Life) {
    && l.current <= l.last
    && (forall i | 0 <= i < |l.posted| :: 0 < l.posted[i].connection <= l.last)
    && (forall i | 0 <= i < |l.queue| :: 0 < l.queue[i] <= l.last)
    && (forall i | 0 <= i < |l.delayed| :: 0 < l.delayed[i] <= l.last)
    && (forall i | 0 <= i < |l.outstanding| :: l.outstanding[i] <= l.last)
  }

  lemma {:induction false} RunsArePast(l: Life, es: seq<Event>)
    requires Past(l)
    ensures Past(Run(l, es))
    decreases |es|
  {
    hide Next;
    if es != [] {
      StepIsPast(l, es[0]);
      RunsArePast(Next(l, es[0]), es[1..]);
    }
  }

  lemma StepIsPast(l: Life, e: Event)
    requires Past(l)
    ensures Past(Next(l, e))
  {
    hide Without;
    match e
    case TakeResponse(i) => TakenIsPast(l, i);
    case TakeMessage(_) => MessageIsPast(l, e);
    case RunTask => TaskIsPast(l);
    case _ =>
  }

  lemma TakenIsPast(l: Life, i: nat)
    requires Past(l)
    ensures Past(Next(l, TakeResponse(i)))
  {
    hide Without;
    if l.queue != [] && i < |l.outstanding| {
      var rest := Without(l.outstanding, i);
      assert forall j | 0 <= j < |rest| :: rest[j] in l.outstanding;
    }
  }

  lemma MessageIsPast(l: Life, e: Event)
    requires Past(l) && e.TakeMessage?
    ensures Past(Next(l, e))
  {
  }

  lemma TaskIsPast(l: Life)
    requires Past(l)
    ensures Past(Next(l, RunTask))
  {
  }

  /** No new connection is made. */
  predicate WithoutConnect(es: seq<Event>) {
    forall i | 0 <= i < |es| :: es[i] != Connect
  }

  /** Before the next connection is made, something happens on behalf of another than the one
      that is up. */
  ghost predicate Interferes(l: Life) {
    exists es: seq<Event> | WithoutConnect(es) :: !Separate(Run(l, es))
  }

  lemma {:induction false} WithoutConnectIsCareful(l: Life, es: seq<Event>)
    requires WithoutConnect(es)
    ensures Careful(l, es)
    decreases |es|
  {
    hide Next;
    if es != [] {
      assert forall i | 0 <= i < |es[1..]| :: es[1..][i] == es[i + 1];
      WithoutConnectIsCareful(Next(l, es[0]), es[1..]);
    }
  }

  /** And the condition is exact: in any reachable state without a connection in which nothing
      has gone wrong, connecting lets the past interfere with the new connection if and only if
      something is left.  A posted disconnect tears the new connection down although it never
      failed; a posted announcement tells the game that it is up although it is not yet; a message
      is handled as if the new connection had sent it; a delayed response goes to its peer; and
      an outstanding call is settled by it. */
  lemma ConnectIsSafeIff(es: seq<Event>)
    requires Run(START, es).current == 0 && Separate(Run(START, es))
    ensures Interferes(Next(Run(START, es), Connect)) <==> !NothingLeft(Run(START, es))
  {
    hide Next, Run;
    var before := Run(START, es);
    assert Past(before) by {
      RunsArePast(START, es);
    }
    var l := Next(before, Connect);
    if NothingLeft(before) {
      assert OwnOnly(before);
      StepOwnOnly(before, Connect);
      forall more: seq<Event> | WithoutConnect(more) ensures Separate(Run(l, more)) {
        WithoutConnectIsCareful(l, more);
        CarefulRunsAreSafe(l, more);
      }
    } else {
      var more := PastHasEffect(before);
    }
  }

  /** The events by which the oldest of what is left has its effect. */
  lemma PastHasEffect(before: Life) returns (more: seq<Event>)
    requires Past(before) && before.current == 0 && !NothingLeft(before)
    ensures WithoutConnect(more) && !Separate(Run(Next(before, Connect), more))
  {
    var l := Next(before, Connect);
    if l.posted != [] || l.queue != [] || l.delayed != [] {
      var e := if l.posted != [] then RunTask else if l.queue != [] then TakeMessage(false) else DoDelayed(0);
      more := [e];
      RunOne(l, e, []);
      assert [e] + [] == [e];
      ForeignEffect(l, e);
    } else {
      var i: nat :| i < |l.outstanding| && l.outstanding[i] != 0;
      more := [Queued, TakeResponse(i)];
      var queued := Next(l, Queued);
      RunOne(l, Queued, [TakeResponse(i)]);
      RunOne(queued, TakeResponse(i), []);
      assert [Queued] + [TakeResponse(i)] == more && [TakeResponse(i)] + [] == [TakeResponse(i)];
      ForeignEffect(queued, TakeResponse(i));
    }
  }

  /** It has its effect on a connection that is new. */
  lemma ForeignEffect(l: Life, e: Event)
    requires l.current != 0
    requires match e
             case RunTask => l.posted != [] && l.posted[0].connection !in {0, l.current}
             case TakeMessage(_) => l.queue != [] && l.queue[0] !in {0, l.current}
             case DoDelayed(i) => i < |l.delayed| && l.delayed[i] !in {0, l.current}
             case TakeResponse(i) => l.queue != [] && i < |l.outstanding| && l.outstanding[i] !in {0, l.current}
             case _ => false
    ensures !Separate(Next(l, e))
  {
    var effects := Next(l, e).effects;
    assert !effects[|effects| - 1].Own();
  }

  /** All five happen. */
  lemma PastInterferes()
    // An error whose task runs only after the game has reconnected.
    ensures !Separate(Run(START, [Connect, SocketError, Disconnect, Connect, RunTask]))
    // A connection that is announced only after the game has reconnected.
    ensures !Separate(Run(START, [Connect, Announce, Disconnect, Connect, RunTask]))
    // A message that outlives a connection lost to an error.
    ensures !Separate(Run(START, [Connect, Queued, SocketError, RunTask, Connect, TakeMessage(false)]))
    // A response delayed over a reconnect.
    ensures !Separate(Run(START, [Connect, Queued, TakeMessage(true), Disconnect, Connect, DoDelayed(0)]))
    // A call that is answered only after a reconnect.
    ensures !Separate(Run(START, [Connect, MakeCall, Disconnect, Connect, Queued, TakeResponse(0)]))
  {
    var one := Next(START, Connect);
    RunFive(START, Connect, SocketError, Disconnect, Connect, RunTask);
    assert !Next(Next(Next(Next(one, SocketError), Disconnect), Connect), RunTask).effects[1].Own();
    RunFive(START, Connect, Announce, Disconnect, Connect, RunTask);
    assert !Next(Next(Next(Next(one, Announce), Disconnect), Connect), RunTask).effects[1].Own();
    RunSix(START, Connect, Queued, SocketError, RunTask, Connect, TakeMessage(false));
    assert !Next(Next(Next(Next(Next(one, Queued), SocketError), RunTask), Connect), TakeMessage(false)).effects[1].Own();
    RunSix(START, Connect, Queued, TakeMessage(true), Disconnect, Connect, DoDelayed(0));
    assert !Next(Next(Next(Next(Next(one, Queued), TakeMessage(true)), Disconnect), Connect), DoDelayed(0)).effects[2].Own();
    RunSix(START, Connect, MakeCall, Disconnect, Connect, Queued, TakeResponse(0));
    assert !Next(Next(Next(Next(Next(one, MakeCall), Disconnect), Connect), Queued), TakeResponse(0)).effects[2].Own();
  }

  lemma RunOne(l: Life, e: Event, es: seq<Event>)
    ensures Run(l, [e] + es) == Run(Next(l, e), es)
  {
    assert ([e] + es)[1..] == es;
  }

  lemma RunFive(l: Life, a: Event, b: Event, c: Event, d: Event, e: Event)
    ensures Run(l, [a, b, c, d, e]) == Next(Next(Next(Next(Next(l, a), b), c), d), e)
  {
    hide Next, Run;
    assert [a, b, c, d, e] == [a] + ([b] + ([c] + ([d] + ([e] + []))));
    var l1, l2 := Next(l, a), Next(Next(l, a), b);
    var l4 := Next(Next(l2, c), d);
    RunOne(l, a, [b] + ([c] + ([d] + ([e] + []))));
    RunOne(l1, b, [c] + ([d] + ([e] + [])));
    RunOne(l2, c, [d] + ([e] + []));
    RunOne(Next(l2, c), d, [e] + []);
    RunOne(l4, e, []);
    RunNone(Next(l4, e));
  }

  lemma RunNone(l: Life)
    ensures Run(l, []) == l
  {
  }

  lemma RunSix(l: Life, a: Event, b: Event, c: Event, d: Event, e: Event, f: Event)
    ensures Run(l, [a, b, c, d, e, f]) == Next(Next(Next(Next(Next(Next(l, a), b), c), d), e), f)
  {
    hide Next, Run;
    assert [a, b, c, d, e, f] == [a] + [b, c, d, e, f];
    RunOne(l, a, [b, c, d, e, f]);
    RunFive(Next(l, a), b, c, d, e, f);
  }
}
