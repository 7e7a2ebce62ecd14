/** RpcChannel and the delayed responses of UMgrMessage: requests and responses matched by id.

    A protobuf message is its type and its serialized bytes; serializing and parsing are inverse
    to each other and parsing may fail on bytes from the network. */
module RpcChannel {
  import opened Wrappers
  import opened ServiceRegistry

  type Bytes = seq<int>

  /** A message taken from the queue, and what handling it leads to: what the callback or the
      request's handler sends, whether the request can be parsed, and how its handler answers. */
  datatype Arrival = Arrival(message: RpcMessage, sends: seq<Message>, parses: bool, delays: bool, response: Bytes)

  /** A response to call `k` that carries something. */
  predicate Answers(message: RpcMessage, k: nat) {
    message.Response? && message.response != [] && message.id == k
  }

  datatype Message = Message(messageType: MessageType, bytes: Bytes)

  datatype Error = NoError | NoService | NoMethod | WrongProto

  /** CMD::RpcMessage. */
  datatype RpcMessage =
    | Request(id: nat, service: nat, methodIndex: nat, from: ServerType, to: ServerType, accid: nat, request: Bytes)
    | Response(id: nat, from: ServerType, to: ServerType, accid: nat, error: Error, response: Bytes)
    | Other

  datatype OutstandingCall = OutstandingCall(request: Message, serviceType: nat, methodIndex: nat)

  /** An invocation of Service::DoneCallback: for which request, with which method. */
  datatype Callback = Callback(id: nat, target: Method, request: Message, response: Bytes)

  /** The call can be answered: its service and method exist and take its request's type. */
  predicate Answerable(services: seq<Option<Service>>, call: OutstandingCall) {
    && call.serviceType < |services|
    && MethodTakes(services[call.serviceType], call.methodIndex, call.request.messageType)
  }

  /** What the call's entry leads to now, right or wrong. */
  function Target(services: seq<Option<Service>>, call: OutstandingCall): Access {
    if call.serviceType < |services| && services[call.serviceType].Some? &&
       services[call.serviceType].value.descriptor.Some?
    then MethodAt(services[call.serviceType].value.descriptor.value, call.methodIndex)
    else Null
  }

  lemma AnswerableTarget(services: seq<Option<Service>>, call: OutstandingCall)
    ensures Answerable(services, call) <==>
            Target(services, call).At? && Target(services, call).target.request == Some(call.request.messageType)
  {
  }

  /** The callback was for a consumed call, with the call's own request, and with the method its
      entry leads to. */
  predicate CallbackOk(c: Callback, calls: map<nat, OutstandingCall>, consumed: set<nat>, services: seq<Option<Service>>) {
    && c.id in consumed && c.id in calls
    && c.request == calls[c.id].request
    && Target(services, calls[c.id]) == At(c.target)
  }

  lemma {:induction false} RangeSize(n: nat, s: set<nat>)
    requires forall k :: k in s <==> 1 <= k <= n
    ensures |s| == n
  {
    if n == 0 {
      assert s == {};
    } else {
      RangeSize(n - 1, s - {n});
    }
  }

  /** The ids given out are exactly 1..id, and each is outstanding or consumed, never both. */
  ghost predicate IdsOk(id: nat, outstandings: map<nat, OutstandingCall>, calls: map<nat, OutstandingCall>, consumed: set<nat>) {
    && (forall k :: k in calls <==> 1 <= k <= id)
    && (forall k | k in outstandings :: k in calls && outstandings[k] == calls[k])
    && (forall k | k in calls :: k in outstandings <==> k !in consumed)
    && (forall k | k in consumed :: k in calls)
  }

  lemma IdsConserved(id: nat, outstandings: map<nat, OutstandingCall>, calls: map<nat, OutstandingCall>, consumed: set<nat>)
    requires IdsOk(id, outstandings, calls, consumed)
    ensures id == |outstandings| + |consumed|
    ensures forall k | k in outstandings :: 1 <= k <= id
  {
    RangeSize(id, calls.Keys);
    assert calls.Keys == outstandings.Keys + consumed;
    DisjointSizes(outstandings.Keys, consumed);
  }

  lemma DisjointSizes(a: set<nat>, b: set<nat>)
    requires a !! b
    ensures |a + b| == |a| + |b|
  {
  }

  /** Every call can be answered. */
  predicate AllAnswerable(services: seq<Option<Service>>, calls: map<nat, OutstandingCall>) {
    forall k | k in calls :: Answerable(services, calls[k])
  }

  /** Every consumed call whose entry leads to a method, and only those, had one callback, with
      its own request and method. */
  predicate CallbacksOk(callbacks: seq<Callback>, calls: map<nat, OutstandingCall>, consumed: set<nat>,
                        services: seq<Option<Service>>)
  {
    && (forall i | 0 <= i < |callbacks| :: CallbackOk(callbacks[i], calls, consumed, services))
    && (forall i, j | 0 <= i < j < |callbacks| :: callbacks[i].id != callbacks[j].id)
    && (forall k | k in consumed && k in calls && Target(services, calls[k]).At? ::
          exists i | 0 <= i < |callbacks| :: callbacks[i].id == k)
  }

  /** The entry of a request's type makes the call answerable. */
  lemma EntryAnswers(services: seq<Option<Service>>, call: OutstandingCall, info: ServiceInfo)
    requires EntryOk(services, call.request.messageType, info)
    requires call.serviceType == info.serviceType && call.methodIndex == info.methodIndex
    ensures Answerable(services, call)
  {
  }

  /** A new call, under a new id. */
  lemma CallsGrow(callbacks: seq<Callback>, calls: map<nat, OutstandingCall>, consumed: set<nat>,
                  services: seq<Option<Service>>, k: nat, call: OutstandingCall)
    requires CallbacksOk(callbacks, calls, consumed, services) && k !in calls && k !in consumed
    ensures CallbacksOk(callbacks, calls[k := call], consumed, services)
  {
    hide Target;
    forall i | 0 <= i < |callbacks| ensures CallbackOk(callbacks[i], calls[k := call], consumed, services) {
      assert CallbackOk(callbacks[i], calls, consumed, services);
    }
  }

  /** One more call is consumed, with a callback if its entry leads to a method. */
  lemma CallbacksGrow(callbacks: seq<Callback>, calls: map<nat, OutstandingCall>, consumed: set<nat>,
                      services: seq<Option<Service>>, k: nat, more: seq<Callback>)
    requires CallbacksOk(callbacks, calls, consumed, services) && k !in consumed && k in calls
    requires more == [] || (|more| == 1 && more[0].id == k && CallbackOk(more[0], calls, consumed + {k}, services))
    requires more == [] <==> !Target(services, calls[k]).At?
    ensures CallbacksOk(callbacks + more, calls, consumed + {k}, services)
  {
    hide Target;
    var all := callbacks + more;
    forall i | 0 <= i < |all| ensures CallbackOk(all[i], calls, consumed + {k}, services) {
      if i < |callbacks| {
        assert CallbackOk(callbacks[i], calls, consumed, services);
      }
    }
    forall n | n in consumed + {k} && n in calls && Target(services, calls[n]).At?
      ensures exists i | 0 <= i < |all| :: all[i].id == n
    {
      if n == k {
        assert all[|callbacks|].id == k;
      } else {
        var i :| 0 <= i < |callbacks| && callbacks[i].id == n;
        assert all[i].id == n;
      }
    }
    forall i, j | 0 <= i < j < |all| ensures all[i].id != all[j].id {
      assert CallbackOk(callbacks[i], calls, consumed, services);
    }
  }

  /** The messages that go out when `requests` are sent one after the other, the first id being
      `id` + 1.  Unknown request types are left out. */
  function SentFor(infos: map<MessageType, ServiceInfo>, accid: nat, id: nat, requests: seq<Message>): seq<RpcMessage> {
    if requests == [] then []
    else
      var front, last := SentFor(infos, accid, id, requests[..|requests| - 1]), requests[|requests| - 1];
      if last.messageType in infos then
        var info := infos[last.messageType];
        front + [Request(id + |front| + 1, info.serviceType, info.methodIndex, Client, info.to, accid, last.bytes)]
      else front
  }

  /** The table of outstanding calls when they have been sent. */
  function TableAfter(infos: map<MessageType, ServiceInfo>, accid: nat, id: nat, table: map<nat, OutstandingCall>,
                      requests: seq<Message>): map<nat, OutstandingCall>
  {
    if requests == [] then table
    else
      var rest, last := requests[..|requests| - 1], requests[|requests| - 1];
      var front := TableAfter(infos, accid, id, table, rest);
      if last.messageType in infos then
        var info := infos[last.messageType];
        front[id + |SentFor(infos, accid, id, rest)| + 1 := OutstandingCall(last, info.serviceType, info.methodIndex)]
      else front
  }

  // ---------------------------------------------------------------- what handling a queue leads to

  /** Ids given out, calls outstanding, messages sent and callbacks made. */
  datatype Net = Net(id: nat, outstandings: map<nat, OutstandingCall>, wire: seq<RpcMessage>, callbacks: seq<Callback>)

  function AfterSends(infos: map<MessageType, ServiceInfo>, accid: nat, n: Net, requests: seq<Message>): Net {
    var sent := SentFor(infos, accid, n.id, requests);
    Net(n.id + |sent|, TableAfter(infos, accid, n.id, n.outstandings, requests), n.wire + sent, n.callbacks)
  }

  function ServiceAt(services: seq<Option<Service>>, service: nat): Option<Service> {
    if service < |services| then services[service] else None
  }

  /** The method a request from the network is for; a missing descriptor has none to offer. */
  function Requested(service: Service, index: nat): Access {
    if service.descriptor.None? then Outside else MethodAt(service.descriptor.value, index)
  }

  /** The handler is called. */
  predicate HandledBy(services: seq<Option<Service>>, message: RpcMessage, parses: bool)
    requires message.Request?
  {
    var service := ServiceAt(services, message.service);
    service.Some? && Requested(service.value, message.methodIndex).At? && parses
  }

  /** The answer to a request, if there is one: what the handler has filled in, with the request's
      id, back to its sender and account; or what is wrong. */
  function AnswerTo(services: seq<Option<Service>>, a: Arrival): seq<RpcMessage>
    requires a.message.Request?
  {
    var service := ServiceAt(services, a.message.service);
    if service.None? then [ErrorReply(a.message.id, NoService)]
    else
      match Requested(service.value, a.message.methodIndex)
      case Outside => []
      case Null => [ErrorReply(a.message.id, NoMethod)]
      case At(target) =>
        if !a.parses then [ErrorReply(a.message.id, WrongProto)]
        else if target.emptyResponse || a.delays then []
        else [Response(a.message.id, Client, a.message.from, a.message.accid, NoError, a.response)]
  }

  function Handle(services: seq<Option<Service>>, infos: map<MessageType, ServiceInfo>, accid: nat, n: Net, a: Arrival): Net {
    match a.message
    case Other => n
    case Request(_, _, _, _, _, _, _) =>
      var served := if HandledBy(services, a.message, a.parses) then AfterSends(infos, accid, n, a.sends) else n;
      served.(wire := served.wire + AnswerTo(services, a))
    case Response(id, _, _, _, _, response) =>
      if response == [] || id !in n.outstandings then n
      else
        var call, rest := n.outstandings[id], n.(outstandings := n.outstandings - {id});
        match Target(services, call)
        case At(target) =>
          AfterSends(infos, accid, rest.(callbacks := n.callbacks + [Callback(id, target, call.request, response)]), a.sends)
        case _ => rest
  }

  /** Handling the message uses a method that is not there. */
  predicate Faults(services: seq<Option<Service>>, n: Net, message: RpcMessage) {
    match message
    case Other => false
    case Request(_, service, index, _, _, _, _) =>
      ServiceAt(services, service).Some? && Requested(ServiceAt(services, service).value, index).Outside?
    case Response(id, _, _, _, _, response) =>
      response != [] && id in n.outstandings && Target(services, n.outstandings[id]).Outside?
  }

  function HandleAll(services: seq<Option<Service>>, infos: map<MessageType, ServiceInfo>, accid: nat, n: Net,
                     queue: seq<Arrival>): Net
  {
    if queue == [] then n
    else
      var last := |queue| - 1;
      Handle(services, infos, accid, HandleAll(services, infos, accid, n, queue[..last]), queue[last])
  }

  /** The responses among the messages, in order. */
  function Responses(messages: seq<RpcMessage>): seq<RpcMessage> {
    if messages == [] then []
    else
      var last := messages[|messages| - 1];
      Responses(messages[..|messages| - 1]) + if last.Response? then [last] else []
  }

  /** The answers to all requests in a queue, in order. */
  function AllAnswers(services: seq<Option<Service>>, queue: seq<Arrival>): seq<RpcMessage> {
    if queue == [] then []
    else
      var last := queue[|queue| - 1];
      AllAnswers(services, queue[..|queue| - 1]) + if last.message.Request? then AnswerTo(services, last) else []
  }

  lemma {:induction false} ResponsesAppend(a: seq<RpcMessage>, b: seq<RpcMessage>)
    ensures Responses(a + b) == Responses(a) + Responses(b)
    decreases |b|
  {
    if b == [] {
      assert a + b == a;
    } else {
      var front := b[..|b| - 1];
      assert (a + b)[..|a + b| - 1] == a + front;
      ResponsesAppend(a, front);
    }
  }

  lemma {:induction false} SentAreRequests(infos: map<MessageType, ServiceInfo>, accid: nat, id: nat, requests: seq<Message>)
    ensures forall i | 0 <= i < |SentFor(infos, accid, id, requests)| :: SentFor(infos, accid, id, requests)[i].Request?
    ensures Responses(SentFor(infos, accid, id, requests)) == []
  {
    if requests != [] {
      var front := SentFor(infos, accid, id, requests[..|requests| - 1]);
      SentAreRequests(infos, accid, id, requests[..|requests| - 1]);
      var sent := SentFor(infos, accid, id, requests);
      if sent != front {
        ResponsesAppend(front, [sent[|front|]]);
        assert [sent[|front|]][..0] == [];
        assert sent == front + [sent[|front|]];
      }
    }
  }

  lemma HandleAnswers(services: seq<Option<Service>>, infos: map<MessageType, ServiceInfo>, accid: nat, n: Net, a: Arrival)
    ensures Responses(Handle(services, infos, accid, n, a).wire) ==
            Responses(n.wire) + if a.message.Request? then AnswerTo(services, a) else []
  {
    hide Target, MethodAt, SentFor, Responses, TableAfter;
    var sent := SentFor(infos, accid, n.id, a.sends);
    SentAreRequests(infos, accid, n.id, a.sends);
    ResponsesAppend(n.wire, sent);
    if a.message.Request? {
      var answer := AnswerTo(services, a);
      AnswerIsResponse(services, a);
      ResponsesAppend(n.wire + sent, answer);
      ResponsesAppend(n.wire, answer);
    }
  }

  lemma AnswerIsResponse(services: seq<Option<Service>>, a: Arrival)
    requires a.message.Request?
    ensures Responses(AnswerTo(services, a)) == AnswerTo(services, a)
    ensures forall m | m in AnswerTo(services, a) :: m.Response? && m.id == a.message.id
  {
    hide MethodAt;
    var answer := AnswerTo(services, a);
    if answer != [] {
      assert answer == [answer[0]] && answer[..0] == [];
    }
  }

  /** Whatever is in the queue and whatever handlers and callbacks send, every request has its
      answer, once and in order, and there are no other responses. */
  lemma {:induction false} AnswersInOrder(services: seq<Option<Service>>, infos: map<MessageType, ServiceInfo>, accid: nat,
                                          n: Net, queue: seq<Arrival>)
    ensures Responses(HandleAll(services, infos, accid, n, queue).wire) == Responses(n.wire) + AllAnswers(services, queue)
    decreases |queue|
  {
    hide Handle, AnswerTo, Responses;
    if queue != [] {
      var last := |queue| - 1;
      AnswersInOrder(services, infos, accid, n, queue[..last]);
      HandleAnswers(services, infos, accid, HandleAll(services, infos, accid, n, queue[..last]), queue[last]);
    }
  }

  lemma {:induction false} TableGrows(infos: map<MessageType, ServiceInfo>, accid: nat, id: nat,
                                      table: map<nat, OutstandingCall>, requests: seq<Message>, k: nat)
    requires k <= id
    ensures var after := TableAfter(infos, accid, id, table, requests);
            (k in after <==> k in table) && (k in table ==> after[k] == table[k])
  {
    if requests != [] {
      TableGrows(infos, accid, id, table, requests[..|requests| - 1], k);
    }
  }

  /** A call that has been made is not touched until the first real response to it. */
  lemma {:induction false} CallStays(services: seq<Option<Service>>, infos: map<MessageType, ServiceInfo>, accid: nat,
                                     n: Net, queue: seq<Arrival>, k: nat)
    requires k in n.outstandings && k <= n.id
    requires forall j | 0 <= j < |queue| :: !Answers(queue[j].message, k)
    ensures var m := HandleAll(services, infos, accid, n, queue);
            k in m.outstandings && m.outstandings[k] == n.outstandings[k] && n.id <= m.id
    decreases |queue|
  {
    hide Target, HandledBy, AnswerTo, SentFor, TableAfter;
    if queue != [] {
      var last := |queue| - 1;
      CallStays(services, infos, accid, n, queue[..last], k);
      var m, a := HandleAll(services, infos, accid, n, queue[..last]), queue[last];
      TableGrows(infos, accid, m.id, m.outstandings, a.sends, k);
      if a.message.Response? {
        TableGrows(infos, accid, m.id, m.outstandings - {a.message.id}, a.sends, k);
      }
    }
  }

  /** The first real response makes the callback, with its own content; then the call is gone. */
  lemma FirstResponseCounts(services: seq<Option<Service>>, infos: map<MessageType, ServiceInfo>, accid: nat,
                            n: Net, queue: seq<Arrival>, i: nat, k: nat)
    requires k in n.outstandings && k <= n.id && i < |queue|
    requires Answers(queue[i].message, k) && forall j | 0 <= j < i :: !Answers(queue[j].message, k)
    ensures var before := HandleAll(services, infos, accid, n, queue[..i]);
            var after := HandleAll(services, infos, accid, n, queue[..i + 1]);
            var call := n.outstandings[k];
            && k !in after.outstandings
            && after.callbacks == before.callbacks +
               if Target(services, call).At?
               then [Callback(k, Target(services, call).target, call.request, queue[i].message.response)] else []
  {
    hide Target, SentFor, TableAfter;
    CallStays(services, infos, accid, n, queue[..i], k);
    assert queue[..i + 1][..i] == queue[..i];
    var before := HandleAll(services, infos, accid, n, queue[..i]);
    TableGrows(infos, accid, before.id, before.outstandings - {k}, queue[i].sends, k);
  }

  class Channel {
    const registry: Registry
    var accid: nat
    var id: nat
    var outstandings: map<nat, OutstandingCall>
    // Everything given to UMgrMessage::SendMessage.
    var wire: seq<RpcMessage>
    // A method outside its service's array has been used, or one of no array at all; nothing is
    // said of what happens then.
    var faulted: bool
    // All calls ever made, by id; the ids that have been consumed; the callbacks made.
    ghost var calls: map<nat, OutstandingCall>
    ghost var consumed: set<nat>
    ghost var callbacks: seq<Callback>

    ghost predicate Valid()
      reads this, registry
    {
      && IdsOk(id, outstandings, calls, consumed)
      && CallbacksOk(callbacks, calls, consumed, registry.services)
    }

    ghost function State(): Net
      reads this
    {
      Net(id, outstandings, wire, callbacks)
    }

    /** What the state becomes by one message. */
    ghost function After(n: Net, a: Arrival): Net
      reads this, registry
    {
      Handle(registry.services, registry.infos, accid, n, a)
    }

    /** With a registry whose entries are right, all calls can be answered. */
    ghost predicate Sound()
      reads this, registry
    {
      registry.Valid() && AllAnswerable(registry.services, calls)
    }

    /** Then every consumed call had its one callback, with the method that takes its request. */
    lemma EveryCallCalledBack()
      requires Valid() && Sound()
      ensures forall k | k in consumed :: exists i | 0 <= i < |callbacks| :: callbacks[i].id == k
      ensures forall i | 0 <= i < |callbacks| ::
                callbacks[i].target.request == Some(callbacks[i].request.messageType)
    {
      hide Answerable, Target;
      forall k | k in calls ensures Target(registry.services, calls[k]).At? {
        AnswerableTarget(registry.services, calls[k]);
      }
      forall i | 0 <= i < |callbacks| ensures callbacks[i].target.request == Some(callbacks[i].request.messageType) {
        assert CallbackOk(callbacks[i], calls, consumed, registry.services);
        AnswerableTarget(registry.services, calls[callbacks[i].id]);
      }
    }

    /** Sends are outstanding or consumed, and nothing else is. */
    lemma Conservation()
      requires Valid()
      ensures id == |outstandings| + |consumed|
      ensures forall k | k in outstandings :: 1 <= k <= id
    {
      hide CallbacksOk;
      IdsConserved(id, outstandings, calls, consumed);
    }

    constructor (registry: Registry)
      ensures Valid() && this.registry == registry
      ensures registry.Valid() ==> Sound()
      ensures id == 0 && outstandings == map[] && wire == [] && callbacks == [] && !faulted
    {
      this.registry := registry;
      accid, id, outstandings, wire, faulted := 0, 0, map[], [], false;
      calls, consumed, callbacks := map[], {}, [];
    }

    /** RpcChannel::Send: a fresh id, one message, one entry; an unknown request type is
        ignored. */
    method Send(request: Message)
      requires Valid()
      modifies this`id, this`outstandings, this`wire, this`calls
      ensures Valid()
      ensures old(Sound()) ==> Sound()
      ensures request.messageType !in registry.infos ==>
                id == old(id) && outstandings == old(outstandings) && wire == old(wire)
      ensures request.messageType in registry.infos ==>
                var info := registry.infos[request.messageType];
                && id == old(id) + 1 && id !in old(outstandings)
                && outstandings == old(outstandings)[id := OutstandingCall(request, info.serviceType, info.methodIndex)]
                && wire == old(wire) + [Request(id, info.serviceType, info.methodIndex, Client, info.to, accid, request.bytes)]
      ensures forall k | k in old(calls) :: k in calls && calls[k] == old(calls)[k]
    {
      hide CallbacksOk, Answerable, AllTypesKnown;
      ghost var sound := Sound();
      if request.messageType !in registry.infos {
        return;
      }
      var info := registry.infos[request.messageType];
      id := id + 1;
      var out := OutstandingCall(request, info.serviceType, info.methodIndex);
      outstandings := outstandings[id := out];
      wire := wire + [Request(id, info.serviceType, info.methodIndex, Client, info.to, accid, request.bytes)];
      CallsGrow(callbacks, calls, consumed, registry.services, id, out);
      if sound {
        assert EntryOk(registry.services, request.messageType, info);
        EntryAnswers(registry.services, out, info);
      }
      calls := calls[id := out];
    }

    /** A response that settles a call: it carries something, and its id is outstanding. */
    predicate Settles(message: RpcMessage)
      reads this
    {
      message.Response? && message.response != [] && message.id in outstandings
    }

    /** stubHandleResponseMsg.  The callback may itself send requests, given by `sends`; by then
        the entry has been erased. */
    method StubHandleResponse(message: RpcMessage, sends: seq<Message>)
      requires Valid() && message.Response? && !faulted
      modifies this`id, this`outstandings, this`wire, this`calls, this`consumed, this`callbacks, this`faulted
      ensures Valid()
      ensures old(Sound()) ==> Sound()
      // An unknown or repeated id, or an empty response, changes nothing at all.
      ensures !old(Settles(message)) ==>
                && id == old(id) && outstandings == old(outstandings) && wire == old(wire)
                && consumed == old(consumed) && callbacks == old(callbacks) && !faulted
      ensures forall a: Arrival | a.message == message && a.sends == sends :: State() == After(old(State()), a)
      // Otherwise the call is consumed, and its own callback is made, once.
      ensures old(Settles(message)) ==>
                var call := old(outstandings)[message.id];
                var target := Target(registry.services, call);
                && consumed == old(consumed) + {message.id}
                && message.id !in outstandings
                && (faulted <==> target.Outside?)
                && callbacks == old(callbacks) +
                   (if target.At? then [Callback(message.id, target.target, call.request, message.response)] else [])
                && wire == old(wire) +
                   (if target.At? then SentFor(registry.infos, accid, old(id), sends) else [])
                // With the right entries there is always a method, and it takes this request.
                && (old(Sound()) ==> target.At? && target.target.request == Some(call.request.messageType))
                && (forall k | k in old(outstandings) && k != message.id ::
                      k in outstandings && outstandings[k] == old(outstandings)[k])
    {
      hide CallbacksOk, Answerable, AllAnswerable, Registry.Valid, Target, SentFor;
      if message.response == [] {
        return;
      }
      if message.id !in outstandings {
        return;
      }
      var called := CompleteCall(message.id, message.response);
      if called {
        SendAll(sends);
      } else {
        assert wire + [] == wire;
      }
    }

    /** The entry is erased, the service and its method are looked up, and if they are there the
        callback is made. */
    method CompleteCall(k: nat, response: Bytes) returns (called: bool)
      requires Valid() && k in outstandings && !faulted
      modifies this`outstandings, this`consumed, this`callbacks, this`faulted
      ensures Valid()
      ensures old(Sound()) ==> Sound()
      ensures outstandings == old(outstandings) - {k} && consumed == old(consumed) + {k}
      ensures var call := old(outstandings)[k];
              var target := Target(registry.services, call);
              && called == target.At? && faulted == target.Outside?
              && callbacks == old(callbacks) +
                 (if target.At? then [Callback(k, target.target, call.request, response)] else [])
              && (old(Sound()) ==> target.At? && target.target.request == Some(call.request.messageType))
    {
      hide Registry.Valid, CallbacksOk;
      var out := outstandings[k];
      AnswerableTarget(registry.services, out);
      outstandings := outstandings - {k};
      ghost var before := consumed;
      consumed := consumed + {k};
      assert callbacks + [] == callbacks;
      var service := registry.GetServicePtr(out.serviceType);
      if service.None? || service.value.descriptor.None? {
        CallbacksGrow(callbacks, calls, before, registry.services, k, []);
        return false;
      }
      var method' := MethodAt(service.value.descriptor.value, out.methodIndex);
      if !method'.At? {
        CallbacksGrow(callbacks, calls, before, registry.services, k, []);
        faulted := method'.Outside?;
        return false;
      }
      CallbacksGrow(callbacks, calls, before, registry.services, k, [Callback(k, method'.target, out.request, response)]);
      callbacks := callbacks + [Callback(k, method'.target, out.request, response)];
      called := true;
    }

    /** Requests sent one after the other take nothing off the table. */
    method SendAll(requests: seq<Message>)
      requires Valid()
      modifies this`id, this`outstandings, this`wire, this`calls
      ensures Valid()
      ensures old(Sound()) ==> Sound()
      ensures wire == old(wire) + SentFor(registry.infos, accid, old(id), requests)
      ensures id == old(id) + |SentFor(registry.infos, accid, old(id), requests)|
      ensures outstandings == TableAfter(registry.infos, accid, old(id), old(outstandings), requests)
      ensures forall k | k in old(outstandings) :: k in outstandings && outstandings[k] == old(outstandings)[k]
      ensures forall k | k in outstandings && k !in old(outstandings) :: k > old(id)
    {
      hide CallbacksOk, AllAnswerable, Registry.Valid;
      var i := 0;
      while i < |requests|
        invariant 0 <= i <= |requests|
        invariant Valid() && id >= old(id)
        invariant old(Sound()) ==> Sound()
        invariant wire == old(wire) + SentFor(registry.infos, accid, old(id), requests[..i])
        invariant id == old(id) + |SentFor(registry.infos, accid, old(id), requests[..i])|
        invariant outstandings == TableAfter(registry.infos, accid, old(id), old(outstandings), requests[..i])
        invariant forall k | k in old(outstandings) :: k in outstandings && outstandings[k] == old(outstandings)[k]
        invariant forall k | k in outstandings && k !in old(outstandings) :: k > old(id)
      {
        assert requests[..i + 1][..i] == requests[..i];
        Send(requests[i]);
        i := i + 1;
      }
      assert requests[..i] == requests;
    }

    /** RpcChannel::DoneCallback: the answer to a request received. */
    method DoneCallback(response: Option<Bytes>, id: nat, accid: nat, from: ServerType)
      modifies this`wire
      ensures wire == if response.None? then old(wire)
                      else old(wire) + [Response(id, Client, from, accid, NoError, response.value)]
    {
      if response.None? {
        return;
      }
      wire := wire + [Response(id, Client, from, accid, NoError, response.value)];
    }

    function ServiceOf(message: RpcMessage): Option<Service>
      requires message.Request?
      reads this, registry
    {
      ServiceAt(registry.services, message.service)
    }

    function AccessOf(message: RpcMessage): Access
      requires message.Request? && ServiceOf(message).Some?
      reads this, registry
    {
      Requested(ServiceOf(message).value, message.methodIndex)
    }

    predicate Handled(message: RpcMessage, parses: bool)
      requires message.Request?
      reads this, registry
    {
      HandledBy(registry.services, message, parses)
    }

    /** What the handler itself sends. */
    function SentBy(message: RpcMessage, parses: bool, sends: seq<Message>, id: nat): seq<RpcMessage>
      requires message.Request?
      reads this, registry
    {
      if Handled(message, parses) then SentFor(registry.infos, accid, id, sends) else []
    }

    /** serviceHandleRequestMsg.  `parses` says whether the request can be parsed; the handler
        sends requests of its own, given by `sends`, and fills in `response`, or asks for a
        delay.  `answered` says whether an answer goes out. */
    method ServiceHandleRequest(message: RpcMessage, parses: bool, sends: seq<Message>, delays: bool, response: Bytes)
      returns (answered: bool)
      requires message.Request? && Valid() && !faulted
      modifies this`id, this`outstandings, this`wire, this`calls, this`faulted
      ensures Valid()
      ensures old(Sound()) ==> Sound()
      ensures forall k | k in old(outstandings) :: k in outstandings && outstandings[k] == old(outstandings)[k]
      // It is a fault exactly if the service has no descriptor, or an index other than 0 lies outside
      // its methods.
      ensures faulted <==>
                && ServiceOf(message).Some?
                && var descriptor := ServiceOf(message).value.descriptor;
                   descriptor.None? || (message.methodIndex >= |descriptor.value.methods| && message.methodIndex > 0)
      ensures State() == After(old(State()), Arrival(message, sends, parses, delays, response))
      // Behind what the handler sends there is at most one more message, and none exactly if the
      // method never answers or will later.
      ensures var sent := old(wire) + SentBy(message, parses, sends, old(id));
              if answered then |wire| == |sent| + 1 && sent <= wire else wire == sent
      ensures !faulted ==>
                (answered <==> !(Handled(message, parses) && (AccessOf(message).target.emptyResponse || delays)))
      ensures faulted ==> !answered
      // It is a response to this request, ...
      ensures answered ==> wire[|wire| - 1].Response? && wire[|wire| - 1].id == message.id
      // ... which settles the call at the other end exactly if it was handled and there is
      // something in it; ...
      ensures answered ==> (Answers(wire[|wire| - 1], message.id) <==> Handled(message, parses) && response != [])
      // ... then it goes back to the sender and its account; ...
      ensures answered && Handled(message, parses) ==>
                var m := wire[|wire| - 1];
                && m.error == NoError && m.from == Client && m.to == message.from
                && m.accid == message.accid && m.response == response
      // ... and else it says what is wrong, in this order.
      ensures answered && !Handled(message, parses) ==>
                && wire[|wire| - 1] == Response(message.id, NoServer, NoServer, 0, wire[|wire| - 1].error, [])
                && (wire[|wire| - 1].error == NoService <==> ServiceOf(message).None?)
                && (wire[|wire| - 1].error == NoMethod <==> ServiceOf(message).Some? && AccessOf(message).Null?)
                && (wire[|wire| - 1].error == WrongProto <==> ServiceOf(message).Some? && AccessOf(message).At?)
    {
      hide CallbacksOk, AllAnswerable, Registry.Valid, SentFor, TableAfter;
      assert wire + [] == wire;
      answered := true;
      var service := registry.GetServicePtr(message.service);
      if service.None? {
        wire := wire + [ErrorReply(message.id, NoService)];
        return;
      }
      if service.value.descriptor.None? {
        faulted := true;
        return false;
      }
      var method' := MethodAt(service.value.descriptor.value, message.methodIndex);
      if method'.Null? {
        wire := wire + [ErrorReply(message.id, NoMethod)];
        return;
      }
      if method'.Outside? {
        faulted := true;
        return false;
      }
      if !parses {
        wire := wire + [ErrorReply(message.id, WrongProto)];
        return;
      }
      SendAll(sends);
      answered := !method'.target.emptyResponse && !delays;
      if answered {
        DoneCallback(Some(response), message.id, message.accid, message.from);
      }
    }

    /** The message does not use a method outside its service's array. */
    predicate InBounds(message: RpcMessage)
      reads this, registry
    {
      message.Request? && ServiceOf(message).Some? ==> !AccessOf(message).Outside?
    }

    /** RpcChannel::OnMessage. */
    method OnMessage(a: Arrival)
      requires Valid() && !faulted
      modifies this`id, this`outstandings, this`wire, this`calls, this`consumed, this`callbacks, this`faulted
      ensures Valid()
      ensures old(Sound()) ==> Sound()
      ensures State() == After(old(State()), a)
      ensures faulted <==> Faults(registry.services, old(State()), a.message)
      ensures old(callbacks) <= callbacks && old(consumed) <= consumed
      ensures forall k | k in old(outstandings) :: k in consumed <==> Answers(a.message, k)
      ensures forall k | k in old(outstandings) && k !in consumed :: k in outstandings && outstandings[k] == old(outstandings)[k]
      ensures old(Sound()) && InBounds(a.message) ==> !faulted
    {
      hide CallbacksOk, Answerable, AllAnswerable, Registry.Valid, Target;
      if a.message.Response? {
        StubHandleResponse(a.message, a.sends);
      } else if a.message.Request? {
        var _ := ServiceHandleRequest(a.message, a.parses, a.sends, a.delays, a.response);
      }
    }

    /** UMgrMessage::TickMessageQueue: the whole queue is handled in order.  Whatever is in it,
        unknown, repeated and empty responses included, of the calls outstanding before exactly
        those for which a real response arrived are settled; the others are untouched.  `handled`
        says how many messages were handled, which are all unless one was a fault. */
    method TickMessageQueue(queue: seq<Arrival>) returns (ghost handled: nat)
      requires Valid() && !faulted
      modifies this`id, this`outstandings, this`wire, this`calls, this`consumed, this`callbacks, this`faulted
      ensures Valid()
      ensures old(Sound()) ==> Sound()
      ensures handled <= |queue| && (!faulted ==> handled == |queue|)
      ensures State() == HandleAll(registry.services, registry.infos, accid, old(State()), queue[..handled])
      ensures faulted ==>
                && 0 < handled
                && Faults(registry.services,
                          HandleAll(registry.services, registry.infos, accid, old(State()), queue[..handled - 1]),
                          queue[handled - 1].message)
      // So all requests have their answers, in order.
      ensures Responses(wire) == Responses(old(wire)) + AllAnswers(registry.services, queue[..handled])
      ensures old(callbacks) <= callbacks
      ensures !faulted ==>
                forall k | k in old(outstandings) ::
                  k in consumed <==> exists i | 0 <= i < |queue| :: Answers(queue[i].message, k)
      ensures forall k | k in old(outstandings) && k !in consumed :: k in outstandings && outstandings[k] == old(outstandings)[k]
      // With right entries, only a request from outside can use a method that is not there.
      ensures old(Sound()) && (forall i | 0 <= i < |queue| :: InBounds(queue[i].message)) ==> !faulted
    {
      hide CallbacksOk, Answerable, AllAnswerable, Registry.Valid, Target, Answers, InBounds, Handle, Faults, Responses;
      handled := 0;
      var i := 0;
      while i < |queue|
        invariant 0 <= i == handled <= |queue| && Valid() && !faulted
        invariant old(Sound()) ==> Sound()
        invariant State() == HandleAll(registry.services, registry.infos, accid, old(State()), queue[..i])
        invariant old(callbacks) <= callbacks
        invariant forall k | k in old(outstandings) ::
                    k in consumed <==> exists j | 0 <= j < i :: Answers(queue[j].message, k)
        invariant forall k | k in old(outstandings) && k !in consumed ::
                    k in outstandings && outstandings[k] == old(outstandings)[k]
      {
        OnMessage(queue[i]);
        i := i + 1;
        handled := i;
        assert queue[..i][..i - 1] == queue[..i - 1];
        if faulted {
          AnswersInOrder(registry.services, registry.infos, accid, old(State()), queue[..i]);
          return;
        }
      }
      AnswersInOrder(registry.services, registry.infos, accid, old(State()), queue[..i]);
      assert queue[..i] == queue;
    }

    /** An error reply, whatever its id, does not settle the call it answers: the caller's
        entry stays, because the reply's response is empty. */
    lemma ErrorRepliesSettleNothing(id: nat, error: Error)
      ensures !Settles(ErrorReply(id, error))
    {
    }
  }

  /** The reply to a request that could not be handled. */
  function ErrorReply(id: nat, error: Error): RpcMessage {
    Response(id, NoServer, NoServer, 0, error, [])
  }

  // ---------------------------------------------------------------- delayed responses

  /** SDelayResponse; the handler fills in the response later. */
  datatype DelayResponse = DelayResponse(id: nat, msgId: nat, accid: nat, from: ServerType, response: Option<Bytes>)

  class DelayedResponses {
    const channel: Channel
    var lastId: nat
    var pending: map<nat, DelayResponse>
    // The requests for which a delayed response was ever created, and the ids answered.
    ghost var created: map<nat, DelayResponse>
    ghost var answered: set<nat>

    ghost predicate Valid()
      reads this
    {
      && (forall k | k in created :: k <= lastId)
      && (forall k | k in created :: k in pending <==> k !in answered)
      && (forall k | k in pending :: k in created)
      && (forall k | k in answered :: k in created)
      // An entry keeps the message id, account and sender of its request.
      && (forall k | k in pending :: pending[k].id == k && pending[k].(response := None) == created[k])
    }

    constructor (channel: Channel, start: nat)
      ensures Valid() && this.channel == channel && lastId == start && pending == map[] && created == map[]
    {
      this.channel := channel;
      lastId, pending, created, answered := start, map[], map[], {};
    }

    /** NewDelayResponse: an id that has not been used before. */
    method New(msgId: nat, accid: nat, from: ServerType) returns (id: nat)
      requires Valid()
      modifies this`lastId, this`pending, this`created
      ensures Valid()
      ensures id !in old(created) && id == lastId == old(lastId) + 1
      ensures pending == old(pending)[id := DelayResponse(id, msgId, accid, from, None)]
      ensures created == old(created)[id := DelayResponse(id, msgId, accid, from, None)]
    {
      lastId := lastId + 1;
      id := lastId;
      pending := pending[id := DelayResponse(id, msgId, accid, from, None)];
      created := created[id := DelayResponse(id, msgId, accid, from, None)];
    }

    /** The handler, through the pointer it was given. */
    method SetResponse(id: nat, response: Bytes)
      requires Valid() && id in pending
      modifies this`pending
      ensures Valid()
      ensures pending == old(pending)[id := old(pending)[id].(response := Some(response))]
    {
      pending := pending[id := pending[id].(response := Some(response))];
    }

    /** DoDelayResponse: the first time, an answer with the original message id, account and
        sender goes out, if there is a response; after that, nothing. */
    method Do(id: nat)
      requires Valid()
      modifies this`pending, this`answered, channel`wire
      ensures Valid()
      ensures id !in old(pending) ==> channel.wire == old(channel.wire) && pending == old(pending)
      ensures id in old(pending) ==>
                && id in created && id !in old(answered) && id in answered
                && pending == old(pending) - {id}
                && channel.wire ==
                   if old(pending)[id].response.None? then old(channel.wire)
                   else old(channel.wire) + [Response(created[id].msgId, Client, created[id].from, created[id].accid,
                                                      NoError, old(pending)[id].response.value)]
    {
      if id !in pending {
        return;
      }
      var d := pending[id];
      pending := pending - {id};
      answered := answered + {id};
      channel.DoneCallback(d.response, d.msgId, d.accid, d.from);
    }
  }
}
