/** UMgrMessage::registerService: which service, and which of its methods, belongs to a request
    type. */
module ServiceRegistry {
  import opened Wrappers

  /** A message type, standing for its Descriptor. */
  type MessageType = nat

  datatype ServerType = NoServer | Client | GateServer | GameServer

  /** A method: the type of its request prototype, if it has a descriptor, and whether it answers
      with EmptyResponse. */
  datatype Method = Method(request: Option<MessageType>, emptyResponse: bool)

  datatype ServiceDescriptor = ServiceDescriptor(methods: seq<Method>)

  /** ServiceDescriptor::method adds the index to the array's address without a check, and the array
      of a service without methods is null. */
  datatype Access = Null | Outside | At(target: Method)

  function MethodAt(descriptor: ServiceDescriptor, index: nat): Access {
    if index < |descriptor.methods| then At(descriptor.methods[index])
    else if descriptor.methods == [] && index == 0 then Null
    else Outside
  }

  /** A service object made by the factory; its descriptor may be missing. */
  datatype Service = Service(stub: bool, descriptor: Option<ServiceDescriptor>)

  datatype ServiceInfo = ServiceInfo(serviceType: nat, methodIndex: nat, from: ServerType, to: ServerType)

  function ServerOf(c: char, otherwise: ServerType): ServerType {
    if c == 'C' then Client else if c == 'A' then GateServer else if c == 'G' then GameServer else otherwise
  }

  /** getServiceFromTo: the first and the third character of a name like C2A_UserService. */
  function FromTo(name: string): (ServerType, ServerType) {
    if |name| < 3 then (NoServer, NoServer)
    else (ServerOf(name[0], NoServer), ServerOf(name[2], NoServer))
  }

  function PlainName(name: string): string {
    "RPC::" + name
  }

  function StubName(name: string): string {
    "RPC::" + name + "_Stub"
  }

  /** What the factory makes under a name, if it has a descriptor. */
  function Made(factory: map<string, Service>, name: string): Option<Service> {
    if name in factory && factory[name].descriptor.Some? then Some(factory[name]) else None
  }

  function Plain(names: seq<string>, factory: map<string, Service>, t: nat): Option<Service>
    requires t < |names|
  {
    Made(factory, PlainName(names[t]))
  }

  function Stub(names: seq<string>, factory: map<string, Service>, t: nat): Option<Service>
    requires t < |names|
  {
    Made(factory, StubName(names[t]))
  }

  predicate MethodTakes(service: Option<Service>, index: nat, request: MessageType) {
    && service.Some? && service.value.descriptor.Some?
    && index < |service.value.descriptor.value.methods|
    && service.value.descriptor.value.methods[index].request == Some(request)
  }

  /** Some method of the service takes this request type. */
  predicate Takes(service: Option<Service>, request: MessageType) {
    && service.Some? && service.value.descriptor.Some?
    && exists i | 0 <= i < |service.value.descriptor.value.methods| :: MethodTakes(service, i, request)
  }

  /** The entry leads to a method that takes this request type. */
  predicate EntryOk(services: seq<Option<Service>>, request: MessageType, info: ServiceInfo) {
    && 0 < info.serviceType < |services|
    && MethodTakes(services[info.serviceType], info.methodIndex, request)
  }

  predicate AllEntriesOk(services: seq<Option<Service>>, infos: map<MessageType, ServiceInfo>) {
    forall r | r in infos :: EntryOk(services, r, infos[r])
  }

  /** Every request type of every registered service has an entry. */
  ghost predicate AllTypesKnown(services: seq<Option<Service>>, infos: map<MessageType, ServiceInfo>) {
    forall t, r | 0 <= t < |services| && Takes(services[t], r) :: r in infos
  }

  /** The character of the name at `i` stands for this server. */
  predicate StandsFor(name: string, i: nat, server: ServerType) {
    match server
    case Client => |name| >= 3 && i < |name| && name[i] == 'C'
    case GateServer => |name| >= 3 && i < |name| && name[i] == 'A'
    case GameServer => |name| >= 3 && i < |name| && name[i] == 'G'
    case NoServer => |name| < 3 || (i < |name| && name[i] !in "CAG")
  }

  /** Requests go from the server that the first character of the service's name stands for to the
      one that the third stands for. */
  predicate Routed(info: ServiceInfo, names: seq<string>) {
    && info.serviceType < |names|
    && StandsFor(names[info.serviceType], 0, info.from) && StandsFor(names[info.serviceType], 2, info.to)
  }

  lemma RoutedByName(info: ServiceInfo, names: seq<string>)
    requires info.serviceType < |names| && (info.from, info.to) == FromTo(names[info.serviceType])
    ensures Routed(info, names)
  {
  }

  // ---------------------------------------------------------------- what registration does

  datatype Table = Table(services: seq<Option<Service>>, infos: map<MessageType, ServiceInfo>)

  /** The entries after the first `n` methods of a service. */
  function WithMethods(infos: map<MessageType, ServiceInfo>, t: nat, service: Service, typeName: string, n: nat):
      map<MessageType, ServiceInfo>
    requires service.descriptor.Some? && n <= |service.descriptor.value.methods|
  {
    if n == 0 then infos
    else
      var before := WithMethods(infos, t, service, typeName, n - 1);
      var request := service.descriptor.value.methods[n - 1].request;
      if request.None? then before
      else before[request.value := ServiceInfo(t, n - 1, FromTo(typeName).0, FromTo(typeName).1)]
  }

  /** After one service has been parsed, if there is one. */
  function Parsed(table: Table, t: nat, service: Option<Service>, typeName: string): Table
    requires t < |table.services| && (service.Some? ==> service.value.descriptor.Some?)
  {
    if service.None? then table
    else Table(table.services[t := service],
               WithMethods(table.infos, t, service.value, typeName, |service.value.descriptor.value.methods|))
  }

  /** After the service types below `n`: of each the service, then its stub. */
  function RegisteredUpTo(names: seq<string>, factory: map<string, Service>, n: nat): (table: Table)
    requires 1 <= n <= |names|
    ensures |table.services| == |names|
  {
    if n == 1 then Table(seq(|names|, i => None), map[])
    else
      var t := n - 1;
      var plain := Parsed(RegisteredUpTo(names, factory, t), t, Plain(names, factory, t), names[t]);
      Parsed(plain, t, Stub(names, factory, t), names[t])
  }

  /** What ends up in the array for a service type: the stub, else the service. */
  function Registered(names: seq<string>, factory: map<string, Service>, t: nat): Option<Service>
    requires t < |names|
  {
    if Stub(names, factory, t).Some? then Stub(names, factory, t) else Plain(names, factory, t)
  }

  /** In terms of the factory: a stub is made under the service's name with a suffix. */
  lemma RegisteredByName(names: seq<string>, factory: map<string, Service>, t: nat)
    requires t < |names|
    ensures var plain, stub := "RPC::" + names[t], "RPC::" + names[t] + "_Stub";
            Registered(names, factory, t) ==
            if stub in factory && factory[stub].descriptor.Some? then Some(factory[stub])
            else if plain in factory && factory[plain].descriptor.Some? then Some(factory[plain])
            else None
  {
  }

  // ---------------------------------------------------------------- when the entries are right

  predicate Offers(names: seq<string>, factory: map<string, Service>, t: nat, request: MessageType)
    requires t < |names|
  {
    Takes(Plain(names, factory, t), request) || Takes(Stub(names, factory, t), request)
  }

  /** Whatever request type a service has that gives way to its stub, the stub has as well, or a
      service or stub of a later type. */
  ghost predicate NothingLost(names: seq<string>, factory: map<string, Service>) {
    forall t, r | 0 < t < |names| && Stub(names, factory, t).Some? && Takes(Plain(names, factory, t), r) ::
      Takes(Stub(names, factory, t), r) || exists u | t < u < |names| :: Offers(names, factory, u, r)
  }

  /** A service and its stub are generated from one definition. */
  predicate SharedDescriptors(names: seq<string>, factory: map<string, Service>) {
    forall t | 0 < t < |names| ::
      var plain, stub := Plain(names, factory, t), Stub(names, factory, t);
      plain.Some? && stub.Some? ==> plain.value.descriptor == stub.value.descriptor
  }

  /** The last method that takes the type has the entry. */
  lemma {:induction false} LastMethod(infos: map<MessageType, ServiceInfo>, t: nat, service: Service, typeName: string,
                                      n: nat, r: MessageType)
    requires service.descriptor.Some? && n <= |service.descriptor.value.methods|
    ensures var after := WithMethods(infos, t, service, typeName, n);
            if exists i | 0 <= i < n :: MethodTakes(Some(service), i, r) then
              && r in after && after[r].serviceType == t && (after[r].from, after[r].to) == FromTo(typeName)
              && MethodTakes(Some(service), after[r].methodIndex, r)
            else
              (r in after <==> r in infos) && (r in infos ==> after[r] == infos[r])
  {
    hide FromTo;
    if n > 0 {
      LastMethod(infos, t, service, typeName, n - 1, r);
      assert MethodTakes(Some(service), n - 1, r) <==> service.descriptor.value.methods[n - 1].request == Some(r);
    }
  }

  /** Parsing one service: its own types lead to it, all other entries stay. */
  lemma ParsedEntry(table: Table, t: nat, service: Option<Service>, typeName: string, r: MessageType)
    requires t < |table.services| && (service.Some? ==> service.value.descriptor.Some?)
    ensures var after := Parsed(table, t, service, typeName);
            if Takes(service, r) then
              && r in after.infos && after.infos[r].serviceType == t
              && (after.infos[r].from, after.infos[r].to) == FromTo(typeName)
              && MethodTakes(service, after.infos[r].methodIndex, r)
            else
              (r in after.infos <==> r in table.infos) && (r in table.infos ==> after.infos[r] == table.infos[r])
  {
    hide FromTo, WithMethods;
    if service.Some? {
      LastMethod(table.infos, t, service.value, typeName, |service.value.descriptor.value.methods|, r);
    }
  }

  /** The entry of a type after the service types below `n`: it belongs to the last service type
      that offers it, and leads to the stub of that type if the stub takes it, else to a method of
      the plain service. */
  predicate LastWriter(names: seq<string>, factory: map<string, Service>, n: nat, info: ServiceInfo, r: MessageType)
    requires n <= |names|
  {
    && 0 < info.serviceType < n
    && Routed(info, names)
    && (forall u | info.serviceType < u < n :: !Offers(names, factory, u, r))
    && var plain, stub := Plain(names, factory, info.serviceType), Stub(names, factory, info.serviceType);
    if Takes(stub, r) then MethodTakes(stub, info.methodIndex, r) else MethodTakes(plain, info.methodIndex, r)
  }

  lemma {:induction false} EntryAfter(names: seq<string>, factory: map<string, Service>, n: nat, r: MessageType)
    requires 1 <= n <= |names|
    ensures var infos := RegisteredUpTo(names, factory, n).infos;
            && (r in infos <==> exists t | 0 < t < n :: Offers(names, factory, t, r))
            && (r in infos ==> LastWriter(names, factory, n, infos[r], r))
  {
    if n > 1 {
      hide FromTo, Takes, MethodTakes, Parsed, Made, Routed;
      var t := n - 1;
      EntryAfter(names, factory, t, r);
      var before := RegisteredUpTo(names, factory, t);
      var plain := Parsed(before, t, Plain(names, factory, t), names[t]);
      PartHasDescriptor(names, factory, t);
      ParsedSize(before, t, Plain(names, factory, t), names[t]);
      ParsedEntry(before, t, Plain(names, factory, t), names[t], r);
      ParsedEntry(plain, t, Stub(names, factory, t), names[t], r);
      if Offers(names, factory, t, r) {
        RoutedByName(RegisteredUpTo(names, factory, n).infos[r], names);
      }
      if Offers(names, factory, t, r) {
      } else if u :| 0 < u < n && Offers(names, factory, u, r) {
        assert 0 < u < t;
      }
    }
  }

  lemma PartHasDescriptor(names: seq<string>, factory: map<string, Service>, t: nat)
    requires t < |names|
    ensures Plain(names, factory, t).Some? ==> Plain(names, factory, t).value.descriptor.Some?
    ensures Stub(names, factory, t).Some? ==> Stub(names, factory, t).value.descriptor.Some?
  {
  }

  lemma ParsedSize(table: Table, t: nat, service: Option<Service>, typeName: string)
    requires t < |table.services| && (service.Some? ==> service.value.descriptor.Some?)
    ensures var services := Parsed(table, t, service, typeName).services;
            && |services| == |table.services|
            && (forall u | 0 <= u < |services| && u != t :: services[u] == table.services[u])
            && services[t] == if service.Some? then service else table.services[t]
  {
  }

  lemma {:induction false} ServicesAfter(names: seq<string>, factory: map<string, Service>, n: nat, t: nat)
    requires 1 <= n <= |names| && t < |names|
    ensures RegisteredUpTo(names, factory, n).services[t] ==
            if 0 < t < n then Registered(names, factory, t) else None
  {
    if n > 1 {
      hide FromTo, Parsed, Made;
      var u := n - 1;
      ServicesAfter(names, factory, u, t);
      var before := RegisteredUpTo(names, factory, u);
      PartHasDescriptor(names, factory, u);
      ParsedSize(before, u, Plain(names, factory, u), names[u]);
      ParsedSize(Parsed(before, u, Plain(names, factory, u), names[u]), u, Stub(names, factory, u), names[u]);
      if t == u {
        ServicesAfter(names, factory, u, u);
      }
    }
  }

  /** One entry leads to a right method unless its last writer is a service that has given way. */
  lemma EntryRight(names: seq<string>, factory: map<string, Service>, r: MessageType)
    requires names != []
    ensures var table := RegisteredUpTo(names, factory, |names|);
            r in table.infos ==>
              var t := table.infos[r].serviceType;
              && 0 < t < |names|
              && (EntryOk(table.services, r, table.infos[r]) <==>
                  Stub(names, factory, t).None? || Takes(Stub(names, factory, t), r))
  {
    hide FromTo, Made, Plain, Stub;
    var table := RegisteredUpTo(names, factory, |names|);
    EntryAfter(names, factory, |names|, r);
    if r in table.infos {
      var t := table.infos[r].serviceType;
      ServicesAfter(names, factory, |names|, t);
      if MethodTakes(Stub(names, factory, t), table.infos[r].methodIndex, r) {
        assert Takes(Stub(names, factory, t), r);
      }
    }
  }

  /** All entries are right if and only if nothing is lost to a stub. */
  lemma EntriesRightIff(names: seq<string>, factory: map<string, Service>)
    requires names != []
    ensures var table := RegisteredUpTo(names, factory, |names|);
            AllEntriesOk(table.services, table.infos) <==> NothingLost(names, factory)
  {
    hide FromTo, Made, Plain, Stub, Takes, EntryOk, RegisteredUpTo;
    var table := RegisteredUpTo(names, factory, |names|);
    if !NothingLost(names, factory) {
      var t, r :| 0 < t < |names| && Stub(names, factory, t).Some? && Takes(Plain(names, factory, t), r) &&
                  !(Takes(Stub(names, factory, t), r) || exists u | t < u < |names| :: Offers(names, factory, u, r));
      EntryAfter(names, factory, |names|, r);
      EntryRight(names, factory, r);
      assert Offers(names, factory, t, r);
      assert table.infos[r].serviceType == t by {
        EntryOffered(names, factory, |names|, table.infos[r], r);
      }
    } else {
      forall r | r in table.infos ensures EntryOk(table.services, r, table.infos[r]) {
        EntryAfter(names, factory, |names|, r);
        EntryRight(names, factory, r);
        EntryOffered(names, factory, |names|, table.infos[r], r);
      }
    }
  }

  lemma EntryOffered(names: seq<string>, factory: map<string, Service>, n: nat, info: ServiceInfo, r: MessageType)
    requires n <= |names| && LastWriter(names, factory, n, info, r)
    ensures 0 < info.serviceType < n && Offers(names, factory, info.serviceType, r)
    ensures Takes(Stub(names, factory, info.serviceType), r) || Takes(Plain(names, factory, info.serviceType), r)
  {
    hide FromTo, Made;
  }

  lemma SharedLosesNothing(names: seq<string>, factory: map<string, Service>)
    requires SharedDescriptors(names, factory)
    ensures NothingLost(names, factory)
  {
    forall t, r | 0 < t < |names| && Stub(names, factory, t).Some? && Takes(Plain(names, factory, t), r)
      ensures Takes(Stub(names, factory, t), r)
    {
      var plain, stub := Plain(names, factory, t), Stub(names, factory, t);
      var i :| 0 <= i < |plain.value.descriptor.value.methods| && MethodTakes(plain, i, r);
      assert MethodTakes(stub, i, r);
    }
  }

  /** The types of what is registered in the end are known, and all entries are routed. */
  lemma TypesKnown(names: seq<string>, factory: map<string, Service>)
    requires names != []
    ensures var table := RegisteredUpTo(names, factory, |names|);
            && AllTypesKnown(table.services, table.infos)
            && (forall r | r in table.infos :: Routed(table.infos[r], names))
            && (forall t | 0 < t < |names| :: table.services[t] == Registered(names, factory, t))
            && table.services[0] == None
  {
    hide FromTo, Made, Takes, Plain, Stub, RegisteredUpTo, Routed;
    var table := RegisteredUpTo(names, factory, |names|);
    forall t | 0 <= t < |names|
      ensures table.services[t] == if 0 < t then Registered(names, factory, t) else None
    {
      ServicesAfter(names, factory, |names|, t);
    }
    forall t, r | 0 <= t < |names| && Takes(table.services[t], r) ensures r in table.infos {
      NothingTaken(r);
      assert t > 0 && Offers(names, factory, t, r);
      EntryAfter(names, factory, |names|, r);
    }
    forall r | r in table.infos ensures Routed(table.infos[r], names) {
      EntryAfter(names, factory, |names|, r);
    }
  }

  lemma NothingTaken(r: MessageType)
    ensures !Takes(None, r)
  {
  }

  class Registry {
    var services: seq<Option<Service>>
    var infos: map<MessageType, ServiceInfo>

    ghost predicate Valid()
      reads this
    {
      AllEntriesOk(services, infos) && AllTypesKnown(services, infos)
    }

    constructor ()
      ensures Valid() && services == [] && infos == map[]
    {
      services, infos := [], map[];
    }

    /** registerService, for the service types 1 up to |names| - 1.  The stub comes second and
        takes the place of the service. */
    method RegisterService(names: seq<string>, factory: map<string, Service>)
      requires names != []
      modifies this
      ensures Table(services, infos) == RegisteredUpTo(names, factory, |names|)
      ensures |services| == |names| && services[0] == None
      ensures forall t | 0 < t < |names| :: services[t] == Registered(names, factory, t)
      // A request goes where the name of its service says, and every type has its entry.
      ensures forall r | r in infos :: Routed(infos[r], names)
      ensures AllTypesKnown(services, infos)
      // The entries are right exactly if nothing is lost, for example if descriptors are shared.
      ensures Valid() <==> NothingLost(names, factory)
      ensures SharedDescriptors(names, factory) ==> Valid()
    {
      hide RegisteredUpTo, Plain, Stub, NothingLost, SharedDescriptors, AllEntriesOk, AllTypesKnown, Routed;
      services := seq(|names|, i => None);
      infos := map[];
      NothingRegistered(names, factory);
      var t := 1;
      while t < |names|
        invariant 1 <= t <= |names|
        invariant Table(services, infos) == RegisteredUpTo(names, factory, t)
      {
        NextRegistered(names, factory, t);
        ParseService(t, PlainName(names[t]), names[t], factory);
        ParseService(t, StubName(names[t]), names[t], factory);
        t := t + 1;
      }
      TypesKnown(names, factory);
      EntriesRightIff(names, factory);
      if SharedDescriptors(names, factory) {
        SharedLosesNothing(names, factory);
      }
    }

    /** The lambda of registerService. */
    method ParseService(t: nat, name: string, typeName: string, factory: map<string, Service>)
      requires t < |services|
      modifies this
      ensures Table(services, infos) == Parsed(old(Table(services, infos)), t, Made(factory, name), typeName)
    {
      hide FromTo;
      if name !in factory {
        return;
      }
      var service := factory[name];
      if service.descriptor.None? {
        return;
      }
      services := services[t := Some(service)];
      var (from, to) := FromTo(typeName);
      var methods := service.descriptor.value.methods;
      var i := 0;
      while i < |methods|
        invariant 0 <= i <= |methods|
        invariant services == old(services)[t := Some(service)]
        invariant infos == WithMethods(old(infos), t, service, typeName, i)
      {
        if methods[i].request.Some? {
          infos := infos[methods[i].request.value := ServiceInfo(t, i, from, to)];
        }
        i := i + 1;
      }
    }

    /** GetServicePtr. */
    method GetServicePtr(serviceType: nat) returns (service: Option<Service>)
      ensures service == if serviceType < |services| then services[serviceType] else None
    {
      service := if serviceType < |services| then services[serviceType] else None;
    }

    /** GetServiceInfo: for a registered request type the service is there, and the method at the
        index takes this type. */
    method GetServiceInfo(request: MessageType) returns (info: Option<ServiceInfo>)
      requires Valid()
      ensures info.Some? <==> exists t | 0 <= t < |services| :: Takes(services[t], request)
      ensures info.Some? ==> EntryOk(services, request, info.value)
    {
      info := if request in infos then Some(infos[request]) else None;
      if request in infos {
        assert EntryOk(services, request, infos[request]);
        var t := infos[request].serviceType;
        assert Takes(services[t], request);
      }
    }
  }

  lemma NothingRegistered(names: seq<string>, factory: map<string, Service>)
    requires names != []
    ensures RegisteredUpTo(names, factory, 1) == Table(seq(|names|, i => None), map[])
  {
  }

  lemma NextRegistered(names: seq<string>, factory: map<string, Service>, t: nat)
    requires 1 <= t < |names|
    ensures var plain := Parsed(RegisteredUpTo(names, factory, t), t, Made(factory, PlainName(names[t])), names[t]);
            && |plain.services| == |names|
            && RegisteredUpTo(names, factory, t + 1) == Parsed(plain, t, Made(factory, StubName(names[t])), names[t])
  {
    hide FromTo, WithMethods;
  }

  // ---------------------------------------------------------------- a factory that fails

  const UNSHARED_NAMES: seq<string> := ["", "C2A_UserService"]

  /** A service with one method, and a stub that has lost it. */
  function UnsharedFactory(request: MessageType): map<string, Service> {
    map["RPC::C2A_UserService" := Service(false, Some(ServiceDescriptor([Method(Some(request), false)]))),
        "RPC::C2A_UserService_Stub" := Service(true, Some(ServiceDescriptor([])))]
  }

  /** Registration of it succeeds, and leaves an entry that leads nowhere. */
  method RegisterUnshared(request: MessageType) returns (registry: Registry)
    ensures fresh(registry) && !registry.Valid()
    ensures request in registry.infos && registry.infos[request].serviceType == 1
    ensures registry.services == [None, Some(Service(true, Some(ServiceDescriptor([]))))]
    ensures !EntryOk(registry.services, request, registry.infos[request])
  {
    registry := new Registry();
    registry.RegisterService(UNSHARED_NAMES, UnsharedFactory(request));
    UnsharedDescriptorsFail(request);
    assert registry.services == [registry.services[0], registry.services[1]];
  }

  lemma UnsharedDescriptorsFail(request: MessageType)
    ensures var names, factory := UNSHARED_NAMES, UnsharedFactory(request);
            var table := RegisteredUpTo(names, factory, 2);
            && !NothingLost(names, factory)
            && request in table.infos && table.infos[request].serviceType == 1
            && !EntryOk(table.services, request, table.infos[request])
            && Registered(names, factory, 1) == Some(Service(true, Some(ServiceDescriptor([]))))
  {
    var names, factory := UNSHARED_NAMES, UnsharedFactory(request);
    UnsharedParts(request);
    hide FromTo, Made, Plain, Stub, UnsharedFactory, RegisteredUpTo, Registered;
    EntryAfter(names, factory, 2, request);
    EntryRight(names, factory, request);
    assert Offers(names, factory, 1, request);
  }

  lemma UnsharedParts(request: MessageType)
    ensures var names, factory := UNSHARED_NAMES, UnsharedFactory(request);
            && Takes(Plain(names, factory, 1), request)
            && Stub(names, factory, 1) == Some(Service(true, Some(ServiceDescriptor([]))))
            && !Takes(Stub(names, factory, 1), request)
            && Registered(names, factory, 1) == Stub(names, factory, 1)
  {
    var names, factory := UNSHARED_NAMES, UnsharedFactory(request);
    var name := "C2A_UserService";
    assert PlainName(name) == "RPC::C2A_UserService" && StubName(name) == "RPC::C2A_UserService_Stub";
    assert |PlainName(name)| < |StubName(name)|;
    assert MethodTakes(Plain(names, factory, 1), 0, request);
  }
}
