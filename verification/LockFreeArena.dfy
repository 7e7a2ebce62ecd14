/** The lock-free side of ThreadSafeArena, as a system of steps: any number of threads create,
    reset, destroy and use any number of arenas.  Each step makes at most one access to state
    that other threads can see: an atomic load, store, fetch-add or compare-exchange.

    A thread stands for the address of its thread-local cache, and an arena and a serial arena
    for theirs; all of them may be used again after their owner is gone. */
module LockFreeArena {

  type Addr = nat

  const NULL: Addr := 0

  // ThreadCache::kPerThreadIds ids, two apart.
  const BATCH := 512

  // The initial last_lifecycle_id_seen, (uint64)-1, which is no lifecycle id.
  const NO_ID := -1

  /** ThreadCache. */
  datatype Cache = Cache(nextId: nat, lastSeen: int, lastSerial: Addr)

  /** A SerialArena object: its owner and its link in the arena's list. */
  datatype Serial = Serial(owner: Addr, next: Addr)

  /** A ThreadSafeArena: its lifecycle id, whether it records allocations (bit 0 of
      tag_and_id_), and its two atomic pointers.  `pushed` is the history of what was put on
      the list since the last Init, newest first, and `initial` the serial arena of the
      initial block, or NULL. */
  datatype Arena = Arena(id: nat, record: bool, threads: Addr, hint: Addr, pushed: seq<Addr>, initial: Addr)
  {
    /** tag_and_id_. */
    function Tagged(): int {
      id + if record then 1 else 0
    }
  }

  /** Where a thread is inside GetSerialArenaFallback. */
  datatype PC =
    | Idle
    | Scanning(arena: Addr, at: Addr)                      // looking at list element `at`
    | Fresh(arena: Addr, node: Addr)                       // SerialArena::New is done
    | Linked(arena: Addr, node: Addr, expected: Addr)      // set_next(expected) is done, CAS next
    | Found(arena: Addr, node: Addr)                       // about to cache

  datatype State = State(
    generator: nat,
    caches: map<Addr, Cache>,
    arenas: map<Addr, Arena>,
    serials: map<Addr, Serial>,
    pcs: map<Addr, PC>,
    // All lifecycle ids ever given to an arena.
    issued: set<nat>)

  datatype Step =
    | ThreadStart(t: Addr)
    | ThreadExit(t: Addr)
    | Construct(t: Addr, a: Addr, record: bool, initial: Addr)
    | Destroy(t: Addr, a: Addr)
    | Reset(t: Addr, a: Addr, record: bool, initial: Addr)
    | Fallback(t: Addr, a: Addr)         // load threads_
    | Scan(t: Addr)                      // compare one owner and go on
    | NewSerial(t: Addr, node: Addr)     // not found: allocate
    | LoadHead(t: Addr)                  // load threads_ and set_next
    | PushOk(t: Addr)                    // compare_exchange_weak succeeds
    | PushFail(t: Addr)                  // or fails, spuriously or not, and reloads
    | Store(t: Addr)                     // CacheSerialArena, with its store to hint_

  const START := State(0, map[], map[], map[], map[], {})

  // ---------------------------------------------------------------- steps

  /** No thread is inside an operation on `a`: Reset and destruction are documented not to
      run concurrently with allocation. */
  predicate Quiet(s: State, a: Addr) {
    forall t | t in s.pcs :: s.pcs[t] == Idle || s.pcs[t].arena != a
  }

  predicate Enabled(s: State, step: Step) {
    match step
    case ThreadStart(t) => t !in s.caches
    case ThreadExit(t) => t in s.caches && t in s.pcs && s.pcs[t] == Idle
    case Construct(t, a, _, initial) =>
      && CanRun(s, t) && a !in s.arenas
      && (initial == NULL || initial !in s.serials)
    case Destroy(t, a) => CanRun(s, t) && a in s.arenas && Quiet(s, a)
    case Reset(t, a, _, initial) =>
      && CanRun(s, t) && a in s.arenas && Quiet(s, a)
      && (initial == NULL || initial !in s.serials || initial in s.arenas[a].pushed)
    case Fallback(t, a) => CanRun(s, t) && a in s.arenas
    case Scan(t) => t in s.pcs && s.pcs[t].Scanning? && s.pcs[t].at != NULL && s.pcs[t].at in s.serials
    case NewSerial(t, node) =>
      t in s.pcs && s.pcs[t].Scanning? && s.pcs[t].at == NULL && node != NULL && node !in s.serials
    case LoadHead(t) => At(s, t) && s.pcs[t].Fresh? && s.pcs[t].node in s.serials
    case PushOk(t) => At(s, t) && s.pcs[t].Linked? && s.arenas[s.pcs[t].arena].threads == s.pcs[t].expected
    case PushFail(t) => At(s, t) && s.pcs[t].Linked? && s.pcs[t].node in s.serials
    case Store(t) => At(s, t) && t in s.caches && s.pcs[t].Found?
  }

  predicate CanRun(s: State, t: Addr) {
    t in s.caches && t in s.pcs && s.pcs[t] == Idle
  }

  predicate At(s: State, t: Addr) {
    t in s.pcs && s.pcs[t] != Idle && s.pcs[t].arena in s.arenas
  }

  /** The id Init takes: the next of the thread's batch, or the first of a new one. */
  function TakeId(s: State, t: Addr): nat
    requires t in s.caches
  {
    if s.caches[t].nextId % BATCH == 0 then s.generator * BATCH else s.caches[t].nextId
  }

  /** Init and, with an initial block, SetInitialBlock. */
  function InitArena(s: State, t: Addr, a: Addr, record: bool, initial: Addr): State
    requires t in s.caches
  {
    var id := TakeId(s, t);
    var cache := s.caches[t].(nextId := id + 2);
    var s1 := s.(generator := if s.caches[t].nextId % BATCH == 0 then s.generator + 1 else s.generator,
                 issued := s.issued + {id});
    if initial == NULL then
      s1.(caches := s.caches[t := cache],
          arenas := s.arenas[a := Arena(id, record, NULL, NULL, [], NULL)])
    else
      s1.(serials := s.serials[initial := Serial(t, NULL)],
          caches := s.caches[t := cache.(lastSeen := id, lastSerial := initial)],
          arenas := s.arenas[a := Arena(id, record, initial, initial, [initial], initial)])
  }

  /** Free: the memory of all serial arenas on the list goes back to the allocator. */
  function FreeArena(s: State, a: Addr): State
    requires a in s.arenas
  {
    s.(serials := map p | p in s.serials && p !in s.arenas[a].pushed :: s.serials[p],
       arenas := s.arenas - {a})
  }

  function Apply(s: State, step: Step): State
    requires Enabled(s, step)
  {
    match step
    case ThreadStart(t) => s.(caches := s.caches[t := Cache(0, NO_ID, NULL)], pcs := s.pcs[t := Idle])
    case ThreadExit(t) => s.(caches := s.caches - {t}, pcs := s.pcs - {t})
    case Construct(t, a, record, initial) => InitArena(s, t, a, record, initial)
    case Destroy(t, a) => FreeArena(s, a)
    case Reset(t, a, record, initial) => InitArena(FreeArena(s, a), t, a, record, initial)
    case Fallback(t, a) => s.(pcs := s.pcs[t := Scanning(a, s.arenas[a].threads)])
    case Scan(t) =>
      var pc := s.pcs[t];
      var serial := s.serials[pc.at];
      s.(pcs := s.pcs[t := if serial.owner == t then Found(pc.arena, pc.at) else Scanning(pc.arena, serial.next)])
    case NewSerial(t, node) =>
      s.(serials := s.serials[node := Serial(t, NULL)], pcs := s.pcs[t := Fresh(s.pcs[t].arena, node)])
    case LoadHead(t) => SetNext(s, t)
    case PushOk(t) =>
      var pc := s.pcs[t];
      var arena := s.arenas[pc.arena];
      s.(arenas := s.arenas[pc.arena := arena.(threads := pc.node, pushed := [pc.node] + arena.pushed)],
         pcs := s.pcs[t := Found(pc.arena, pc.node)])
    case PushFail(t) => SetNext(s, t)
    case Store(t) =>
      var pc := s.pcs[t];
      var arena := s.arenas[pc.arena];
      s.(caches := s.caches[t := s.caches[t].(lastSeen := arena.id, lastSerial := pc.node)],
         arenas := s.arenas[pc.arena := arena.(hint := pc.node)],
         pcs := s.pcs[t := Idle])
  }

  /** The head is (re)loaded and becomes the new node's successor. */
  function SetNext(s: State, t: Addr): State
    requires At(s, t) && (s.pcs[t].Fresh? || s.pcs[t].Linked?) && s.pcs[t].node in s.serials
  {
    var pc := s.pcs[t];
    var head := s.arenas[pc.arena].threads;
    s.(serials := s.serials[pc.node := s.serials[pc.node].(next := head)],
       pcs := s.pcs[t := Linked(pc.arena, pc.node, head)])
  }

  // ---------------------------------------------------------------- what a thread may use

  /** The serial arenas thread `t` may be handed for arena `a` in state `s`: a hit in its cache
      under `key`, a hit of the hint, or the result of the fallback.  GetSerialArenaFast is
      called with tag_and_id_ or with the lifecycle id alone. */
  predicate CacheHit(s: State, t: Addr, a: Addr, key: int, serial: Addr) {
    && t in s.caches && a in s.arenas
    && key in [s.arenas[a].Tagged(), s.arenas[a].id]
    && s.caches[t].lastSeen == key
    && serial == s.caches[t].lastSerial
  }

  /** The hint is not looked at under a tagged id.  The owner read from it could be anything if
      the hint were not alive. */
  predicate HintHit(s: State, t: Addr, a: Addr, key: int, serial: Addr) {
    && t in s.caches && a in s.arenas
    && key in [s.arenas[a].Tagged(), s.arenas[a].id] && key % 2 == 0
    && serial == s.arenas[a].hint && serial != NULL
    && (serial in s.serials ==> s.serials[serial].owner == t)
  }

  predicate FallbackResult(s: State, t: Addr, a: Addr, serial: Addr) {
    t in s.pcs && s.pcs[t] == Found(a, serial)
  }

  /** A serial arena that is alive, belongs to the thread and is on the arena's list. */
  predicate Usable(s: State, t: Addr, a: Addr, serial: Addr) {
    && a in s.arenas
    && serial in s.serials && s.serials[serial].owner == t
    && serial in s.arenas[a].pushed
  }

  // ---------------------------------------------------------------- the invariant

  /** From `p` the `next_` fields lead through exactly `list`. */
  predicate Leads(serials: map<Addr, Serial>, p: Addr, list: seq<Addr>)
    decreases |list|
  {
    if list == [] then p == NULL
    else p == list[0] && p != NULL && p in serials && Leads(serials, serials[p].next, list[1..])
  }

  // Lifecycle ids.

  predicate IdsOk(s: State) {
    && (forall id | id in s.issued :: Batch(id) < s.generator)
    && (forall a | a in s.arenas :: s.arenas[a].id in s.issued)
    && (forall a | a in s.arenas :: s.arenas[a].id % 2 == 0)
    && (forall a, b | a in s.arenas && b in s.arenas && a != b :: s.arenas[a].id != s.arenas[b].id)
    && (forall t | t in s.caches :: BatchOk(s, t))
    && (forall t, u | t in s.caches && u in s.caches && t != u ::
          Partial(s.caches[t]) && Partial(s.caches[u]) ==> Batch(s.caches[t].nextId) != Batch(s.caches[u].nextId))
  }

  function Batch(id: nat): nat {
    id / BATCH
  }

  /** The thread has ids of its current batch left. */
  predicate Partial(c: Cache) {
    c.nextId % BATCH != 0
  }

  predicate BatchOk(s: State, t: Addr)
    requires t in s.caches
  {
    var next := s.caches[t].nextId;
    && next % 2 == 0
    && (Partial(s.caches[t]) ==>
          && Batch(next) < s.generator
          && forall id | id in s.issued :: Batch(id) == Batch(next) ==> id < next)
  }

  // Lists.

  predicate ListsOk(s: State) {
    forall a | a in s.arenas :: ListOk(s, s.arenas[a])
  }

  predicate ListOk(s: State, arena: Arena) {
    && Leads(s.serials, arena.threads, arena.pushed)
    && (forall p | p in arena.pushed :: p in s.serials && p != NULL)
    && (forall i, j | 0 <= i < j < |arena.pushed| :: arena.pushed[i] != arena.pushed[j])
    // At most one serial arena per owner.
    && (forall p, q | p in arena.pushed && q in arena.pushed && p != q ::
          s.serials[p].owner != s.serials[q].owner)
    && (arena.hint == NULL || arena.hint in arena.pushed)
    && (arena.initial != NULL ==> arena.pushed != [] && arena.pushed[|arena.pushed| - 1] == arena.initial)
  }

  predicate ListsApart(s: State) {
    forall a, b, p | a in s.arenas && b in s.arenas && a != b && p in s.arenas[a].pushed ::
      p !in s.arenas[b].pushed
  }

  // Caches.

  predicate CachesOk(s: State) {
    && s.caches.Keys == s.pcs.Keys
    && forall t | t in s.caches :: CacheOk(s, t)
  }

  predicate CacheOk(s: State, t: Addr)
    requires t in s.caches
  {
    var c := s.caches[t];
    && (c.lastSeen == NO_ID || (c.lastSeen >= 0 && c.lastSeen % 2 == 0 && c.lastSeen in s.issued))
    && forall a | a in s.arenas && s.arenas[a].id == c.lastSeen :: Usable(s, t, a, c.lastSerial)
  }

  // Program counters.

  predicate PCsOk(s: State) {
    && (forall t | t in s.pcs :: PCOk(s, t))
    && (forall t, u | t in s.pcs && u in s.pcs && t != u && Holds(s.pcs[t]) && Holds(s.pcs[u]) ::
          s.pcs[t].node != s.pcs[u].node)
  }

  /** A node that its thread has not pushed yet. */
  predicate Holds(pc: PC) {
    pc.Fresh? || pc.Linked?
  }

  predicate PCOk(s: State, t: Addr)
    requires t in s.pcs
  {
    var pc := s.pcs[t];
    pc != Idle ==>
      && pc.arena in s.arenas
      && var arena := s.arenas[pc.arena];
      match pc
      case Idle => true
      case Scanning(_, at) => ScanOk(s, t, arena, at)
      case Fresh(_, node) => NodeOk(s, t, arena, node)
      case Linked(_, node, expected) => NodeOk(s, t, arena, node) && s.serials[node].next == expected
      case Found(_, node) => node in arena.pushed && node in s.serials && s.serials[node].owner == t
  }

  /** What is left of the list from `at` on holds the thread's serial arena, if any does. */
  predicate ScanOk(s: State, t: Addr, arena: Arena, at: Addr)
  {
    && (at == NULL || at in arena.pushed)
    && forall i | 0 <= i < |arena.pushed| ::
         var p := arena.pushed[i];
         p in s.serials && s.serials[p].owner == t ==>
           exists j | 0 <= j <= i :: arena.pushed[j] == at
  }

  predicate NodeOk(s: State, t: Addr, arena: Arena, node: Addr) {
    && node in s.serials && node != NULL && s.serials[node].owner == t
    && (forall a | a in s.arenas :: node !in s.arenas[a].pushed)
    && (forall p | p in arena.pushed :: p in s.serials && s.serials[p].owner != t)
  }

  predicate Inv(s: State) {
    && IdsOk(s)
    && ListsOk(s)
    && ListsApart(s)
    && CachesOk(s)
    && PCsOk(s)
  }

  // ---------------------------------------------------------------- ids

  lemma InBatch(k: nat, r: nat)
    requires r < BATCH
    ensures Batch(BATCH * k + r) == k && (BATCH * k + r) % BATCH == r
  {
  }

  lemma NextInBatch(id: nat)
    requires id % 2 == 0
    ensures (id + 2) % 2 == 0
    ensures (id + 2) % BATCH != 0 ==> Batch(id + 2) == Batch(id)
  {
    hide Batch;
    var k, r := Batch(id), id % BATCH;
    assert id == BATCH * k + r by {
      DivMod(id);
    }
    if r + 2 < BATCH {
      InBatch(k, r + 2);
    } else {
      InBatch(k + 1, r + 2 - BATCH);
      assert r == BATCH - 2 by {
        EvenRest(id);
      }
    }
  }

  lemma DivMod(id: nat)
    ensures id == BATCH * Batch(id) + id % BATCH
  {
  }

  lemma EvenRest(id: nat)
    requires id % 2 == 0
    ensures id % BATCH % 2 == 0
  {
    assert id == BATCH * (id / BATCH) + id % BATCH;
  }

  /** The id taken is new, and its batch is the thread's own. */
  lemma TakenId(s: State, t: Addr)
    requires IdsOk(s) && t in s.caches
    ensures var id, whole := TakeId(s, t), !Partial(s.caches[t]);
            && id % 2 == 0
            && id !in s.issued
            && (if whole then Batch(id) == s.generator else Batch(id) < s.generator)
            && (forall u | u in s.caches && u != t && Partial(s.caches[u]) :: Batch(s.caches[u].nextId) != Batch(id))
            && (forall j | j in s.issued :: Batch(j) == Batch(id) ==> j < id)
  {
    assert BatchOk(s, t);
    assert Batch(s.generator * BATCH) == s.generator;
    forall u | u in s.caches && u != t && Partial(s.caches[u])
      ensures Batch(s.caches[u].nextId) != Batch(TakeId(s, t))
    {
      assert BatchOk(s, u);
    }
  }

  lemma InitIds(s: State, t: Addr, a: Addr, record: bool, initial: Addr)
    requires IdsOk(s) && t in s.caches && a !in s.arenas
    ensures IdsOk(InitArena(s, t, a, record, initial))
    ensures TakeId(s, t) !in s.issued
  {
    var s' := InitArena(s, t, a, record, initial);
    var id := TakeId(s, t);
    TakenId(s, t);
    NextInBatch(id);
    assert Partial(s.caches[t]) <==> s.caches[t].nextId % BATCH != 0;
    IssueOne(s, s', t, id);
  }

  /** Issuing `id` and moving the thread on, whatever else changes. */
  lemma IssueOne(s: State, s': State, t: Addr, id: nat)
    requires IdsOk(s) && t in s.caches
    requires id % 2 == 0 && id !in s.issued
    requires forall j | j in s.issued :: Batch(j) == Batch(id) ==> j < id
    requires forall u | u in s.caches && u != t && Partial(s.caches[u]) :: Batch(s.caches[u].nextId) != Batch(id)
    requires s.generator <= s'.generator && Batch(id) < s'.generator
    requires s'.issued == s.issued + {id}
    requires s'.caches.Keys == s.caches.Keys && s'.caches[t].nextId == id + 2
    requires forall u | u in s.caches && u != t :: s'.caches[u].nextId == s.caches[u].nextId
    requires (id + 2) % 2 == 0
    requires (id + 2) % BATCH != 0 ==> Batch(id + 2) == Batch(id)
    requires forall a | a in s'.arenas :: (a in s.arenas && s'.arenas[a].id == s.arenas[a].id) || s'.arenas[a].id == id
    requires forall a, b | a in s'.arenas && b in s'.arenas && a != b :: s'.arenas[a].id != s'.arenas[b].id
    ensures IdsOk(s')
  {
    hide Batch;
    forall u | u in s'.caches ensures BatchOk(s', u) {
      assert BatchOk(s, u);
    }
  }

  // ---------------------------------------------------------------- lists

  lemma {:induction false} LeadsFrame(serials: map<Addr, Serial>, serials': map<Addr, Serial>, p: Addr, list: seq<Addr>)
    requires Leads(serials, p, list)
    requires forall q | q in list :: q in serials' && q in serials && serials'[q] == serials[q]
    ensures Leads(serials', p, list)
    decreases |list|
  {
    if list != [] {
      assert forall q | q in list[1..] :: q in list;
      LeadsFrame(serials, serials', serials[p].next, list[1..]);
    }
  }

  /** Following one link of a list. */
  lemma {:induction false} LeadsNext(serials: map<Addr, Serial>, p: Addr, list: seq<Addr>, k: nat)
    requires Leads(serials, p, list) && k < |list|
    ensures list[k] in serials
    ensures serials[list[k]].next == if k + 1 < |list| then list[k + 1] else NULL
    decreases k
  {
    if k > 0 {
      LeadsNext(serials, serials[p].next, list[1..], k - 1);
    }
  }

  /** A list whose elements keep their links and owners. */
  lemma ListFrame(s: State, s': State, arena: Arena, arena': Arena)
    requires ListOk(s, arena)
    requires arena'.threads == arena.threads && arena'.pushed == arena.pushed && arena'.initial == arena.initial
    requires arena'.hint == NULL || arena'.hint in arena.pushed
    requires forall q | q in arena.pushed :: q in s'.serials && q in s.serials && s'.serials[q] == s.serials[q]
    ensures ListOk(s', arena')
  {
    LeadsFrame(s.serials, s'.serials, arena.threads, arena.pushed);
  }

  // ---------------------------------------------------------------- program counters

  /** What a program counter says survives when no serial arena that matters changes owner and
      the lists stay the same. */
  lemma PCFrame(s: State, s': State, t: Addr)
    requires t in s.pcs && PCOk(s, t) && t in s'.pcs && s'.pcs[t] == s.pcs[t]
    requires s.pcs[t] != Idle ==>
               && s.pcs[t].arena in s.arenas && s.pcs[t].arena in s'.arenas
               && s'.arenas[s.pcs[t].arena].pushed == s.arenas[s.pcs[t].arena].pushed
               && forall p | p in s.arenas[s.pcs[t].arena].pushed ::
                    p in s.serials && p in s'.serials && s'.serials[p].owner == s.serials[p].owner
    requires Holds(s.pcs[t]) ==>
               && s.pcs[t].node in s'.serials && s.pcs[t].node in s.serials
               && s'.serials[s.pcs[t].node] == s.serials[s.pcs[t].node]
               && forall a | a in s'.arenas :: s.pcs[t].node !in s'.arenas[a].pushed
    ensures PCOk(s', t)
  {
    var pc := s.pcs[t];
    if pc.Scanning? {
      ScanFrame(s, s', t, s.arenas[pc.arena], s'.arenas[pc.arena], pc.at);
    }
  }

  lemma ScanFrame(s: State, s': State, t: Addr, arena: Arena, arena': Arena, at: Addr)
    requires ScanOk(s, t, arena, at) && arena'.pushed == arena.pushed
    requires forall p | p in arena.pushed :: p in s.serials && p in s'.serials && s'.serials[p].owner == s.serials[p].owner
    ensures ScanOk(s', t, arena', at)
  {
    forall i | 0 <= i < |arena'.pushed| && s'.serials[arena'.pushed[i]].owner == t
      ensures exists j | 0 <= j <= i :: arena'.pushed[j] == at
    {
      assert s.serials[arena.pushed[i]].owner == t;
    }
  }

  // ---------------------------------------------------------------- what a step leaves alone

  lemma IdsFrame(s: State, s': State)
    requires IdsOk(s) && s'.generator == s.generator && s'.issued == s.issued
    requires forall a | a in s'.arenas :: a in s.arenas && s'.arenas[a].id == s.arenas[a].id
    requires forall t | t in s'.caches :: t in s.caches && s'.caches[t].nextId == s.caches[t].nextId
    ensures IdsOk(s')
  {
    hide Batch;
    forall u | u in s'.caches ensures BatchOk(s', u) {
      assert BatchOk(s, u);
    }
  }

  lemma CacheFrame(s: State, s': State, t: Addr)
    requires t in s.caches && CacheOk(s, t) && t in s'.caches
    requires s'.caches[t].lastSeen == s.caches[t].lastSeen && s'.caches[t].lastSerial == s.caches[t].lastSerial
    requires s'.issued == s.issued
    requires forall a | a in s'.arenas ::
               && a in s.arenas && s'.arenas[a].id == s.arenas[a].id
               && (forall p | p in s.arenas[a].pushed ::
                     p in s'.arenas[a].pushed && p in s.serials && p in s'.serials && s'.serials[p].owner == s.serials[p].owner)
    ensures CacheOk(s', t)
  {
    forall a | a in s'.arenas && s'.arenas[a].id == s'.caches[t].lastSeen
      ensures Usable(s', t, a, s'.caches[t].lastSerial)
    {
      assert Usable(s, t, a, s.caches[t].lastSerial);
    }
  }

  /** All elements of all lists are alive. */
  lemma ElementsAlive(s: State)
    requires ListsOk(s)
    ensures forall a, p | a in s.arenas && p in s.arenas[a].pushed :: p in s.serials && p != NULL
  {
    forall a, p | a in s.arenas && p in s.arenas[a].pushed ensures p in s.serials && p != NULL {
      assert ListOk(s, s.arenas[a]);
    }
  }

  /** The lists and their elements stay as they are; hints may move along them. */
  lemma ListsFrame(s: State, s': State)
    requires ListsOk(s) && ListsApart(s)
    requires forall a | a in s'.arenas ::
               && a in s.arenas
               && var arena, arena' := s.arenas[a], s'.arenas[a];
               && arena'.threads == arena.threads && arena'.pushed == arena.pushed && arena'.initial == arena.initial
               && (arena'.hint == arena.hint || arena'.hint in arena.pushed)
               && forall p | p in arena.pushed :: p in s.serials && p in s'.serials && s'.serials[p] == s.serials[p]
    ensures ListsOk(s') && ListsApart(s')
  {
    forall a | a in s'.arenas ensures ListOk(s', s'.arenas[a]) {
      assert ListOk(s, s.arenas[a]);
      ListFrame(s, s', s.arenas[a], s'.arenas[a]);
    }
  }

  // ---------------------------------------------------------------- threads come and go

  lemma NewCacheOk(s: State, t: Addr)
    requires t in s.caches && s.caches[t] == Cache(0, NO_ID, NULL)
    ensures CacheOk(s, t)
  {
  }

  lemma IdlePCOk(s: State, t: Addr)
    requires t in s.pcs && s.pcs[t] == Idle
    ensures PCOk(s, t)
  {
  }

  lemma ThreadStartIds(s: State, t: Addr)
    requires IdsOk(s) && Enabled(s, ThreadStart(t))
    ensures IdsOk(Apply(s, ThreadStart(t)))
  {
    hide Batch;
    var s' := Apply(s, ThreadStart(t));
    forall u | u in s'.caches ensures BatchOk(s', u) {
      if u != t {
        assert BatchOk(s, u);
      }
    }
  }

  lemma ThreadStartKeeps(s: State, t: Addr)
    requires Inv(s) && Enabled(s, ThreadStart(t))
    ensures Inv(Apply(s, ThreadStart(t)))
  {
    hide IdsOk, ListsOk, ListsApart, PCOk, CacheOk;
    var s' := Apply(s, ThreadStart(t));
    ThreadStartIds(s, t);
    ElementsAlive(s);
    ListsFrame(s, s');
    forall u | u in s'.caches ensures CacheOk(s', u) {
      if u != t {
        CacheFrame(s, s', u);
      } else {
        NewCacheOk(s', t);
      }
    }
    forall u | u in s'.pcs ensures PCOk(s', u) {
      if u != t {
        PCListKnown(s, u);
        PCFrame(s, s', u);
      } else {
        IdlePCOk(s', t);
      }
    }
  }

  lemma ThreadExitKeeps(s: State, t: Addr)
    requires Inv(s) && Enabled(s, ThreadExit(t))
    ensures Inv(Apply(s, ThreadExit(t)))
  {
    hide IdsOk, ListsOk, ListsApart, PCOk, CacheOk;
    var s' := Apply(s, ThreadExit(t));
    IdsFrame(s, s');
    ElementsAlive(s);
    ListsFrame(s, s');
    forall u | u in s'.caches ensures CacheOk(s', u) {
      CacheFrame(s, s', u);
    }
    forall u | u in s'.pcs ensures PCOk(s', u) {
      PCListKnown(s, u);
      PCFrame(s, s', u);
    }
  }

  /** The list of the arena a thread works on, and the node it holds. */
  lemma PCListKnown(s: State, t: Addr)
    requires Inv(s) && t in s.pcs
    ensures PCOk(s, t)
    ensures s.pcs[t] != Idle ==>
              && s.pcs[t].arena in s.arenas
              && ListOk(s, s.arenas[s.pcs[t].arena])
              && forall p | p in s.arenas[s.pcs[t].arena].pushed :: p in s.serials
    ensures Holds(s.pcs[t]) ==> NodeOk(s, t, s.arenas[s.pcs[t].arena], s.pcs[t].node)
  {
    assert PCOk(s, t);
  }

  // ---------------------------------------------------------------- arenas come and go

  lemma InitKeeps(s: State, t: Addr, a: Addr, record: bool, initial: Addr)
    requires Inv(s) && t in s.caches && t in s.pcs && s.pcs[t] == Idle && a !in s.arenas
    requires initial == NULL || initial !in s.serials
    ensures Inv(InitArena(s, t, a, record, initial))
  {
    hide TakeId, IdsOk, ListsOk, ListsApart, PCOk, CacheOk;
    var s' := InitArena(s, t, a, record, initial);
    InitIds(s, t, a, record, initial);
    InitLists(s, t, a, record, initial);
    forall u | u in s'.caches ensures CacheOk(s', u) {
      InitCache(s, t, a, record, initial, u);
    }
    forall u | u in s'.pcs ensures PCOk(s', u) {
      InitPC(s, t, a, record, initial, u);
    }
  }

  lemma InitPC(s: State, t: Addr, a: Addr, record: bool, initial: Addr, u: Addr)
    requires Inv(s) && t in s.caches && a !in s.arenas && u in s.pcs
    requires initial == NULL || initial !in s.serials
    ensures PCOk(InitArena(s, t, a, record, initial), u)
  {
    hide TakeId, IdsOk, CachesOk, ListsOk, ListsApart, ListOk, ScanOk, PCOk;
    PCListKnown(s, u);
    PCFrame(s, InitArena(s, t, a, record, initial), u);
  }

  lemma NewListOk(s: State, arena: Arena, initial: Addr)
    requires arena.threads == initial && arena.hint == initial && arena.initial == initial
    requires arena.pushed == if initial == NULL then [] else [initial]
    requires initial != NULL ==> initial in s.serials && s.serials[initial].next == NULL
    ensures ListOk(s, arena)
  {
    if initial != NULL {
      assert [initial][1..] == [];
      assert Leads(s.serials, NULL, []);
    }
  }

  lemma InitLists(s: State, t: Addr, a: Addr, record: bool, initial: Addr)
    requires ListsOk(s) && ListsApart(s) && t in s.caches && a !in s.arenas
    requires initial == NULL || initial !in s.serials
    ensures ListsOk(InitArena(s, t, a, record, initial)) && ListsApart(InitArena(s, t, a, record, initial))
  {
    hide Batch, TakeId;
    var s' := InitArena(s, t, a, record, initial);
    ElementsAlive(s);
    forall b | b in s'.arenas ensures ListOk(s', s'.arenas[b]) {
      if b != a {
        assert ListOk(s, s.arenas[b]);
        ListFrame(s, s', s.arenas[b], s'.arenas[b]);
      } else {
        NewListOk(s', s'.arenas[a], initial);
      }
    }
  }

  lemma InitCache(s: State, t: Addr, a: Addr, record: bool, initial: Addr, u: Addr)
    requires Inv(s) && t in s.caches && a !in s.arenas && u in s.caches
    requires initial == NULL || initial !in s.serials
    ensures CacheOk(InitArena(s, t, a, record, initial), u)
  {
    hide Batch, TakeId, PCsOk;
    var s' := InitArena(s, t, a, record, initial);
    TakenId(s, t);
    assert CacheOk(s, u);
    forall b | b in s'.arenas && s'.arenas[b].id == s'.caches[u].lastSeen
      ensures Usable(s', u, b, s'.caches[u].lastSerial)
    {
      if b != a {
        assert s.arenas[b].id in s.issued;
        assert Usable(s, u, b, s.caches[u].lastSerial);
      }
    }
  }

  /** The elements of the other lists stay as they are. */
  lemma FreeSurvivors(s: State, a: Addr)
    requires ListsOk(s) && ListsApart(s) && a in s.arenas
    ensures var s' := FreeArena(s, a);
            forall b, p | b in s'.arenas && p in s.arenas[b].pushed ::
              p in s.serials && p in s'.serials && s'.serials[p] == s.serials[p]
  {
    hide ListOk;
    ElementsAlive(s);
  }

  /** No thread works on the arena or holds one of its elements. */
  lemma FreePC(s: State, a: Addr, u: Addr)
    requires Inv(s) && a in s.arenas && Quiet(s, a) && u in s.pcs
    ensures PCOk(FreeArena(s, a), u)
  {
    hide IdsOk, CachesOk, ListsOk, ListsApart, ListOk, PCOk, ScanOk;
    var s' := FreeArena(s, a);
    PCListKnown(s, u);
    assert ListsOk(s) && ListsApart(s);
    FreeSurvivors(s, a);
    PCFrame(s, s', u);
  }

  lemma FreeKeeps(s: State, a: Addr)
    requires Inv(s) && a in s.arenas && Quiet(s, a)
    ensures Inv(FreeArena(s, a))
  {
    hide IdsOk, ListsOk, ListsApart, PCOk, CacheOk;
    var s' := FreeArena(s, a);
    IdsFrame(s, s');
    FreeSurvivors(s, a);
    ListsFrame(s, s');
    forall u | u in s'.caches ensures CacheOk(s', u) {
      CacheFrame(s, s', u);
    }
    forall u | u in s'.pcs ensures PCOk(s', u) {
      FreePC(s, a, u);
    }
  }

  // ---------------------------------------------------------------- the fallback

  lemma FallbackKeeps(s: State, t: Addr, a: Addr)
    requires Inv(s) && Enabled(s, Fallback(t, a))
    ensures Inv(Apply(s, Fallback(t, a)))
  {
    var s' := Apply(s, Fallback(t, a));
    assert ListOk(s, s.arenas[a]);
    SameButPC(s, s', t);
  }

  /** Only the program counter of `t` changes, and not to hold a node. */
  lemma SameButPC(s: State, s': State, t: Addr)
    requires Inv(s) && t in s.pcs && t in s'.pcs
    requires s' == s.(pcs := s.pcs[t := s'.pcs[t]]) && !Holds(s'.pcs[t]) && PCOk(s', t)
    ensures Inv(s')
  {
    hide IdsOk, ListsOk, ListsApart, PCOk, CacheOk;
    IdsFrame(s, s');
    ElementsAlive(s);
    ListsFrame(s, s');
    forall u | u in s'.caches ensures CacheOk(s', u) {
      CacheFrame(s, s', u);
    }
    forall u | u in s'.pcs ensures PCOk(s', u) {
      if u != t {
        PCListKnown(s, u);
        PCFrame(s, s', u);
      }
    }
  }

  lemma ScanKeeps(s: State, t: Addr)
    requires Inv(s) && Enabled(s, Scan(t))
    ensures Inv(Apply(s, Scan(t)))
  {
    hide Inv, PCOk;
    var s' := Apply(s, Scan(t));
    if s.serials[s.pcs[t].at].owner == t {
      ScanFinds(s, t);
    } else {
      ScanGoesOn(s, t);
    }
    SameButPC(s, s', t);
  }

  lemma ScanFinds(s: State, t: Addr)
    requires Inv(s) && Enabled(s, Scan(t)) && s.serials[s.pcs[t].at].owner == t
    ensures PCOk(Apply(s, Scan(t)), t)
  {
    hide IdsOk, CachesOk, ListsOk, ListsApart, ListOk;
    PCListKnown(s, t);
  }

  lemma ScanGoesOn(s: State, t: Addr)
    requires Inv(s) && Enabled(s, Scan(t)) && s.serials[s.pcs[t].at].owner != t
    ensures PCOk(Apply(s, Scan(t)), t)
  {
    hide IdsOk, CachesOk, ListsOk, ListsApart, Leads;
    var s' := Apply(s, Scan(t));
    PCListKnown(s, t);
    var arena := s.arenas[s.pcs[t].arena];
    var at := s.pcs[t].at;
    var k :| 0 <= k < |arena.pushed| && arena.pushed[k] == at;
    LeadsNext(s.serials, arena.threads, arena.pushed, k);
    ScanMoves(s, t, arena, at, k);
    assert s'.pcs[t] == Scanning(s.pcs[t].arena, s.serials[at].next);
    assert ScanOk(s', t, arena, s.serials[at].next);
  }

  /** The element looked at is another thread's, so what is left to find is behind it. */
  lemma ScanMoves(s: State, t: Addr, arena: Arena, at: Addr, k: nat)
    requires k < |arena.pushed| && arena.pushed[k] == at
    requires forall i, j | 0 <= i < j < |arena.pushed| :: arena.pushed[i] != arena.pushed[j]
    requires at in s.serials && s.serials[at].owner != t
    requires s.serials[at].next == if k + 1 < |arena.pushed| then arena.pushed[k + 1] else NULL
    requires ScanOk(s, t, arena, at)
    ensures ScanOk(s, t, arena, s.serials[at].next)
  {
    forall i | 0 <= i < |arena.pushed| && arena.pushed[i] in s.serials && s.serials[arena.pushed[i]].owner == t
      ensures exists j | 0 <= j <= i :: arena.pushed[j] == s.serials[at].next
    {
      var j :| 0 <= j <= i && arena.pushed[j] == at;
      assert j == k < i;
      assert arena.pushed[k + 1] == s.serials[at].next;
    }
  }

  lemma NewSerialKeeps(s: State, t: Addr, node: Addr)
    requires Inv(s) && Enabled(s, NewSerial(t, node))
    ensures Inv(Apply(s, NewSerial(t, node)))
  {
    hide IdsOk, ListsApart, PCOk, CacheOk;
    var s' := Apply(s, NewSerial(t, node));
    IdsFrame(s, s');
    ElementsAlive(s);
    ListsFrame(s, s');
    forall u | u in s'.caches ensures CacheOk(s', u) {
      CacheFrame(s, s', u);
    }
    NotFound(s, t);
    NewSerialPCs(s, t, node);
  }

  /** A thread that has scanned the whole list has no serial arena on it. */
  lemma NotFound(s: State, t: Addr)
    requires Inv(s) && t in s.pcs && s.pcs[t].Scanning? && s.pcs[t].at == NULL
    ensures s.pcs[t].arena in s.arenas
    ensures forall p | p in s.arenas[s.pcs[t].arena].pushed :: p in s.serials && s.serials[p].owner != t
  {
    PCListKnown(s, t);
    var arena := s.arenas[s.pcs[t].arena];
    forall p | p in arena.pushed ensures s.serials[p].owner != t {
      var i :| 0 <= i < |arena.pushed| && arena.pushed[i] == p;
    }
  }

  lemma NewSerialPCs(s: State, t: Addr, node: Addr)
    requires Inv(s) && Enabled(s, NewSerial(t, node))
    requires NodeOk(Apply(s, NewSerial(t, node)), t, s.arenas[s.pcs[t].arena], node)
    ensures PCsOk(Apply(s, NewSerial(t, node)))
  {
    hide PCOk, IdsOk, CachesOk;
    var s' := Apply(s, NewSerial(t, node));
    forall u | u in s'.pcs ensures PCOk(s', u) {
      PCListKnown(s, u);
      if u != t {
        PCFrame(s, s', u);
      } else {
        FreshPC(s, s', t, node);
      }
    }
    forall u | u in s.pcs && Holds(s.pcs[u]) ensures s.pcs[u].node != node {
      PCListKnown(s, u);
    }
  }

  lemma FreshPC(s: State, s': State, t: Addr, node: Addr)
    requires t in s.pcs && s.pcs[t] != Idle && s.pcs[t].arena in s.arenas && s'.arenas == s.arenas
    requires t in s'.pcs && s'.pcs[t] == Fresh(s.pcs[t].arena, node)
    requires NodeOk(s', t, s.arenas[s.pcs[t].arena], node)
    ensures PCOk(s', t)
  {
  }

  lemma SetNextKeeps(s: State, t: Addr)
    requires Inv(s) && At(s, t) && Holds(s.pcs[t]) && s.pcs[t].node in s.serials
    ensures Inv(SetNext(s, t))
  {
    hide IdsOk, ListsOk, ListsApart, PCOk, CacheOk, NodeOk;
    var s' := SetNext(s, t);
    NotOnAnyList(s, t);
    IdsFrame(s, s');
    ElementsAlive(s);
    ListsFrame(s, s');
    forall u | u in s'.caches ensures CacheOk(s', u) {
      CacheFrame(s, s', u);
    }
    forall u | u in s'.pcs ensures PCOk(s', u) {
      SetNextPC(s, t, u);
    }
  }

  lemma NotOnAnyList(s: State, t: Addr)
    requires Inv(s) && t in s.pcs && Holds(s.pcs[t])
    ensures s.pcs[t].node in s.serials
    ensures forall a | a in s.arenas :: s.pcs[t].node !in s.arenas[a].pushed
  {
    hide IdsOk, CachesOk, ListsOk, ListsApart, ListOk;
    PCListKnown(s, t);
  }

  lemma SetNextPC(s: State, t: Addr, u: Addr)
    requires Inv(s) && At(s, t) && Holds(s.pcs[t]) && s.pcs[t].node in s.serials && u in s.pcs
    ensures PCOk(SetNext(s, t), u)
  {
    hide IdsOk, CachesOk, ListsOk, ListsApart, ListOk, ScanOk, NodeOk, PCOk;
    var s' := SetNext(s, t);
    if u != t {
      PCListKnown(s, u);
      if Holds(s.pcs[u]) {
        NotOnAnyList(s, u);
      }
      PCFrame(s, s', u);
    } else {
      LinkedPC(s, s', t);
    }
  }

  lemma LinkedPC(s: State, s': State, t: Addr)
    requires Inv(s) && At(s, t) && Holds(s.pcs[t]) && s.pcs[t].node in s.serials
    requires s' == SetNext(s, t)
    ensures PCOk(s', t)
  {
    hide IdsOk, CachesOk, ListsOk, ListsApart, ListOk;
    PCListKnown(s, t);
  }

  lemma PushKeeps(s: State, t: Addr)
    requires Inv(s) && Enabled(s, PushOk(t))
    ensures Inv(Apply(s, PushOk(t)))
  {
    hide IdsOk, ListsOk, ListsApart, PCOk, CacheOk;
    var s' := Apply(s, PushOk(t));
    PushLists(s, t);
    IdsFrame(s, s');
    ElementsAlive(s);
    forall u | u in s'.caches ensures CacheOk(s', u) {
      CacheFrame(s, s', u);
    }
    forall u | u in s'.pcs ensures PCOk(s', u) {
      PushPC(s, t, u);
    }
  }

  lemma PushLists(s: State, t: Addr)
    requires Inv(s) && Enabled(s, PushOk(t))
    ensures ListsOk(Apply(s, PushOk(t))) && ListsApart(Apply(s, PushOk(t)))
  {
    hide IdsOk, CachesOk, PCsOk, ListOk;
    var s' := Apply(s, PushOk(t));
    assert PCsOk(s);
    NotOnAnyList(s, t);
    forall b | b in s'.arenas ensures ListOk(s', s'.arenas[b]) {
      if b != s.pcs[t].arena {
        assert ListOk(s, s.arenas[b]);
        SameList(s, s', s.arenas[b]);
      } else {
        PushedList(s, t);
      }
    }
  }

  lemma SameList(s: State, s': State, arena: Arena)
    requires ListOk(s, arena) && s'.serials == s.serials
    ensures ListOk(s', arena)
  {
  }

  lemma PushedList(s: State, t: Addr)
    requires Inv(s) && Enabled(s, PushOk(t))
    ensures ListOk(Apply(s, PushOk(t)), Apply(s, PushOk(t)).arenas[s.pcs[t].arena])
  {
    hide IdsOk, CachesOk, ListsOk, ListsApart;
    PCListKnown(s, t);
    var list := s.arenas[s.pcs[t].arena].pushed;
    assert ([s.pcs[t].node] + list)[1..] == list;
  }

  lemma PushPC(s: State, t: Addr, u: Addr)
    requires Inv(s) && Enabled(s, PushOk(t)) && u in s.pcs
    ensures PCOk(Apply(s, PushOk(t)), u)
  {
    hide IdsOk, CachesOk, ListsOk, ListsApart, PCOk, ScanOk, NodeOk, ListOk;
    if u != t && s.pcs[u] != Idle {
      if s.pcs[u].Scanning? {
        PushScanning(s, t, u);
      } else if Holds(s.pcs[u]) {
        PushHolding(s, t, u);
      } else {
        PushFound(s, t, u);
      }
    } else if u == t {
      PushedPC(s, t);
    } else {
      IdlePCOk(Apply(s, PushOk(t)), u);
    }
  }

  lemma PushedPC(s: State, t: Addr)
    requires Inv(s) && Enabled(s, PushOk(t))
    ensures PCOk(Apply(s, PushOk(t)), t)
  {
    hide IdsOk, CachesOk, ListsOk, ListsApart, ListOk;
    PCListKnown(s, t);
    assert Apply(s, PushOk(t)).arenas[s.pcs[t].arena].pushed[0] == s.pcs[t].node;
  }

  lemma PushScanning(s: State, t: Addr, u: Addr)
    requires Inv(s) && Enabled(s, PushOk(t)) && u in s.pcs && u != t && s.pcs[u].Scanning?
    ensures PCOk(Apply(s, PushOk(t)), u)
  {
    hide IdsOk, CachesOk, ListsOk, ListsApart, ListOk, ScanOk;
    var s' := Apply(s, PushOk(t));
    PCListKnown(s, t);
    PCListKnown(s, u);
    var b := s.pcs[u].arena;
    if b == s.pcs[t].arena {
      PushScan(s, s', u, s.pcs[t].node, s.arenas[b], s'.arenas[b], s.pcs[u].at);
    } else {
      ScanFrame(s, s', u, s.arenas[b], s'.arenas[b], s.pcs[u].at);
    }
  }

  lemma PushHolding(s: State, t: Addr, u: Addr)
    requires Inv(s) && Enabled(s, PushOk(t)) && u in s.pcs && u != t && Holds(s.pcs[u])
    ensures PCOk(Apply(s, PushOk(t)), u)
  {
    hide IdsOk, CachesOk, ListsOk, ListsApart, ListOk;
    PCListKnown(s, t);
    PCListKnown(s, u);
  }

  lemma PushFound(s: State, t: Addr, u: Addr)
    requires Inv(s) && Enabled(s, PushOk(t)) && u in s.pcs && u != t && s.pcs[u].Found?
    ensures PCOk(Apply(s, PushOk(t)), u)
  {
    hide IdsOk, CachesOk, ListsOk, ListsApart, ListOk;
    PCListKnown(s, u);
  }

  lemma PushScanAt(s: State, u: Addr, node: Addr, arena: Arena, at: Addr, i: nat)
    requires ScanOk(s, u, arena, at)
    requires node in s.serials && s.serials[node].owner != u
    requires i < |[node] + arena.pushed|
    requires ([node] + arena.pushed)[i] in s.serials && s.serials[([node] + arena.pushed)[i]].owner == u
    ensures exists j | 0 <= j <= i :: ([node] + arena.pushed)[j] == at
  {
    assert i > 0 && arena.pushed[i - 1] == ([node] + arena.pushed)[i];
    var j :| 0 <= j <= i - 1 && arena.pushed[j] == at;
    assert ([node] + arena.pushed)[j + 1] == at;
  }

  /** A node pushed by another thread does not hide one's own. */
  lemma PushScan(s: State, s': State, u: Addr, node: Addr, arena: Arena, arena': Arena, at: Addr)
    requires ScanOk(s, u, arena, at) && s'.serials == s.serials
    requires arena'.pushed == [node] + arena.pushed
    requires node in s.serials && s.serials[node].owner != u
    ensures ScanOk(s', u, arena', at)
  {
    hide Leads;
    forall i | 0 <= i < |arena'.pushed| && arena'.pushed[i] in s.serials && s.serials[arena'.pushed[i]].owner == u
      ensures exists j | 0 <= j <= i :: arena'.pushed[j] == at
    {
      PushScanAt(s, u, node, arena, at, i);
    }
  }

  lemma StoredCacheOk(s: State, t: Addr)
    requires Inv(s) && Enabled(s, Store(t))
    ensures CacheOk(Apply(s, Store(t)), t)
  {
    hide Batch, PCsOk, ListsOk, ListsApart;
    FoundIsUsable(s, t);
  }

  lemma StoreKeeps(s: State, t: Addr)
    requires Inv(s) && Enabled(s, Store(t))
    ensures Inv(Apply(s, Store(t)))
  {
    hide IdsOk, ListsOk, ListsApart, PCOk, CacheOk;
    var s' := Apply(s, Store(t));
    FoundIsUsable(s, t);
    IdsFrame(s, s');
    ElementsAlive(s);
    ListsFrame(s, s');
    forall u | u in s'.caches ensures CacheOk(s', u) {
      if u != t {
        CacheFrame(s, s', u);
      } else {
        StoredCacheOk(s, t);
      }
    }
    forall u | u in s'.pcs ensures PCOk(s', u) {
      if u != t {
        PCListKnown(s, u);
        PCFrame(s, s', u);
      } else {
        IdlePCOk(s', u);
      }
    }
  }

  lemma FoundIsUsable(s: State, t: Addr)
    requires Inv(s) && t in s.pcs && s.pcs[t].Found?
    ensures Usable(s, t, s.pcs[t].arena, s.pcs[t].node)
  {
    assert PCOk(s, t);
  }

  // ---------------------------------------------------------------- the main results

  /** Every step of every thread keeps the invariant. */
  lemma StepKeeps(s: State, step: Step)
    requires Inv(s) && Enabled(s, step)
    ensures Inv(Apply(s, step))
  {
    hide Inv, InitArena, FreeArena;
    match step
    case ThreadStart(t) => ThreadStartKeeps(s, t);
    case ThreadExit(t) => ThreadExitKeeps(s, t);
    case Construct(t, a, record, initial) => InitKeeps(s, t, a, record, initial);
    case Destroy(t, a) => FreeKeeps(s, a);
    case Reset(t, a, record, initial) => ResetKeeps(s, t, a, record, initial);
    case Fallback(t, a) => FallbackKeeps(s, t, a);
    case Scan(t) => ScanKeeps(s, t);
    case NewSerial(t, node) => NewSerialKeeps(s, t, node);
    case LoadHead(t) => SetNextKeeps(s, t);
    case PushOk(t) => PushKeeps(s, t);
    case PushFail(t) => SetNextKeeps(s, t);
    case Store(t) => StoreKeeps(s, t);
  }

  lemma ResetKeeps(s: State, t: Addr, a: Addr, record: bool, initial: Addr)
    requires Inv(s) && Enabled(s, Reset(t, a, record, initial))
    ensures Inv(Apply(s, Reset(t, a, record, initial)))
  {
    FreeKeeps(s, a);
    InitKeeps(FreeArena(s, a), t, a, record, initial);
  }

  /** `run` can be carried out from `s`. */
  predicate CanHappen(s: State, run: seq<Step>)
    decreases |run|
  {
    run == [] || (Enabled(s, run[0]) && CanHappen(Apply(s, run[0]), run[1..]))
  }

  function After(s: State, run: seq<Step>): State
    requires CanHappen(s, run)
    decreases |run|
  {
    if run == [] then s else After(Apply(s, run[0]), run[1..])
  }

  lemma {:induction false} RunKeeps(s: State, run: seq<Step>)
    requires Inv(s) && CanHappen(s, run)
    ensures Inv(After(s, run))
    decreases |run|
  {
    if run != [] {
      StepKeeps(s, run[0]);
      RunKeeps(Apply(s, run[0]), run[1..]);
    }
  }

  /** In every interleaving, whatever a thread is handed for an arena, by its cache, by the hint
      or by the fallback, is a live serial arena of its own on the arena's current list: never
      one left from before a Reset, from a destroyed arena or from another thread. */
  lemma HandedOutIsUsable(run: seq<Step>, t: Addr, a: Addr, key: int, serial: Addr)
    requires CanHappen(START, run)
    requires var s := After(START, run);
             CacheHit(s, t, a, key, serial) || HintHit(s, t, a, key, serial) || FallbackResult(s, t, a, serial)
    ensures Usable(After(START, run), t, a, serial)
  {
    hide IdsOk, PCsOk, ListsApart, Leads, CanHappen;
    RunKeeps(START, run);
    var s := After(START, run);
    if FallbackResult(s, t, a, serial) {
      FoundIsUsable(s, t);
    } else if CacheHit(s, t, a, key, serial) {
      CacheHitIsUsable(s, t, a, key, serial);
    } else {
      assert ListOk(s, s.arenas[a]);
    }
  }

  /** A tagged id is odd when it is not the lifecycle id, and no odd id is ever cached. */
  lemma CacheHitIsUsable(s: State, t: Addr, a: Addr, key: int, serial: Addr)
    requires Inv(s) && CacheHit(s, t, a, key, serial)
    ensures Usable(s, t, a, serial)
  {
    hide PCsOk, ListsOk, ListsApart, Batch, BatchOk;
    assert CacheOk(s, t);
    assert s.arenas[a].id % 2 == 0;
  }

  /** In every interleaving, a thread inside the fallback can take its next step: every serial
      arena it is about to read or write is alive. */
  lemma FallbackTouchesLiveMemory(run: seq<Step>, t: Addr)
    requires CanHappen(START, run)
    requires var s := After(START, run); t in s.pcs && s.pcs[t] != Idle
    ensures NextIsEnabled(After(START, run), t)
  {
    hide Inv, CanHappen, NextIsEnabled;
    RunKeeps(START, run);
    NextEnabled(After(START, run), t);
  }

  predicate NextIsEnabled(s: State, t: Addr)
    requires t in s.pcs && s.pcs[t] != Idle
  {
    match s.pcs[t]
    case Scanning(_, at) => at != NULL ==> Enabled(s, Scan(t))
    case Fresh(_, _) => Enabled(s, LoadHead(t))
    case Linked(_, _, _) => Enabled(s, PushFail(t))
    case Found(_, node) => Enabled(s, Store(t)) && node in s.serials
  }

  lemma NextEnabled(s: State, t: Addr)
    requires Inv(s) && t in s.pcs && s.pcs[t] != Idle
    ensures NextIsEnabled(s, t)
  {
    hide IdsOk, ListsOk, ListsApart, ListOk;
    PCListKnown(s, t);
  }

  /** In every interleaving, however often a compare-exchange fails, the list in memory is
      exactly what was pushed, newest first: nothing is lost, duplicated or reordered, no two
      of its serial arenas have the same owner, and the initial block's is still the last. */
  lemma ListIsWhatWasPushed(run: seq<Step>, a: Addr)
    requires CanHappen(START, run)
    requires a in After(START, run).arenas
    ensures var s := After(START, run);
            var arena := s.arenas[a];
            var list := arena.pushed;
            && Leads(s.serials, arena.threads, list)
            && (forall i, j | 0 <= i < j < |list| ::
                  && list[i] != list[j]
                  && list[i] in s.serials && list[j] in s.serials
                  && s.serials[list[i]].owner != s.serials[list[j]].owner)
            && (arena.initial != NULL ==> list != [] && list[|list| - 1] == arena.initial)
  {
    RunKeeps(START, run);
    assert ListOk(After(START, run), After(START, run).arenas[a]);
  }

  /** In every interleaving, an arena that is created or reset gets a lifecycle id that no
      arena has ever had before. */
  lemma LifecycleIdsAreUnique(run: seq<Step>, last: Step)
    requires CanHappen(START, run + [last])
    requires last.Construct? || last.Reset?
    ensures CanHappen(START, run) && Enabled(After(START, run), last)
    ensures var s := After(START, run);
            var s' := After(START, run + [last]);
            && last.a in s'.arenas && s'.arenas[last.a].id !in s.issued
            && s'.issued == s.issued + {s'.arenas[last.a].id}
  {
    AfterAppend(START, run, last);
    RunKeeps(START, run);
    var s := After(START, run);
    if last.Construct? {
      InitIds(s, last.t, last.a, last.record, last.initial);
    } else {
      FreeKeeps(s, last.a);
      InitIds(FreeArena(s, last.a), last.t, last.a, last.record, last.initial);
    }
  }

  lemma {:induction false} AfterAppend(s: State, run: seq<Step>, last: Step)
    requires CanHappen(s, run + [last])
    ensures CanHappen(s, run)
    ensures Enabled(After(s, run), last)
    ensures After(s, run + [last]) == Apply(After(s, run), last)
    decreases |run|
  {
    hide Apply, Enabled;
    if run == [] {
      assert run + [last] == [last] && [last][1..] == [];
    } else {
      assert (run + [last])[0] == run[0] && (run + [last])[1..] == run[1..] + [last];
      AfterAppend(Apply(s, run[0]), run[1..], last);
    }
  }

  /** A push is recorded in the history when and only when the compare-exchange succeeds, and
      then it is in front of everything that was there. */
  lemma PushIsRecorded(s: State, step: Step, a: Addr)
    requires Inv(s) && Enabled(s, step)
    requires a in s.arenas && a in Apply(s, step).arenas && !step.Reset?
    ensures var before, after := s.arenas[a].pushed, Apply(s, step).arenas[a].pushed;
            if step.PushOk? && s.pcs[step.t].arena == a then
              after == [s.pcs[step.t].node] + before && s.pcs[step.t].node !in before
            else
              after == before
  {
    hide Inv;
    if step.PushOk? && s.pcs[step.t].arena == a {
      NotOnAnyList(s, step.t);
    } else {
      OthersDoNotPush(s, step, a);
    }
  }

  lemma OthersDoNotPush(s: State, step: Step, a: Addr)
    requires Enabled(s, step) && a in s.arenas && a in Apply(s, step).arenas && !step.Reset?
    requires !(step.PushOk? && s.pcs[step.t].arena == a)
    ensures Apply(s, step).arenas[a].pushed == s.arenas[a].pushed
  {
  }

  // ---------------------------------------------------------------- the fast path

  /** A thread that has been handed a serial arena by the fallback hits it from then on: in its
      cache and by the hint. */
  lemma StoreHits(s: State, t: Addr)
    requires Inv(s) && Enabled(s, Store(t))
    ensures var s', a, serial := Apply(s, Store(t)), s.pcs[t].arena, s.pcs[t].node;
            && CacheHit(s', t, a, s.arenas[a].id, serial)
            && HintHit(s', t, a, s.arenas[a].id, serial)
            && s'.pcs[t] == Idle
  {
    hide ListsOk, ListsApart, CachesOk, BatchOk;
    assert PCOk(s, t) && ListOk(s, s.arenas[s.pcs[t].arena]) by {
      FoundIsUsable(s, t);
      OneList(s, s.pcs[t].arena);
    }
    assert s.arenas[s.pcs[t].arena].id in s.issued;
  }

  lemma OneList(s: State, a: Addr)
    requires Inv(s) && a in s.arenas
    ensures ListOk(s, s.arenas[a])
  {
    hide ListOk;
  }

  /** So does the thread that creates or resets an arena with an initial block; the arena records
      allocations exactly if it was asked to, and its list is empty but for that block's arena. */
  lemma InitHits(s: State, step: Step)
    requires Inv(s) && Enabled(s, step) && (step.Construct? || step.Reset?)
    ensures var s', t, a := Apply(s, step), step.t, step.a;
            && a in s'.arenas && s'.arenas[a].record == step.record
            && s'.arenas[a].pushed == (if step.initial == NULL then [] else [step.initial])
            && (step.initial != NULL ==>
                  CacheHit(s', t, a, s'.arenas[a].id, step.initial) && HintHit(s', t, a, s'.arenas[a].id, step.initial))
            && (step.initial == NULL ==> s'.arenas[a].hint == NULL && s'.arenas[a].threads == NULL)
  {
    hide ListsOk, ListsApart, CachesOk, PCsOk;
    TakenId(s, step.t);
  }

  /** What a thread's cache may be overwritten or made stale by: its own next use of another arena,
      its end, or the end of the arena. */
  predicate Forgets(step: Step, t: Addr, a: Addr) {
    match step
    case ThreadExit(u) => u == t
    case Construct(u, _, _, initial) => u == t && initial != NULL
    case Reset(u, b, _, initial) => b == a || (u == t && initial != NULL)
    case Destroy(_, b) => b == a
    case Store(u) => u == t
    case _ => false
  }

  /** Whatever the other threads do, a cached serial arena is hit until then. */
  lemma {:induction false} CacheStays(s: State, run: seq<Step>, t: Addr, a: Addr, key: int, serial: Addr)
    requires CanHappen(s, run) && CacheHit(s, t, a, key, serial)
    requires forall i | 0 <= i < |run| :: !Forgets(run[i], t, a)
    ensures CacheHit(After(s, run), t, a, key, serial)
    decreases |run|
  {
    hide Enabled, Apply, CacheHit, Forgets;
    if run != [] {
      CacheStaysOnce(s, run[0], t, a, key, serial);
      CacheStays(Apply(s, run[0]), run[1..], t, a, key, serial);
    }
  }

  lemma CacheStaysOnce(s: State, step: Step, t: Addr, a: Addr, key: int, serial: Addr)
    requires Enabled(s, step) && CacheHit(s, t, a, key, serial) && !Forgets(step, t, a)
    ensures CacheHit(Apply(s, step), t, a, key, serial)
  {
    hide TakeId;
  }

  // ---------------------------------------------------------------- progress

  function Position(list: seq<Addr>, p: Addr): (k: nat)
    requires p in list
    ensures k < |list| && list[k] == p
  {
    if list[0] == p then 0 else 1 + Position(list[1..], p)
  }

  /** What a thread inside the fallback does next, if it is alone; `node` is what the allocator
      would give it. */
  function NextStep(s: State, t: Addr, node: Addr): Step
    requires At(s, t)
  {
    match s.pcs[t]
    case Scanning(_, at) => if at != NULL then Scan(t) else NewSerial(t, node)
    case Fresh(_, _) => LoadHead(t)
    case Linked(a, _, expected) => if s.arenas[a].threads == expected then PushOk(t) else PushFail(t)
    case Found(_, _) => Store(t)
  }

  /** How many steps it is at most from leaving the fallback. */
  function StepsLeft(s: State, t: Addr): nat
    requires t in s.pcs && PCOk(s, t)
  {
    match s.pcs[t]
    case Idle => 0
    case Scanning(a, at) =>
      4 + if at == NULL then 0 else |s.arenas[a].pushed| - Position(s.arenas[a].pushed, at)
    case Fresh(_, _) => 3
    case Linked(a, _, expected) => if s.arenas[a].threads == expected then 2 else 3
    case Found(_, _) => 1
  }

  predicate NodeIsFree(s: State, t: Addr, node: Addr) {
    t in s.pcs && s.pcs[t].Scanning? ==> node != NULL && node !in s.serials
  }

  lemma OneStepNearer(s: State, t: Addr, node: Addr)
    requires Inv(s) && At(s, t) && t in s.caches && NodeIsFree(s, t, node)
    ensures PCOk(s, t) && Enabled(s, NextStep(s, t, node))
    ensures var s', a := Apply(s, NextStep(s, t, node)), s.pcs[t].arena;
            && Inv(s') && t in s'.caches && t in s'.pcs && PCOk(s', t)
            && StepsLeft(s', t) < StepsLeft(s, t)
            && (s'.pcs[t] != Idle ==> At(s', t) && s'.pcs[t].arena == a && NodeIsFree(s', t, node))
            && (s'.pcs[t] == Idle ==>
                  a in s'.arenas && CacheHit(s', t, a, s'.arenas[a].id, s'.caches[t].lastSerial))
  {
    NextIsPossible(s, t, node);
    StepKeeps(s, NextStep(s, t, node));
    PCOfInv(s, t);
    StaysInside(s, t, node);
    PCOfInv(Apply(s, NextStep(s, t, node)), t);
    hide Inv, PCOk, StepsLeft, Enabled, Apply;
    Nearer(s, t, node);
    if s.pcs[t].Found? {
      StoreHits(s, t);
    }
  }

  lemma StaysInside(s: State, t: Addr, node: Addr)
    requires At(s, t) && t in s.caches && NodeIsFree(s, t, node) && Enabled(s, NextStep(s, t, node))
    ensures var s', a := Apply(s, NextStep(s, t, node)), s.pcs[t].arena;
            && t in s'.caches && t in s'.pcs && a in s'.arenas && s'.arenas[a].id == s.arenas[a].id
            && (s'.pcs[t] == Idle <==> s.pcs[t].Found?)
            && (s'.pcs[t] != Idle ==> s'.pcs[t].arena == a && NodeIsFree(s', t, node))
  {
  }

  lemma Nearer(s: State, t: Addr, node: Addr)
    requires Inv(s) && At(s, t) && Enabled(s, NextStep(s, t, node))
    requires PCOk(s, t) && t in Apply(s, NextStep(s, t, node)).pcs && PCOk(Apply(s, NextStep(s, t, node)), t)
    ensures StepsLeft(Apply(s, NextStep(s, t, node)), t) < StepsLeft(s, t)
  {
    hide Inv, PCOk;
    match s.pcs[t]
    case Scanning(a, at) =>
      if at != NULL {
        NextElement(s, t);
        hide StepsLeft;
        ScanNearer(s, t);
      }
    case _ =>
  }

  lemma ScanNearer(s: State, t: Addr)
    requires Enabled(s, Scan(t)) && PCOk(s, t) && PCOk(Apply(s, Scan(t)), t)
    requires s.pcs[t].at in s.arenas[s.pcs[t].arena].pushed
    requires var list, next := s.arenas[s.pcs[t].arena].pushed, s.serials[s.pcs[t].at].next;
             next == NULL || (next in list && Position(list, next) == Position(list, s.pcs[t].at) + 1)
    ensures StepsLeft(Apply(s, Scan(t)), t) < StepsLeft(s, t)
  {
    hide ScanOk, NodeOk;
  }

  lemma NextIsPossible(s: State, t: Addr, node: Addr)
    requires Inv(s) && At(s, t) && t in s.caches && NodeIsFree(s, t, node)
    ensures Enabled(s, NextStep(s, t, node))
  {
    hide Inv;
    NextEnabled(s, t);
  }

  lemma PCOfInv(s: State, t: Addr)
    requires Inv(s) && (t in s.pcs || t in s.caches)
    ensures t in s.pcs && t in s.caches && PCOk(s, t)
  {
  }

  /** The scan comes one element further. */
  lemma NextElement(s: State, t: Addr)
    requires Inv(s) && t in s.pcs && s.pcs[t].Scanning? && s.pcs[t].at != NULL
    ensures var pc := s.pcs[t];
            && pc.arena in s.arenas && pc.at in s.serials && pc.at in s.arenas[pc.arena].pushed
            && var list, next := s.arenas[pc.arena].pushed, s.serials[pc.at].next;
               next == NULL || (next in list && Position(list, next) == Position(list, pc.at) + 1)
  {
    hide IdsOk, CachesOk, ListsApart, Leads, ScanOk;
    var arena := s.arenas[s.pcs[t].arena];
    assert PCOk(s, t) && ListOk(s, arena);
    assert s.pcs[t].at in arena.pushed by {
      ScanPosition(s, t);
    }
    var k := Position(arena.pushed, s.pcs[t].at);
    LeadsNext(s.serials, arena.threads, arena.pushed, k);
    if k + 1 < |arena.pushed| {
      var m := Position(arena.pushed, arena.pushed[k + 1]);
      assert m == k + 1;
    }
  }

  lemma ScanPosition(s: State, t: Addr)
    requires t in s.pcs && PCOk(s, t) && s.pcs[t].Scanning? && s.pcs[t].at != NULL
    ensures s.pcs[t].at in s.arenas[s.pcs[t].arena].pushed
  {
  }

  /** From wherever others have left it, a thread that runs alone leaves the fallback after at most
      one step for each element still to be looked at and four more, and its cache is then hit. */
  lemma {:induction false} AloneFinishes(s: State, t: Addr, node: Addr) returns (run: seq<Step>)
    requires Inv(s) && At(s, t) && t in s.caches && NodeIsFree(s, t, node)
    ensures PCOk(s, t) && |run| <= StepsLeft(s, t) && CanHappen(s, run)
    ensures forall i | 0 <= i < |run| :: run[i].t == t
    ensures var s', a := After(s, run), s.pcs[t].arena;
            && t in s'.pcs && s'.pcs[t] == Idle && t in s'.caches && a in s'.arenas
            && CacheHit(s', t, a, s'.arenas[a].id, s'.caches[t].lastSerial)
    decreases if t in s.pcs && PCOk(s, t) then StepsLeft(s, t) else 0
  {
    hide Inv, Enabled, Apply, CacheHit, NodeIsFree, PCOk, StepsLeft;
    var step := NextStep(s, t, node);
    OneStepNearer(s, t, node);
    var s' := Apply(s, step);
    var rest := [];
    if s'.pcs[t] != Idle {
      rest := AloneFinishes(s', t, node);
    }
    run := [step] + rest;
    assert run[1..] == rest;
  }

  // ---------------------------------------------------------------- nothing leaks

  /** Every serial arena is on the list of an arena, or about to be put there by a thread. */
  ghost predicate Kept(s: State, p: Addr) {
    || (exists a | a in s.arenas :: p in s.arenas[a].pushed)
    || exists t | t in s.pcs :: Holds(s.pcs[t]) && s.pcs[t].node == p
  }

  ghost predicate NoLeak(s: State) {
    forall p | p in s.serials :: Kept(s, p)
  }

  lemma NoLeakInit(s: State, t: Addr, a: Addr, record: bool, initial: Addr)
    requires NoLeak(s) && t in s.caches && a !in s.arenas
    ensures NoLeak(InitArena(s, t, a, record, initial))
  {
    var s' := InitArena(s, t, a, record, initial);
    assert forall b | b in s.arenas :: b in s'.arenas && s'.arenas[b] == s.arenas[b];
    assert a in s'.arenas;
    forall p | p in s'.serials ensures Kept(s', p) {
      if p != initial {
        assert Kept(s, p);
      } else if initial == NULL {
        assert Kept(s, p);
      } else {
        assert p in s'.arenas[a].pushed;
      }
    }
  }

  lemma NoLeakFree(s: State, a: Addr)
    requires NoLeak(s) && a in s.arenas
    ensures NoLeak(FreeArena(s, a))
  {
    var s' := FreeArena(s, a);
    forall p | p in s'.serials ensures Kept(s', p) {
      assert Kept(s, p);
      if b :| b in s.arenas && p in s.arenas[b].pushed {
        assert b in s'.arenas;
      }
    }
  }

  /** Steps inside the fallback. */
  lemma NoLeakFallback(s: State, step: Step)
    requires NoLeak(s) && Enabled(s, step)
    requires step.Fallback? || step.Scan? || step.NewSerial? || step.LoadHead? || step.PushOk? || step.PushFail? || step.Store?
    ensures NoLeak(Apply(s, step))
  {
    var s', t := Apply(s, step), step.t;
    forall p | p in s'.serials ensures Kept(s', p) {
      if p in s.serials {
        assert Kept(s, p);
        if a :| a in s.arenas && p in s.arenas[a].pushed {
          assert a in s'.arenas && p in s'.arenas[a].pushed;
        } else {
          var u :| u in s.pcs && Holds(s.pcs[u]) && s.pcs[u].node == p;
          assert u in s'.pcs;
          if u == t && step.PushOk? {
            assert p in s'.arenas[s.pcs[t].arena].pushed;
          }
        }
      } else {
        assert t in s'.pcs && Holds(s'.pcs[t]);
      }
    }
  }

  lemma NoLeakStep(s: State, step: Step)
    requires Inv(s) && NoLeak(s) && Enabled(s, step)
    ensures NoLeak(Apply(s, step))
  {
    hide InitArena, FreeArena, NoLeak;
    match step
    case ThreadStart(t) => NoLeakThread(s, step);
    case ThreadExit(t) => NoLeakThread(s, step);
    case Construct(t, a, record, initial) => NoLeakInit(s, t, a, record, initial);
    case Destroy(t, a) => NoLeakFree(s, a);
    case Reset(t, a, record, initial) =>
      NoLeakFree(s, a);
      FreedArena(s, t, a);
      NoLeakInit(FreeArena(s, a), t, a, record, initial);
    case _ => NoLeakFallback(s, step);
  }

  lemma FreedArena(s: State, t: Addr, a: Addr)
    requires a in s.arenas
    ensures a !in FreeArena(s, a).arenas && FreeArena(s, a).caches == s.caches
  {
  }

  lemma NoLeakThread(s: State, step: Step)
    requires NoLeak(s) && Enabled(s, step) && (step.ThreadStart? || step.ThreadExit?)
    requires s.caches.Keys == s.pcs.Keys
    ensures NoLeak(Apply(s, step))
  {
    var s' := Apply(s, step);
    forall p | p in s'.serials ensures Kept(s', p) {
      assert Kept(s, p);
      if u :| u in s.pcs && Holds(s.pcs[u]) && s.pcs[u].node == p {
        assert u in s'.pcs && s'.pcs[u] == s.pcs[u];
      }
    }
  }

  lemma {:induction false} NoLeakRun(s: State, run: seq<Step>)
    requires Inv(s) && NoLeak(s) && CanHappen(s, run)
    ensures NoLeak(After(s, run))
    decreases |run|
  {
    hide Inv, NoLeak, Apply, Enabled;
    if run != [] {
      StepKeeps(s, run[0]);
      NoLeakStep(s, run[0]);
      NoLeakRun(Apply(s, run[0]), run[1..]);
    }
  }

  /** In every interleaving, every serial arena there is can still be given back; so when all arenas
      have been destroyed none is left. */
  lemma NothingLeaks(run: seq<Step>)
    requires CanHappen(START, run)
    ensures forall p | p in After(START, run).serials :: Kept(After(START, run), p)
    ensures After(START, run).arenas == map[] ==> After(START, run).serials == map[]
  {
    NoLeakRun(START, run);
    RunKeeps(START, run);
    var s := After(START, run);
    hide After, CanHappen, IdsOk, ListsOk, ListsApart, CachesOk;
    if s.arenas == map[] {
      forall t | t in s.pcs ensures !Holds(s.pcs[t]) {
        assert PCOk(s, t);
      }
      assert s.serials.Keys == {};
    }
  }
}
