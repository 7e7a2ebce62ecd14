# ThirdPersonMP: arena, descriptor pool and RPC transport

This project models three stateful parts of the repository in Dafny and proves what they keep over
whole runs.

* **The protobuf arena.** `SerialArena.dfy` is one thread's bump allocator with its cleanup nodes, over
  a chain of blocks in an address space of natural numbers. `ThreadSafeArena.dfy` takes the whole arena
  down (`Free`, `Reset`, the destructor) over a memory in which freed blocks can no longer be read.
  `LockFreeArena.dfy` is the lock-free side: a system of steps, one per access to shared state, for any
  number of threads and arenas, with compare-exchanges that may fail spuriously. `ArenaLayout.dfy` holds
  sizes, growth and alignment.
* **The descriptor pool.** `Tables.dfy` has the symbol, file and extension maps with their stack of
  checkpoints; `Builder.dfy` and `DescriptorPool.dfy` the recursion between building a file and loading
  the files and symbols it needs, with name resolution; `BuildSpec.dfy` says which files are accepted, and
  `Loading.dfy` when a file can be found together with all it imports;
  `FieldNames.dfy` the lazily filled name indexes; `SourceInfo.dfy` the rewriting of source locations;
  `Oneofs.dfy` the cross-linking of oneofs; `Protos.dfy` the inputs.
* **The game client's RPC transport.** `Framing.dfy` is the frame format; `TcpSocketRunnable.dfy` the
  socket thread with partial sends and receives; `TcpSocket.dfy` the life of connections;
  `ServiceRegistry.dfy` and `RpcChannel.dfy` the services, the matching of responses to requests, and
  delayed responses.

Where the source changes fields step by step the model is a class with those fields and methods with
loops; what they compute is stated by functions on values, and the main results are lemmas about these
functions or invariants the methods keep.

## What turned out not to hold

Each of these is stated in the model, where there is one with the exact condition under which the code
does what it is meant to do.

* A cleanup can be lost. `CleanupList` counts the nodes of a block with a pointer subtraction from the
  block's end *rounded down to 8*, while `AllocateNewBlock` puts the nodes at the unrounded end. In a
  block other than the first whose size is not a multiple of 8, a lone node counts as none and is not
  run. `SerialArena.CleanupsRunInReverse` says exactly when all cleanups run in reverse order;
  `SerialArena.LoneCleanupIsSkipped` gives an input (a caller's block of 501 bytes under the default
  policy, which leads to one of 1002).
* A trailing empty payload is held back. The decoder goes on only while more than a header is buffered,
  so a frame of length 0 is not delivered until more bytes follow. `Framing.RoundTrip` has the exact
  condition.
* A frame length of 2^32 - 4 or more wraps around in `kHeaderLen + Length`; the decoder then asks for an
  array of negative size. The model keeps the 32-bit arithmetic and reports this as `fault`.
  `Framing.FaultCharacterized` has the exact condition, `Framing.FiveBytesFault` an input.
* One connection can affect the next. A posted disconnect, a posted announcement that the connection is
  up, a queued message, a delayed response and an outstanding call carry no connection, and of these only
  the queued messages are dropped, when the game itself disconnects. After a reconnect they tear the new
  connection down, announce it too early, are handled as if it had sent them, go to its peer, and are
  settled by its responses. `TcpSocket.ConnectIsSafeIff` has the exact condition, for all five,
  `TcpSocket.PastInterferes` a run for each.
* Error replies settle nothing. They carry an empty response, which `stubHandleResponseMsg` ignores, so
  the caller's entry stays in the table of outstanding calls; and so does that of a call whose real
  response serializes to nothing. `RpcChannel.Channel.TickMessageQueue` says exactly which calls are
  settled.
* A registered request type can lead nowhere. A stub takes the place of its service but not of the
  service's entries, so a type that the stub does not have, and no later service either, keeps an entry
  that points into the stub. `ServiceRegistry.EntriesRightIff` has the exact condition, which holds when
  service and stub share their descriptor; `ServiceRegistry.RegisterUnshared` registers a factory for
  which it fails.
* Options can be forgotten. `AllocationPolicy::IsDefault` compares the start size with the default maximum
  (arena_impl.h:104-108), so options that say 8192 for both sizes and nothing else are taken for the default
  ones, and a thread's first block gets 256 bytes. `ThreadSafeArena.OptionsAreKeptIff` has the exact
  condition.
* An index outside a service's methods is used without a check: `ServiceDescriptor::method` is the array's
  address plus the index (descriptor.h:1992-1993), which is null only for index 0 of a service without
  methods (descriptor.cc:1220), so the tests for a null method do not help. `RpcChannel` reports this
  as `faulted`; `StubHandleResponse` and `ServiceHandleRequest` say exactly when, and with right entries
  responses never lead there. In `RegisterUnshared` the index is 0 and the response is dropped without a
  callback.

## How the model reads the source

* Addresses are natural numbers and 0 is null. What the system allocator returns is a parameter, which
  has to be 8-aligned and away from the blocks in use. Sizes are those of a 64-bit layout.
* Steps of `LockFreeArena` are sequentially consistent. `Reset` and destruction are enabled only while no
  thread is inside an operation on that arena, as arena.h documents.
* The socket and the game thread are a script of environment steps: before each look at shared state or
  at the socket, the script says what the game thread did and how the socket answers. A script may end
  anywhere, so its runs are all finite prefixes of all executions.
* A `FileDescriptorProto` is a small datatype, the fallback database two finite maps, and building is
  not lazy. A file matches an existing one when their protos are equal. Imports are resolved before the
  file enters the table; the loop at descriptor.cc:4429-4472 adds nothing to it. The two copies of the
  field-name code (lowercase and camelcase) are one class used twice.
* Buffers and payloads have no size limit, beyond what the header's length says of a frame. A `TArray`
  holds at most 2^31 - 1 bytes, so in the original a frame of 2^31 - 4 bytes or more is never complete.
* A service with a missing descriptor is a fault when a request for it is handled, which does not look.
  After a fault nothing more is said.
* A protobuf message is its type and its serialized bytes. Machine words are little-endian. The
  generated headers service_enum.pb.h and rpc.pb.h are not part of this model; SERVICETYPE_MIN is taken
  as 0, and the first delayed-response id is arbitrary.

## Model

| member | source | states |
|---|---|---|
| `ArenaLayout.BlockSizeGrows` | myproto/include/google/protobuf/arena.cc:58-68 | a block sized by AllocateMemory continues a chain in which every block is at least twice its predecessor or at the policy limit, whatever the request |
| `ArenaLayout.GrowthIsGeometric` | myproto/include/google/protobuf/arena.cc:58-68 | block k of such a chain has at least min(2^k * first, max_block_size) bytes |
| `ArenaLayout.BlockSizeExact` | myproto/include/google/protobuf/arena.cc:53-68 | a first block has the start size, a later one twice the size before or the limit, unless the request needs more; then exactly what it needs |
| `ArenaLayout.BlockSizeAligned` | myproto/include/google/protobuf/arena.cc:53-68 | with policy, previous block and request in multiples of 8, the new block ends at a multiple of 8 |
| `ArenaLayout.BlockSizeKeepsAligned` | myproto/include/google/protobuf/arena.cc:53-68 | with a policy in multiples of 8, a chain of blocks with sizes in multiples of 8 stays one |
| `ArenaLayout.AndHigh` | myproto/include/google/protobuf/arena.h:97-100 | bit by bit, masking an n-bit word with ones from bit k up takes away exactly the remainder modulo 2^k |
| `ArenaLayout.AlignToMasks` | myproto/include/google/protobuf/arena.h:97-100 | for every power of two, the mask of AlignTo rounds up to the next multiple, as long as the address does not wrap around |
| `ArenaLayout.AlignDown8Masks` | myproto/include/google/protobuf/arena.cc:183-184 | masking with -8 rounds down to a multiple of 8 |
| `ArenaLayout.OveralignedFits` | myproto/include/google/protobuf/arena.h:508-519 | an over-aligned request of n + align - 8 bytes from an 8-aligned pointer contains n bytes from the first multiple of align on |
| `SerialArena.Arena.New` | myproto/include/google/protobuf/arena.cc:108-120 | a new arena is valid: header and arena object lie in its block, the rest is free |
| `SerialArena.Arena.AllocateNewBlock` | myproto/include/google/protobuf/arena.cc:149-169 | the block left behind records where its nodes start, the invariant (blocks linked newest first, all byte ranges ever taken inside their block and pairwise disjoint, nodes stored, accounting exact) is kept, block sizes keep growing geometrically and stay multiples of 8 if the policy comes in them, and the request now fits |
| `SerialArena.Arena.AllocateAligned` | myproto/include/google/protobuf/arena_impl.h:151-163 | n fresh bytes, 8-aligned, disjoint from everything taken before, from this block or a new one; the retry after a new block does not fall back again |
| `SerialArena.Arena.AllocateAlignedFallback` | myproto/include/google/protobuf/arena.cc:142-147 | the same, with a new block |
| `SerialArena.Arena.MaybeAllocateAligned` | myproto/include/google/protobuf/arena_impl.h:166-177 | succeeds exactly when the head block has room, and otherwise changes nothing |
| `SerialArena.Arena.ReadyIsAligned` | myproto/include/google/protobuf/arena.cc:149-169 | whatever block a request with a policy in multiples of 8 is served from, all block sizes are still multiples of 8 |
| `SerialArena.Arena.AllocateAlignedWithCleanup` | myproto/include/google/protobuf/arena_impl.h:179-192 | bytes from the bottom and a node from the top of one block, disjoint from everything taken before |
| `SerialArena.Arena.AllocateAlignedWithCleanupFallback` | myproto/include/google/protobuf/arena.cc:134-140 | the same, with a new block large enough for both |
| `SerialArena.Arena.AddCleanup` | myproto/include/google/protobuf/arena_impl.h:194-199 | the cleanup is registered behind all cleanups registered before, across any change of block |
| `SerialArena.Arena.AllocateAlignedWithHook` | myproto/include/google/protobuf/arena.h:697-710 | the pointer has the alignment asked for and its n bytes lie inside the range taken; that range is all that is added to the history, disjoint from everything taken before, and no cleanup is |
| `SerialArena.Arena.AllocateInternal` | myproto/include/google/protobuf/arena.h:501-521 | the same, and with a destructor also its node is taken and its cleanup registered on the very pointer handed out; all earlier ranges stay, and the space requested grows by exactly the request |
| `SerialArena.RequestIsLeast` | myproto/include/google/protobuf/arena.h:508-519 | the number of bytes asked for is the least that is enough from wherever the block stands |
| `SerialArena.Arena.SpaceUsed` | myproto/include/google/protobuf/arena.cc:171-177 | exactly the sum of all requests: headers, arena object, free space and cleanup nodes are left out |
| `SerialArena.Arena.SpaceAllocated` | myproto/include/google/protobuf/arena_impl.h:144-146 | exactly the sum of the sizes of all blocks |
| `SerialArena.Arena.CleanupList` | myproto/include/google/protobuf/arena.cc:179-194 | runs the cleanups block by block, newest first; this is all of them, once each, in exactly the reverse order of registration, if and only if no block behind the first with a size that is not a multiple of 8 has exactly one node; so always if all block sizes are multiples of 8, which the allocators keep so |
| `SerialArena.CleanupsRunInReverse` | myproto/include/google/protobuf/arena.cc:179-194 | the same as a law of the blocks and their alignment, in both directions |
| `SerialArena.LoneCleanupIsSkipped` | myproto/include/google/protobuf/arena.cc:183-187 | a cleanup that is never run, with concrete sizes |
| `SerialArena.RunIsNoLonger` | myproto/include/google/protobuf/arena.cc:179-194 | never more cleanups run than were registered, and as many exactly under the same condition |
| `SerialArena.State.NewBlockKeeps` | myproto/include/google/protobuf/arena.cc:149-169 | leaving a block for a new one keeps the arena invariant |
| `SerialArena.State.BumpKeeps` | myproto/include/google/protobuf/arena_impl.h:157-158 | moving ptr_ up keeps the arena invariant |
| `SerialArena.State.PushKeeps` | myproto/include/google/protobuf/arena_impl.h:186-191 | moving limit_ down for a node keeps the arena invariant |
| `SerialArena.State.SyncKeeps` | myproto/include/google/protobuf/arena.cc:180-181 | recording the start of the head block keeps the arena invariant |
| `ThreadSafeArena.Arena.From` | myproto/include/google/protobuf/arena.cc:217-226 | the caller's block is used exactly when it is there and large enough |
| `ThreadSafeArena.Arena.WithPolicy` | myproto/include/google/protobuf/arena.cc:228-259 | there is always a first block holding the policy; it is the caller's block exactly when that has room for it, else a new one |
| `ThreadSafeArena.Arena.WithOptions` | myproto/include/google/protobuf/arena_impl.h:260-271 | the policy is stored and the first block chosen by it, unless it is plain with both sizes 8192 |
| `ThreadSafeArena.OptionsAreKeptIff` | myproto/include/google/protobuf/arena_impl.h:104-108 | a thread's first block has the size the options ask for if and only if they are not just that: those get a block of 256 bytes |
| `ThreadSafeArena.Arena.AddSerial` | myproto/include/google/protobuf/arena.cc:441-452 | a thread's first block becomes an arena of its own in front of the list; it has 256 bytes, or what the stored policy says |
| `ThreadSafeArena.Arena.AddBlock` | myproto/include/google/protobuf/arena.cc:156-162 | a new block of any arena in the list keeps the shape of all chains and of the list |
| `ThreadSafeArena.Arena.Use` | myproto/include/google/protobuf/arena_impl.h:151-163 | a request served by any arena of the list changes neither list nor chains, and counts once |
| `ThreadSafeArena.Arena.SpaceUsed` | myproto/include/google/protobuf/arena.cc:418-425 | over all threads, exactly the sum of the requests since the arena was set up: the stored policy is subtracted again |
| `ThreadSafeArena.Arena.FreeSerial` | myproto/include/google/protobuf/arena.cc:122-132 | deallocates all blocks of one arena but the first, newest first, each once, and never reads a freed block |
| `ThreadSafeArena.Arena.Free` | myproto/include/google/protobuf/arena.cc:309-317 | deallocates every block of every arena exactly once except the first block of the last arena, which it returns; the arena object needed to go on is still alive when it is read |
| `ThreadSafeArena.Arena.Destroy` | myproto/include/google/protobuf/arena.cc:288-307 | every block is deallocated exactly once, except a caller's block, which never is; the policy is read before its block goes |
| `ThreadSafeArena.Arena.Reset` | myproto/include/google/protobuf/arena.cc:319-352 | returns exactly the space held before, gives back everything but a caller's block, keeps the policy, and leaves a valid arena on that block, on a new one or on none |
| `ThreadSafeArena.Arena.SpaceAllocated` | myproto/include/google/protobuf/arena.cc:409-416 | the total size of all blocks of all threads |
| `ThreadSafeArena.FreeOne` | myproto/include/google/protobuf/arena.cc:126-130 | deallocating the newest block left disturbs neither the older blocks, nor the arena object, nor the other arenas |
| `ThreadSafeArena.ListInsert` | myproto/include/google/protobuf/arena.cc:156-162 | a block put in front of one chain leaves all other chains and the list intact |
| `LockFreeArena.StepKeeps` | myproto/include/google/protobuf/arena.cc:261-286 | every step of every thread (creation, reset, destruction, scan, allocation, each load, store and compare-exchange) keeps the invariant |
| `LockFreeArena.LifecycleIdsAreUnique` | myproto/include/google/protobuf/arena.cc:261-279 | in every interleaving, an arena that is created or reset gets an id no arena ever had |
| `LockFreeArena.HandedOutIsUsable` | myproto/include/google/protobuf/arena_impl.h:355-392 | in every interleaving, a hit in the thread cache, a hit of hint_ or the result of the fallback is a live serial arena of the calling thread on the arena's current list |
| `LockFreeArena.StoreHits` | myproto/include/google/protobuf/arena_impl.h:355-363 | a thread that leaves the fallback hits its serial arena from then on, in its cache and by the hint |
| `LockFreeArena.InitHits` | myproto/include/google/protobuf/arena.cc:262-286 | so does the thread that creates or resets an arena with an initial block; the arena records allocations exactly if asked to, and its list holds only that block's serial arena |
| `LockFreeArena.CacheStays` | myproto/include/google/protobuf/arena_impl.h:363-380 | in every interleaving, whatever other threads do, the hit lasts until the thread caches another arena or ends, or the arena does |
| `LockFreeArena.AloneFinishes` | myproto/include/google/protobuf/arena.cc:431-456 | from wherever others have left it, a thread that runs alone leaves the fallback after at most one step for each list element still to be looked at and four more, and then hits its cache: a failed compare-exchange is never repeated for ever without another thread succeeding |
| `LockFreeArena.NothingLeaks` | myproto/include/google/protobuf/arena.cc:309-317 | in every interleaving every serial arena is on a list or about to be put there, so when all arenas have been destroyed none is left |
| `LockFreeArena.ListIsWhatWasPushed` | myproto/include/google/protobuf/arena.cc:431-456 | in every interleaving, with compare-exchanges failing at will, the list in memory is exactly what was pushed, newest first: nothing lost, duplicated or reordered, acyclic, one element per owner, the initial block's arena last |
| `LockFreeArena.FallbackTouchesLiveMemory` | myproto/include/google/protobuf/arena.cc:434-455 | in every interleaving, whatever a thread in the fallback is about to read or write is alive, and it is never stuck |
| `LockFreeArena.PushIsRecorded` | myproto/include/google/protobuf/arena.cc:447-451 | the list changes only by a successful compare-exchange, which puts a new node in front of all others |
| `LockFreeArena.InitKeeps` | myproto/include/google/protobuf/arena.cc:261-286 | creating an arena keeps the invariant, although caches may hold ids and addresses of arenas that are gone |
| `LockFreeArena.FreeKeeps` | myproto/include/google/protobuf/arena.cc:288-317 | destroying an arena keeps the invariant of all others |
| `LockFreeArena.ScanKeeps` | myproto/include/google/protobuf/arena.cc:434-439 | comparing one owner and moving on never passes the thread's own element, even while others push |
| `LockFreeArena.SetNextKeeps` | myproto/include/google/protobuf/arena.cc:447-451 | (re)loading the head into the new node keeps the invariant |
| `LockFreeArena.PushKeeps` | myproto/include/google/protobuf/arena.cc:450-451 | a successful compare-exchange keeps the invariant |
| `LockFreeArena.StoreKeeps` | myproto/include/google/protobuf/arena_impl.h:355-363 | caching a serial arena and storing the hint keeps the invariant |
| `Tables.RollbackRestores` | myproto/include/google/protobuf/descriptor.cc:854-883 | erasing the logged keys and cutting the vectors restores exactly the contents at the checkpoint, whatever was added and whatever inner checkpoints were cleared since |
| `Tables.RollbackKeepsOuter` | myproto/include/google/protobuf/descriptor.cc:854-883 | the checkpoints below stay restorable |
| `Tables.Pool.AddCheckpoint` | myproto/include/google/protobuf/descriptor.cc:838-840 | the current contents become the snapshot of a new checkpoint |
| `Tables.Pool.ClearLastCheckpoint` | myproto/include/google/protobuf/descriptor.cc:842-852 | the additions stay, undoable by the checkpoints below; the logs are emptied with the last one |
| `Tables.Pool.RollbackToLastCheckpoint` | myproto/include/google/protobuf/descriptor.cc:854-883 | all maps and vectors are exactly as at the matching checkpoint; every key is erased while the string it points at is alive |
| `Tables.Pool.EraseSince` | myproto/include/google/protobuf/descriptor.cc:858-869 | erases exactly the keys logged since, through strings that still exist |
| `Tables.Pool.AddSymbol` | myproto/include/google/protobuf/descriptor.cc:1091-1099 | adds unless the name is taken, and stays undoable by every open checkpoint |
| `Tables.Pool.AddFile` | myproto/include/google/protobuf/descriptor.cc:1108-1115 | the same for files |
| `Tables.Pool.AddExtension` | myproto/include/google/protobuf/descriptor.cc:1162-1170 | the same for extensions |
| `Tables.Pool.AllocateString` | myproto/include/google/protobuf/descriptor.cc:1184-1188 | a new string at the end; all pointers to older strings keep their meaning |
| `Builder.PrefixesAreSymbols` | myproto/include/google/protobuf/descriptor.cc:4068-4101 | in a parent-closed table every dotted prefix of a symbol is a symbol and of a package a package |
| `Builder.FindExact` | myproto/include/google/protobuf/descriptor.cc:3739-3776 | in terms of files and packages: a file sees the symbols defined in itself or a dependency, and the packages that its own package or a dependency's is or lies in, and anything where dependencies are not enforced |
| `Builder.AcceptableExact` | myproto/include/google/protobuf/descriptor.cc:3809-3845 | which scopes count: for a compound name those with a message, package, enum or service under its first part; for a simple one any, or a message or enum |
| `Builder.ResolutionExact` | myproto/include/google/protobuf/descriptor.cc:3778-3851 | the declarative rule of name resolution (longest acceptable scope, committing once an aggregate is found, else the global name) has exactly one answer, the one a search from the end of the scope finds |
| `Builder.ResolvesBetweenSame` | myproto/include/google/protobuf/descriptor.cc:3778-3851 | the rule for a pool that grows during the lookup is the rule of name resolution when it does not |
| `Builder.FindStays` | myproto/include/google/protobuf/descriptor.cc:3739-3776 | where dependencies are enforced, loading files never changes which symbol a file sees under a name: what is new was defined in files it does not depend on, and in no package that it or a dependency lies in |
| `Builder.BetweenIsExact` | myproto/include/google/protobuf/descriptor.cc:3778-3851 | hence a lookup whose probes each see the pool of their moment has the answer of the rule in the pool as it was in the beginning |
| `Builder.DependenciesAreClosure` | myproto/include/google/protobuf/descriptor.cc:3692-3697 | what a file can see is the least set that holds its imports and is closed under public imports |
| `Builder.RecordedAreReached` | myproto/include/google/protobuf/descriptor.cc:3692-3697 | the same without an algorithm: a file is recorded if and only if a path of public imports leads to it from one of those named |
| `BuildSpec.VisibleIsSeen` | myproto/include/google/protobuf/descriptor.cc:4503-4506 | in terms of the file's own fields: it sees the dependencies it names that were in the pool, and what these import publicly along any path |
| `BuildSpec.ChildrenAreNamed` | myproto/include/google/protobuf/descriptor.cc:5290-5300 | what a message or service contains is named after it; the value of an enum after the enum's scope |
| `BuildSpec.PackageOkIff` | myproto/include/google/protobuf/descriptor.cc:4068-4101 | stopping at the first existing package makes no difference: the package is in order exactly if it and every part above it is a package or a properly named new one |
| `BuildSpec.BuildableIff` | myproto/include/google/protobuf/descriptor.cc:4341-4584 | the errors found on the way amount to the declarative condition, wherever the strings of the tables lie |
| `BuildSpec.OutcomeThen` | myproto/include/google/protobuf/descriptor.cc:4599-4735 | parts of a file built one after the other fail exactly if one of them fails, a name used in both included |
| `BuildSpec.NewSymbolsAreNew` | myproto/include/google/protobuf/descriptor.cc:4341-4584 | every symbol added by building a file was defined in that file, so in none that was there before |
| `BuildSpec.NamesStayKnown` | myproto/include/google/protobuf/descriptor.cc:4341-4584 | after a file without errors has been added every symbol has a name and the package of every file is a symbol, if that was so before |
| `DescriptorPool.ExistingPackage` | myproto/include/google/protobuf/descriptor.cc:4089-4092 | stopping at an existing package is right: its parents are packages already |
| `DescriptorPool.AddPackageSymbol` | myproto/include/google/protobuf/descriptor.cc:4076-4088 | with the package added, only its parent may be missing |
| `DescriptorPool.DescriptorBuilder.AddPackage` | myproto/include/google/protobuf/descriptor.cc:4068-4101 | an error exactly if the package or a part above it is not in order; without one exactly the missing packages of the chain are added, and the symbol table is parent-closed again |
| `DescriptorPool.DescriptorBuilder.AddSymbol` | myproto/include/google/protobuf/descriptor.cc:4019-4066 | adds exactly when the name is free and has no null character; a failure, and nothing else, is an error |
| `DescriptorPool.DescriptorBuilder.ValidateSymbolName` | myproto/include/google/protobuf/descriptor.cc:4103-4120 | an error exactly if the name is empty or has a character that an identifier may not have |
| `DescriptorPool.DescriptorBuilder.ValidateQualifiedName` | myproto/include/google/protobuf/descriptor.cc:3867-3888 | exactly the dotted names without empty parts at the end or in between |
| `DescriptorPool.DescriptorBuilder.BuildDecl` | myproto/include/google/protobuf/descriptor.cc:4599-4735 | an error exactly if some name in the message, enum or service is invalid, taken or used twice; without one exactly its symbols are added, and the table stays parent-closed except for the elements still open |
| `DescriptorPool.DescriptorBuilder.BuildChildren` | myproto/include/google/protobuf/descriptor.cc:4620-4626 | the same for the declarations inside one, after its own name has been checked |
| `DescriptorPool.DescriptorBuilder.BuildDecls` | myproto/include/google/protobuf/descriptor.cc:4523-4527 | the same for all top-level declarations of a file |
| `DescriptorPool.DescriptorBuilder.FindSymbol` | myproto/include/google/protobuf/descriptor.cc:3739-3776 | of a name that is there, or that has been loaded for it, the symbol this file may see; it is loaded exactly if the database comes up with a file for it that can be built; null for a name that could not be loaded, even if a file loaded on the way has brought it, and then it is remembered |
| `DescriptorPool.DescriptorBuilder.LookupSymbolNoPlaceholder` | myproto/include/google/protobuf/descriptor.cc:3778-3851 | terminates and keeps the pool's invariants through any files it loads; in a well-formed pool that enforces dependencies, as every new pool does, the answer is the one of the rule of name resolution in the pool as it was, whatever is loaded on the way; where they are not, the scope that decides is acceptable in the end and no scope inside it was in the beginning, what was there in the beginning is found and what is found is there in the end |
| `DescriptorPool.DescriptorBuilder.ResolveImports` | myproto/include/google/protobuf/descriptor.cc:4429-4472 | each dependency is a file of the pool, an allowed placeholder or missing; an error exactly if one is missing or listed twice; a file that imports itself is noticed |
| `DescriptorPool.DescriptorBuilder.CheckIndexes` | myproto/include/google/protobuf/descriptor.cc:4474-4521 | an error exactly if a public or weak dependency index is out of range |
| `DescriptorPool.DescriptorBuilder.AddNewFile` | myproto/include/google/protobuf/descriptor.cc:4389-4402 | the file enters the table exactly when its name is free and has no null character |
| `DescriptorPool.DescriptorBuilder.CrossLink` | myproto/include/google/protobuf/descriptor.cc:3853-3865 | without an error every reference leads somewhere; in a well-formed pool that enforces dependencies, whatever is loaded, and else if no file had to be loaded, an error exactly if some reference is unresolved by the rule and no placeholder may stand in |
| `DescriptorPool.DescriptorBuilder.AddContents` | myproto/include/google/protobuf/descriptor.cc:4389-4527 | goes on exactly when the name is free, without a null character, and not imported by the file itself; an error exactly if some part is unsound or a new name is not fresh; it then sees exactly the dependencies it names that were there, and the files that public imports lead to from these; without an error the pool stays parent-closed and in import order |
| `DescriptorPool.DescriptorBuilder.BuildFileImpl` | myproto/include/google/protobuf/descriptor.cc:4341-4584 | if it succeeds, the pool has gained the file and its symbols and is still well-formed if it was, the file was admissible, and all its references lead somewhere; in a well-formed pool that enforces dependencies, whatever is loaded, and in any pool if no symbol is ever loaded, it succeeds exactly for buildable files |
| `DescriptorPool.DescriptorPool.BuildUnderCheckpoint` | myproto/include/google/protobuf/descriptor.cc:4325-4338 | on an error the contents are exactly as before, files loaded on the way included; in a well-formed pool that enforces dependencies, whatever is loaded, and in any pool if no symbol is ever loaded, the error occurs exactly for files that are not buildable |
| `DescriptorPool.DescriptorPool.LoadDependencies` | myproto/include/google/protobuf/descriptor.cc:4309-4323 | every dependency is there or has been tried; if all were there nothing is loaded; for a file of a conflict-free plan all are loaded; the pool's invariants are kept, the pending files restored, and it ends: the names neither pending nor built become fewer |
| `DescriptorPool.DescriptorPool.BuildFile` | myproto/include/google/protobuf/descriptor.cc:4270-4339 | terminates on any finite database; checkpoints and pending files are as before and nothing already in the pool changes; all dependencies are tried first, a failure leaves no more than the dependencies, a success adds the file, its symbols and what was loaded for its references; a well-formed pool that enforces dependencies accepts, with any database, exactly the files already there and the buildable ones not on their own import path; so does any pool whose database cannot look up symbols |
| `DescriptorPool.DescriptorPool.BuildFileCollectingErrors` | myproto/include/google/protobuf/descriptor.cc:3566-3589 | the public entry of a pool without a database accepts exactly the files that are there already and those that are buildable: sound imports, indexes and names, all new names fresh, every reference resolved; it adds exactly the file and its symbols, and leaves no trace of a file it rejects |
| `DescriptorPool.DescriptorPool.FindFileByName` | myproto/include/google/protobuf/descriptor.cc:1381-1399 | a file in the pool is found; what the database has under the name is found exactly if it can be built with the dependencies that could be loaded, at once if these are there; and with a database that cannot look up symbols, if it has the file and all it imports in some order and without conflicts, the file is always found; whenever no checkpoint is open the symbol table is parent-closed and every file comes after all files it imports |
| `Loading.NextIsBuildable` | myproto/include/google/protobuf/descriptor.cc:4309-4323 | in a plan without conflicts, a file can be built when its imports have been loaded, in whatever order |
| `Loading.BuiltOnPlan` | myproto/include/google/protobuf/descriptor.cc:4270-4339 | building it leaves the rest of the plan as it was: only files of the plan with their own symbols have been added |
| `Loading.TwoFilesAreLoadable` | myproto/include/google/protobuf/descriptor.cc:1381-1399 | a file and one that it imports and refers to make such a plan, for every option |
| `DescriptorPool.FindWithImport` | myproto/include/google/protobuf/descriptor.cc:1381-1399 | the same, run: an empty pool finds the file |
| `DescriptorPool.DescriptorPool.TryFindFileInFallbackDatabase` | myproto/include/google/protobuf/descriptor.cc:1869-1883 | keeps the invariants and terminates; a file is found exactly if the database has it, it is not remembered as bad, and it is there already or buildable and not pending; one not found is remembered as bad, and a bad one is not tried again |
| `DescriptorPool.DescriptorPool.TryFindSymbolInFallbackDatabase` | myproto/include/google/protobuf/descriptor.cc:1907-1948 | the same for a symbol: found exactly if the database comes up with a file that is not there, not bad, not pending and buildable; nothing is loaded for a part of a type that is there already |
| `DescriptorPool.DescriptorPool.IsSubSymbolOfBuiltType` | myproto/include/google/protobuf/descriptor.cc:1885-1905 | true exactly when some proper prefix is a symbol other than a package |
| `DescriptorPool.DescriptorPool.BuildFileFromDatabase` | myproto/include/google/protobuf/descriptor.cc:3591-3604 | keeps the invariants and terminates; a file that is not bad is built exactly if it is there or buildable and not pending, else it is remembered as bad |
| `DescriptorPool.ImportsAreAcyclic` | myproto/include/google/protobuf/descriptor.cc:4290-4304 | the import graph of the pool has no cycle of any length |
| `DescriptorPool.DependencyCyclesAreRejected` | myproto/include/google/protobuf/descriptor.cc:4290-4304 | no file on a cycle of dependencies is ever in the pool, unless unknown imports are allowed or the cycle has a weak import and those are not enforced |
| `DescriptorPool.OrderedAfterAdding` | myproto/include/google/protobuf/descriptor.cc:4396-4472 | a file whose found imports are all in the pool may be added without breaking the import order |
| `FieldNames.FirstIsFirst` | myproto/include/google/protobuf/descriptor.cc:1123-1149 | the eager map: the first field, in cross-link order, with this parent and name |
| `FieldNames.FirstIsFirstNamed` | myproto/include/google/protobuf/descriptor.cc:1123-1149 | in terms of the fields: the first with this parent and this lowercase name, or camelcase name |
| `FieldNames.NameIndex.Add` | myproto/include/google/protobuf/descriptor.cc:1123-1149 | the index holds the first field of exactly those names that occur twice so far |
| `FieldNames.NameIndex.Fill` | myproto/include/google/protobuf/descriptor.cc:974-982 | filling from the fields by number, in any order, makes the index equal to the eager first-wins map |
| `FieldNames.NameIndex.Find` | myproto/include/google/protobuf/descriptor.cc:984-991 | a lookup gives the first field with this parent whose lowercase name, or camelcase name, this is, and none exactly if there is none, whenever it is made |
| `FieldNames.NameIndex.Finalize` | myproto/include/google/protobuf/descriptor.cc:1117-1121 | dropping the temporary map loses nothing a lookup needs |
| `FieldNames.FileDescriptorTables.CrossLinkField` | myproto/include/google/protobuf/descriptor.cc:5569-5826 | a field enters the table by number exactly when no check gives up and its number is free, so also after an error that is only reported; there is no error exactly if all checks pass as well |
| `FieldNames.FileDescriptorTables.CrossLinkFields` | myproto/include/google/protobuf/descriptor.cc:5452-5458 | all fields of a file are in the table by number, so that lookups are right, if there is no error, which is exactly if all fields pass their checks and no number is taken twice |
| `SourceInfo.SourceCodeInfo.Update` | myproto/include/google/protobuf/descriptor.cc:6696-6787 | the copy-on-first-match loop computes the recursive rewriting of the list, and leaves it alone if no path is a key |
| `SourceInfo.RewriteAtKey` | myproto/include/google/protobuf/descriptor.cc:6720-6781 | at the first key: what comes before is kept, the location gets its new path, exactly the run of locations under the old path is dropped, and the rest is rewritten in the same way |
| `SourceInfo.RewriteUntouched` | myproto/include/google/protobuf/descriptor.cc:6752-6758 | locations whose paths are no keys are kept, in order |
| `SourceInfo.SourceCodeInfo.StartsWith` | myproto/include/google/protobuf/descriptor.cc:6722-6734 | the comparison loop decides whether one path is a prefix of the other |
| `Oneofs.MembersExact` | myproto/include/google/protobuf/descriptor.cc:5512-5522 | the specification lists exactly the fields of the oneof, once each, in order |
| `Oneofs.BreaksAreGaps` | myproto/include/google/protobuf/descriptor.cc:5467-5491 | the consecutive-definition check reports an error exactly when some oneof has a gap |
| `Oneofs.SyntheticIff` | myproto/include/google/protobuf/descriptor.h:2240-2242 | in terms of the fields: a oneof is synthetic exactly if it has one field only and that is optional |
| `Oneofs.StrayIff` | myproto/include/google/protobuf/descriptor.cc:5525-5535 | an optional field is an error exactly if it has no oneof or shares it |
| `Oneofs.CrossLink` | myproto/include/google/protobuf/descriptor.cc:5465-5558 | the arrays allocated are filled exactly, with each oneof's fields in order and index_in_oneof as the inverse; each error is reported exactly when its rule is broken; without one the real oneofs are the first real_oneof_decl_count |
| `Oneofs.FillPass` | myproto/include/google/protobuf/descriptor.cc:5512-5522 | every element written lies inside its array, and the arrays end up full |
| `Oneofs.CountPass` | myproto/include/google/protobuf/descriptor.cc:5467-5491 | the counts are the numbers of fields of each oneof |
| `Oneofs.RealOneofs` | myproto/include/google/protobuf/descriptor.cc:5537-5558 | real_oneof_decl_count is the number of oneofs before the first synthetic one, and right exactly when no synthetic oneof precedes a real one |
| `Framing.LengthRoundTrip` | Source/ThirdPersonMP/System/Subsystem/MgrMessage.cpp:85-85 | a length written as four bytes, the least significant first, is read back |
| `Framing.Decoder.OnReceived` | Source/ThirdPersonMP/System/Subsystem/MgrMessage.cpp:80-98 | the loop over the buffer appends the frames of the buffer to the queue and leaves its residual |
| `Framing.ChunkingIndependent` | Source/ThirdPersonMP/System/Subsystem/MgrMessage.cpp:80-98 | for any bytes and any split into chunks, messages, residual and fault are those of decoding all at once |
| `Framing.DecodeAppend` | Source/ThirdPersonMP/System/Subsystem/MgrMessage.cpp:80-98 | the same for two pieces: the residual carries everything that is needed |
| `Framing.DecodeCharacterized` | Source/ThirdPersonMP/System/Subsystem/MgrMessage.cpp:80-98 | without an algorithm: messages and residual are the outcome exactly when the bytes are those frames followed by a residual without a complete one |
| `Framing.FaultCharacterized` | Source/ThirdPersonMP/System/Subsystem/MgrMessage.cpp:83-92 | the decoder asks for an array of negative size exactly when, behind the complete frames of some payloads, a header announces 2^32 - 4 bytes or more and anything follows it |
| `Framing.FiveBytesFault` | Source/ThirdPersonMP/System/Subsystem/MgrMessage.cpp:83-92 | five bytes for which it does |
| `Framing.RoundTrip` | Source/ThirdPersonMP/System/Subsystem/MgrMessage.cpp:124-138 | payloads encoded and decoded come back identical, in order, with an empty residual, if and only if the last is not empty |
| `Framing.RoundTripTrailingEmpty` | Source/ThirdPersonMP/System/Subsystem/MgrMessage.cpp:83-89 | a last payload that is empty stays in the residual as its header |
| `Framing.RoundTripChunked` | Source/ThirdPersonMP/System/Subsystem/MgrMessage.cpp:80-98 | the round trip for any chunking of the stream |
| `Framing.PrefixDelivery` | Source/ThirdPersonMP/System/Subsystem/MgrMessage.cpp:80-98 | from any prefix of an encoded stream a prefix of the payloads is delivered, without a fault |
| `TcpSocketRunnable.Shared.Interfere` | Source/ThirdPersonMP/Network/TcpSocket.cpp:84-92 | enqueueing and taking messages at any moment keeps the conservation laws |
| `TcpSocketRunnable.Shared.WireIsPrefix` | Source/ThirdPersonMP/Network/TcpSocketRunnable.cpp:68-93 | the bytes on the wire are a prefix of everything enqueued |
| `TcpSocketRunnable.Runnable.SendFront` | Source/ThirdPersonMP/Network/TcpSocketRunnable.cpp:74-92 | for any partial counts and failures: sent plus unsent is the buffer, and after success exactly it has gone out; undisturbed it takes no more steps than bytes |
| `TcpSocketRunnable.Runnable.SendQueued` | Source/ThirdPersonMP/Network/TcpSocketRunnable.cpp:68-93 | the queue is sent in order, nothing lost or repeated; when it is done everything enqueued so far is on the wire, and undisturbed it gets done |
| `TcpSocketRunnable.Runnable.Receive` | Source/ThirdPersonMP/Network/TcpSocketRunnable.cpp:100-129 | the decoder runs only on the residual followed by bytes really received, and only when all pending bytes arrived; undisturbed they all arrive and are decoded |
| `TcpSocketRunnable.Runnable.ReadPending` | Source/ThirdPersonMP/Network/TcpSocketRunnable.cpp:112-123 | the room is filled with exactly the bytes that arrive, in order, in any pieces |
| `TcpSocketRunnable.Runnable.NewDataReceived` | Source/ThirdPersonMP/Network/TcpSocketRunnable.cpp:125-128 | what has been delivered is the decoding in one piece of what has been received |
| `TcpSocketRunnable.Runnable.Round` | Source/ThirdPersonMP/Network/TcpSocketRunnable.cpp:68-134 | a completed round has put everything enqueued before it on the wire, and received and decoded exactly as many bytes as were pending; undisturbed it is completed |
| `TcpSocketRunnable.Runnable.Run` | Source/ThirdPersonMP/Network/TcpSocketRunnable.cpp:62-138 | whatever the environment does, wherever the run ends: wire plus unsent plus queue is what was enqueued; taken plus queued messages are what was decoded. And progress: while the connection is up and every operation moves at least one byte, everything enqueued is on the wire after at most two steps more than its bytes and buffers take, and the bytes pending then are received and decoded |
| `TcpSocketRunnable.AllArrive` | Source/ThirdPersonMP/Network/TcpSocketRunnable.cpp:112-123 | as many bytes arrive as were pending, however they are split |
| `TcpSocketRunnable.EndToEnd` | Source/ThirdPersonMP/Network/TcpSocketRunnable.cpp:62-138 | two ends joined: payloads sent arrive as a prefix of themselves |
| `TcpSocket.Socket.Connect` | Source/ThirdPersonMP/Network/TcpSocket.cpp:35-65 | a new connection starts from empty buffers; a second Connect does nothing |
| `TcpSocket.Socket.Send` | Source/ThirdPersonMP/Network/TcpSocket.cpp:84-92 | enqueues on a connection, and is ignored without one |
| `TcpSocket.Socket.Disconnect` | Source/ThirdPersonMP/Network/TcpSocket.cpp:67-82 | stops and forgets the connection, and notifies exactly if there was one |
| `TcpSocket.Socket.Thread` | Source/ThirdPersonMP/Network/TcpSocket.cpp:60-63 | the conservation laws over a whole connection, and the same progress |
| `TcpSocket.CarefulRunsAreSafe` | Source/ThirdPersonMP/Network/TcpSocket.cpp:35-82 | over every run, if the game reconnects only when no task is posted, no message queued, no response delayed and no call of an earlier connection outstanding, no connection is ended or announced on behalf of another, handles its messages, sends its responses or settles its calls |
| `TcpSocket.ConnectIsSafeIff` | Source/ThirdPersonMP/Network/TcpSocket.cpp:35-82 | the condition is exact: in every reachable state without a connection, the past can interfere with the next connection before there is a further one if and only if something is left |
| `TcpSocket.PastInterferes` | Source/ThirdPersonMP/Network/TcpSocket.cpp:42-59 | a run for each: a late disconnect, a late announcement, a left-over message, a delayed response, a call answered after a reconnect |
| `TcpSocket.OnlyTheGameEmptiesTheQueue` | Source/ThirdPersonMP/System/Subsystem/MgrMessage.cpp:115-123 | the game's own disconnect empties the message queue, the one after an error does not; neither drops anything else |
| `TcpSocket.ToldAtMostOnce` | Source/ThirdPersonMP/Network/TcpSocket.cpp:42-48 | over every run, the game is told of each connection at most once, and only if it came up |
| `ServiceRegistry.Registry.RegisterService` | Source/ThirdPersonMP/System/Subsystem/MgrMessage.cpp:179-221 | for every factory: each slot holds the stub if there is one, else the service; every type of these has an entry, and every entry goes from the server the first character of its service's name stands for to the one the third stands for; every entry leads to a method that takes its type if and only if nothing is lost to a stub, so in particular if services and stubs share descriptors |
| `ServiceRegistry.RoutedByName` | Source/ThirdPersonMP/System/Subsystem/MgrMessage.cpp:252-270 | the route of an entry by the letters of the name: C, A and G at the first and the third place |
| `ServiceRegistry.RegisteredByName` | Source/ThirdPersonMP/System/Subsystem/MgrMessage.cpp:217-219 | a slot holds what the factory makes under RPC:: and the name with _Stub, else under RPC:: and the name |
| `ServiceRegistry.Registry.ParseService` | Source/ThirdPersonMP/System/Subsystem/MgrMessage.cpp:186-215 | for any service: its slot is set, its own types lead to it, all other entries stay (by ParsedEntry) |
| `ServiceRegistry.ParsedEntry` | Source/ThirdPersonMP/System/Subsystem/MgrMessage.cpp:186-215 | after a service has been parsed exactly its own types lead to it, each to a method that takes it; all other entries are as before |
| `ServiceRegistry.EntryAfter` | Source/ThirdPersonMP/System/Subsystem/MgrMessage.cpp:184-220 | a type has an entry exactly if some service or stub offers it; the entry belongs to the last service type that does, and to its stub rather than to itself |
| `ServiceRegistry.EntriesRightIff` | Source/ThirdPersonMP/System/Subsystem/MgrMessage.cpp:179-221 | all entries are right if and only if each type of a service that gives way to its stub is also offered by the stub or by a later service type |
| `ServiceRegistry.Registry.GetServiceInfo` | Source/ThirdPersonMP/System/Subsystem/MgrMessage.cpp:230-236 | finds an entry exactly when some method takes the type, and then the right one |
| `ServiceRegistry.UnsharedDescriptorsFail` | Source/ThirdPersonMP/System/Subsystem/MgrMessage.cpp:217-219 | a service with a method and a stub without: registering both leaves an entry that leads nowhere |
| `ServiceRegistry.RegisterUnshared` | Source/ThirdPersonMP/System/Subsystem/MgrMessage.cpp:179-221 | the same, run through the registration |
| `RpcChannel.Channel.Send` | Source/ThirdPersonMP/Network/muduo/RpcChannel.cpp:151-178 | a fresh id, one message, one entry; no entry is ever overwritten; unknown types are ignored |
| `RpcChannel.Channel.Conservation` | Source/ThirdPersonMP/Network/muduo/RpcChannel.cpp:107-178 | over any run, sends are outstanding plus consumed, and all outstanding ids lie in 1..m_id |
| `RpcChannel.Channel.StubHandleResponse` | Source/ThirdPersonMP/Network/muduo/RpcChannel.cpp:107-149 | a response consumes its call and, if its entry leads to a method, makes its one callback, with the call's own request and that method, and then what the callback sends goes out; a fault exactly if the entry leads outside the methods; with right entries it always leads to a method that takes the request; unknown, repeated and empty responses change nothing |
| `RpcChannel.Channel.CompleteCall` | Source/ThirdPersonMP/Network/muduo/RpcChannel.cpp:114-148 | the entry is gone before the callback; no callback exactly if the service, its descriptor or its array of methods is missing or the index lies outside the array, which is a fault; with right entries the service and the right method of a consumed call are always found |
| `RpcChannel.Channel.EveryCallCalledBack` | Source/ThirdPersonMP/Network/muduo/RpcChannel.cpp:107-149 | over any run with right entries, every consumed call had exactly one callback, with a method that takes its request |
| `RpcChannel.Channel.ServiceHandleRequest` | Source/ThirdPersonMP/Network/muduo/RpcChannel.cpp:47-105 | behind what the handler itself sends, at most one message answers a request, none exactly if the method never answers or will later, or at a fault, which is exactly if the service is there and the index outside its methods; it is a response with the request's id that settles the call at the other end exactly if the request was handled and the answer is not empty; a handled one goes back to the sender and its account, else it says what is wrong |
| `RpcChannel.Channel.OnMessage` | Source/ThirdPersonMP/Network/muduo/RpcChannel.cpp:32-45 | of the calls outstanding exactly the one answered is settled; ids, calls, messages and callbacks become exactly what one message leads to: a request its answer behind what its handler sends, a response its callback with what that sends, anything else nothing; with right entries only a request with an index outside the methods is a fault |
| `RpcChannel.Channel.TickMessageQueue` | Source/ThirdPersonMP/System/Subsystem/MgrMessage.cpp:47-59 | over a whole queue, in any order and with any repetitions, up to the first fault: every request has its answer, once and in order; exactly the outstanding calls for which a real response arrived are settled, and the others are untouched; ids, calls, messages and callbacks are those of handling one message after the other; with right entries only a request with an index outside the methods is a fault |
| `RpcChannel.AnswersInOrder` | Source/ThirdPersonMP/Network/muduo/RpcChannel.cpp:47-105 | whatever handlers and callbacks send in between, the responses that go out are exactly the answers to the requests, in order |
| `RpcChannel.CallStays` | Source/ThirdPersonMP/Network/muduo/RpcChannel.cpp:107-149 | an outstanding call is not touched before the first real response to it |
| `RpcChannel.FirstResponseCounts` | Source/ThirdPersonMP/Network/muduo/RpcChannel.cpp:107-149 | that response makes the call's one callback, with its own content, and the call is gone |
| `RpcChannel.Channel.ErrorRepliesSettleNothing` | Source/ThirdPersonMP/Network/muduo/RpcChannel.cpp:52-62 | an error reply does not settle the call it answers |
| `RpcChannel.DelayedResponses.New` | Source/ThirdPersonMP/System/Subsystem/MgrMessage.cpp:272-282 | the id is fresh and carries the request's message id, account and sender |
| `RpcChannel.DelayedResponses.Do` | Source/ThirdPersonMP/System/Subsystem/MgrMessage.cpp:284-298 | answered at most once, with the original message id, account and sender |

## Left out

- DescriptorPool.DescriptorBuilder.LookupSymbolNoPlaceholder: in a pool for which `InternalDontEnforceDependencies` was called, when files are loaded in the middle of the lookup, the deciding scope is only bounded by the pool at the beginning and in the end, because each probe sees the pool of its moment.
- DescriptorPool.DescriptorPool.BuildFile: in a pool for which `InternalDontEnforceDependencies` was called, with a database that looks up symbols, what is stated of a success is necessary but not sufficient, because references may then load files that change what later references find.
- DescriptorPool.DescriptorPool.FindFileByName: that a file is found with all it imports is stated for databases that do not look up symbols; one that does may load conflicting files meanwhile, or ask for a file while it is pending and so mark it as bad.
- DescriptorPool.DependencyCyclesAreRejected: where unknown imports are allowed, or through a weak import that is not enforced, a cycle of names can exist, with a placeholder on it; only the imports that were found are then acyclic (`ImportsAreAcyclic`).
- Counters (lifecycle ids, call ids, sizes) do not wrap around at 2^64.
- C++ memory orderings, address-sanitizer hooks, allocator callbacks and metrics collectors; giving back a null block to a custom deallocator counts as doing nothing.
- Running the cleanups of all threads before a Reset, which is CleanupList once for every serial arena.
- The descriptor pool's underlay, lazy building of dependencies, and mutexes.
- Extensions are only modelled in the tables; registering them during cross-linking is not.
- The aliases under a parent (`symbols_by_parent_`), and the nested lookups by name that use them.
- Options, their interpretation, default values and validation: `otherErrors` says whether they report an error.
- Replacing the type of a weak field by Empty, tracking of unused imports, and the texts of errors.
- Creating sockets, resolving hosts, and splitting the host string.
- Serializing and parsing protobuf messages.
- Gameplay, user interface and editor code, and the code in the repository that is commented out.
