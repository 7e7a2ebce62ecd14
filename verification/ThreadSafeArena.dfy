/** Taking a whole arena down: `Free`, `Reset` and the destructor over the list of all threads'
    serial arenas.

    Only live memory can be read: a block that has been deallocated is no longer in the maps
    below, and neither is the arena object that was placed in it. */
module ThreadSafeArena {
  import opened ArenaLayout

  const NULL: nat := 0

  datatype Mem = Mem(ptr: nat, size: nat)

  datatype Block = Block(next: nat, size: nat)

  /** A SerialArena object; it lies in its arena's first block, behind the header.  `used` is
      what its SpaceUsed returns: the sum of the requests it has served. */
  datatype Serial = Serial(owner: nat, head: nat, next: nat, spaceAllocated: nat, used: nat)

  type Heap = map<nat, Block>

  type Serials = map<nat, Serial>

  // ---------------------------------------------------------------- the shape of the memory

  /** From `b` the `next` fields lead through exactly the blocks `mems`, newest first. */
  predicate Chain(heap: Heap, b: nat, mems: seq<Mem>)
    decreases |mems|
  {
    if mems == [] then b == NULL
    else
      && b != NULL && b == mems[0].ptr && b in heap && heap[b].size == mems[0].size
      && Chain(heap, heap[b].next, mems[1..])
  }

  function TotalSize(mems: seq<Mem>): nat {
    if mems == [] then 0 else mems[0].size + TotalSize(mems[1..])
  }

  /** From `a` the `next_` fields lead through exactly the arenas given by their blocks. */
  predicate List(heap: Heap, serials: Serials, a: nat, arenas: seq<seq<Mem>>)
    decreases |arenas|
  {
    if arenas == [] then a == NULL
    else
      && a != NULL && a in serials && arenas[0] != []
      && a == arenas[0][|arenas[0]| - 1].ptr + BLOCK_HEADER_SIZE
      && Chain(heap, serials[a].head, arenas[0])
      && serials[a].spaceAllocated == TotalSize(arenas[0])
      && List(heap, serials, serials[a].next, arenas[1..])
  }

  function All(arenas: seq<seq<Mem>>): seq<Mem> {
    if arenas == [] then [] else arenas[0] + All(arenas[1..])
  }

  predicate NoDuplicates(mems: seq<Mem>) {
    forall i, j | 0 <= i < j < |mems| :: mems[i].ptr != mems[j].ptr
  }

  predicate Avoids(mems: seq<Mem>, p: nat) {
    forall i | 0 <= i < |mems| :: mems[i].ptr != p
  }

  // Deallocating a block elsewhere changes neither a chain nor a list.

  lemma {:induction false} ChainFrame(heap: Heap, b: nat, mems: seq<Mem>, p: nat)
    requires Chain(heap, b, mems) && Avoids(mems, p)
    ensures Chain(heap - {p}, b, mems)
    decreases |mems|
  {
    if mems != [] {
      assert forall i | 0 <= i < |mems[1..]| :: mems[1..][i] == mems[i + 1];
      ChainFrame(heap, heap[b].next, mems[1..], p);
    }
  }

  lemma {:induction false} ListFrame(heap: Heap, serials: Serials, a: nat, arenas: seq<seq<Mem>>, p: nat)
    requires List(heap, serials, a, arenas) && Avoids(All(arenas), p)
    ensures List(heap - {p}, serials - {p + BLOCK_HEADER_SIZE}, a, arenas)
    decreases |arenas|
  {
    if arenas != [] {
      var all := All(arenas);
      assert forall i | 0 <= i < |arenas[0]| :: all[i] == arenas[0][i];
      assert forall i | 0 <= i < |All(arenas[1..])| :: all[|arenas[0]| + i] == All(arenas[1..])[i];
      ChainFrame(heap, serials[a].head, arenas[0], p);
      ListFrame(heap, serials, serials[a].next, arenas[1..], p);
    }
  }

  lemma {:induction false} TotalSizeAppend(a: seq<Mem>, b: seq<Mem>)
    ensures TotalSize(a + b) == TotalSize(a) + TotalSize(b)
  {
    if a == [] {
      assert a + b == b;
    } else {
      assert (a + b)[1..] == a[1..] + b;
      TotalSizeAppend(a[1..], b);
    }
  }

  lemma AllOne(blocks: seq<Mem>)
    ensures All([blocks]) == blocks
  {
    assert All([blocks]) == blocks + All([]);
  }

  lemma AllCons(blocks: seq<Mem>, after: seq<seq<Mem>>)
    ensures All([blocks] + after) == blocks + All(after)
  {
    assert ([blocks] + after)[1..] == after;
  }

  lemma AllSnoc(seen: seq<seq<Mem>>, blocks: seq<Mem>)
    ensures All(seen + [blocks]) == All(seen) + blocks
  {
    AllAppend(seen, [blocks]);
    AllOne(blocks);
  }

  lemma Totals(out: seq<Mem>, m: Mem)
    ensures out == [] ==> TotalSize(out) == 0
    ensures out == [m] ==> TotalSize(out) == m.size
    ensures All([]) == []
  {
    TotalSizeOne(m);
  }

  /** What one step of the traversal adds to the blocks given back, and to their total size. */
  lemma StepAdds(start: seq<Mem>, freed: seq<Mem>, out: seq<Mem>, seen: seq<seq<Mem>>, blocks: seq<Mem>, m: Mem)
    requires freed + out == start + All(seen) && Ends(blocks, m)
    ensures freed + out + blocks[..|blocks| - 1] + [m] == start + All(seen + [blocks])
    ensures TotalSize(All(seen + [blocks])) == TotalSize(All(seen)) + TotalSize(blocks[..|blocks| - 1]) + m.size
  {
    hide All, TotalSize;
    var front := blocks[..|blocks| - 1];
    AllSnoc(seen, blocks);
    assert blocks == front + [m];
    TotalSizeAppend(All(seen), blocks);
    TotalSizeAppend(front, [m]);
    TotalSizeOne(m);
    assert start + (All(seen) + blocks) == (start + All(seen)) + front + [m];
  }

  predicate Ends(blocks: seq<Mem>, m: Mem) {
    blocks != [] && blocks[|blocks| - 1] == m
  }

  lemma EmptyShape(heap: Heap, serials: Serials)
    ensures List(heap, serials, NULL, []) && NoDuplicates(All([]))
  {
  }

  lemma ListEmptyIff(heap: Heap, serials: Serials, a: nat, arenas: seq<seq<Mem>>)
    requires List(heap, serials, a, arenas)
    ensures a == NULL <==> arenas == []
  {
  }

  /** The first arena of a list and the rest of it. */
  lemma ListFirst(heap: Heap, serials: Serials, a: nat, blocks: seq<Mem>, after: seq<seq<Mem>>)
    requires List(heap, serials, a, [blocks] + after)
    ensures a != NULL && a in serials && blocks != []
    ensures a == blocks[|blocks| - 1].ptr + BLOCK_HEADER_SIZE
    ensures Chain(heap, serials[a].head, blocks)
    ensures List(heap, serials, serials[a].next, after)
  {
    assert ([blocks] + after)[1..] == after;
  }

  lemma NoDuplicatesSuffix(a: seq<Mem>, b: seq<Mem>)
    requires NoDuplicates(a + b)
    ensures NoDuplicates(b)
  {
    assert forall i | 0 <= i < |b| :: (a + b)[|a| + i] == b[i];
  }

  lemma TotalSizeOne(m: Mem)
    ensures TotalSize([m]) == m.size
  {
    assert [m][1..] == [];
  }

  /** Splitting a duplicate-free sequence in the middle. */
  lemma AvoidsRest(done: seq<Mem>, m: Mem, rest: seq<Mem>)
    requires NoDuplicates(done + [m] + rest)
    ensures Avoids(rest, m.ptr)
  {
    var all := done + [m] + rest;
    assert all[|done|] == m;
    assert forall i | 0 <= i < |rest| :: all[|done| + 1 + i] == rest[i];
  }

  /** AllocationPolicy::IsDefault, which compares both sizes with the default maximum. */
  predicate IsDefault(policy: Policy, plain: bool) {
    policy.startBlockSize == DEFAULT_POLICY.maxBlockSize && policy.maxBlockSize == DEFAULT_POLICY.maxBlockSize && plain
  }

  class Arena {
    var heap: Heap
    var serials: Serials
    var threads: nat
    var userOwned: bool
    // The block that holds the stored allocation policy, or NULL; and that policy.
    var policyBlock: nat
    var policy: Policy

    // The blocks of each serial arena, newest first, in the order of the list.
    ghost var arenas: seq<seq<Mem>>
    // All blocks given back to the deallocator, in order.
    ghost var freed: seq<Mem>
    // The sum of all requests made since the last Init, of all threads.
    ghost var requested: nat

    ghost predicate Shape()
      reads this
    {
      && List(heap, serials, threads, arenas)
      && NoDuplicates(All(arenas))
    }

    /** The first block of the arena at the end of the list. */
    ghost function InitialBlock(): Mem
      requires arenas != [] && arenas[|arenas| - 1] != []
      reads this
    {
      var tail := arenas[|arenas| - 1];
      tail[|tail| - 1]
    }

    /** The two kinds of constructor. */
    constructor From(mem: Mem, owner: nat)
      ensures Valid() && policyBlock == NULL && freed == []
      ensures userOwned == (mem.ptr != NULL && mem.size >= BLOCK_HEADER_SIZE + SERIAL_ARENA_SIZE)
      ensures arenas == if userOwned then [[mem]] else []
    {
      heap, serials, threads := map[], map[], NULL;
      userOwned, policyBlock, policy := false, NULL, DEFAULT_POLICY;
      arenas, freed, requested := [], [], 0;
      new;
      InitializeFrom(mem, owner);
    }

    constructor WithPolicy(mem: Mem, policy: Policy, owner: nat, base: nat)
      requires base != NULL
      ensures Valid() && policyBlock != NULL && this.policy == policy && freed == []
      ensures userOwned == (mem.ptr != NULL && mem.size >= BLOCK_HEADER_SIZE + SERIAL_ARENA_SIZE + POLICY_SIZE)
      ensures arenas == if userOwned then [[mem]]
                        else [[Mem(base, BlockSize(policy, 0, BLOCK_HEADER_SIZE + SERIAL_ARENA_SIZE + POLICY_SIZE))]]
      ensures !userOwned && policy.startBlockSize >= 144 ==> arenas == [[Mem(base, policy.startBlockSize)]]
    {
      heap, serials, threads := map[], map[], NULL;
      userOwned, policyBlock, this.policy := false, NULL, policy;
      arenas, freed, requested := [], [], 0;
      new;
      InitializeWithPolicy(mem, policy, owner, base);
    }

    /** The constructor that chooses between them.  `plain` says that the policy has neither an
        allocator nor a collector of its own. */
    constructor WithOptions(mem: Mem, policy: Policy, plain: bool, owner: nat, base: nat)
      requires base != NULL
      ensures Valid() && freed == []
      // The policy is stored, unless it is the one that is taken for the default.
      ensures policyBlock == NULL <==> plain && policy == Policy(8192, 8192)
      ensures policyBlock != NULL ==> this.policy == policy
      ensures userOwned == (mem.ptr != NULL && mem.size >= BLOCK_HEADER_SIZE + SERIAL_ARENA_SIZE +
                                                           if policyBlock != NULL then POLICY_SIZE else 0)
      ensures userOwned ==> arenas == [[mem]]
      ensures !userOwned && policyBlock == NULL ==> arenas == []
      ensures !userOwned && policyBlock != NULL ==>
                arenas == [[Mem(base, BlockSize(policy, 0, BLOCK_HEADER_SIZE + SERIAL_ARENA_SIZE + POLICY_SIZE))]]
    {
      heap, serials, threads := map[], map[], NULL;
      userOwned, policyBlock, this.policy := false, NULL, DEFAULT_POLICY;
      arenas, freed, requested := [], [], 0;
      new;
      if IsDefault(policy, plain) {
        InitializeFrom(mem, owner);
      } else {
        InitializeWithPolicy(mem, policy, owner, base);
      }
    }

    /** A thread's first allocation puts a new serial arena in front of the list. */
    method AddSerial(owner: nat, base: nat) returns (mem: Mem)
      requires Valid() && base != NULL && Avoids(All(arenas), base)
      requires base + BLOCK_HEADER_SIZE !in serials
      modifies this`heap, this`serials, this`threads, this`arenas
      ensures Valid()
      ensures mem == Mem(base, BlockSize(if policyBlock != NULL then policy else DEFAULT_POLICY, 0, SERIAL_ARENA_SIZE))
      // Of 256 bytes, unless a policy says something else.
      ensures policyBlock == NULL ==> mem.size == 256
      ensures policyBlock != NULL && policy.startBlockSize >= 80 ==> mem.size == policy.startBlockSize
      ensures arenas == [[mem]] + old(arenas)
    {
      mem := Mem(base, BlockSize(if policyBlock != NULL then policy else DEFAULT_POLICY, 0, SERIAL_ARENA_SIZE));
      var a := base + BLOCK_HEADER_SIZE;
      var heap' := heap[base := Block(NULL, mem.size)];
      var serials' := serials[a := Serial(owner, base, threads, mem.size, 0)];
      ListGains(heap, serials, threads, arenas, base, heap'[base], a, serials'[a]);
      UsedElsewhere(heap, serials, threads, arenas, a, serials'[a]);
      TotalSizeOne(mem);
      assert [mem][1..] == [];
      assert ([[mem]] + arenas)[1..] == arenas;
      AllCons([mem], arenas);
      heap, serials, threads := heap', serials', a;
      arenas := [[mem]] + arenas;
    }

    /** AllocateNewBlock puts a new block in front of the chain of arena number `i`. */
    method AddBlock(a: nat, ghost i: nat, mem: Mem)
      requires Valid() && mem.ptr != NULL && Avoids(All(arenas), mem.ptr)
      requires i < |arenas| && NthSerial(heap, serials, threads, arenas, i, a)
      modifies this`heap, this`serials, this`arenas
      ensures Valid()
      ensures arenas == old(arenas)[i := [mem] + old(arenas)[i]]
    {
      AllInsert(arenas, i, mem);
      ListInsert(heap, serials, threads, arenas, i, a, mem);
      UsedAt(heap, serials, threads, arenas, i, a,
             serials[a].(head := mem.ptr, spaceAllocated := serials[a].spaceAllocated + mem.size));
      heap := heap[mem.ptr := Block(serials[a].head, mem.size)];
      serials := serials[a := serials[a].(head := mem.ptr, spaceAllocated := serials[a].spaceAllocated + mem.size)];
      arenas := arenas[i := [mem] + arenas[i]];
    }

    /** A request of `n` bytes served by arena number `i`. */
    method Use(a: nat, ghost i: nat, n: nat)
      requires Valid()
      requires i < |arenas| && NthSerial(heap, serials, threads, arenas, i, a)
      modifies this`serials, this`requested
      ensures Valid()
      ensures requested == old(requested) + n
    {
      NthIsSerial(heap, serials, threads, arenas, i, a);
      var serial := serials[a].(used := serials[a].used + n);
      UsedAt(heap, serials, threads, arenas, i, a, serial);
      ListIgnoresUse(heap, serials, threads, arenas, a, serial);
      serials := serials[a := serial];
      requested := requested + n;
    }

    /** SpaceUsed: exactly the sum of the requests; the stored policy, which was put into the
        first block as if it had been requested, is subtracted. */
    method SpaceUsed() returns (used: nat)
      requires Valid()
      ensures used == requested
    {
      var total := 0;
      var serial := threads;
      ghost var rest := arenas;
      while serial != NULL
        invariant List(heap, serials, serial, rest)
        invariant total + Used(serials, serial, |rest|) == Used(serials, threads, |arenas|)
        decreases |rest|
      {
        total := total + serials[serial].used;
        rest := rest[1..];
        serial := serials[serial].next;
      }
      used := total - if policyBlock != NULL then POLICY_SIZE else 0;
    }

    /** A policy, or a caller's block, lives at the end of the list and is large enough. */
    ghost predicate Valid()
      reads this
    {
      && Shape()
      && (userOwned || policyBlock != NULL ==>
            && arenas != [] && arenas[|arenas| - 1] != []
            && (policyBlock != NULL ==> policyBlock == InitialBlock().ptr)
            && (userOwned ==> InitialBlock().size >= MinimumSize()))
      && Accounted()
    }

    /** What the serial arenas have served is what was requested, and the stored policy. */
    ghost predicate Accounted()
      reads this
    {
      Used(serials, threads, |arenas|) == requested + if policyBlock != NULL then POLICY_SIZE else 0
    }

    ghost function MinimumSize(): nat
      reads this
    {
      BLOCK_HEADER_SIZE + SERIAL_ARENA_SIZE + if policyBlock != NULL then POLICY_SIZE else 0
    }

    /** The deallocator: the block and the arena object in it, if any, are gone. */
    method Deallocate(mem: Mem)
      requires mem.ptr in heap
      modifies this`heap, this`serials, this`freed
      ensures heap == old(heap) - {mem.ptr}
      ensures serials == old(serials) - {mem.ptr + BLOCK_HEADER_SIZE}
      ensures freed == old(freed) + [mem]
    {
      heap := heap - {mem.ptr};
      serials := serials - {mem.ptr + BLOCK_HEADER_SIZE};
      freed := freed + [mem];
    }

    /** SerialArena::Free: all blocks of one arena but its first are deallocated, newest first;
        the first, which holds the arena object, is returned. */
    method FreeSerial(a: nat, ghost blocks: seq<Mem>, ghost rest: seq<seq<Mem>>)
      returns (mem: Mem, size: nat)
      requires blocks != [] && NoDuplicates(blocks + All(rest))
      requires a in serials && Chain(heap, serials[a].head, blocks)
      requires a == blocks[|blocks| - 1].ptr + BLOCK_HEADER_SIZE
      requires List(heap, serials, serials[a].next, rest)
      modifies this`heap, this`serials, this`freed
      ensures mem == blocks[|blocks| - 1]
      ensures freed == old(freed) + blocks[..|blocks| - 1]
      ensures size == TotalSize(blocks[..|blocks| - 1])
      ensures a in serials && serials[a] == old(serials[a])
      ensures mem.ptr in heap
      ensures List(heap, serials, serials[a].next, rest)
    {
      assert TotalSize([]) == 0;
      hide All, NoDuplicates, List, TotalSize, Chain;
      ghost var left, gone: seq<Mem> := blocks, [];
      assert gone + left == blocks;
      ghost var next := serials[a].next;
      var b := serials[a].head;
      ChainHead(heap, b, blocks);
      size := 0;
      mem := Mem(b, heap[b].size);
      while heap[b].next != NULL
        invariant left != [] && blocks == gone + left
        invariant b != NULL && b in heap && (heap[b].next == NULL ==> left[1..] == [])
        invariant mem == Mem(b, heap[b].size) == left[0]
        invariant Chain(heap, b, left)
        invariant NoDuplicates(gone + left + All(rest))
        invariant a == left[|left| - 1].ptr + BLOCK_HEADER_SIZE
        invariant a in serials && serials[a] == old(serials[a])
        invariant List(heap, serials, next, rest)
        invariant freed == old(freed) + gone
        invariant size == TotalSize(gone)
        decreases |left|
      {
        var c := heap[b].next;
        FreeOne(heap, serials, b, gone, left, next, rest);
        ChainHead(heap - {b}, c, left[1..]);
        Deallocate(mem);
        size := size + mem.size;
        TotalSizeAppend(gone, [mem]);
        TotalSizeOne(mem);
        assert gone + left == (gone + [mem]) + left[1..];
        gone, left := gone + [mem], left[1..];
        b := c;
        mem := Mem(b, heap[b].size);
      }
      assert blocks == gone + [mem];
    }

    /** ThreadSafeArena::Free: one serial arena after the other.  The block an arena object
        lies in is kept until the list has moved past it. */
    method Free() returns (mem: Mem, size: nat)
      requires Shape()
      modifies this`heap, this`serials, this`freed
      ensures arenas == [] ==> mem == Mem(NULL, 0) && freed == old(freed) && size == 0
      ensures arenas != [] ==>
                && arenas[|arenas| - 1] != [] && mem == InitialBlock()
                && mem.ptr in heap
                && freed + [mem] == old(freed) + All(arenas)
                && size + mem.size == TotalSize(All(arenas))
    {
      hide List, All, NoDuplicates, Chain, TotalSize;
      mem, size := Mem(NULL, 0), 0;
      var serial := threads;
      ghost var rest, seen := arenas, [];
      ghost var out: seq<Mem> := [];
      Totals(out, mem);
      assert out + All(rest) == All(rest);
      while serial != NULL
        invariant arenas == seen + rest
        invariant List(heap, serials, serial, rest)
        invariant out == if mem.ptr == NULL then [] else [mem]
        invariant seen == [] <==> mem.ptr == NULL
        invariant seen == [] ==> mem == Mem(NULL, 0) && freed == old(freed) && size == 0
        invariant mem.ptr != NULL ==> mem.ptr in heap
        invariant seen != [] ==> Ends(seen[|seen| - 1], mem)
        invariant freed + out == old(freed) + All(seen)
        invariant size + TotalSize(out) == TotalSize(All(seen))
        invariant NoDuplicates(out + All(rest))
        decreases |rest|
      {
        ListEmptyIff(heap, serials, serial, rest);
        ghost var blocks, after := rest[0], rest[1..];
        assert rest == [blocks] + after;
        ghost var before := freed;
        var m, n := Step(serial, mem, out, blocks, after);
        StepAdds(old(freed), before, out, seen, blocks, m);
        Totals([m], m);
        assert arenas == (seen + [blocks]) + after;
        seen, rest, out := seen + [blocks], after, [m];
        mem, size := m, size + n;
        serial := serials[serial].next;
      }
      ListEmptyIff(heap, serials, serial, rest);
      assert arenas == seen;
      Totals(out, mem);
    }

    /** The body of the traversal: give back the block kept from the arena before, then free
        this one. */
    method Step(serial: nat, mem: Mem, ghost out: seq<Mem>, ghost blocks: seq<Mem>, ghost after: seq<seq<Mem>>)
      returns (m: Mem, size: nat)
      requires serial != NULL && List(heap, serials, serial, [blocks] + after)
      requires out == if mem.ptr == NULL then [] else [mem]
      requires mem.ptr != NULL ==> mem.ptr in heap
      requires NoDuplicates(out + All([blocks] + after))
      modifies this`heap, this`serials, this`freed
      ensures blocks != [] && m == blocks[|blocks| - 1] && m.ptr != NULL && m.ptr in heap
      ensures freed == old(freed) + out + blocks[..|blocks| - 1]
      ensures size == TotalSize(out) + TotalSize(blocks[..|blocks| - 1])
      ensures serial in serials && List(heap, serials, serials[serial].next, after)
      ensures NoDuplicates([m] + All(after))
    {
      hide List, All, NoDuplicates, Avoids, Chain;
      ghost var all := All([blocks] + after);
      AllCons(blocks, after);
      size := 0;
      TotalSizeOne(mem);
      if mem.ptr != NULL {
        assert out + all == [] + [mem] + all;
        AvoidsRest([], mem, all);
        ListFrame(heap, serials, serial, [blocks] + after, mem.ptr);
        Deallocate(mem);
        size := mem.size;
      }
      NoDuplicatesSuffix(out, all);
      ListFirst(heap, serials, serial, blocks, after);
      ChainIsLive(heap, serials[serial].head, blocks);
      var n;
      m, n := FreeSerial(serial, blocks, after);
      size := size + n;
      assert all == blocks[..|blocks| - 1] + ([m] + All(after));
      NoDuplicatesSuffix(blocks[..|blocks| - 1], [m] + All(after));
    }

    /** SpaceAllocated: the sizes of all blocks of all threads. */
    method SpaceAllocated() returns (size: nat)
      requires Shape()
      ensures size == TotalSize(All(arenas))
    {
      size := 0;
      var serial := threads;
      ghost var rest, seen := arenas, [];
      while serial != NULL
        invariant arenas == seen + rest
        invariant List(heap, serials, serial, rest)
        invariant size == TotalSize(All(seen))
        decreases |rest|
      {
        size := size + serials[serial].spaceAllocated;
        AllSnoc(seen, rest[0]);
        TotalSizeAppend(All(seen), rest[0]);
        seen, rest := seen + [rest[0]], rest[1..];
        serial := serials[serial].next;
      }
      assert arenas == seen;
    }

    /** The stored policy is read through a pointer into the block it was placed in. */
    method ReadPolicy() returns (p: Policy)
      requires policyBlock in heap
      ensures p == policy
    {
      p := policy;
    }

    /** What is left to do with the block Free returned: a caller's block is not given back. */
    method ReleaseInitial(mem: Mem)
      requires !userOwned && (mem.ptr != NULL ==> mem.ptr in heap)
      modifies this`heap, this`serials, this`freed
      ensures freed == if mem.ptr == NULL then old(freed) else old(freed) + [mem]
    {
      if mem.ptr != NULL {
        Deallocate(mem);
      }
    }

    /** The destructor, after the cleanups: every block is deallocated exactly once, except a
        block of the caller's, which never is. */
    method Destroy() returns (size: nat)
      requires Valid()
      modifies this`heap, this`serials, this`freed
      ensures size == TotalSize(All(arenas))
      ensures !userOwned ==> freed == old(freed) + All(arenas)
      ensures userOwned ==> freed + [InitialBlock()] == old(freed) + All(arenas)
    {
      hide List, All, NoDuplicates, Chain, TotalSize;
      InitialIsLive(heap, serials, threads, arenas);
      Totals([], Mem(NULL, 0));
      var mem;
      mem, size := Free();
      size := size + mem.size;
      if !userOwned {
        if policyBlock != NULL {
          var _ := ReadPolicy();
        }
        ReleaseInitial(mem);
      }
    }

    /** Reset: the space held before is returned and given back, all but a caller's block; the
        arena starts again on that block, on a new one, or on none.  `base` is what the system
        allocator returns for a new one. */
    method Reset(owner: nat, base: nat) returns (size: nat)
      requires Valid() && base != NULL
      modifies this
      ensures Valid()
      ensures size == TotalSize(old(All(arenas)))
      ensures userOwned == old(userOwned)
      ensures policy == old(policy) && (policyBlock == NULL <==> old(policyBlock) == NULL)
      ensures userOwned ==>
                && freed + [old(InitialBlock())] == old(freed + All(arenas))
                && arenas == [[old(InitialBlock())]]
      ensures !userOwned ==>
                && freed == old(freed + All(arenas))
                && arenas == if policyBlock == NULL then []
                             else [[Mem(base, BlockSize(policy, 0, BLOCK_HEADER_SIZE + SERIAL_ARENA_SIZE + POLICY_SIZE))]]
    {
      hide List, All, NoDuplicates, Chain, TotalSize;
      InitialIsLive(heap, serials, threads, arenas);
      Totals([], Mem(NULL, 0));
      var mem;
      mem, size := Free();
      size := size + mem.size;
      if policyBlock != NULL {
        var saved := ReadPolicy();
        if !userOwned {
          ReleaseInitial(mem);
          mem := Mem(NULL, 0);
        }
        InitializeWithPolicy(mem, saved, owner, base);
      } else if userOwned {
        InitializeFrom(mem, owner);
      } else {
        ReleaseInitial(mem);
        Init();
        EmptyShape(heap, serials);
      }
    }

    method Init()
      modifies this`threads, this`arenas, this`requested
      ensures threads == NULL && arenas == [] && requested == 0
    {
      threads := NULL;
      arenas, requested := [], 0;
    }

    /** InitializeFrom: a caller's block that is too small is ignored. */
    method InitializeFrom(mem: Mem, owner: nat)
      requires policyBlock == NULL
      requires mem.ptr == NULL ==> !userOwned
      requires mem.ptr != NULL && userOwned ==> mem.size >= BLOCK_HEADER_SIZE + SERIAL_ARENA_SIZE
      modifies this
      ensures Valid() && policyBlock == NULL && policy == old(policy) && freed == old(freed)
      ensures userOwned == (mem.ptr != NULL && mem.size >= BLOCK_HEADER_SIZE + SERIAL_ARENA_SIZE)
      ensures arenas == if userOwned then [[mem]] else []
    {
      Init();
      if mem.ptr != NULL && mem.size >= BLOCK_HEADER_SIZE + SERIAL_ARENA_SIZE {
        userOwned := true;
        SetInitialBlock(mem, owner);
      } else {
        userOwned := false;
      }
    }

    /** InitializeWithPolicy: the policy is stored in the first block, for which the caller's is
        used only if it has room for it. */
    method InitializeWithPolicy(given: Mem, saved: Policy, owner: nat, base: nat)
      requires base != NULL
      modifies this
      ensures Valid() && policyBlock != NULL && policy == saved && freed == old(freed)
      ensures userOwned == (given.ptr != NULL && given.size >= BLOCK_HEADER_SIZE + SERIAL_ARENA_SIZE + POLICY_SIZE)
      ensures arenas == if userOwned then [[given]]
                        else [[Mem(base, BlockSize(saved, 0, BLOCK_HEADER_SIZE + SERIAL_ARENA_SIZE + POLICY_SIZE))]]
    {
      Init();
      var minimum := BLOCK_HEADER_SIZE + SERIAL_ARENA_SIZE + POLICY_SIZE;
      var mem := given;
      userOwned := given.ptr != NULL && given.size >= minimum;
      if !userOwned {
        mem := Mem(base, BlockSize(saved, 0, minimum));
      }
      SetInitialBlock(mem, owner);
      // MaybeAllocateAligned, which has room.
      serials := serials[threads := serials[threads].(used := POLICY_SIZE)];
      OneArena(heap, serials, threads, mem);
      policyBlock := mem.ptr;
      policy := saved;
    }

    method SetInitialBlock(mem: Mem, owner: nat)
      requires mem.ptr != NULL
      modifies this`heap, this`serials, this`threads, this`arenas
      ensures Shape() && arenas == [[mem]]
      ensures threads == mem.ptr + BLOCK_HEADER_SIZE && threads in serials
      ensures heap == old(heap)[mem.ptr := Block(NULL, mem.size)]
      ensures serials[threads] == Serial(owner, mem.ptr, NULL, mem.size, 0)
      ensures Used(serials, threads, 1) == 0
    {
      heap := heap[mem.ptr := Block(NULL, mem.size)];
      threads := mem.ptr + BLOCK_HEADER_SIZE;
      serials := serials[threads := Serial(owner, mem.ptr, NULL, mem.size, 0)];
      arenas := [[mem]];
      OneArena(heap, serials, threads, mem);
    }
  }

  lemma {:induction false} ChainIsLive(heap: Heap, b: nat, mems: seq<Mem>)
    requires Chain(heap, b, mems)
    ensures forall i | 0 <= i < |mems| :: mems[i].ptr in heap && mems[i].ptr != NULL
    decreases |mems|
  {
    if mems != [] {
      ChainIsLive(heap, heap[b].next, mems[1..]);
      assert forall i | 0 < i < |mems| :: mems[i] == mems[1..][i - 1];
    }
  }

  lemma {:induction false} InitialIsLive(heap: Heap, serials: Serials, a: nat, arenas: seq<seq<Mem>>)
    requires List(heap, serials, a, arenas)
    ensures arenas != [] ==>
              var tail := arenas[|arenas| - 1];
              tail != [] && tail[|tail| - 1].ptr in heap && tail[|tail| - 1].ptr != NULL
    decreases |arenas|
  {
    if arenas != [] {
      ChainIsLive(heap, serials[a].head, arenas[0]);
      InitialIsLive(heap, serials, serials[a].next, arenas[1..]);
    }
  }

  lemma ChainHead(heap: Heap, b: nat, mems: seq<Mem>)
    requires Chain(heap, b, mems) && mems != []
    ensures b != NULL && b in heap && mems[0] == Mem(b, heap[b].size)
    ensures heap[b].next == NULL ==> mems[1..] == []
  {
  }

  /** Deallocating the newest of the blocks left: the others, the arena object and the rest of
      the list stay as they are. */
  lemma FreeOne(heap: Heap, serials: Serials, b: nat, gone: seq<Mem>, left: seq<Mem>, next: nat, rest: seq<seq<Mem>>)
    requires b != NULL && Chain(heap, b, left) && left != []
    requires heap[b].next != NULL
    requires List(heap, serials, next, rest)
    requires NoDuplicates(gone + left + All(rest))
    ensures left[1..] != []
    ensures Chain(heap - {b}, heap[b].next, left[1..])
    ensures List(heap - {b}, serials - {b + BLOCK_HEADER_SIZE}, next, rest)
    ensures left[|left| - 1].ptr != b
  {
    hide List, All, NoDuplicates, Avoids;
    var more := left[1..];
    assert gone + left + All(rest) == gone + [left[0]] + (more + All(rest));
    AvoidsRest(gone, left[0], more + All(rest));
    AvoidsParts(more, All(rest), b);
    ChainFrame(heap, heap[b].next, more, b);
    ListFrame(heap, serials, next, rest, b);
    assert more[|more| - 1] == left[|left| - 1];
  }

  lemma AvoidsParts(a: seq<Mem>, b: seq<Mem>, p: nat)
    requires Avoids(a + b, p)
    ensures Avoids(a, p) && Avoids(b, p)
  {
    assert forall i | 0 <= i < |a| :: (a + b)[i] == a[i];
    assert forall i | 0 <= i < |b| :: (a + b)[|a| + i] == b[i];
  }

  lemma {:induction false} AllAppend(a: seq<seq<Mem>>, b: seq<seq<Mem>>)
    ensures All(a + b) == All(a) + All(b)
  {
    if a == [] {
      assert a + b == b;
    } else {
      assert (a + b)[1..] == a[1..] + b;
      AllAppend(a[1..], b);
    }
  }

  // ---------------------------------------------------------------- accounting

  /** The sum of what `n` serial arenas from `a` on have served. */
  function Used(serials: Serials, a: nat, n: nat): nat
    decreases n
  {
    if n == 0 || a !in serials then 0 else serials[a].used + Used(serials, serials[a].next, n - 1)
  }

  /** A list of one arena with one block. */
  lemma OneArena(heap: Heap, serials: Serials, a: nat, mem: Mem)
    requires mem.ptr != NULL && a == mem.ptr + BLOCK_HEADER_SIZE && a in serials && mem.ptr in heap
    requires heap[mem.ptr] == Block(NULL, mem.size)
    requires serials[a].head == mem.ptr && serials[a].next == NULL && serials[a].spaceAllocated == mem.size
    ensures List(heap, serials, a, [[mem]])
    ensures All([[mem]]) == [mem] && NoDuplicates([mem])
    ensures Used(serials, a, 1) == serials[a].used
  {
    AllOne([mem]);
    TotalSizeOne(mem);
    assert Chain(heap, mem.ptr, [mem]) by {
      assert [mem][1..] == [];
    }
    assert [[mem]][1..] == [];
  }

  /** An arena object that is not in the list. */
  lemma {:induction false} UsedElsewhere(heap: Heap, serials: Serials, t: nat, arenas: seq<seq<Mem>>, a: nat, serial: Serial)
    requires List(heap, serials, t, arenas)
    requires a >= BLOCK_HEADER_SIZE && Avoids(All(arenas), a - BLOCK_HEADER_SIZE)
    ensures Used(serials[a := serial], t, |arenas|) == Used(serials, t, |arenas|)
    decreases |arenas|
  {
    if arenas != [] {
      AvoidsParts(arenas[0], All(arenas[1..]), a - BLOCK_HEADER_SIZE);
      UsedElsewhere(heap, serials, serials[t].next, arenas[1..], a, serial);
    }
  }

  /** An arena object of the list counts once. */
  lemma {:induction false} UsedAt(heap: Heap, serials: Serials, t: nat, arenas: seq<seq<Mem>>, i: nat, a: nat, serial: Serial)
    requires List(heap, serials, t, arenas) && i < |arenas|
    requires NthSerial(heap, serials, t, arenas, i, a) && NoDuplicates(All(arenas))
    requires a in serials && serial.next == serials[a].next
    ensures Used(serials[a := serial], t, |arenas|) + serials[a].used == Used(serials, t, |arenas|) + serial.used
    decreases i
  {
    NthIsSerial(heap, serials, t, arenas, i, a);
    var b, rest := arenas[0], arenas[1..];
    if i == 0 {
      var k := |b| - 1;
      assert All(arenas) == b[..k] + [b[k]] + All(rest);
      AvoidsRest(b[..k], b[k], All(rest));
      UsedElsewhere(heap, serials, serials[t].next, rest, a, serial);
    } else {
      HeadIsNotLater(heap, serials, t, arenas, i, a);
      NoDuplicatesSuffix(b, All(rest));
      UsedAt(heap, serials, serials[t].next, rest, i - 1, a, serial);
    }
  }

  /** The list does not depend on what was served. */
  lemma {:induction false} ListIgnoresUse(heap: Heap, serials: Serials, t: nat, arenas: seq<seq<Mem>>, a: nat, serial: Serial)
    requires List(heap, serials, t, arenas) && a in serials && serial == serials[a].(used := serial.used)
    ensures List(heap, serials[a := serial], t, arenas)
    decreases |arenas|
  {
    if arenas != [] {
      ListIgnoresUse(heap, serials, serials[t].next, arenas[1..], a, serial);
    }
  }

  // A new block, or a new arena object, elsewhere changes nothing either.

  lemma {:induction false} ChainGains(heap: Heap, b: nat, mems: seq<Mem>, p: nat, block: Block)
    requires Chain(heap, b, mems) && Avoids(mems, p)
    ensures Chain(heap[p := block], b, mems)
    decreases |mems|
  {
    if mems != [] {
      assert forall i | 0 <= i < |mems[1..]| :: mems[1..][i] == mems[i + 1];
      ChainGains(heap, heap[b].next, mems[1..], p, block);
    }
  }

  lemma {:induction false} ListGains(heap: Heap, serials: Serials, a: nat, arenas: seq<seq<Mem>>,
                                     p: nat, block: Block, q: nat, serial: Serial)
    requires List(heap, serials, a, arenas) && Avoids(All(arenas), p) && q == p + BLOCK_HEADER_SIZE
    ensures List(heap[p := block], serials[q := serial], a, arenas)
    decreases |arenas|
  {
    if arenas != [] {
      AvoidsParts(arenas[0], All(arenas[1..]), p);
      ChainGains(heap, serials[a].head, arenas[0], p, block);
      ListGains(heap, serials, serials[a].next, arenas[1..], p, block, q, serial);
    }
  }

  /** `a` is the address of the arena object number `i` of the list. */
  predicate NthSerial(heap: Heap, serials: Serials, threads: nat, arenas: seq<seq<Mem>>, i: nat, a: nat)
    requires List(heap, serials, threads, arenas) && i < |arenas|
    decreases i
  {
    if i == 0 then a == threads
    else NthSerial(heap, serials, serials[threads].next, arenas[1..], i - 1, a)
  }

  lemma {:induction false} NthIsSerial(heap: Heap, serials: Serials, threads: nat, arenas: seq<seq<Mem>>, i: nat, a: nat)
    requires List(heap, serials, threads, arenas) && i < |arenas|
    requires NthSerial(heap, serials, threads, arenas, i, a)
    ensures a in serials && arenas[i] != [] && a == arenas[i][|arenas[i]| - 1].ptr + BLOCK_HEADER_SIZE
    decreases i
  {
    if i > 0 {
      NthIsSerial(heap, serials, serials[threads].next, arenas[1..], i - 1, a);
    }
  }

  lemma {:induction false} AllInsert(arenas: seq<seq<Mem>>, i: nat, mem: Mem)
    requires i < |arenas|
    requires NoDuplicates(All(arenas)) && Avoids(All(arenas), mem.ptr)
    ensures var after := arenas[i := [mem] + arenas[i]];
            && NoDuplicates(All(after))
            && |All(after)| == |All(arenas)| + 1
            && forall x :: x in All(after) <==> x == mem || x in All(arenas)
  {
    var front, back := arenas[..i], arenas[i + 1..];
    var b := arenas[i];
    assert arenas == front + ([b] + back);
    assert arenas[i := [mem] + b] == front + ([[mem] + b] + back);
    AllAppend(front, [b] + back);
    AllAppend(front, [[mem] + b] + back);
    AllCons(b, back);
    AllCons([mem] + b, back);
    var x, y := All(front), b + All(back);
    assert All(arenas) == x + y;
    assert ([mem] + b) + All(back) == [mem] + y;
    Inserted(x, y, mem);
  }

  lemma Inserted(x: seq<Mem>, y: seq<Mem>, mem: Mem)
    requires NoDuplicates(x + y) && Avoids(x + y, mem.ptr)
    ensures NoDuplicates(x + ([mem] + y))
    ensures forall m :: m in x + ([mem] + y) <==> m == mem || m in x + y
  {
    var all := x + ([mem] + y);
    forall i, j | 0 <= i < j < |all| ensures all[i].ptr != all[j].ptr {
      var i', j' := if i < |x| then i else i - 1, if j < |x| then j else j - 1;
      if i != |x| {
        assert all[i] == (x + y)[i'];
      }
      if j != |x| {
        assert all[j] == (x + y)[j'];
      }
    }
  }

  /** Other arenas do not notice that arena object `a` changes. */
  lemma {:induction false} ListGrows(heap: Heap, serials: Serials, t: nat, arenas: seq<seq<Mem>>,
                                     p: nat, block: Block, a: nat, serial: Serial)
    requires List(heap, serials, t, arenas) && Avoids(All(arenas), p)
    requires a >= BLOCK_HEADER_SIZE && Avoids(All(arenas), a - BLOCK_HEADER_SIZE)
    ensures List(heap[p := block], serials[a := serial], t, arenas)
    decreases |arenas|
  {
    if arenas != [] {
      AvoidsParts(arenas[0], All(arenas[1..]), p);
      AvoidsParts(arenas[0], All(arenas[1..]), a - BLOCK_HEADER_SIZE);
      ChainGains(heap, serials[t].head, arenas[0], p, block);
      ListGrows(heap, serials, serials[t].next, arenas[1..], p, block, a, serial);
    }
  }

  lemma {:induction false} ListInsert(heap: Heap, serials: Serials, t: nat, arenas: seq<seq<Mem>>, i: nat, a: nat, mem: Mem)
    requires List(heap, serials, t, arenas) && i < |arenas|
    requires NthSerial(heap, serials, t, arenas, i, a)
    requires NoDuplicates(All(arenas)) && Avoids(All(arenas), mem.ptr) && mem.ptr != NULL
    ensures a in serials
    ensures List(heap[mem.ptr := Block(serials[a].head, mem.size)],
                 serials[a := serials[a].(head := mem.ptr, spaceAllocated := serials[a].spaceAllocated + mem.size)],
                 t, arenas[i := [mem] + arenas[i]])
    decreases i
  {
    NthIsSerial(heap, serials, t, arenas, i, a);
    var block := Block(serials[a].head, mem.size);
    var serial := serials[a].(head := mem.ptr, spaceAllocated := serials[a].spaceAllocated + mem.size);
    var b, rest := arenas[0], arenas[1..];
    AvoidsParts(b, All(rest), mem.ptr);
    var after := arenas[i := [mem] + arenas[i]];
    if i == 0 {
      var k := |b| - 1;
      assert All(arenas) == b[..k] + [b[k]] + All(rest);
      AvoidsRest(b[..k], b[k], All(rest));
      ListGrows(heap, serials, serials[t].next, rest, mem.ptr, block, a, serial);
      ChainGains(heap, serials[a].head, b, mem.ptr, block);
      assert ([mem] + b)[1..] == b;
      assert after[1..] == rest;
    } else {
      NoDuplicatesSuffix(b, All(rest));
      ListInsert(heap, serials, serials[t].next, rest, i - 1, a, mem);
      ChainGains(heap, serials[t].head, b, mem.ptr, block);
      assert after[0] == b && after[1..] == rest[i - 1 := [mem] + rest[i - 1]];
      assert t != a by {
        HeadIsNotLater(heap, serials, t, arenas, i, a);
      }
    }
  }

  /** An arena object occurs once in the list. */
  lemma HeadIsNotLater(heap: Heap, serials: Serials, t: nat, arenas: seq<seq<Mem>>, i: nat, a: nat)
    requires List(heap, serials, t, arenas) && 0 < i < |arenas|
    requires NthSerial(heap, serials, t, arenas, i, a)
    requires NoDuplicates(All(arenas))
    ensures t != a
  {
    NthIsSerial(heap, serials, t, arenas, i, a);
    var b, rest := arenas[0], arenas[1..];
    LastInAll(rest, i - 1);
    var k := |b| - 1;
    assert All(arenas) == b[..k] + [b[k]] + All(rest);
    AvoidsRest(b[..k], b[k], All(rest));
  }

  lemma {:induction false} LastInAll(arenas: seq<seq<Mem>>, i: nat)
    requires i < |arenas| && arenas[i] != []
    ensures arenas[i][|arenas[i]| - 1] in All(arenas)
  {
    if i > 0 {
      LastInAll(arenas[1..], i - 1);
    }
  }

  // ---------------------------------------------------------------- options that are forgotten

  /** A thread's first block has the size its arena's options ask for, unless these say 8192 bytes
      and nothing else: then they are taken for the default ones, whose first block has 256. */
  lemma OptionsAreKeptIff(policy: Policy, plain: bool)
    ensures var used := if IsDefault(policy, plain) then DEFAULT_POLICY else policy;
            && (BlockSize(used, 0, SERIAL_ARENA_SIZE) == BlockSize(policy, 0, SERIAL_ARENA_SIZE) <==>
                !(plain && policy == Policy(8192, 8192)))
            && (plain && policy == Policy(8192, 8192) ==> BlockSize(used, 0, SERIAL_ARENA_SIZE) == 256)
  {
  }
}
