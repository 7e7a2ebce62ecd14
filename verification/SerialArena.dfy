/** One thread's arena: bump allocation from the bottom of a block, cleanup nodes from its top,
    over a chain of blocks linked from the newest to the oldest. */
module SerialArena {
  import opened ArenaLayout

  // A null pointer.
  const NULL: nat := 0

  /** The header at the bottom of a block; `start` is where its cleanup nodes begin, written
      when the block is left. */
  datatype Block = Block(next: nat, size: nat, start: nat)

  datatype Cleanup = Cleanup(elem: nat, func: nat)

  /** A cleanup node that has not been written yet. */
  const UNWRITTEN := Cleanup(NULL, NULL)

  /** Bytes `lo..hi` taken from block number `block` of the chain. */
  datatype Range = Range(block: nat, lo: nat, hi: nat)

  predicate Apart(r: Range, s: Range) {
    r.hi <= s.lo || s.hi <= r.lo
  }

  // ---------------------------------------------------------------- cleanup order

  function Reverse<T>(s: seq<T>): seq<T> {
    if s == [] then [] else Reverse(s[1..]) + [s[0]]
  }

  function Flatten<T>(ss: seq<seq<T>>): seq<T> {
    if ss == [] then [] else Flatten(ss[..|ss| - 1]) + ss[|ss| - 1]
  }

  /** What the cleanup loop runs in one block: the number of nodes is computed by a pointer
      subtraction from the block's end rounded down to 8, so when the nodes do not end at a
      multiple of 8, a lone node counts as none. */
  function RunOfBlock(nodes: seq<Cleanup>, aligned: bool): seq<Cleanup> {
    if |nodes| == 1 && !aligned then [] else Reverse(nodes)
  }

  /** What CleanupList runs: the newest block first. */
  function RunOfBlocks(blocks: seq<seq<Cleanup>>, aligned: seq<bool>): seq<Cleanup>
    requires |aligned| == |blocks|
  {
    if blocks == [] then []
    else
      var k := |blocks| - 1;
      RunOfBlock(blocks[k], aligned[k]) + RunOfBlocks(blocks[..k], aligned[..k])
  }

  /** Which blocks' nodes end at a multiple of 8, from the sizes of all blocks: the first block's
      end is rounded. */
  function AlignedEnds(sizes: seq<nat>): (a: seq<bool>)
    ensures |a| == |sizes|
    ensures forall i | 0 <= i < |a| :: a[i] == (i == 0 || sizes[i] % 8 == 0)
  {
    seq(|sizes|, i requires 0 <= i < |sizes| => i == 0 || sizes[i] % 8 == 0)
  }

  lemma RunStep(blocks: seq<seq<Cleanup>>, aligned: seq<bool>, k: nat)
    requires |aligned| == |blocks| && k < |blocks|
    ensures RunOfBlocks(blocks[..k + 1], aligned[..k + 1]) ==
            RunOfBlock(blocks[k], aligned[k]) + RunOfBlocks(blocks[..k], aligned[..k])
  {
    assert blocks[..k + 1][..k] == blocks[..k] && aligned[..k + 1][..k] == aligned[..k];
  }

  lemma NothingLeft(blocks: seq<seq<Cleanup>>, aligned: seq<bool>)
    requires |aligned| == |blocks| == 0
    ensures RunOfBlocks(blocks, aligned) == []
  {
  }

  /** No block with an unaligned end has exactly one node. */
  predicate NoLoneUnaligned(blocks: seq<seq<Cleanup>>, aligned: seq<bool>)
    requires |aligned| == |blocks|
  {
    forall i | 0 <= i < |blocks| :: aligned[i] || |blocks[i]| != 1
  }

  lemma AlignedHaveNoLone(blocks: seq<seq<Cleanup>>, sizes: seq<nat>)
    requires |sizes| == |blocks|
    ensures AllAligned(sizes) ==> NoLoneUnaligned(blocks, AlignedEnds(sizes))
  {
  }

  lemma {:induction false} ReverseAppend<T>(a: seq<T>, b: seq<T>)
    ensures Reverse(a + b) == Reverse(b) + Reverse(a)
  {
    if a == [] {
      assert a + b == b;
    } else {
      assert (a + b)[1..] == a[1..] + b;
      ReverseAppend(a[1..], b);
    }
  }

  lemma ReverseStep<T>(s: seq<T>, m: nat)
    requires m < |s|
    ensures Reverse(s[m..]) == Reverse(s[m + 1..]) + [s[m]]
  {
    assert s[m..][1..] == s[m + 1..];
  }

  lemma ReverseEmpty<T>(s: seq<T>)
    requires s == []
    ensures Reverse(s) == []
  {
  }

  lemma {:induction false} ReverseLength<T>(s: seq<T>)
    ensures |Reverse(s)| == |s|
  {
    if s != [] {
      ReverseLength(s[1..]);
    }
  }

  lemma {:induction false} RunIsNoLonger(blocks: seq<seq<Cleanup>>, aligned: seq<bool>)
    requires |aligned| == |blocks|
    ensures |RunOfBlocks(blocks, aligned)| <= |Flatten(blocks)|
    ensures |RunOfBlocks(blocks, aligned)| == |Flatten(blocks)| <==> NoLoneUnaligned(blocks, aligned)
  {
    if blocks != [] {
      var k := |blocks| - 1;
      RunIsNoLonger(blocks[..k], aligned[..k]);
      ReverseLength(blocks[k]);
      assert NoLoneUnaligned(blocks, aligned) <==>
             NoLoneUnaligned(blocks[..k], aligned[..k]) && (aligned[k] || |blocks[k]| != 1) by {
        assert forall i | 0 <= i < k :: blocks[..k][i] == blocks[i] && aligned[..k][i] == aligned[i];
      }
    }
  }

  lemma FlattenReady(before: seq<seq<Cleanup>>, after: seq<seq<Cleanup>>)
    requires after == before || after == before + [[]]
    ensures Flatten(after) == Flatten(before)
  {
    if after == before + [[]] {
      assert after[..|before|] == before;
      assert Flatten(before) + [] == Flatten(before);
    }
  }

  lemma FlattenPush(blocks: seq<seq<Cleanup>>, c: Cleanup)
    requires blocks != []
    ensures Flatten(blocks[|blocks| - 1 := blocks[|blocks| - 1] + [c]]) == Flatten(blocks) + [c]
  {
    var k := |blocks| - 1;
    var after := blocks[k := blocks[k] + [c]];
    assert after[..k] == blocks[..k];
    assert Flatten(blocks[..k]) + (blocks[k] + [c]) == (Flatten(blocks[..k]) + blocks[k]) + [c];
  }

  /** All registered cleanups are run, each once and in exactly the reverse order of
      registration, if and only if no block with an unaligned end has exactly one node. */
  lemma {:induction false} CleanupsRunInReverse(blocks: seq<seq<Cleanup>>, aligned: seq<bool>)
    requires |aligned| == |blocks|
    ensures RunOfBlocks(blocks, aligned) == Reverse(Flatten(blocks)) <==> NoLoneUnaligned(blocks, aligned)
  {
    RunIsNoLonger(blocks, aligned);
    ReverseLength(Flatten(blocks));
    if NoLoneUnaligned(blocks, aligned) {
      ReversedWhenAllCount(blocks, aligned);
    }
  }

  /** It does happen: behind a caller-owned first block of 501 bytes the default policy puts a
      block of 1002 bytes, and if one cleanup is registered there it is never run. */
  lemma LoneCleanupIsSkipped(c: Cleanup)
    ensures BlockSize(DEFAULT_POLICY, 501, CLEANUP_SIZE) == 1002
    ensures RunOfBlocks([[], [c]], AlignedEnds([501, 1002])) == []
    ensures Reverse(Flatten([[], [c]])) == [c]
  {
    var blocks: seq<seq<Cleanup>> := [[], [c]];
    var al := AlignedEnds([501, 1002]);
    assert blocks[..1] == [[]] && blocks[..1][..0] == [];
    assert Flatten(blocks[..1]) == Flatten(blocks[..1][..0]) + [];
    assert [c][1..] == [];
    assert RunOfBlocks(blocks[..1], al[..1]) == RunOfBlock([], al[0]) + RunOfBlocks([], []) == [];
    assert RunOfBlock([c], al[1]) == [];
  }

  lemma {:induction false} ReversedWhenAllCount(blocks: seq<seq<Cleanup>>, aligned: seq<bool>)
    requires |aligned| == |blocks|
    requires NoLoneUnaligned(blocks, aligned)
    ensures RunOfBlocks(blocks, aligned) == Reverse(Flatten(blocks))
  {
    if blocks != [] {
      var k := |blocks| - 1;
      assert forall i | 0 <= i < k :: blocks[..k][i] == blocks[i] && aligned[..k][i] == aligned[i];
      ReversedWhenAllCount(blocks[..k], aligned[..k]);
      ReverseAppend(Flatten(blocks[..k]), blocks[k]);
    }
  }

  // ---------------------------------------------------------------- accounting

  function Sum(s: seq<nat>): nat {
    if s == [] then 0 else Sum(s[..|s| - 1]) + s[|s| - 1]
  }

  // ---------------------------------------------------------------- the arena's state

  /** The fields of the arena and the memory it owns (headers by block address, nodes by node
      address), with its history: the blocks' addresses and sizes, oldest first; the cleanups
      registered in each block, in order; all byte ranges ever taken; the sum of all requests. */
  datatype State = State(
    blocks: map<nat, Block>, nodes: map<nat, Cleanup>,
    head: nat, ptr: nat, limit: nat, spaceUsed: nat, spaceAllocated: nat,
    chain: seq<nat>, sizes: seq<nat>, registered: seq<seq<Cleanup>>, carved: seq<Range>, requested: nat)
  {
    /** Where the cleanup nodes of block `i` end: the constructor rounds the size of the first
        block down to a multiple of 8, AllocateNewBlock does not. */
    function Top(i: nat): nat
      requires i < |chain| == |sizes|
    {
      chain[i] + if i == 0 then AlignDown8(sizes[i]) else sizes[i]
    }

    function Last(): nat
      requires 0 < |chain|
    {
      |chain| - 1
    }

    /** The head pointer and the `next` fields lead through all blocks, newest first. */
    predicate Linked() {
      && 0 < |chain| == |sizes| == |registered|
      && head == chain[Last()]
      && (forall a | a in blocks :: a in chain)
      && (forall a | a in chain :: a in blocks)
      && (forall i | 0 <= i < |chain| :: HeaderAt(i))
    }

    predicate HeaderAt(i: nat)
      requires i < |chain| == |sizes| && chain[i] in blocks
    {
      && chain[i] > 0 && chain[i] % 8 == 0
      && blocks[chain[i]].size == sizes[i]
      && blocks[chain[i]].next == if i == 0 then NULL else chain[i - 1]
    }

    predicate BlocksApart()
      requires |chain| == |sizes|
    {
      && (forall i | 0 <= i < |chain| :: sizes[i] >= BLOCK_HEADER_SIZE)
      && forall i, j | 0 <= i < j < |chain| ::
           chain[i] + sizes[i] <= chain[j] || chain[j] + sizes[j] <= chain[i]
    }

    /** The free space of the head block is `ptr..limit`. */
    predicate Bumped()
      requires 0 < |chain| == |sizes| == |registered|
    {
      && chain[Last()] + BLOCK_HEADER_SIZE <= ptr <= limit
      && ptr % 8 == 0
      && limit == Top(Last()) - CLEANUP_SIZE * |registered[Last()]|
    }

    /** The registered cleanups sit in memory, each block's newest lowest, and every block but
        the head has recorded where they start. */
    predicate NodesStored()
      requires Linked()
    {
      && (forall i | 0 <= i < |chain| :: StartAt(i))
      && (forall i, j | 0 <= i < |chain| && 0 <= j < |registered[i]| :: NodeAt(i, j))
    }

    predicate StartAt(i: nat)
      requires i < |chain| == |sizes| == |registered| && chain[i] in blocks
    {
      && Top(i) - CLEANUP_SIZE * |registered[i]| >= chain[i] + BLOCK_HEADER_SIZE
      && (i < Last() ==> blocks[chain[i]].start == Top(i) - CLEANUP_SIZE * |registered[i]|)
    }

    predicate NodeAt(i: nat, j: nat)
      requires i < |chain| == |sizes| == |registered| && j < |registered[i]|
    {
      var a := Top(i) - CLEANUP_SIZE * (j + 1);
      a in nodes && nodes[a] == registered[i][j]
    }

    /** All ranges ever taken lie inside their block and outside the free space, ... */
    predicate CarvedInside()
      requires 0 < |chain| == |sizes|
    {
      forall i | 0 <= i < |carved| ::
        var r := carved[i];
        && r.block < |chain|
        && chain[r.block] <= r.lo <= r.hi <= chain[r.block] + sizes[r.block]
        && (r.block == Last() ==> r.hi <= ptr || limit <= r.lo)
    }

    /** ... and no two of them overlap. */
    predicate CarvedApart() {
      forall i, j | 0 <= i < j < |carved| :: Apart(carved[i], carved[j])
    }

    predicate Accounted() {
      && spaceAllocated == Sum(sizes)
      && head + BLOCK_HEADER_SIZE <= ptr
      && spaceUsed + (ptr - (head + BLOCK_HEADER_SIZE)) == SERIAL_ARENA_SIZE + requested
    }

    predicate Valid() {
      && Linked()
      && BlocksApart()
      && Bumped()
      && NodesStored()
      && CarvedInside()
      && CarvedApart()
      && Accounted()
    }

    /** A block the system allocator may hand out: 8-aligned and away from all blocks here. */
    predicate Available(base: nat, size: nat)
      requires |chain| == |sizes|
    {
      && base > 0 && base % 8 == 0
      && forall i | 0 <= i < |chain| :: chain[i] + sizes[i] <= base || base + size <= chain[i]
    }

    // The three changes of state.

    function NewBlock(base: nat, size: nat): State
      requires Linked() && head + BLOCK_HEADER_SIZE <= ptr
    {
      State(
        blocks[head := blocks[head].(start := limit)][base := Block(head, size, NULL)], nodes,
        base, base + BLOCK_HEADER_SIZE, base + size,
        spaceUsed + (ptr - (head + BLOCK_HEADER_SIZE)), spaceAllocated + size,
        chain + [base], sizes + [size], registered + [[]],
        carved + [Range(|chain|, base, base + BLOCK_HEADER_SIZE)], requested)
    }

    function Bump(n: nat): State
      requires 0 < |chain|
    {
      this.(ptr := ptr + n, carved := carved + [Range(Last(), ptr, ptr + n)], requested := requested + n)
    }

    function Push(c: Cleanup): State
      requires 0 < |registered| == |chain| && CLEANUP_SIZE <= limit
    {
      this.(limit := limit - CLEANUP_SIZE,
            nodes := nodes[limit - CLEANUP_SIZE := c],
            registered := registered[Last() := registered[Last()] + [c]],
            carved := carved + [Range(Last(), limit - CLEANUP_SIZE, limit)])
    }

    /** The newest node is filled in. */
    function Rewrite(c: Cleanup): State
      requires 0 < |registered| == |chain| && registered[Last()] != []
    {
      var r := registered[Last()];
      this.(nodes := nodes[limit := c], registered := registered[Last() := r[..|r| - 1] + [c]])
    }

    lemma PushRewritten(c: Cleanup)
      requires 0 < |registered| == |chain| && CLEANUP_SIZE <= limit
      ensures var t := Push(UNWRITTEN);
              && t.registered[t.Last()] != []
              && t.Rewrite(c) == Push(c)
    {
      var r := registered[Last()];
      assert (r + [UNWRITTEN])[..|r|] == r;
    }

    // Each keeps the invariant.

    /** The head block has recorded its start as well. */
    predicate StartsKnown()
      requires Linked()
    {
      blocks[head].start == limit
    }

    lemma BlockFacts(k: nat)
      requires Valid() && StartsKnown() && k < |chain|
      ensures |chain| == |sizes| == |registered|
      ensures chain[k] in blocks && blocks[chain[k]].size == sizes[k]
      ensures blocks[chain[k]].start == Top(k) - CLEANUP_SIZE * |registered[k]|
      ensures forall j | 0 <= j < |registered[k]| :: NodeAt(k, j)
    {
      assert chain[k] in chain && HeaderAt(k) && StartAt(k);
    }

    /** What the methods read off a valid state. */
    lemma Facts()
      requires Valid()
      ensures 0 < |chain| == |sizes| == |registered|
      ensures head == chain[Last()] && head in blocks && blocks[head].size == sizes[Last()]
      ensures head + BLOCK_HEADER_SIZE <= ptr <= limit && ptr % 8 == 0
      ensures Linked()
    {
      assert chain[Last()] in chain && HeaderAt(Last());
    }

    lemma Distinct(i: nat, j: nat)
      requires Linked() && BlocksApart()
      requires i < j < |chain|
      ensures chain[i] != chain[j]
    {
    }

    lemma Fresh(base: nat, size: nat)
      requires |chain| == |sizes| && BlocksApart() && Available(base, size) && size > 0
      ensures base !in chain
    {
    }

    /** The new state, field by field. */
    lemma NewBlockIs(base: nat, size: nat)
      requires Linked() && head + BLOCK_HEADER_SIZE <= ptr
      ensures var t := NewBlock(base, size);
              && t.blocks == blocks[head := blocks[head].(start := limit)][base := Block(head, size, NULL)]
              && t.nodes == nodes && t.head == base && t.ptr == base + BLOCK_HEADER_SIZE && t.limit == base + size
              && t.spaceUsed == spaceUsed + (ptr - (head + BLOCK_HEADER_SIZE))
              && t.spaceAllocated == spaceAllocated + size
              && t.chain == chain + [base] && t.sizes == sizes + [size] && t.registered == registered + [[]]
              && t.carved == carved + [Range(|chain|, base, base + BLOCK_HEADER_SIZE)]
              && t.requested == requested
    {
    }

    lemma NewBlockApart(base: nat, size: nat)
      requires Linked() && BlocksApart() && head + BLOCK_HEADER_SIZE <= ptr
      requires Available(base, size) && size >= BLOCK_HEADER_SIZE
      ensures NewBlock(base, size).BlocksApart()
    {
      var t := NewBlock(base, size);
      assert forall i | 0 <= i < |chain| :: t.chain[i] == chain[i] && t.sizes[i] == sizes[i];
    }

    lemma NewBlockLinked(base: nat, size: nat)
      requires Linked() && head + BLOCK_HEADER_SIZE <= ptr && base > 0 && base % 8 == 0
      requires base !in chain
      ensures NewBlock(base, size).Linked()
    {
      var t := NewBlock(base, size);
      assert t.chain[|chain|] == base;
      forall i | 0 <= i < |t.chain| ensures t.chain[i] in t.blocks && t.HeaderAt(i) {
        if i < |chain| {
          assert t.chain[i] == chain[i] && chain[i] in chain && HeaderAt(i);
        }
      }
      forall a | a in t.blocks ensures a in t.chain {
        if a != base {
          var i :| 0 <= i < |chain| && chain[i] == a;
          assert t.chain[i] == a;
        }
      }
    }

    lemma NewBlockStart(base: nat, size: nat, i: nat)
      requires Linked() && BlocksApart() && Bumped() && NodesStored()
      requires Available(base, size) && size >= BLOCK_HEADER_SIZE
      requires i < |chain| + 1
      requires NewBlock(base, size).Linked()
      ensures NewBlock(base, size).StartAt(i)
    {
      hide NodesStored, Linked;
      OldLengths();
      BumpedFacts();
      if i < |chain| {
        Fresh(base, size);
        OldStart(i);
        if i < Last() {
          Distinct(i, Last());
        }
      } else {
        NewBlockTop(base, size);
      }
    }

    lemma OldStart(i: nat)
      requires Linked() && NodesStored() && i < |chain|
      ensures chain[i] in chain && chain[i] in blocks && StartAt(i)
      ensures head == chain[Last()] && |chain| == |sizes| == |registered|
      ensures chain[Last()] in blocks && HeaderAt(Last())
    {
      assert chain[i] in chain && chain[Last()] in chain;
    }

    lemma NewBlockTop(base: nat, size: nat)
      requires Linked() && head + BLOCK_HEADER_SIZE <= ptr
      ensures var t := NewBlock(base, size);
              && t.chain[|chain|] == base && t.registered[|chain|] == []
              && t.Top(|chain|) == base + size
    {
    }

    lemma NewBlockBumped(base: nat, size: nat)
      requires Linked() && head + BLOCK_HEADER_SIZE <= ptr && base % 8 == 0 && size >= BLOCK_HEADER_SIZE
      ensures NewBlock(base, size).Bumped()
    {
      hide Linked;
      OldLengths();
      NewBlockTop(base, size);
    }

    lemma OldLengths()
      requires Linked()
      ensures 0 < |chain| == |sizes| == |registered| && head == chain[Last()]
    {
    }

    lemma NewBlockNode(base: nat, size: nat, i: nat, j: nat)
      requires Linked() && NodesStored() && head + BLOCK_HEADER_SIZE <= ptr
      requires i < |chain| && j < |registered[i]|
      ensures NewBlock(base, size).NodeAt(i, j)
    {
      assert NodeAt(i, j);
    }

    lemma NewBlockNodes(base: nat, size: nat)
      requires Linked() && BlocksApart() && Bumped() && NodesStored()
      requires Available(base, size) && size >= BLOCK_HEADER_SIZE
      requires NewBlock(base, size).Linked()
      ensures NewBlock(base, size).NodesStored()
    {
      hide BlocksApart, HeaderAt, StartAt, NodeAt, Available;
      var t := NewBlock(base, size);
      forall i | 0 <= i < |t.chain| ensures t.StartAt(i) {
        NewBlockStart(base, size, i);
      }
      forall i, j | 0 <= i < |t.chain| && 0 <= j < |t.registered[i]| ensures t.NodeAt(i, j) {
        NewBlockNode(base, size, i, j);
      }
    }

    lemma NewBlockInside(base: nat, size: nat)
      requires Linked() && CarvedInside() && head + BLOCK_HEADER_SIZE <= ptr && size >= BLOCK_HEADER_SIZE
      ensures NewBlock(base, size).CarvedInside()
    {
      hide HeaderAt;
      var t := NewBlock(base, size);
      assert forall i | 0 <= i < |chain| :: t.chain[i] == chain[i] && t.sizes[i] == sizes[i];
      assert forall i | 0 <= i < |carved| :: t.carved[i] == carved[i];
    }

    lemma NewBlockCarvedApart(base: nat, size: nat)
      requires Linked() && CarvedInside() && CarvedApart() && head + BLOCK_HEADER_SIZE <= ptr
      requires Available(base, size) && size >= BLOCK_HEADER_SIZE
      ensures NewBlock(base, size).CarvedApart()
    {
      hide HeaderAt;
      var t := NewBlock(base, size);
      assert forall i | 0 <= i < |carved| :: t.carved[i] == carved[i];
    }

    lemma NewBlockAccounted(base: nat, size: nat)
      requires Linked() && Accounted()
      ensures NewBlock(base, size).Accounted()
    {
      hide HeaderAt;
      assert (sizes + [size])[..|sizes|] == sizes;
    }

    lemma BumpedFacts()
      requires Linked() && Bumped()
      ensures head + BLOCK_HEADER_SIZE <= ptr
    {
    }

    lemma NewBlockKeeps(base: nat, size: nat)
      requires Valid() && Available(base, size) && size >= BLOCK_HEADER_SIZE
      ensures NewBlock(base, size).Valid()
    {
      hide BlocksApart, Bumped, NodesStored, CarvedInside, CarvedApart;
      assert base !in chain by {
        Fresh(base, size);
      }
      NewBlockLinked(base, size);
      NewBlockApart(base, size);
      NewBlockBumped(base, size) by {
        BumpedFacts();
      }
      NewBlockNodes(base, size);
      NewBlockInside(base, size);
      NewBlockCarvedApart(base, size);
      NewBlockAccounted(base, size);
    }

    /** The head block records its start. */
    function Sync(): State
      requires Linked()
    {
      this.(blocks := blocks[head := blocks[head].(start := limit)])
    }

    lemma SyncAt(i: nat)
      requires Linked() && BlocksApart() && Bumped() && NodesStored()
      requires i < |chain|
      ensures chain[i] in Sync().blocks && Sync().HeaderAt(i) && Sync().StartAt(i)
    {
      assert chain[i] in chain && HeaderAt(i) && StartAt(i);
      if i < Last() {
        Distinct(i, Last());
      }
    }

    lemma SyncNodes()
      requires Linked() && BlocksApart() && Bumped() && NodesStored()
      ensures Sync().Linked() && Sync().NodesStored() && Sync().StartsKnown()
    {
      hide BlocksApart, Bumped, HeaderAt, StartAt;
      var t := Sync();
      assert chain[Last()] in chain;
      forall i | 0 <= i < |chain| ensures t.chain[i] in t.blocks && t.HeaderAt(i) && t.StartAt(i) {
        SyncAt(i);
      }
      forall i, j | 0 <= i < |chain| && 0 <= j < |t.registered[i]| ensures t.NodeAt(i, j) {
        assert NodeAt(i, j);
      }
    }

    lemma SyncKeeps()
      requires Valid()
      ensures Sync().Valid() && Sync().StartsKnown()
    {
      hide NodesStored;
      SyncNodes();
    }

    lemma SameNodes(t: State)
      requires Linked() && NodesStored()
      requires t == this.(ptr := t.ptr, carved := t.carved, requested := t.requested)
      ensures t.Linked() && t.NodesStored()
    {
      forall i | 0 <= i < |chain| ensures t.HeaderAt(i) && t.StartAt(i) {
        assert HeaderAt(i) && StartAt(i);
      }
      forall i, j | 0 <= i < |chain| && 0 <= j < |t.registered[i]| ensures t.NodeAt(i, j) {
        assert NodeAt(i, j);
      }
    }

    lemma BumpKeeps(n: nat)
      requires Valid() && n % 8 == 0 && n <= limit - ptr
      ensures Bump(n).Valid()
    {
      hide NodesStored;
      var t := Bump(n);
      SameNodes(t);
      assert forall i | 0 <= i < |carved| :: t.carved[i] == carved[i];
    }

    lemma PushNodes(c: Cleanup)
      requires Linked() && BlocksApart() && Bumped() && NodesStored() && CLEANUP_SIZE <= limit - ptr
      ensures Push(c).Linked() && Push(c).NodesStored()
    {
      var t := Push(c);
      forall i | 0 <= i < |chain| ensures t.HeaderAt(i) && t.StartAt(i) {
        assert HeaderAt(i) && StartAt(i);
      }
      forall i, j | 0 <= i < |chain| && 0 <= j < |t.registered[i]| ensures t.NodeAt(i, j) {
        if i != Last() || j != |registered[Last()]| {
          assert NodeAt(i, j) && StartAt(i);
          if i != Last() {
            assert chain[i] + sizes[i] <= chain[Last()] || chain[Last()] + sizes[Last()] <= chain[i];
          }
        }
      }
    }

    lemma PushKeeps(c: Cleanup)
      requires Valid() && CLEANUP_SIZE <= limit - ptr
      ensures Push(c).Valid()
    {
      hide NodesStored;
      PushNodes(c);
      var t := Push(c);
      assert forall i | 0 <= i < |carved| :: t.carved[i] == carved[i];
    }
  }

  // ---------------------------------------------------------------- the arena

  /** The bytes Arena asks for: over-aligned requests take `align - 8` bytes more. */
  function Request(size: nat, k: nat): nat {
    if k == 0 then AlignUpTo8(size) else size + 8 * Pow2(k) - 8
  }

  lemma RequestAligned(size: nat, k: nat)
    requires k > 0 ==> size % 8 == 0
    ensures Request(size, k) % 8 == 0
  {
    hide Pow2;
    if k > 0 {
      assert Request(size, k) == 8 * (size / 8 + Pow2(k) - 1);
    }
  }

  /** And no fewer would do: the next multiple of 8; or, from a pointer that lies 8 bytes behind a
      multiple of the alignment, up to the end of what was asked for. */
  lemma RequestIsLeast(size: nat, k: nat)
    ensures k == 0 ==> size <= Request(size, k) < size + 8 && Request(size, k) % 8 == 0
    ensures k > 0 ==>
              var align := 8 * Pow2(k);
              AlignTo(align + 8, align) + size == (align + 8) + Request(size, k)
  {
    if k > 0 {
      var align := 8 * Pow2(k);
      DivisionIsUnique(2 * align + 7, align, 2, 7);
    }
  }

  class Arena {
    const owner: nat
    var blocks: map<nat, Block>
    var nodes: map<nat, Cleanup>
    var head: nat
    var ptr: nat
    var limit: nat
    var spaceUsed: nat
    var spaceAllocated: nat
    // The history part of State.
    ghost var chain: seq<nat>
    ghost var sizes: seq<nat>
    ghost var registered: seq<seq<Cleanup>>
    ghost var carved: seq<Range>
    ghost var requested: nat

    ghost function Now(): State
      reads this
    {
      State(blocks, nodes, head, ptr, limit, spaceUsed, spaceAllocated, chain, sizes, registered, carved, requested)
    }

    ghost predicate Valid()
      reads this
    {
      Now().Valid()
    }

    /** SerialArena::New: the arena object lives in its first block, behind the header. */
    constructor New(base: nat, size: nat, owner: nat)
      requires base > 0 && base % 8 == 0
      requires BLOCK_HEADER_SIZE + SERIAL_ARENA_SIZE <= size
      ensures Valid()
      ensures this.owner == owner && chain == [base] && sizes == [size] && registered == [[]]
      ensures carved == [Range(0, base, base + BLOCK_HEADER_SIZE),
                         Range(0, base + BLOCK_HEADER_SIZE, base + BLOCK_HEADER_SIZE + SERIAL_ARENA_SIZE)]
      ensures requested == 0
    {
      this.owner := owner;
      blocks := map[base := Block(NULL, size, NULL)];
      nodes := map[];
      head := base;
      ptr := base + BLOCK_HEADER_SIZE + SERIAL_ARENA_SIZE;
      limit := base + AlignDown8(size);
      spaceUsed := 0;
      spaceAllocated := size;
      chain, sizes, registered, requested := [base], [size], [[]], 0;
      carved := [Range(0, base, base + BLOCK_HEADER_SIZE),
                 Range(0, base + BLOCK_HEADER_SIZE, base + BLOCK_HEADER_SIZE + SERIAL_ARENA_SIZE)];
      new;
      assert Sum([size]) == Sum([]) + size;
      assert Now().HeaderAt(0) && Now().StartAt(0);
    }

    predicate HasSpace(n: nat)
      requires ptr <= limit
      reads this
    {
      n <= limit - ptr
    }

    /** The state in which a request for `n` bytes is served: this one, or one with a new block
        at `base`, the address the system allocator returns. */
    ghost function Ready(n: nat, policy: Policy, base: nat): State
      requires Valid()
      reads this
    {
      if HasSpace(n) then Now()
      else Now().NewBlock(base, BlockSize(policy, sizes[Now().Last()], n))
    }

    ghost predicate CanServe(n: nat, policy: Policy, base: nat)
      requires Valid()
      reads this
    {
      HasSpace(n) || Now().Available(base, BlockSize(policy, sizes[Now().Last()], n))
    }

    lemma ReadyIsValid(n: nat, policy: Policy, base: nat)
      requires Valid() && CanServe(n, policy, base)
      ensures Ready(n, policy, base).Valid()
      ensures n <= Ready(n, policy, base).limit - Ready(n, policy, base).ptr
    {
      hide State.Valid, State.Linked, State.Available;
      Now().Facts();
      if !HasSpace(n) {
        Now().NewBlockKeeps(base, BlockSize(policy, sizes[Now().Last()], n));
      }
    }

    /** All block sizes are still multiples of 8. */
    lemma ReadyIsAligned(n: nat, policy: Policy, base: nat)
      requires Valid() && n % 8 == 0 && AlignedPolicy(policy) && AllAligned(sizes)
      ensures AllAligned(Ready(n, policy, base).sizes)
    {
      hide State.Valid, State.Linked, BlockSize, AllAligned;
      Now().Facts();
      BlockSizeKeepsAligned(policy, sizes, n);
    }

    /** AllocateNewBlock: the block left behind learns where its nodes start. */
    method AllocateNewBlock(n: nat, policy: Policy, base: nat)
      requires Valid()
      requires Now().Available(base, BlockSize(policy, sizes[Now().Last()], n))
      modifies this
      ensures Valid()
      ensures Now() == old(Now().NewBlock(base, BlockSize(policy, sizes[Now().Last()], n)))
      // The retry that follows never falls back again.
      ensures HasSpace(n)
      // Blocks grow geometrically, see GrowthIsGeometric.
      ensures old(Grown(policy, sizes)) ==> Grown(policy, sizes)
      ensures AlignedPolicy(policy) && n % 8 == 0 && old(AllAligned(sizes)) ==> AllAligned(sizes)
    {
      hide State.Valid, State.Linked, State.Available, State.NewBlock, BlockSize, Grown, AllAligned, AlignedPolicy;
      Now().Facts();
      ghost var before, size' := Now(), BlockSize(policy, sizes[Now().Last()], n);
      BlockSizeFits(policy, sizes[Now().Last()], n);
      BlockSizeKeeps(policy, sizes, n);
      Now().NewBlockKeeps(base, size');
      Now().NewBlockIs(base, size');
      blocks := blocks[head := blocks[head].(start := limit)];
      spaceUsed := spaceUsed + (ptr - (head + BLOCK_HEADER_SIZE));
      var size := BlockSize(policy, blocks[head].size, n);
      spaceAllocated := spaceAllocated + size;
      blocks := blocks[base := Block(head, size, NULL)];
      head := base;
      ptr := head + BLOCK_HEADER_SIZE;
      limit := head + size;
      RecordBlock(base, size);
      assert Now() == before.NewBlock(base, size');
    }

    /** The history of a new block. */
    ghost method RecordBlock(base: nat, size: nat)
      modifies this`carved, this`chain, this`sizes, this`registered
      ensures carved == old(carved) + [Range(|old(chain)|, base, base + BLOCK_HEADER_SIZE)]
      ensures chain == old(chain) + [base] && sizes == old(sizes) + [size] && registered == old(registered) + [[]]
    {
      carved := carved + [Range(|chain|, base, base + BLOCK_HEADER_SIZE)];
      chain, sizes, registered := chain + [base], sizes + [size], registered + [[]];
    }

    /** AllocateAligned: `n` fresh bytes, 8-aligned. */
    method AllocateAligned(n: nat, policy: Policy, base: nat) returns (ret: nat)
      requires Valid() && n % 8 == 0
      requires CanServe(n, policy, base)
      modifies this
      ensures Valid()
      ensures Now() == old(Ready(n, policy, base)).Bump(n)
      ensures ret % 8 == 0 && carved == old(Ready(n, policy, base)).carved + [Range(|chain| - 1, ret, ret + n)]
      ensures requested == old(requested) + n
      ensures AlignedPolicy(policy) && old(AllAligned(sizes)) ==> AllAligned(sizes)
      decreases !HasSpace(n), 1
    {
      hide State.Valid, State.Linked, State.Available, AllAligned, AlignedPolicy;
      if AlignedPolicy(policy) && AllAligned(sizes) {
        ReadyIsAligned(n, policy, base);
      }
      Now().Facts();
      if !HasSpace(n) {
        ret := AllocateAlignedFallback(n, policy, base);
        return;
      }
      Now().BumpKeeps(n);
      ret := ptr;
      carved := carved + [Range(|chain| - 1, ptr, ptr + n)];
      requested := requested + n;
      ptr := ptr + n;
    }

    method AllocateAlignedFallback(n: nat, policy: Policy, base: nat) returns (ret: nat)
      requires Valid() && n % 8 == 0
      requires !HasSpace(n) && CanServe(n, policy, base)
      modifies this
      ensures Valid()
      ensures Now() == old(Ready(n, policy, base)).Bump(n)
      ensures ret % 8 == 0 && carved == old(Ready(n, policy, base)).carved + [Range(|chain| - 1, ret, ret + n)]
      ensures requested == old(requested) + n
      ensures AlignedPolicy(policy) && old(AllAligned(sizes)) ==> AllAligned(sizes)
      decreases true, 0
    {
      hide State.Valid, State.Linked, State.Available, State.Bump, AllAligned, AlignedPolicy;
      if AlignedPolicy(policy) && AllAligned(sizes) {
        ReadyIsAligned(n, policy, base);
      }
      AllocateNewBlock(n, policy, base);
      ret := AllocateAligned(n, policy, base);
    }

    /** MaybeAllocateAligned never gets a new block. */
    method MaybeAllocateAligned(n: nat) returns (ok: bool, out: nat)
      requires Valid() && n % 8 == 0
      modifies this
      ensures Valid()
      ensures ok == old(HasSpace(n))
      ensures ok ==> out == old(ptr) && Now() == old(Now()).Bump(n)
      ensures !ok ==> Now() == old(Now())
    {
      hide State.Valid, State.Linked, State.Available;
      Now().Facts();
      if !HasSpace(n) {
        return false, NULL;
      }
      Now().BumpKeeps(n);
      ok, out := true, ptr;
      carved := carved + [Range(|chain| - 1, ptr, ptr + n)];
      requested := requested + n;
      ptr := ptr + n;
    }

    /** AllocateAlignedWithCleanup: bytes from the bottom and a node, not yet written, from
        the top of the same block. */
    method AllocateAlignedWithCleanup(n: nat, policy: Policy, base: nat) returns (ret: nat, node: nat)
      requires Valid() && n % 8 == 0
      requires CanServe(n + CLEANUP_SIZE, policy, base)
      modifies this
      ensures Valid()
      ensures var s := old(Ready(n + CLEANUP_SIZE, policy, base));
              && Now() == s.Bump(n).Push(UNWRITTEN)
              && ret == s.ptr && node == limit
      ensures ret % 8 == 0
      ensures AlignedPolicy(policy) && old(AllAligned(sizes)) ==> AllAligned(sizes)
      decreases !HasSpace(n + CLEANUP_SIZE), 1
    {
      hide State.Valid, State.Linked, State.Available, AllAligned, AlignedPolicy;
      if AlignedPolicy(policy) && AllAligned(sizes) {
        ReadyIsAligned(n + CLEANUP_SIZE, policy, base);
      }
      Now().Facts();
      if !HasSpace(n + CLEANUP_SIZE) {
        ret, node := AllocateAlignedWithCleanupFallback(n, policy, base);
        return;
      }
      Now().BumpKeeps(n);
      Now().Bump(n).PushKeeps(UNWRITTEN);
      ret := ptr;
      RecordPair(n);
      ptr := ptr + n;
      limit := limit - CLEANUP_SIZE;
      nodes := nodes[limit := UNWRITTEN];
      node := limit;
    }

    /** The history of bytes taken from both ends. */
    ghost method RecordPair(n: nat)
      requires 0 < |chain| == |registered| && CLEANUP_SIZE <= limit
      modifies this`carved, this`registered, this`requested
      ensures var k := |chain| - 1;
              && carved == old(carved) + [Range(k, ptr, ptr + n)] + [Range(k, limit - CLEANUP_SIZE, limit)]
              && registered == old(registered)[k := old(registered)[k] + [UNWRITTEN]]
      ensures requested == old(requested) + n
    {
      var k := |chain| - 1;
      carved := carved + [Range(k, ptr, ptr + n)] + [Range(k, limit - CLEANUP_SIZE, limit)];
      registered := registered[k := registered[k] + [UNWRITTEN]];
      requested := requested + n;
    }

    method AllocateAlignedWithCleanupFallback(n: nat, policy: Policy, base: nat) returns (ret: nat, node: nat)
      requires Valid() && n % 8 == 0
      requires !HasSpace(n + CLEANUP_SIZE) && CanServe(n + CLEANUP_SIZE, policy, base)
      modifies this
      ensures Valid()
      ensures var s := old(Ready(n + CLEANUP_SIZE, policy, base));
              && Now() == s.Bump(n).Push(UNWRITTEN)
              && ret == s.ptr && node == limit
      ensures ret % 8 == 0
      ensures AlignedPolicy(policy) && old(AllAligned(sizes)) ==> AllAligned(sizes)
      decreases true, 0
    {
      hide State.Valid, State.Linked, State.Available, State.Bump, State.Push, AllAligned, AlignedPolicy;
      if AlignedPolicy(policy) && AllAligned(sizes) {
        ReadyIsAligned(n + CLEANUP_SIZE, policy, base);
      }
      AllocateNewBlock(n + CLEANUP_SIZE, policy, base);
      ret, node := AllocateAlignedWithCleanup(n, policy, base);
    }

    /** AddCleanup registers `func(elem)` behind all cleanups registered before. */
    method AddCleanup(elem: nat, func: nat, policy: Policy, base: nat)
      requires Valid()
      requires CanServe(CLEANUP_SIZE, policy, base)
      modifies this
      ensures Valid()
      ensures Now() == old(Ready(CLEANUP_SIZE, policy, base)).Bump(0).Push(Cleanup(elem, func))
      ensures Flatten(registered) == old(Flatten(registered)) + [Cleanup(elem, func)]
      ensures AlignedPolicy(policy) && old(AllAligned(sizes)) ==> AllAligned(sizes)
    {
      hide State.Valid, State.Linked, State.Available, Flatten, CanServe, HasSpace, AllAligned, AlignedPolicy;
      if AlignedPolicy(policy) && AllAligned(sizes) {
        ReadyIsAligned(CLEANUP_SIZE, policy, base);
      }
      Registers(0, policy, base, Cleanup(elem, func));
      var _, node := AllocateAlignedWithCleanup(0, policy, base);
      WriteNode(node, Cleanup(elem, func));
    }

    /** What a request with a cleanup comes to once its node has been written. */
    lemma Registers(n: nat, policy: Policy, base: nat, c: Cleanup)
      requires Valid() && n % 8 == 0
      requires CanServe(n + CLEANUP_SIZE, policy, base)
      ensures var s := Ready(n + CLEANUP_SIZE, policy, base);
              && 0 < |s.chain| == |s.registered| && CLEANUP_SIZE <= s.limit && s.ptr % 8 == 0
              && var t := s.Bump(n).Push(UNWRITTEN);
              && t.registered[t.Last()] != []
              && t.Rewrite(c) == s.Bump(n).Push(c)
              && t.Rewrite(c).Valid()
              && Flatten(t.Rewrite(c).registered) == Flatten(registered) + [c]
    {
      hide State.Valid, State.Linked, State.Available, Flatten, CanServe, State.Rewrite;
      var s := Ready(n + CLEANUP_SIZE, policy, base);
      ReadyIsValid(n + CLEANUP_SIZE, policy, base);
      s.Facts();
      s.BumpKeeps(n);
      s.Bump(n).PushKeeps(c);
      s.Bump(n).PushRewritten(c);
      FlattenReady(registered, s.registered);
      FlattenPush(s.registered, c);
    }

    /** The caller fills in the node it has just been given. */
    method WriteNode(node: nat, c: Cleanup)
      requires node == limit
      requires 0 < |chain| == |registered| && registered[|chain| - 1] != []
      modifies this`nodes, this`registered
      ensures Now() == old(Now()).Rewrite(c)
    {
      ghost var k := |chain| - 1;
      nodes := nodes[node := c];
      registered := registered[k := registered[k][..|registered[k]| - 1] + [c]];
    }

    /** `n` bytes, and the cleanup of an object placed in them at the given alignment. */
    method AllocateAndRegister(n: nat, align: nat, destructor: nat, policy: Policy, base: nat) returns (ret: nat)
      requires Valid() && n % 8 == 0 && align > 0
      requires CanServe(n + CLEANUP_SIZE, policy, base)
      modifies this
      ensures Valid()
      ensures ret == if align <= 8 then old(Ready(n + CLEANUP_SIZE, policy, base)).ptr
                     else AlignTo(old(Ready(n + CLEANUP_SIZE, policy, base)).ptr, align)
      ensures old(Ready(n + CLEANUP_SIZE, policy, base)).ptr % 8 == 0
      ensures Now() == old(Ready(n + CLEANUP_SIZE, policy, base)).Bump(n).Push(Cleanup(ret, destructor))
      ensures Flatten(registered) == old(Flatten(registered)) + [Cleanup(ret, destructor)]
      ensures AlignedPolicy(policy) && old(AllAligned(sizes)) ==> AllAligned(sizes)
    {
      hide State.Valid, State.Linked, State.Available, AlignTo, Flatten, CanServe, HasSpace, AllAligned, AlignedPolicy;
      if AlignedPolicy(policy) && AllAligned(sizes) {
        ReadyIsAligned(n + CLEANUP_SIZE, policy, base);
      }
      ghost var p := Ready(n + CLEANUP_SIZE, policy, base).ptr;
      Registers(n, policy, base, Cleanup(if align <= 8 then p else AlignTo(p, align), destructor));
      var first, node := AllocateAlignedWithCleanup(n, policy, base);
      ret := if align <= 8 then first else AlignTo(first, align);
      WriteNode(node, Cleanup(ret, destructor));
    }

    /** Arena::AllocateAlignedWithHook: the object is aligned and lies within the bytes taken for
        it.  `k` is 0 for alignments up to 8; else the alignment is `8 * Pow2(k)`. */
    method AllocateAlignedWithHook(size: nat, k: nat, policy: Policy, base: nat) returns (ret: nat)
      requires Valid()
      // sizeof(T) is a multiple of alignof(T).
      requires k > 0 ==> size % 8 == 0
      requires CanServe(Request(size, k), policy, base)
      modifies this
      ensures Valid()
      ensures carved != []
      ensures carved[|carved| - 1].lo <= ret && ret + size <= carved[|carved| - 1].hi
      ensures if k == 0 then ret % 8 == 0 else ret % (8 * Pow2(k)) == 0
      ensures Now() == old(Ready(Request(size, k), policy, base)).Bump(Request(size, k))
      ensures requested == old(requested) + Request(size, k)
      ensures Flatten(registered) == old(Flatten(registered))
      ensures AlignedPolicy(policy) && old(AllAligned(sizes)) ==> AllAligned(sizes)
    {
      hide State.Valid, State.Linked, State.Available, AlignTo, Pow2, Flatten;
      RequestAligned(size, k);
      SameCleanups(Request(size, k), policy, base);
      ret := AllocateAligned(Request(size, k), policy, base);
      if k > 0 {
        ghost var p := ret;
        ret := AlignTo(ret, 8 * Pow2(k));
        OveralignedFits(p, size, k);
      }
    }

    lemma SameCleanups(n: nat, policy: Policy, base: nat)
      requires Valid() && n % 8 == 0 && CanServe(n, policy, base)
      ensures Ready(n, policy, base).requested == requested
      ensures 0 < |Ready(n, policy, base).chain|
      ensures Flatten(Ready(n, policy, base).registered) == Flatten(registered)
    {
      hide State.Valid, State.Linked, State.Available, Flatten;
      Now().Facts();
      FlattenReady(registered, Ready(n, policy, base).registered);
    }

    /** Arena::AllocateInternal: as before, and with a destructor also its cleanup is registered,
        on the pointer handed out. */
    method AllocateInternal(size: nat, k: nat, destructor: nat, policy: Policy, base: nat) returns (ret: nat)
      requires Valid()
      requires k > 0 ==> size % 8 == 0
      requires CanServe(Request(size, k) + if destructor == NULL then 0 else CLEANUP_SIZE, policy, base)
      modifies this
      ensures Valid()
      ensures if k == 0 then ret % 8 == 0 else ret % (8 * Pow2(k)) == 0
      ensures var taken := if destructor == NULL then 1 else 2;
              && |carved| >= taken
              && carved[|carved| - taken].lo <= ret && ret + size <= carved[|carved| - taken].hi
      ensures Flatten(registered) ==
              old(Flatten(registered)) + if destructor == NULL then [] else [Cleanup(ret, destructor)]
      // And nothing else changes, so the invariant says that no two objects overlap.
      ensures destructor == NULL ==>
                Now() == old(Ready(Request(size, k), policy, base)).Bump(Request(size, k))
      ensures destructor != NULL ==>
                Now() == old(Ready(Request(size, k) + CLEANUP_SIZE, policy, base)).Bump(Request(size, k)).Push(Cleanup(ret, destructor))
      ensures old(carved) <= carved && requested == old(requested) + Request(size, k)
      ensures AlignedPolicy(policy) && old(AllAligned(sizes)) ==> AllAligned(sizes)
    {
      hide State.Valid, State.Linked, State.Available, AlignTo, Pow2, Flatten;
      if destructor == NULL {
        ret := AllocateAlignedWithHook(size, k, policy, base);
        assert old(Flatten(registered)) + [] == old(Flatten(registered));
        return;
      }
      ghost var p := Ready(Request(size, k) + CLEANUP_SIZE, policy, base).ptr;
      RequestAligned(size, k);
      ret := AllocateAndRegister(Request(size, k), if k == 0 then 8 else 8 * Pow2(k), destructor, policy, base);
      if k > 0 {
        Pow2Even(k);
        OveralignedFits(p, size, k);
      }
    }

    /** SpaceUsed is exactly the sum of the requests: block headers, the arena object, free
        space and cleanup nodes are left out. */
    method SpaceUsed() returns (n: nat)
      requires Valid()
      ensures n == requested
    {
      n := ptr - (head + BLOCK_HEADER_SIZE);
      n := n + spaceUsed;
      n := n - SERIAL_ARENA_SIZE;
    }

    /** SpaceAllocated is exactly the sum of the block sizes. */
    method SpaceAllocated() returns (n: nat)
      requires Valid()
      ensures n == Sum(sizes)
    {
      n := spaceAllocated;
    }

    /** CleanupList runs the cleanups of each block from `start` up to the block's end rounded
        down to 8, and the blocks from the newest to the oldest. */
    method CleanupList() returns (executed: seq<Cleanup>)
      requires Valid()
      modifies this`blocks
      ensures Valid()
      ensures |registered| == |sizes|
      ensures executed == RunOfBlocks(registered, AlignedEnds(sizes))
      // All of them, once, in reverse, exactly when no unaligned block has a lone node.
      ensures executed == Reverse(Flatten(registered)) <==> NoLoneUnaligned(registered, AlignedEnds(sizes))
      // So always when the caller's block and the policy come in multiples of 8.
      ensures AllAligned(sizes) ==> executed == Reverse(Flatten(registered))
    {
      hide State.Valid, State.Linked, RunOfBlocks, Flatten, Reverse, NoLoneUnaligned, AllAligned;
      Now().Facts();
      AlignedHaveNoLone(registered, sizes);
      Now().SyncKeeps();
      blocks := blocks[head := blocks[head].(start := limit)];
      executed := CleanupBlocks();
      CleanupsRunInReverse(registered, AlignedEnds(sizes));
    }

    method CleanupBlocks() returns (executed: seq<Cleanup>)
      requires Valid() && Now().StartsKnown()
      ensures executed == RunOfBlocks(registered, AlignedEnds(sizes))
    {
      hide State.Valid, State.Linked, RunOfBlocks, RunOfBlock;
      Now().Facts();
      var b := head;
      executed := [];
      ghost var k := |chain| - 1;
      ghost var al := AlignedEnds(sizes);
      ghost var all := RunOfBlocks(registered, al);
      assert registered[..k + 1] == registered && al[..k + 1] == al;
      while true
        invariant 0 <= k < |chain| && b == chain[k]
        invariant executed + RunOfBlocks(registered[..k + 1], al[..k + 1]) == all
        decreases k
      {
        var run := CleanupBlock(b, k);
        RunStep(registered, al, k);
        ghost var older := RunOfBlocks(registered[..k], al[..k]);
        assert executed + (run + older) == (executed + run) + older;
        executed := executed + run;
        b := NextBlock(b, k);
        if b == NULL {
          break;
        }
        k := k - 1;
      }
      NothingLeft(registered[..0], al[..0]);
    }

    method NextBlock(b: nat, ghost k: nat) returns (next: nat)
      requires Valid() && k < |chain| && b == chain[k]
      ensures next == if k == 0 then NULL else chain[k - 1]
      ensures next == NULL <==> k == 0
    {
      assert b in chain && Now().HeaderAt(k);
      assert k > 0 ==> chain[k - 1] in chain && Now().HeaderAt(k - 1);
      next := blocks[b].next;
    }

    method CleanupBlock(b: nat, ghost k: nat) returns (executed: seq<Cleanup>)
      requires Valid() && Now().StartsKnown()
      requires k < |chain| && b == chain[k]
      ensures executed == RunOfBlock(registered[k], AlignedEnds(sizes)[k])
    {
      hide State.Valid, State.Linked, Reverse;
      Now().BlockFacts(k);
      Now().Facts();
      ghost var r := registered[k];
      var end := b + AlignDown8(blocks[b].size);
      var it := blocks[b].start;
      // The difference of two node pointers; it may be one off when the block is unaligned.
      var num := (end - it) / CLEANUP_SIZE;
      executed := [];
      assert AlignDown8(sizes[k]) == sizes[k] - sizes[k] % 8;
      if r == [] {
        ReverseEmpty(r);
      }
      if num > 0 {
        ghost var m := |r|;
        assert r[m..] == [];
        ReverseEmpty(r[m..]);
        while it < end
          invariant 0 <= m <= |r| && it == Now().Top(k) - CLEANUP_SIZE * m
          invariant executed == Reverse(r[m..])
          decreases m
        {
          assert Now().NodeAt(k, m - 1);
          ReverseStep(r, m - 1);
          executed := executed + [nodes[it]];
          it := it + CLEANUP_SIZE;
          m := m - 1;
        }
        assert r[0..] == r;
      }
    }
  }
}
