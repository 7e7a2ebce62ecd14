/** Sizes, alignment and block growth of the protobuf arena (64-bit layout). */
module ArenaLayout {

  // sizeof(Block): next, size, start.
  const BLOCK_HEADER_SIZE := 24

  // sizeof(CleanupNode): elem, cleanup.
  const CLEANUP_SIZE := 16

  // sizeof(SerialArena): owner_, head_, next_, space_used_, space_allocated_, ptr_, limit_.
  const SERIAL_ARENA_SIZE := 56

  // sizeof(AllocationPolicy): two sizes and three pointers.
  const POLICY_SIZE := 40

  datatype Policy = Policy(startBlockSize: nat, maxBlockSize: nat)

  // What AllocateMemory uses when the arena has no policy.
  const DEFAULT_POLICY := Policy(256, 8192)

  function Max(a: nat, b: nat): nat {
    if a < b then b else a
  }

  function Min(a: nat, b: nat): nat {
    if a < b then a else b
  }

  /** `n & -8`. */
  function AlignDown8(n: nat): nat {
    n / 8 * 8
  }

  /** `(n + 7) & -8`. */
  function AlignUpTo8(n: nat): (r: nat)
    ensures n <= r < n + 8 && r % 8 == 0
  {
    AlignDown8(n + 7)
  }

  /** The size AllocateMemory asks the system allocator for. */
  function BlockSize(policy: Policy, last: nat, minBytes: nat): nat {
    Max(if last != 0 then Min(2 * last, policy.maxBlockSize) else policy.startBlockSize,
        BLOCK_HEADER_SIZE + minBytes)
  }

  lemma BlockSizeFits(policy: Policy, last: nat, n: nat)
    ensures BlockSize(policy, last, n) >= BLOCK_HEADER_SIZE + n
  {
  }

  /** The first block has the policy's start size, a later one twice the size of the one before but
      no more than the limit; unless the request, with the block's header, needs more. */
  lemma BlockSizeExact(policy: Policy, last: nat, n: nat)
    ensures last == 0 && 24 + n <= policy.startBlockSize ==> BlockSize(policy, last, n) == policy.startBlockSize
    ensures last == 0 && 24 + n > policy.startBlockSize ==> BlockSize(policy, last, n) == 24 + n
    ensures last > 0 && 24 + n <= 2 * last <= policy.maxBlockSize ==> BlockSize(policy, last, n) == 2 * last
    ensures last > 0 && 24 + n <= policy.maxBlockSize <= 2 * last ==> BlockSize(policy, last, n) == policy.maxBlockSize
    ensures last > 0 && (24 + n >= 2 * last || 24 + n >= policy.maxBlockSize) ==> BlockSize(policy, last, n) == 24 + n
  {
  }

  function Pow2(k: nat): (r: nat)
    ensures r >= 1
  {
    if k == 0 then 1 else 2 * Pow2(k - 1)
  }

  /** A chain of block sizes, oldest first, each obtained from its predecessor. */
  predicate Grown(policy: Policy, sizes: seq<nat>) {
    && (forall i | 0 <= i < |sizes| :: sizes[i] >= BLOCK_HEADER_SIZE)
    && forall i | 0 < i < |sizes| :: sizes[i] >= Min(2 * sizes[i - 1], policy.maxBlockSize)
  }

  /** Every block AllocateNewBlock adds continues the chain. */
  lemma BlockSizeGrows(policy: Policy, sizes: seq<nat>, n: nat)
    requires Grown(policy, sizes) && sizes != []
    ensures Grown(policy, sizes + [BlockSize(policy, sizes[|sizes| - 1], n)])
  {
  }

  /** All blocks have sizes that are multiples of 8. */
  predicate AllAligned(sizes: seq<nat>) {
    forall i | 0 <= i < |sizes| :: sizes[i] % 8 == 0
  }

  predicate AlignedPolicy(policy: Policy) {
    policy.startBlockSize % 8 == 0 && policy.maxBlockSize % 8 == 0
  }

  /** With a policy in multiples of 8, as the default one is, all blocks stay so. */
  lemma BlockSizeKeepsAligned(policy: Policy, sizes: seq<nat>, n: nat)
    requires AlignedPolicy(policy) && AllAligned(sizes) && sizes != [] && n % 8 == 0
    ensures AllAligned(sizes + [BlockSize(policy, sizes[|sizes| - 1], n)])
  {
    BlockSizeAligned(policy, sizes[|sizes| - 1], n);
  }

  lemma BlockSizeAligned(policy: Policy, last: nat, n: nat)
    requires AlignedPolicy(policy)
    requires last % 8 == 0 && n % 8 == 0
    ensures BlockSize(policy, last, n) % 8 == 0
  {
    TwiceAligned(last);
    assert (BLOCK_HEADER_SIZE + n) % 8 == 0;
  }

  /** Both at once. */
  lemma BlockSizeKeeps(policy: Policy, sizes: seq<nat>, n: nat)
    requires sizes != []
    ensures var after := sizes + [BlockSize(policy, sizes[|sizes| - 1], n)];
            && (Grown(policy, sizes) ==> Grown(policy, after))
            && (AlignedPolicy(policy) && n % 8 == 0 && AllAligned(sizes) ==> AllAligned(after))
  {
    hide BlockSize, Grown, AllAligned, AlignedPolicy;
    if Grown(policy, sizes) {
      BlockSizeGrows(policy, sizes, n);
    }
    if AlignedPolicy(policy) && n % 8 == 0 && AllAligned(sizes) {
      BlockSizeKeepsAligned(policy, sizes, n);
    }
  }

  lemma TwiceAligned(n: nat)
    requires n % 8 == 0
    ensures 2 * n % 8 == 0
  {
    assert n == 8 * (n / 8);
  }

  /** Growth is geometric up to the policy's limit, whatever the sizes of the requests. */
  lemma {:induction false} GrowthIsGeometric(policy: Policy, sizes: seq<nat>, k: nat)
    requires Grown(policy, sizes) && k < |sizes|
    ensures sizes[k] >= Min(Pow2(k) * sizes[0], policy.maxBlockSize)
  {
    if k > 0 {
      GrowthIsGeometric(policy, sizes, k - 1);
      var p, f := Pow2(k - 1), sizes[0];
      assert Pow2(k) == 2 * p;
      assert (2 * p) * f == 2 * (p * f);
    } else {
      assert Pow2(0) * sizes[0] == sizes[0];
    }
  }

  // ---------------------------------------------------------------- masks

  // One more than the largest machine word.
  const WORD := 0x1_0000_0000_0000_0000

  /** `x & y`, bit by bit. */
  function And(x: nat, y: nat): nat {
    if x == 0 || y == 0 then 0
    else 2 * And(x / 2, y / 2) + if x % 2 == 1 && y % 2 == 1 then 1 else 0
  }

  /** `-n`, that is `~n + 1`, in a machine word. */
  function Negated(n: nat): nat
    requires 0 < n <= WORD
  {
    WORD - n
  }

  /** `AlignTo`: the masking with `~align + 1` written as arithmetic, see AlignToMasks. */
  function AlignTo(p: nat, align: nat): nat
    requires align > 0
  {
    var x := p + align - 1;
    x - x % align
  }

  lemma DivisionIsUnique(x: nat, d: nat, q: nat, r: nat)
    requires r < d && x == d * q + r
    ensures x % d == r
  {
    assert x == d * (x / d) + x % d;
    var e: int := q - x / d;
    assert d * e == x % d - r;
    MulAwayFromZero(d, e);
  }

  lemma ModTwice(x: nat, m: nat)
    requires m > 0
    ensures x % (2 * m) == 2 * (x / 2 % m) + x % 2
  {
    var h := x / 2;
    var q, r := h / m, h % m;
    assert h == m * q + r;
    assert 2 * (m * q) == (2 * m) * q;
    DivisionIsUnique(x, 2 * m, q, 2 * r + x % 2);
  }

  /** A mask of ones. */
  lemma {:induction false} AndOnes(x: nat, n: nat)
    requires x < Pow2(n)
    ensures And(x, Pow2(n) - 1) == x
    decreases n
  {
    if n > 0 && x > 0 {
      AndOnes(x / 2, n - 1);
      assert (Pow2(n) - 1) / 2 == Pow2(n - 1) - 1 && (Pow2(n) - 1) % 2 == 1;
    }
  }

  lemma AndEven(x: nat, y: nat)
    ensures And(x, 2 * y) == 2 * And(x / 2, y)
  {
    assert 2 * y / 2 == y && 2 * y % 2 == 0;
  }

  /** Masking with ones from bit `k` up to bit `n` takes away the remainder modulo 2^k. */
  lemma {:induction false} AndHigh(x: nat, n: nat, k: nat)
    requires k <= n && x < Pow2(n)
    ensures Pow2(k) <= Pow2(n)
    ensures And(x, Pow2(n) - Pow2(k)) == x - x % Pow2(k)
    decreases n
  {
    hide And;
    if k == 0 {
      AndOnes(x, n);
    } else {
      AndHigh(x / 2, n - 1, k - 1);
      var m := Pow2(k - 1);
      ModTwice(x, m);
      AndEven(x, Pow2(n - 1) - m);
      Halved(x, x / 2 % m, x % (2 * m));
    }
  }

  lemma Halved(x: nat, r: nat, whole: nat)
    requires whole == 2 * r + x % 2 && r <= x / 2
    ensures 2 * (x / 2 - r) == x - whole
  {
  }

  lemma {:induction false} Pow2Sum(a: nat, b: nat)
    ensures Pow2(a + b) == Pow2(a) * Pow2(b)
    decreases a
  {
    if a > 0 {
      Pow2Sum(a - 1, b);
      assert a + b - 1 == (a - 1) + b;
      assert (2 * Pow2(a - 1)) * Pow2(b) == 2 * (Pow2(a - 1) * Pow2(b));
    }
  }

  lemma SmallPowers()
    ensures Pow2(3) == 8 && Pow2(4) == 16
  {
    assert Pow2(1) == 2 && Pow2(2) == 4;
  }

  lemma WordIsPow2()
    ensures Pow2(3) == 8
    ensures Pow2(64) == WORD
  {
    hide Pow2;
    SmallPowers();
    Pow2Sum(4, 4);
    Pow2Sum(8, 8);
    Pow2Sum(16, 16);
    Pow2Sum(32, 32);
  }

  /** The masking in AlignTo: for an alignment 2^k, as long as the address does not wrap around. */
  lemma AlignToMasks(p: nat, k: nat)
    requires k <= 64 && p + Pow2(k) - 1 < WORD
    ensures Pow2(k) <= WORD
    ensures And(p + Pow2(k) - 1, Negated(Pow2(k))) == AlignTo(p, Pow2(k))
  {
    hide Pow2, And;
    WordIsPow2();
    AndHigh(p + Pow2(k) - 1, 64, k);
  }

  /** And in `& -8`. */
  lemma AlignDown8Masks(n: nat)
    requires n < WORD
    ensures And(n, Negated(8)) == AlignDown8(n)
  {
    hide Pow2, And;
    WordIsPow2();
    AndHigh(n, 64, 3);
  }

  lemma Pow2Even(k: nat)
    requires k > 0
    ensures Pow2(k) % 2 == 0 && Pow2(k) >= 2
  {
  }

  lemma RoundUp(p: nat, align: nat) returns (k: nat)
    requires align > 0
    ensures AlignTo(p, align) == k * align
    ensures p <= k * align < p + align
  {
    var x := p + align - 1;
    k := x / align;
    assert x == align * (x / align) + x % align;
  }

  /** An over-aligned request for `n` bytes takes `n + align - 8` bytes from an 8-aligned
      pointer `p`.  The pointer handed out is the first multiple of `align` from `p` on, and
      its `n` bytes lie within those taken. */
  lemma OveralignedFits(p: nat, n: nat, k: nat)
    requires k > 0 && p % 8 == 0
    ensures var align := 8 * Pow2(k);
            var q := AlignTo(p, align);
            && q % align == 0
            && p <= q
            && q + n <= p + (n + align - 8)
  {
    hide AlignTo, Pow2;
    var b := Pow2(k);
    var align := 8 * b;
    var j := RoundUp(p, align);
    MultipleHasNoRemainder(j, align);
    LastMultipleOf8(p, j, b);
  }

  /** Multiples of 8 less than `8 * b` apart are at most `8 * b - 8` apart. */
  lemma LastMultipleOf8(p: nat, j: nat, b: nat)
    requires p % 8 == 0 && j * (8 * b) < p + 8 * b
    ensures j * (8 * b) <= p + 8 * b - 8
  {
    assert j * (8 * b) == 8 * (j * b);
    var q := j * b;
    assert p == 8 * (p / 8);
  }

  lemma MulAwayFromZero(m: nat, d: int)
    ensures d >= 1 ==> m * d >= m
    ensures d <= -1 ==> m * d + m <= 0
  {
    if d <= -1 {
      assert m * d + m == m * (d + 1);
      assert m * (-d - 1) >= 0;
    }
  }

  lemma MultipleHasNoRemainder(j: nat, m: nat)
    requires m > 0
    ensures (j * m) % m == 0
  {
    var q := j * m;
    var d := j - q / m;
    MulAwayFromZero(m, d);
    assert q == m * (q / m) + q % m;
    assert m * d == q % m;
  }
}
