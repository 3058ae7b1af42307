/**
  One 4MB segment of the freemap: 8 words of 32 two-bit fields, one field per 16KB block,
  plus the linear iterator that packs smaller allocations into a partly used block.
 */
module FreemapSegment {
  import Prelude

  const ALLOC_MIN: nat := 1024
  const BLOCK_RADIX: nat := 14
  const BLOCK_SIZE: nat := 16384
  const PBUFSIZE: nat := 65536
  const SEGSIZE: nat := 0x40_0000
  const ELEMENTS: nat := 8
  const BLOCKS_PER_ELEMENT: nat := 32
  const BLOCKS: nat := 256

  /** The bit pairs 00, 01, 10 and 11. */
  datatype BlockState = Free | Reserved | Staged | Allocated

  // --------------------------------------------------- counting free blocks

  function CountFree(s: seq<BlockState>): (n: nat)
    ensures n <= |s|
  {
    if s == [] then 0 else CountFree(s[..|s| - 1]) + if s[|s| - 1] == Free then 1 else 0
  }

  lemma {:induction false} CountFreeUpdate(s: seq<BlockState>, i: nat, v: BlockState)
    requires i < |s|
    ensures CountFree(s[i := v])
         == CountFree(s) + (if v == Free then 1 else 0) - (if s[i] == Free then 1 else 0)
    decreases |s|
  {
    var n := |s| - 1;
    if i == n {
      assert s[i := v][..n] == s[..n];
    } else {
      assert s[i := v][..n] == s[..n][i := v];
      CountFreeUpdate(s[..n], i, v);
    }
  }

  lemma {:induction false} CountFreeAll(s: seq<BlockState>)
    requires forall b :: 0 <= b < |s| ==> s[b] == Free
    ensures CountFree(s) == |s|
  {
    if s != [] { CountFreeAll(s[..|s| - 1]); }
  }

  lemma {:induction false} CountFreeNone(s: seq<BlockState>)
    requires forall b :: 0 <= b < |s| ==> s[b] != Free
    ensures CountFree(s) == 0
  {
    if s != [] { CountFreeNone(s[..|s| - 1]); }
  }

  // ------------------------------------------------------------- extents

  datatype Extent = Extent(offset: nat, size: nat)

  ghost predicate Overlap(a: Extent, b: Extent) {
    a.offset < b.offset + b.size && b.offset < a.offset + a.size
  }

  ghost predicate Touches(e: Extent, b: nat) {
    Overlap(e, Extent(b * BLOCK_SIZE, BLOCK_SIZE))
  }

  /** Inside the segment and one 64KB device buffer, and a fragment of one block or whole blocks. */
  ghost predicate Placed(e: Extent) {
    && ALLOC_MIN <= e.size <= PBUFSIZE
    && e.offset + e.size <= SEGSIZE
    && e.offset / PBUFSIZE == (e.offset + e.size - 1) / PBUFSIZE
    && BlockShaped(e)
  }

  predicate BlockShaped(e: Extent) {
    if e.size % BLOCK_SIZE == 0 then e.offset % BLOCK_SIZE == 0
    else e.offset % BLOCK_SIZE + e.size <= BLOCK_SIZE
  }

  // ------------------------------------------------------ runs of blocks

  /** (word & mask) == 0 for the mask of `n` blocks from `b` on. */
  predicate RunFree(s: seq<BlockState>, b: nat, n: nat) {
    b + n <= |s| && forall k :: b <= k < b + n ==> s[k] == Free
  }

  function FillRun(s: seq<BlockState>, b: nat, n: nat): (r: seq<BlockState>)
    requires b + n <= |s|
    ensures |r| == |s|
    ensures forall k :: 0 <= k < |s| ==> r[k] == if b <= k < b + n then Allocated else s[k]
    decreases n
  {
    if n == 0 then s else FillRun(s, b, n - 1)[b + n - 1 := Allocated]
  }

  lemma {:induction false} CountFreeFill(s: seq<BlockState>, b: nat, n: nat)
    requires RunFree(s, b, n)
    ensures CountFree(FillRun(s, b, n)) == CountFree(s) - n
    decreases n
  {
    if n > 0 {
      CountFreeFill(s, b, n - 1);
      CountFreeUpdate(FillRun(s, b, n - 1), b + n - 1, Allocated);
    }
  }

  /** Blocks one allocation of 1 << radix bytes takes: at least one. */
  function RunLength(radix: nat): nat {
    if radix <= BLOCK_RADIX then 1 else if radix == 15 then 2 else 4
  }

  /** 1 << radix for the radices the allocator takes, 10 to 16. */
  function Size(radix: nat): nat {
    match radix
    case 10 => 1024 case 11 => 2048 case 12 => 4096 case 13 => 8192
    case 14 => 16384 case 15 => 32768 case _ => 65536
  }

  /** These are the powers of two, and the blocks that cover them. */
  lemma {:induction false} SizeIs(radix: nat)
    requires 10 <= radix <= 16
    ensures Size(radix) == Prelude.Pow2(radix)
    ensures RunLength(radix) * BLOCK_SIZE == if Size(radix) < BLOCK_SIZE then BLOCK_SIZE else Size(radix)
    ensures Size(14) == BLOCK_SIZE && Size(10) == ALLOC_MIN && Size(16) == PBUFSIZE
    ensures ELEMENTS * BLOCKS_PER_ELEMENT == BLOCKS && BLOCKS * BLOCK_SIZE == SEGSIZE == 64 * PBUFSIZE
  {
    assert Prelude.Pow2(4) == 16;
    assert Prelude.Pow2(8) == 16 * Prelude.Pow2(4);
    assert Prelude.Pow2(10) == 4 * Prelude.Pow2(8);
    assert Prelude.Pow2(12) == 4 * Prelude.Pow2(10);
    assert Prelude.Pow2(14) == 4 * Prelude.Pow2(12);
    assert Prelude.Pow2(16) == 4 * Prelude.Pow2(14);
  }

  /** Whether an allocation of `size` bytes fits behind the linear iterator, inside its block. */
  predicate LinearFits(linear: nat, size: nat) {
    linear % BLOCK_SIZE + size <= BLOCK_SIZE && linear % BLOCK_SIZE != 0 && linear < SEGSIZE
  }

  /** The consistency of one segment. */
  ghost predicate Consistent(s: seq<BlockState>, linear: nat, avail: int) {
    && |s| == BLOCKS
    && linear <= SEGSIZE && linear % ALLOC_MIN == 0
    && avail == BLOCK_SIZE * CountFree(s)
    && (linear % BLOCK_SIZE != 0 ==> s[linear / BLOCK_SIZE] == Allocated)
  }

  /** The part of its block the linear iterator still has to give. */
  function Tail(linear: nat): Extent
  {
    Extent(linear, BLOCK_SIZE - linear % BLOCK_SIZE)
  }

  /**
    `issued` could be what the allocator has handed out of this segment: extents placed
    properly, pairwise disjoint, in blocks marked 11, none in the tail of the linear iterator.
   */
  ghost predicate AccountsFor(issued: set<Extent>, s: seq<BlockState>, linear: nat)
  {
    && |s| == BLOCKS
    && (forall e :: e in issued ==> Placed(e))
    && (forall e, b: nat {:trigger Touches(e, b)} :: e in issued && b < BLOCKS && Touches(e, b) ==> s[b] == Allocated)
    && (forall e, f :: e in issued && f in issued && e != f ==> !Overlap(e, f))
    && (linear % BLOCK_SIZE != 0 ==> forall e :: e in issued ==> !Overlap(e, Tail(linear)))
  }

  lemma {:induction false} LinearArithmetic(linear: nat, size: nat)
    requires LinearFits(linear, size) && ALLOC_MIN <= size && size % ALLOC_MIN == 0
    requires linear % ALLOC_MIN == 0
    ensures linear + size <= SEGSIZE && (linear + size) % ALLOC_MIN == 0
    ensures (linear + size) % BLOCK_SIZE != 0 ==> (linear + size) / BLOCK_SIZE == linear / BLOCK_SIZE
    ensures (linear + size) % BLOCK_SIZE != 0 ==>
              Tail(linear + size).offset + Tail(linear + size).size == Tail(linear).offset + Tail(linear).size
    ensures forall b: nat {:trigger Touches(Extent(linear, size), b)} ::
              Touches(Extent(linear, size), b) ==> b == linear / BLOCK_SIZE
    ensures Placed(Extent(linear, size))
  {
    SameBlock(linear, size);
    hide BlockShaped;
  }

  lemma {:induction false} SameBlock(linear: nat, size: nat)
    requires LinearFits(linear, size) && ALLOC_MIN <= size && size % ALLOC_MIN == 0
    requires linear % ALLOC_MIN == 0
    ensures linear + size <= SEGSIZE && (linear + size) % ALLOC_MIN == 0 && BlockShaped(Extent(linear, size))
    ensures (linear + size) % BLOCK_SIZE != 0 ==> (linear + size) / BLOCK_SIZE == linear / BLOCK_SIZE
    ensures (linear + size - 1) / BLOCK_SIZE == linear / BLOCK_SIZE
  {
    var q, m := linear / BLOCK_SIZE, linear % BLOCK_SIZE;
    assert linear == q * BLOCK_SIZE + m;
    assert linear + size == q * BLOCK_SIZE + (m + size);
  }

  /** What the linear path hands out meets nothing issued before. */
  lemma {:induction false} IssueLinear(issued: set<Extent>, s: seq<BlockState>, linear: nat, avail: int, size: nat)
    requires Consistent(s, linear, avail) && AccountsFor(issued, s, linear)
    requires LinearFits(linear, size) && ALLOC_MIN <= size && size % ALLOC_MIN == 0
    ensures forall e :: e in issued ==> !Overlap(e, Extent(linear, size))
    ensures AccountsFor(issued + {Extent(linear, size)}, s, linear + size)
    ensures Consistent(s, linear + size, avail)
  {
    var x := Extent(linear, size);
    LinearArithmetic(linear, size);
    hide Touches, Placed, CountFree;
    forall e | e in issued ensures !Overlap(e, x) && !Overlap(x, e) {
      assert !Overlap(e, Tail(linear));
    }
    if (linear + size) % BLOCK_SIZE != 0 {
      forall e | e in issued + {x} ensures !Overlap(e, Tail(linear + size)) {
        if e in issued { assert !Overlap(e, Tail(linear)); }
      }
    }
  }

  lemma {:induction false} RunArithmetic(b: nat, radix: nat)
    requires 10 <= radix <= 16
    requires b % RunLength(radix) == 0 && b + RunLength(radix) <= BLOCKS
    ensures var x := Extent(b * BLOCK_SIZE, Size(radix));
            && Placed(x)
            && forall c: nat {:trigger Touches(x, c)} :: Touches(x, c) ==> b <= c < b + RunLength(radix)
    ensures Size(radix) % BLOCK_SIZE != 0 ==>
            && RunLength(radix) == 1
            && (b * BLOCK_SIZE + Size(radix)) / BLOCK_SIZE == b
            && (b * BLOCK_SIZE + Size(radix)) % BLOCK_SIZE != 0
            && (b * BLOCK_SIZE + Size(radix)) % ALLOC_MIN == 0
            && Tail(b * BLOCK_SIZE + Size(radix)) == Extent(b * BLOCK_SIZE + Size(radix), BLOCK_SIZE - Size(radix))
    ensures Size(radix) <= RunLength(radix) * BLOCK_SIZE
  {
  }

  lemma {:induction false} DisjointBlocks(e: Extent, b: nat, n: nat)
    requires e.size > 0 && e.offset + e.size <= SEGSIZE && b + n <= BLOCKS && n > 0
    requires forall c: nat {:trigger Touches(e, c)} :: c < BLOCKS && Touches(e, c) ==> !(b <= c < b + n)
    ensures forall x: Extent {:trigger Overlap(e, x)} ::
              b * BLOCK_SIZE <= x.offset && x.offset + x.size <= (b + n) * BLOCK_SIZE && x.size > 0 ==> !Overlap(e, x)
  {
    if e.offset < (b + n) * BLOCK_SIZE && b * BLOCK_SIZE < e.offset + e.size {
      var c := if e.offset < b * BLOCK_SIZE then b else e.offset / BLOCK_SIZE;
      assert Touches(e, c) && b <= c < b + n;
    }
  }

  /** Where the linear iterator points after a run at block `b`. */
  function NextLinear(linear: nat, b: nat, radix: nat): nat {
    if Size(radix) % BLOCK_SIZE != 0 then b * BLOCK_SIZE + Size(radix) else linear
  }

  /** What a run of free blocks hands out meets nothing issued before. */
  lemma {:induction false} IssueRun(issued: set<Extent>, s: seq<BlockState>, linear: nat, avail: int, b: nat,
                                    radix: nat)
    requires Consistent(s, linear, avail) && AccountsFor(issued, s, linear) && 10 <= radix <= 16
    requires b % RunLength(radix) == 0 && RunFree(s, b, RunLength(radix))
    ensures var x := Extent(b * BLOCK_SIZE, Size(radix));
            && (forall e :: e in issued ==> !Overlap(e, x))
            && AccountsFor(issued + {x}, FillRun(s, b, RunLength(radix)), NextLinear(linear, b, radix))
    ensures Consistent(FillRun(s, b, RunLength(radix)), NextLinear(linear, b, radix),
                       avail - RunLength(radix) * BLOCK_SIZE)
  {
    var n := RunLength(radix);
    var x := Extent(b * BLOCK_SIZE, Size(radix));
    var s' := FillRun(s, b, n);
    RunArithmetic(b, radix);
    CountFreeFill(s, b, n);
    hide CountFree, FillRun, Size;
    forall e | e in issued
      ensures !Overlap(e, x) && !Overlap(x, e)
      ensures Size(radix) % BLOCK_SIZE != 0 ==> !Overlap(e, Tail(b * BLOCK_SIZE + Size(radix)))
    {
      forall c: nat {:trigger Touches(e, c)} | c < BLOCKS && Touches(e, c) ensures !(b <= c < b + n) {
        assert s[c] == Allocated;
      }
      DisjointBlocks(e, b, n);
    }
    if linear % BLOCK_SIZE != 0 {
      var t := linear / BLOCK_SIZE;
      assert s[t] == Allocated && !(b <= t < b + n);
      assert !Overlap(x, Tail(linear));
    }
  }

  // ----------------------------------------------------------- allocation

  datatype AllocResult = ENOSPC | Allotted(offset: nat)

  const TYPE_DATA: nat := 3

  /** No aligned run of `n` free blocks. */
  ghost predicate NoRun(s: seq<BlockState>, n: nat)
    requires n > 0
  {
    forall b: nat {:trigger RunFree(s, b, n)} :: b % n == 0 && b + n <= BLOCKS ==> !RunFree(s, b, n)
  }

  /** The segment cannot satisfy the radix: neither behind the iterator nor in a free run. */
  ghost predicate NoRoom(s: seq<BlockState>, linear: nat, radix: nat) {
    !LinearFits(linear, Size(radix)) && NoRun(s, RunLength(radix))
  }

  /** `x` is disjoint from everything issued and lies where an allocation may. */
  ghost predicate NewExtent(issued: set<Extent>, x: Extent) {
    Placed(x) && forall e :: e in issued ==> !Overlap(e, x)
  }

  /** What one segment holds. */
  datatype Segment = Segment(blocks: seq<BlockState>, linear: nat, bclass: nat, avail: int)

  function FreshSegment(reserved: bool): (v: Segment)
    ensures |v.blocks| == BLOCKS
  {
    if reserved then Segment(seq(BLOCKS, _ => Allocated), SEGSIZE, 0, 0)
    else Segment(seq(BLOCKS, _ => Free), 0, 0, SEGSIZE)
  }

  lemma {:induction false} FreshConsistent(reserved: bool)
    ensures Consistent(FreshSegment(reserved).blocks, FreshSegment(reserved).linear, FreshSegment(reserved).avail)
  {
    if reserved { CountFreeNone(FreshSegment(true).blocks); } else { CountFreeAll(FreshSegment(false).blocks); }
  }

  /** The run to take: for data of 16KB and up the one its key suggests, if that is free, else the first free one. */
  ghost predicate Picked(s: seq<BlockState>, wantClass: nat, subKey: nat, radix: nat, b: nat) {
    var n, suggested := RunLength(radix), (subKey % SEGSIZE) / BLOCK_SIZE;
    if wantClass / 256 == TYPE_DATA && radix >= BLOCK_RADIX && RunFree(s, suggested, n) then b == suggested
    else forall c: nat :: c % n == 0 && c < b ==> !RunFree(s, c, n)
  }

  /**
    Serving a request from segment `v` leaves `v'`: from behind the iterator if that fits,
    else from an aligned run of free blocks.
   */
  ghost predicate Serves(v: Segment, v': Segment, q: Request, offset: nat)
  {
    && v'.bclass == (if v.bclass == 0 then q.wantClass else v.bclass)
    && if LinearFits(v.linear, Size(q.radix)) then
         offset == v.linear && v'.linear == offset + Size(q.radix) && v'.blocks == v.blocks && v'.avail == v.avail
       else
         var b := offset / BLOCK_SIZE;
         && offset == b * BLOCK_SIZE && b % RunLength(q.radix) == 0 && RunFree(v.blocks, b, RunLength(q.radix))
         && v'.blocks == FillRun(v.blocks, b, RunLength(q.radix))
         && v'.linear == NextLinear(v.linear, b, q.radix)
         && v'.avail == v.avail - RunLength(q.radix) * BLOCK_SIZE
         && Picked(v.blocks, q.wantClass, q.subKey, q.radix, b)
  }

  /** Allocation never makes room: a segment without room for one radix stays so whatever it serves. */
  lemma {:induction false} RoomShrinks(v: Segment, v': Segment, q: Request, offset: nat, radix: nat)
    requires Serves(v, v', q, offset) && 10 <= q.radix <= 16 && 10 <= radix <= 16
    requires |v.blocks| == BLOCKS && NoRoom(v.blocks, v.linear, radix)
    ensures NoRoom(v'.blocks, v'.linear, radix)
  {
    if !LinearFits(v.linear, Size(q.radix)) {
      var b := offset / BLOCK_SIZE;
      hide Size, LinearFits, FillRun;
      assert RunFree(v.blocks, b, 1);
      assert RunLength(radix) > 1;
      forall c: nat | c % RunLength(radix) == 0 && c + RunLength(radix) <= BLOCKS
        ensures !RunFree(v'.blocks, c, RunLength(radix))
      {
        assert !RunFree(v.blocks, c, RunLength(radix));
      }
    } else {
      StillTooSmall(v.linear, q.radix, radix);
    }
  }

  lemma {:induction false} StillTooSmall(linear: nat, used: nat, radix: nat)
    requires 10 <= used <= 16 && LinearFits(linear, Size(used)) && !LinearFits(linear, Size(radix))
    ensures !LinearFits(linear + Size(used), Size(radix))
  {
    var q, m := linear / BLOCK_SIZE, linear % BLOCK_SIZE;
    assert linear == q * BLOCK_SIZE + m;
    assert linear + Size(used) == q * BLOCK_SIZE + (m + Size(used));
  }

  /** The first block that recovery marks for an extent. */
  function RecoveredBlock(dataOff: nat): (b: nat)
    requires dataOff < SEGSIZE
    ensures b + 4 <= BLOCKS
  {
    dataOff / BLOCK_SIZE / BLOCKS_PER_ELEMENT * BLOCKS_PER_ELEMENT + dataOff / BLOCK_SIZE % 16
  }

  predicate RunMarked(s: seq<BlockState>, b: nat, n: nat) {
    b + n <= |s| && forall k :: b <= k < b + n ==> s[k] == Allocated
  }

  lemma {:induction false} RecoveredConsistent(s: seq<BlockState>, s': seq<BlockState>, linear: nat, linear': nat,
                                               avail: int, avail': int,
                                               b: nat, n: nat)
    requires Consistent(s, linear, avail) && b + n <= BLOCKS && s' == FillRun(s, b, n)
    requires avail' == BLOCK_SIZE * CountFree(s') && (linear' == linear || linear' == 0)
    ensures Consistent(s', linear', avail')
  {
  }

  class Bmap {
    const bitmapq: array<BlockState>
    var linear: nat
    var bclass: nat
    var avail: int

    ghost function View(): Segment
      reads this, bitmapq
    {
      Segment(bitmapq[..], linear, bclass, avail)
    }

    ghost predicate Valid()
      reads this, bitmapq
    {
      Consistent(bitmapq[..], linear, avail)
    }

    ghost predicate Accounts(issued: set<Extent>)
      requires Valid()
      reads this, bitmapq
    {
      AccountsFor(issued, bitmapq[..], linear)
    }

    constructor ()
      ensures fresh(bitmapq) && bitmapq.Length == BLOCKS
    {
      bitmapq := new BlockState[BLOCKS](_ => Free);
      linear, bclass, avail := 0, 0, SEGSIZE;
    }

    /** A segment as the freemap leaf is first laid out: all free, or reserved and all allocated. */
    method Init(reserved: bool)
      requires bitmapq.Length == BLOCKS
      modifies this, bitmapq
      ensures View() == FreshSegment(reserved)
      ensures Valid() && Accounts({})
    {
      forall k | 0 <= k < BLOCKS { bitmapq[k] := if reserved then Allocated else Free; }
      linear := if reserved then SEGSIZE else 0;
      avail := if reserved then 0 else SEGSIZE;
      bclass := 0;
      assert bitmapq[..] == FreshSegment(reserved).blocks;
      FreshConsistent(reserved);
    }

    /** General element scan: the first aligned free run of `n` blocks, word by word. */
    method FindRun(n: nat) returns (found: bool, b: nat)
      requires bitmapq.Length == BLOCKS && (n == 1 || n == 2 || n == 4)
      ensures found ==> b % n == 0 && b + n <= BLOCKS && RunFree(bitmapq[..], b, n)
      ensures found ==> forall c: nat :: c % n == 0 && c < b ==> !RunFree(bitmapq[..], c, n)
      ensures found <==> !NoRun(bitmapq[..], n)
    {
      hide RunFree;
      var i := 0;
      while i < ELEMENTS
        invariant 0 <= i <= ELEMENTS
        invariant forall c: nat :: c % n == 0 && c < i * BLOCKS_PER_ELEMENT ==> !RunFree(bitmapq[..], c, n)
      {
        var j := 0;
        while j < BLOCKS_PER_ELEMENT
          invariant 0 <= j <= BLOCKS_PER_ELEMENT && j % n == 0
          invariant forall c: nat :: c % n == 0 && c < i * BLOCKS_PER_ELEMENT + j ==> !RunFree(bitmapq[..], c, n)
          decreases BLOCKS_PER_ELEMENT - j
        {
          b := i * BLOCKS_PER_ELEMENT + j;
          if RunFree(bitmapq[..], b, n) { return true, b; }
          j := j + n;
        }
        i := i + 1;
      }
      return false, 0;
    }

    /** bitmapq[i] |= bmmask for the mask of `n` blocks from `b` on. */
    method MaskSet(b: nat, n: nat)
      requires b + n <= bitmapq.Length
      modifies bitmapq
      ensures bitmapq[..] == FillRun(old(bitmapq[..]), b, n)
    {
      forall k | b <= k < b + n { bitmapq[k] := Allocated; }
    }

    /** For data of 16KB and up, the block its key suggests; else, or failing that, the scan. */
    method PickRun(wantClass: nat, subKey: nat, radix: nat) returns (found: bool, b: nat)
      requires bitmapq.Length == BLOCKS && 10 <= radix <= 16
      requires wantClass / 256 == TYPE_DATA && radix >= BLOCK_RADIX ==> subKey % PBUFSIZE == 0
      ensures found ==> b % RunLength(radix) == 0 && RunFree(bitmapq[..], b, RunLength(radix))
      ensures found ==> Picked(bitmapq[..], wantClass, subKey, radix, b)
      ensures found <==> !NoRun(bitmapq[..], RunLength(radix))
    {
      if wantClass / 256 == TYPE_DATA && radix >= BLOCK_RADIX {
        b := (subKey % SEGSIZE) / BLOCK_SIZE;
        SuggestedRun(subKey, radix);
        if RunFree(bitmapq[..], b, RunLength(radix)) { return true, b; }
      }
      found, b := FindRun(RunLength(radix));
    }

    /**
      The linear path marks the block and charges for it if it was free, like any other
      allocation; the block already says 11, so only the iterator moves.
     */
    method AllocLinear(radix: nat, ghost issued: set<Extent>) returns (offset: nat, bgsize: nat)
      requires Valid() && bitmapq.Length == BLOCKS && Accounts(issued)
      requires 10 <= radix <= 16 && LinearFits(linear, Size(radix))
      modifies this`linear, this`avail, bitmapq
      ensures bgsize == 0 && avail == old(avail) && bitmapq[..] == old(bitmapq[..])
      ensures Valid() && offset == old(linear) && linear == offset + Size(radix)
      ensures NewExtent(issued, Extent(offset, Size(radix)))
      ensures Accounts(issued + {Extent(offset, Size(radix))})
    {
      IssueLinear(issued, bitmapq[..], linear, avail, Size(radix));
      LinearArithmetic(linear, Size(radix));
      offset := linear;
      linear := offset + Size(radix);
      var b := offset / BLOCK_SIZE;
      bgsize := 0;
      if bitmapq[b] == Free { bgsize := BLOCK_SIZE; }
      MaskSet(b, 1);
      avail := avail - bgsize;
      assert bitmapq[..] == old(bitmapq[..]);
      hide FillRun, AccountsFor, Consistent, Placed, Overlap, Touches, CountFree;
    }

    /** Take the free run at block `b`. */
    method AllocRun(b: nat, radix: nat, ghost issued: set<Extent>)
      requires Valid() && Accounts(issued) && 10 <= radix <= 16
      requires b % RunLength(radix) == 0 && RunFree(bitmapq[..], b, RunLength(radix))
      modifies this`linear, this`avail, bitmapq
      ensures Valid() && avail == old(avail) - RunLength(radix) * BLOCK_SIZE
      ensures linear == NextLinear(old(linear), b, radix)
      ensures bitmapq[..] == FillRun(old(bitmapq[..]), b, RunLength(radix))
      ensures b * BLOCK_SIZE / BLOCK_SIZE == b && bclass == old(bclass)
      ensures NewExtent(issued, Extent(b * BLOCK_SIZE, Size(radix)))
      ensures Accounts(issued + {Extent(b * BLOCK_SIZE, Size(radix))})
    {
      IssueRun(issued, bitmapq[..], linear, avail, b, radix);
      RunArithmetic(b, radix);
      linear := NextLinear(linear, b, radix);
      MaskSet(b, RunLength(radix));
      avail := avail - RunLength(radix) * BLOCK_SIZE;
      hide FillRun, AccountsFor, Consistent, Placed, Overlap, RunFree, Touches, CountFree;
    }

    /**
      Allocate 1 << radix bytes: behind the linear iterator when it is inside a block and the
      rest of that block suffices; else for data at the block the key suggests; else at the
      first free run.  `bgsize` is what the volume's free count must drop by.
     */
    method Alloc(wantClass: nat, subKey: nat, radix: nat, ghost issued: set<Extent>)
      returns (r: AllocResult, bgsize: nat)
      requires Valid() && bitmapq.Length == BLOCKS && Accounts(issued) && 10 <= radix <= 16
      requires wantClass / 256 == TYPE_DATA && radix >= BLOCK_RADIX ==> subKey % PBUFSIZE == 0
      modifies this, bitmapq
      ensures Valid() && avail == old(avail) - bgsize
      ensures r.ENOSPC? <==> NoRoom(old(bitmapq[..]), old(linear), radix)
      ensures r.ENOSPC? ==> unchanged(this) && bitmapq[..] == old(bitmapq[..]) && bgsize == 0
      ensures r.Allotted? ==> NewExtent(issued, Extent(r.offset, Size(radix)))
      ensures r.Allotted? ==> Accounts(issued + {Extent(r.offset, Size(radix))})
      ensures r.Allotted? ==> Serves(old(View()), View(), Request(wantClass, subKey, radix), r.offset)
    {
      hide FillRun, AccountsFor, Consistent, Placed, Overlap, RunFree, Touches, CountFree, Size, NoRun, NewExtent,
           LinearFits, NextLinear, Picked;
      if LinearFits(linear, Size(radix)) {
        var offset;
        offset, bgsize := AllocLinear(radix, issued);
        r := Allotted(offset);
      } else {
        var found, b := PickRun(wantClass, subKey, radix);
        if !found { return ENOSPC, 0; }
        AllocRun(b, radix, issued);
        r, bgsize := Allotted(b * BLOCK_SIZE), RunLength(radix) * BLOCK_SIZE;
      }
      if bclass == 0 { bclass := wantClass; }
    }

    /**
      Recovery: mark the blocks of an extent fully allocated, whatever they say.  Within its
      512KB element the first block is taken modulo 16, although an element holds 32.
     */
    method Recover(dataOff: nat, wantClass: nat, radix: nat) returns (bgsize: nat)
      requires Valid() && bitmapq.Length == BLOCKS && 10 <= radix <= 16 && dataOff < SEGSIZE
      modifies this, bitmapq
      ensures Valid() && avail == old(avail) - bgsize
      ensures var b := RecoveredBlock(dataOff);
              && bitmapq[..] == FillRun(old(bitmapq[..]), b, RunLength(radix))
              && if RunMarked(old(bitmapq[..]), b, RunLength(radix)) then linear == old(linear) && bclass == old(bclass)
                 else linear == 0 && bclass == if old(bclass) == 0 then wantClass else old(bclass)
    {
      var b, count := RecoveredBlock(dataOff), RunLength(radix);
      var k := 0;
      bgsize := 0;
      ghost var was, linear0, class0 := bitmapq[..], linear, bclass;
      assert avail == BLOCK_SIZE * CountFree(bitmapq[..]);
      hide CountFree, FillRun, RunMarked, Consistent;
      while k < count
        invariant 0 <= k <= count && bitmapq[..] == FillRun(was, b, k)
        invariant avail == BLOCK_SIZE * CountFree(bitmapq[..]) && avail == old(avail) - bgsize
        invariant linear == (if RunMarked(was, b, k) then linear0 else 0)
        invariant bclass == if RunMarked(was, b, k) || class0 != 0 then class0 else wantClass
      {
        var freed := RecoverBlock(b + k, wantClass);
        bgsize := bgsize + freed;
        k := k + 1;
      }
      RecoveredConsistent(was, bitmapq[..], linear0, linear, old(avail), avail, b, count);
    }

    /** Recover one block, and invalidate the linear iterator if it was not fully marked. */
    method RecoverBlock(i: nat, wantClass: nat) returns (bgsize: nat)
      requires i < bitmapq.Length == BLOCKS && avail == BLOCK_SIZE * CountFree(bitmapq[..])
      modifies this, bitmapq
      ensures bitmapq[..] == old(bitmapq[..])[i := Allocated] && avail == BLOCK_SIZE * CountFree(bitmapq[..])
      ensures avail == old(avail) - bgsize
      ensures old(bitmapq[i]) == Allocated ==> linear == old(linear) && bclass == old(bclass)
      ensures old(bitmapq[i]) != Allocated ==>
              linear == 0 && bclass == if old(bclass) == 0 then wantClass else old(bclass)
    {
      CountFreeUpdate(bitmapq[..], i, Allocated);
      bgsize := 0;
      ghost var now := bitmapq[..][i := Allocated];
      hide CountFree;
      if bitmapq[i] != Allocated {
        linear := 0;
        if bitmapq[i] == Free {
          avail := avail - BLOCK_SIZE;
          bgsize := BLOCK_SIZE;
        }
        if bclass == 0 { bclass := wantClass; }
        bitmapq[i] := Allocated;
      }
      assert bitmapq[..] == now;
    }
  }

  lemma {:induction false} SuggestedRun(subKey: nat, radix: nat)
    requires 14 <= radix <= 16 && subKey % PBUFSIZE == 0
    ensures var b := (subKey % SEGSIZE) / BLOCK_SIZE; b % RunLength(radix) == 0 && b + RunLength(radix) <= BLOCKS
  {
    var m := subKey % SEGSIZE;
    assert m % PBUFSIZE == 0;
  }

  // --------------------------------------------------- sequences of calls

  datatype Request = Request(wantClass: nat, subKey: nat, radix: nat)

  ghost predicate Admissible(q: Request) {
    && 10 <= q.radix <= 16
    && (q.wantClass / 256 == TYPE_DATA && q.radix >= BLOCK_RADIX ==> q.subKey % PBUFSIZE == 0)
  }

  /** What was handed out, 1 << radix bytes. */
  function ExtentOf(q: Request, r: AllocResult): Extent
    requires r.Allotted?
  {
    Extent(r.offset, Prelude.Pow2(q.radix))
  }

  /**
    Any run of allocations on a fresh segment hands out pairwise disjoint extents, each
    inside the segment and inside one 64KB buffer, and the bytes charged to the volume are
    exactly the bytes no longer available.  A request is refused only when there is no room.
   */
  method AllocateAll(qs: seq<Request>) returns (given: seq<AllocResult>, charged: nat, ghost views: seq<Segment>)
    requires forall i :: 0 <= i < |qs| ==> Admissible(qs[i])
    ensures |given| == |qs| && charged <= SEGSIZE
    ensures forall i :: 0 <= i < |qs| && given[i].Allotted? ==> Placed(ExtentOf(qs[i], given[i]))
    ensures forall i, j :: 0 <= i < j < |qs| && given[i].Allotted? && given[j].Allotted? ==>
              !Overlap(ExtentOf(qs[i], given[i]), ExtentOf(qs[j], given[j]))
    ensures Answered(qs, given, views, |qs|)
    ensures views[0] == FreshSegment(false) && charged == SEGSIZE - views[|qs|].avail
  {
    var m := new Bmap();
    m.Init(false);
    ghost var issued: set<Extent> := {};
    given, charged := [], 0;
    views := [m.View()];
    hide Placed, Overlap, Size, AccountsFor, Answers, FreshSegment, Consistent;
    for i := 0 to |qs|
      invariant m.Valid() && m.Accounts(issued) && fresh(m) && fresh(m.bitmapq)
      invariant |given| == i && charged == SEGSIZE - m.avail
      invariant Answered(qs, given, views, i) && views[0] == FreshSegment(false) && views[i] == m.View()
      invariant forall k :: 0 <= k < i && given[k].Allotted? ==>
                  ExtentOf(qs[k], given[k]) in issued && Placed(ExtentOf(qs[k], given[k]))
      invariant forall j, k :: 0 <= j < k < i && given[j].Allotted? && given[k].Allotted? ==>
                  !Overlap(ExtentOf(qs[j], given[j]), ExtentOf(qs[k], given[k]))
    {
      var r, bgsize := AllocateOne(m, qs[i], issued);
      if r.Allotted? { issued := issued + {ExtentOf(qs[i], r)}; }
      AnsweredOne(qs, given, views, i, r, m.View());
      given, charged := given + [r], charged + bgsize;
      views := views + [m.View()];
    }
  }

  /** The first `n` requests have led from view to view. */
  ghost predicate Answered(qs: seq<Request>, given: seq<AllocResult>, views: seq<Segment>, n: nat) {
    && n <= |qs| && |given| == n && |views| == n + 1
    && forall k :: 0 <= k < n ==> Answers(views[k], views[k + 1], qs[k], given[k])
  }

  lemma {:induction false} AnsweredOne(qs: seq<Request>, given: seq<AllocResult>, views: seq<Segment>, n: nat,
                                       r: AllocResult, v: Segment)
    requires n < |qs| && Answered(qs, given, views, n) && Answers(views[n], v, qs[n], r)
    ensures Answered(qs, given + [r], views + [v], n + 1)
  {
    hide Answers;
  }

  /** One of them. */
  method AllocateOne(m: Bmap, q: Request, ghost issued: set<Extent>) returns (r: AllocResult, bgsize: nat)
    requires m.Valid() && m.bitmapq.Length == BLOCKS && m.Accounts(issued) && Admissible(q)
    modifies m, m.bitmapq
    ensures m.Valid() && m.avail == old(m.avail) - bgsize && Answers(old(m.View()), m.View(), q, r)
    ensures r.ENOSPC? ==> m.Accounts(issued)
    ensures r.Allotted? ==> NewExtent(issued, ExtentOf(q, r)) && m.Accounts(issued + {ExtentOf(q, r)})
  {
    SizeIs(q.radix);
    hide Serves, NoRoom, Size, AccountsFor, Consistent, NewExtent, Prelude.Pow2;
    r, bgsize := m.Alloc(q.wantClass, q.subKey, q.radix, issued);
  }

  /** A request is refused, with nothing changed, exactly if there is no room for it. */
  ghost predicate Answers(v: Segment, v': Segment, q: Request, r: AllocResult) {
    match r
    case ENOSPC => v' == v && NoRoom(v.blocks, v.linear, q.radix)
    case Allotted(offset) => Serves(v, v', q, offset) && !NoRoom(v.blocks, v.linear, q.radix)
  }
}
