/**
  One 4MB segment under a bulkfree pass: recording what the topology scan finds in an
  in-memory map, and merging that map into the live one.
 */
module Bulkfree {
  import opened FreemapSegment
  import opened Collector

  // ------------------------------------------------ recording a reference

  /** What the allocator and deduplication leave on media: references share an extent or are disjoint. */
  ghost predicate Separate(found: set<Extent>) {
    && (forall e :: e in found ==> Placed(e))
    && (forall e, f :: e in found && f in found && e != f ==> !Overlap(e, f))
  }

  /** Extents recorded: marked as the blocks touched, and outside the tail of the iterator. */
  ghost predicate Recorded(found: set<Extent>, s: seq<BlockState>, linear: nat) {
    && |s| == BLOCKS && linear <= SEGSIZE && linear % ALLOC_MIN == 0
    && (forall b :: 0 <= b < BLOCKS ==> s[b] == Free || s[b] == Allocated)
    && (forall b :: 0 <= b < BLOCKS ==> (s[b] == Allocated <==> exists e :: e in found && Touches(e, b)))
    && (forall e :: e in found && e.size % BLOCK_SIZE != 0 ==> e.offset + e.size <= linear)
    && (linear % BLOCK_SIZE != 0 ==> s[linear / BLOCK_SIZE] == Allocated)
    && OutsideTail(found, linear) && EndsOne(found, linear)
  }

  /** The iterator is where some extent ends, or has not moved. */
  ghost predicate EndsOne(found: set<Extent>, linear: nat) {
    linear == 0 || exists e :: e in found && e.offset + e.size == linear
  }

  lemma {:induction false} EndsNow(found: set<Extent>, linear: nat, e: Extent)
    requires EndsOne(found, linear)
    ensures EndsOne(found + {e}, RaiseLinear(linear, e.offset, e.size))
  {
    var to := RaiseLinear(linear, e.offset, e.size);
    if to == linear {
      if f :| f in found && f.offset + f.size == linear { assert f in found + {e}; }
    } else {
      assert e in found + {e};
    }
  }

  ghost predicate OutsideTail(found: set<Extent>, linear: nat) {
    linear % BLOCK_SIZE != 0 ==> forall e :: e in found ==> !Overlap(e, Tail(linear))
  }

  /** Where recording an extent moves the iterator. */
  function RaiseLinear(linear: nat, offset: nat, bytes: nat): nat {
    if bytes % BLOCK_SIZE != 0 then
      if linear < offset + bytes then offset + bytes else linear
    else
      if offset <= linear < offset + bytes then offset + bytes else linear
  }

  /** An extent that meets a fragment's block beyond the fragment meets the fragment or is a fragment too. */
  lemma {:induction false} BlockMates(e: Extent, f: Extent)
    requires Placed(e) && Placed(f) && !Overlap(e, f) && f.size % BLOCK_SIZE != 0
    requires (f.offset + f.size) % BLOCK_SIZE != 0
    requires e.size % BLOCK_SIZE != 0 ==> e.offset + e.size <= f.offset + f.size
    ensures !Overlap(e, Tail(f.offset + f.size))
  {
    var q := f.offset / BLOCK_SIZE;
    assert f.offset == q * BLOCK_SIZE + f.offset % BLOCK_SIZE;
    assert (f.offset + f.size) / BLOCK_SIZE == q;
    if e.size % BLOCK_SIZE == 0 {
      var p := e.offset / BLOCK_SIZE;
      assert e.offset == p * BLOCK_SIZE;
      var n := e.size / BLOCK_SIZE;
      assert e.size == n * BLOCK_SIZE;
    }
  }

  lemma {:induction false} WholeBeforeTail(e: Extent, linear: nat)
    requires Placed(e) && e.size % BLOCK_SIZE == 0 && linear % BLOCK_SIZE != 0
    requires !(e.offset <= linear < e.offset + e.size)
    ensures !Overlap(e, Tail(linear))
  {
    var p, n, q := e.offset / BLOCK_SIZE, e.size / BLOCK_SIZE, linear / BLOCK_SIZE;
    assert e.offset == p * BLOCK_SIZE && e.size == n * BLOCK_SIZE;
    assert linear == q * BLOCK_SIZE + linear % BLOCK_SIZE;
  }

  lemma {:induction false} RaiseArithmetic(linear: nat, e: Extent)
    requires Placed(e) && e.offset % ALLOC_MIN == 0 && e.size % ALLOC_MIN == 0
    requires linear <= SEGSIZE && linear % ALLOC_MIN == 0
    ensures var to := RaiseLinear(linear, e.offset, e.size);
            && linear <= to <= SEGSIZE && to % ALLOC_MIN == 0
            && (e.size % BLOCK_SIZE != 0 ==> e.offset + e.size <= to)
            && (to % BLOCK_SIZE != 0 && to != linear ==>
                  to == e.offset + e.size && e.size % BLOCK_SIZE != 0 && Touches(e, to / BLOCK_SIZE))
  {
    var to := RaiseLinear(linear, e.offset, e.size);
    if to != linear && to % BLOCK_SIZE != 0 {
      if e.size % BLOCK_SIZE == 0 { WholeEnd(e); } else { TouchesOwnEnd(e, to); }
    }
  }

  lemma {:induction false} WholeEnd(e: Extent)
    requires BlockShaped(e) && e.size % BLOCK_SIZE == 0
    ensures (e.offset + e.size) % BLOCK_SIZE == 0
  {
  }

  lemma {:induction false} RecordTail(found: set<Extent>, s: seq<BlockState>, linear: nat, e: Extent)
    requires Recorded(found, s, linear) && Separate(found + {e}) && e.offset % ALLOC_MIN == 0 && e.size % ALLOC_MIN == 0
    ensures OutsideTail(found + {e}, RaiseLinear(linear, e.offset, e.size))
  {
    var to := RaiseLinear(linear, e.offset, e.size);
    RaiseArithmetic(linear, e);
    assert Placed(e) by { assert e in found + {e}; }
    if to % BLOCK_SIZE != 0 {
      hide Overlap, Touches, BlockShaped, Tail, Placed;
      forall f | f in found + {e} ensures !Overlap(f, Tail(to)) {
        if f == e {
          OwnTail(e, to);
        } else if to != linear {
          assert !Overlap(f, e) && Placed(f);
          BlockMates(f, e);
        }
      }
    }
  }

  lemma {:induction false} OwnTail(e: Extent, linear: nat)
    requires Placed(e) && linear % BLOCK_SIZE != 0
    requires if e.size % BLOCK_SIZE == 0 then !(e.offset <= linear < e.offset + e.size) else e.offset + e.size <= linear
    ensures !Overlap(e, Tail(linear))
  {
    if e.size % BLOCK_SIZE == 0 { WholeBeforeTail(e, linear); }
  }

  lemma {:induction false} TouchesOwnEnd(e: Extent, to: nat)
    requires Placed(e) && to == e.offset + e.size && to % BLOCK_SIZE != 0 && e.size % BLOCK_SIZE != 0
    ensures Touches(e, to / BLOCK_SIZE) && to < SEGSIZE
  {
    var q := e.offset / BLOCK_SIZE;
    assert e.offset == q * BLOCK_SIZE + e.offset % BLOCK_SIZE;
    assert to / BLOCK_SIZE == q;
  }

  /** The map of a segment while references are recorded; a reserved segment is full from the start. */
  ghost predicate Gathered(found: set<Extent>, reserved: bool, s: seq<BlockState>, linear: nat) {
    if reserved then |s| == BLOCKS && linear == SEGSIZE && forall b :: 0 <= b < BLOCKS ==> s[b] == Allocated
    else Recorded(found, s, linear)
  }

  /** A reserved segment, or one that has room, as the merge needs it. */
  lemma {:induction false} GatheredInMemory(found: set<Extent>, reserved: bool, s: seq<BlockState>, linear: nat)
    requires Gathered(found, reserved, s, linear)
    ensures InMemory(s, linear) && OutsideTail(found, linear)
  {
  }

  /** Record one block reference of the snapshot in the in-memory map. */
  method Record(bmap: Bmap, e: Extent, ghost found: set<Extent>, ghost reserved: bool)
    requires Gathered(found, reserved, bmap.bitmapq[..], bmap.linear) && bmap.bitmapq.Length == BLOCKS
    requires Separate(found + {e}) && e.offset % ALLOC_MIN == 0 && e.size % ALLOC_MIN == 0
    modifies bmap`linear, bmap.bitmapq
    ensures Gathered(found + {e}, reserved, bmap.bitmapq[..], bmap.linear)
    ensures bmap.linear == RaiseLinear(old(bmap.linear), e.offset, e.size)
  {
    ghost var was := bmap.bitmapq[..];
    ghost var linear0 := bmap.linear;
    assert Placed(e);
    if !reserved {
      RecordTail(found, was, linear0, e);
      EndsNow(found, linear0, e);
    }
    RaiseArithmetic(linear0, e);
    hide Placed, Overlap, Touches, BlockShaped, OutsideTail, EndsOne;
    if e.size % BLOCK_SIZE != 0 {
      if bmap.linear < e.offset + e.size { bmap.linear := e.offset + e.size; }
    } else if e.offset <= bmap.linear < e.offset + e.size {
      bmap.linear := e.offset + e.size;
    }
    assert bmap.linear == RaiseLinear(linear0, e.offset, e.size);
    MarkExtent(bmap, e);
    assert forall b {:trigger bmap.bitmapq[b]} :: 0 <= b < BLOCKS ==>
           bmap.bitmapq[..][b] == if Touches(e, b) then Allocated else was[b];
    if !reserved { ExtendMarks(found, was, bmap.bitmapq[..], e); }
  }

  ghost predicate MarksExactly(found: set<Extent>, s: seq<BlockState>) {
    |s| == BLOCKS && forall b :: 0 <= b < BLOCKS ==> (s[b] == Allocated <==> exists e :: e in found && Touches(e, b))
  }

  lemma {:induction false} ExtendMarks(found: set<Extent>, s: seq<BlockState>, s': seq<BlockState>, e: Extent)
    requires MarksExactly(found, s) && |s'| == BLOCKS
    requires forall b :: 0 <= b < BLOCKS ==> s'[b] == if Touches(e, b) then Allocated else s[b]
    ensures MarksExactly(found + {e}, s')
  {
  }

  lemma {:induction false} LastBlock(e: Extent, k: nat, bytes: nat)
    requires Placed(e) && bytes > 0 && k * BLOCK_SIZE + bytes == e.size
    ensures e.offset / BLOCK_SIZE + k < BLOCKS
    ensures bytes <= BLOCK_SIZE ==> e.offset / BLOCK_SIZE + k == (e.offset + e.size - 1) / BLOCK_SIZE
  {
    var q := e.offset / BLOCK_SIZE;
    assert e.offset == q * BLOCK_SIZE + e.offset % BLOCK_SIZE;
  }

  /** The marking loop: 11 for each 16KB the extent reaches into. */
  method MarkExtent(bmap: Bmap, e: Extent)
    requires bmap.bitmapq.Length == BLOCKS && Placed(e)
    requires forall b :: 0 <= b < BLOCKS ==> bmap.bitmapq[b] == Free || bmap.bitmapq[b] == Allocated
    modifies bmap.bitmapq
    ensures forall b :: 0 <= b < BLOCKS ==>
              bmap.bitmapq[b] == if Touches(e, b) then Allocated else old(bmap.bitmapq[b])
  {
    var dataOff, bytes := e.offset, e.size;
    ghost var first, k := e.offset / BLOCK_SIZE, 0;
    while bytes > 0
      invariant dataOff == e.offset + k * BLOCK_SIZE && 0 <= k
      invariant if bytes > 0 then dataOff + bytes == e.offset + e.size
                else first + k == (e.offset + e.size - 1) / BLOCK_SIZE + 1
      invariant forall b :: 0 <= b < BLOCKS ==>
                  bmap.bitmapq[b] == if first <= b < first + k then Allocated else old(bmap.bitmapq[b])
      decreases bytes
    {
      var bindex := dataOff / BLOCK_SIZE;
      assert bindex == first + k;
      LastBlock(e, k, bytes);
      if bmap.bitmapq[bindex] == Free { bmap.bitmapq[bindex] := Allocated; }
      dataOff := dataOff + BLOCK_SIZE;
      bytes := if bytes < BLOCK_SIZE then 0 else bytes - BLOCK_SIZE;
      k := k + 1;
    }
    forall b | 0 <= b < BLOCKS
      ensures bmap.bitmapq[b] == if Touches(e, b) then Allocated else old(bmap.bitmapq[b])
    {
    }
  }

  // --------------------------------------------- merging into the live map

  /** The whole-segment effect of a pass on the block states. */
  ghost predicate Merged(was: seq<BlockState>, found: seq<BlockState>, now: seq<BlockState>) {
    && |was| == |found| == |now| == BLOCKS
    && forall b :: 0 <= b < BLOCKS ==> now[b] == Merge(was[b], found[b] == Allocated)
  }

  ghost predicate InMemory(s: seq<BlockState>, linear: nat) {
    && |s| == BLOCKS && linear <= SEGSIZE && linear % ALLOC_MIN == 0
    && (forall b :: 0 <= b < BLOCKS ==> s[b] == Free || s[b] == Allocated)
    && (linear % BLOCK_SIZE != 0 ==> s[linear / BLOCK_SIZE] == Allocated)
  }

  predicate SameWord(a: seq<BlockState>, b: seq<BlockState>, i: nat)
    requires |a| == |b| == BLOCKS && i < ELEMENTS
  {
    forall k :: i * BLOCKS_PER_ELEMENT <= k < (i + 1) * BLOCKS_PER_ELEMENT ==> a[k] == b[k]
  }

  predicate ZeroWord(a: seq<BlockState>, i: nat)
    requires |a| == BLOCKS && i < ELEMENTS
  {
    forall k :: i * BLOCKS_PER_ELEMENT <= k < (i + 1) * BLOCKS_PER_ELEMENT ==> a[k] == Free
  }

  function RoundUp(linear: nat): (r: nat)
    ensures linear <= r < linear + BLOCK_SIZE && r % BLOCK_SIZE == 0
  {
    (linear + BLOCK_SIZE - 1) / BLOCK_SIZE * BLOCK_SIZE
  }

  /** Where a pass leaves the iterator of a segment that keeps some block. */
  function AdjustedLinear(now: seq<BlockState>, live: nat, found: nat): nat
    requires |now| == BLOCKS
  {
    if !ZeroWord(now, ELEMENTS - 1) then SEGSIZE
    else if live < found && live / BLOCK_SIZE == found / BLOCK_SIZE then found
    else RoundUp(found)
  }

  class Collection {
    var adjFree: int
    var freemapRelaxed: bool   // the device's search mode

    constructor (freemapRelaxed: bool)
      ensures adjFree == 0 && this.freemapRelaxed == freemapRelaxed
    {
      adjFree, this.freemapRelaxed := 0, freemapRelaxed;
    }

    /**
      One block: avail and the free-space adjustment move together, so avail stays exactly
      the free blocks and neither of its clamps can take effect.
     */
    method AdjustBlock(live: Bmap, b: nat, marked: bool, dedup: array<bool>)
      requires live.bitmapq.Length == dedup.Length == BLOCKS && b < BLOCKS
      requires live.avail == BLOCK_SIZE * CountFree(live.bitmapq[..])
      requires dedup[b] ==> live.bitmapq[b] == Allocated
      modifies this`adjFree, live`avail, live.bitmapq, dedup
      ensures live.bitmapq[..] == old(live.bitmapq[..])[b := Merge(old(live.bitmapq[b]), marked)]
      ensures live.avail == BLOCK_SIZE * CountFree(live.bitmapq[..])
      ensures adjFree - old(adjFree) == live.avail - old(live.avail)
      ensures forall k :: 0 <= k < BLOCKS ==> dedup[k] == (old(dedup[k]) && !(k == b && live.bitmapq[b] == Staged))
    {
      CountFreeUpdate(live.bitmapq[..], b, Merge(live.bitmapq[b], marked));
      ghost var now := live.bitmapq[..][b := Merge(live.bitmapq[b], marked)];
      if !marked {
        match live.bitmapq[b]
        case Staged =>
          live.bitmapq[b] := Free;
          live.avail := live.avail + BLOCK_SIZE;
          live.avail := if live.avail > SEGSIZE then SEGSIZE else live.avail;
          adjFree := adjFree + BLOCK_SIZE;
          assert !dedup[b];
        case Allocated =>
          live.bitmapq[b] := Staged;
          dedup[b] := false;
        case _ =>
      } else {
        if live.bitmapq[b] == Free {
          adjFree := adjFree - BLOCK_SIZE;
          live.avail := live.avail - BLOCK_SIZE;
          live.avail := if live.avail < 0 then 0 else live.avail;
        }
        live.bitmapq[b] := Allocated;
      }
      assert live.bitmapq[..] == now;
    }

    /** The word loops of the merge. */
    method AdjustBlocks(live: Bmap, bmap: Bmap, dedup: array<bool>)
      requires live != bmap && live.bitmapq != bmap.bitmapq
      requires live.bitmapq.Length == bmap.bitmapq.Length == dedup.Length == BLOCKS
      requires InMemory(bmap.bitmapq[..], bmap.linear)
      requires live.avail == BLOCK_SIZE * CountFree(live.bitmapq[..])
      requires forall b :: 0 <= b < BLOCKS && dedup[b] ==> live.bitmapq[b] == Allocated
      modifies this`adjFree, live`avail, live.bitmapq, dedup
      ensures Merged(old(live.bitmapq[..]), bmap.bitmapq[..], live.bitmapq[..])
      ensures live.avail == BLOCK_SIZE * CountFree(live.bitmapq[..])
      ensures adjFree - old(adjFree) == live.avail - old(live.avail)
      ensures forall b :: 0 <= b < BLOCKS ==>
                dedup[b] == (old(dedup[b]) && !(live.bitmapq[b] == Staged))
    {
      hide CountFree;
      var bindex := 0;
      while bindex < ELEMENTS
        invariant 0 <= bindex <= ELEMENTS
        invariant live.avail == BLOCK_SIZE * CountFree(live.bitmapq[..])
        invariant adjFree - old(adjFree) == live.avail - old(live.avail)
        invariant Progress(old(live.bitmapq[..]), bmap.bitmapq[..], live.bitmapq[..], bindex * BLOCKS_PER_ELEMENT)
        invariant DedupProgress(old(dedup[..]), live.bitmapq[..], dedup[..])
      {
        if SameWord(live.bitmapq[..], bmap.bitmapq[..], bindex) {
        } else {
          var scount := 0;
          while scount < BLOCKS_PER_ELEMENT
            invariant 0 <= scount <= BLOCKS_PER_ELEMENT
            invariant live.avail == BLOCK_SIZE * CountFree(live.bitmapq[..])
            invariant adjFree - old(adjFree) == live.avail - old(live.avail)
            invariant Progress(old(live.bitmapq[..]), bmap.bitmapq[..], live.bitmapq[..],
                               bindex * BLOCKS_PER_ELEMENT + scount)
            invariant DedupProgress(old(dedup[..]), live.bitmapq[..], dedup[..])
          {
            var b := bindex * BLOCKS_PER_ELEMENT + scount;
            AdjustBlock(live, b, bmap.bitmapq[b] == Allocated, dedup);
            scount := scount + 1;
          }
        }
        bindex := bindex + 1;
      }
    }

    /** Bring one live segment up to date with the in-memory map of a pass. */
    method SyncAdjust(live: Bmap, bmap: Bmap, dedup: array<bool>, ghost found: set<Extent>)
      requires live != bmap && live.bitmapq != bmap.bitmapq
      requires live.bitmapq.Length == bmap.bitmapq.Length == dedup.Length == BLOCKS
      requires live.Valid() && InMemory(bmap.bitmapq[..], bmap.linear) && OutsideTail(found, bmap.linear)
      requires forall b :: 0 <= b < BLOCKS && dedup[b] ==> live.bitmapq[b] == Allocated
      modifies this`adjFree, live, live.bitmapq, dedup
      ensures live.Valid() && OutsideTail(found, live.linear)
      ensures Merged(old(live.bitmapq[..]), bmap.bitmapq[..], live.bitmapq[..])
      ensures adjFree - old(adjFree) == live.avail - old(live.avail)
      ensures forall b :: 0 <= b < BLOCKS ==> dedup[b] == (old(dedup[b]) && live.bitmapq[b] != Staged)
      ensures forall b :: 0 <= b < BLOCKS && dedup[b] ==> live.bitmapq[b] == Allocated
      ensures if CountFree(live.bitmapq[..]) == BLOCKS then live.linear == 0 && live.bclass == 0 &&
              live.avail == SEGSIZE
              else live.linear == AdjustedLinear(live.bitmapq[..], old(live.linear), bmap.linear)
                   && live.bclass == old(live.bclass)
    {
      AdjustBlocks(live, bmap, dedup);
      var now := live.bitmapq[..];
      var bindex := ELEMENTS - 1;
      while bindex >= 0 && ZeroWord(now, bindex)
        invariant -1 <= bindex < ELEMENTS
        invariant forall b :: (bindex + 1) * BLOCKS_PER_ELEMENT <= b < BLOCKS ==> now[b] == Free
        decreases bindex
      {
        bindex := bindex - 1;
      }
      CountFreeExact(now);
      hide CountFree;
      if bindex < 0 {
        live.avail := SEGSIZE;
        live.bclass := 0;
        live.linear := 0;
      } else if bindex < 7 {
        if live.linear < bmap.linear && live.linear / BLOCK_SIZE == bmap.linear / BLOCK_SIZE {
          live.linear := bmap.linear;
        } else {
          live.linear := (bmap.linear + BLOCK_SIZE - 1) / BLOCK_SIZE * BLOCK_SIZE;
        }
        assert ZeroWord(now, ELEMENTS - 1);
      } else {
        live.linear := SEGSIZE;
      }
    }
  }

  ghost predicate Progress(was: seq<BlockState>, found: seq<BlockState>, now: seq<BlockState>, done: nat) {
    && |was| == |found| == |now| == BLOCKS
    && forall b :: 0 <= b < BLOCKS ==> now[b] == if b < done then Merge(was[b], found[b] == Allocated) else was[b]
  }

  ghost predicate DedupProgress(was: seq<bool>, now: seq<BlockState>, dedup: seq<bool>) {
    && |was| == |now| == |dedup| == BLOCKS
    && forall b :: 0 <= b < BLOCKS ==> dedup[b] == (was[b] && now[b] != Staged) && (dedup[b] ==> now[b] == Allocated)
  }

  lemma {:induction false} CountFreeExact(s: seq<BlockState>)
    ensures CountFree(s) == |s| <==> forall b :: 0 <= b < |s| ==> s[b] == Free
  {
    if s != [] { CountFreeExact(s[..|s| - 1]); }
  }
}
