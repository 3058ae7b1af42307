/**
  The freemap of a volume: one leaf per 1GB, 256 segments of 4MB per leaf, with a permissive
  hint per leaf and radix, and the retry loop that looks for a segment with room.
 */
module Freemap {
  import opened FreemapSegment

  const FREEMAP_COUNT: nat := 256
  const LEVEL1_SIZE: nat := 0x4000_0000

  const RADICES: set<nat> := {10, 11, 12, 13, 14, 15, 16}

  function TotalAvail(vs: seq<Segment>): int {
    if vs == [] then 0 else TotalAvail(vs[..|vs| - 1]) + vs[|vs| - 1].avail
  }

  lemma {:induction false} TotalAvailUpdate(vs: seq<Segment>, k: nat, v: Segment)
    requires k < |vs|
    ensures TotalAvail(vs[k := v]) == TotalAvail(vs) - vs[k].avail + v.avail
    decreases |vs|
  {
    var n := |vs| - 1;
    if k == n {
      assert vs[k := v][..n] == vs[..n];
    } else {
      assert vs[k := v][..n] == vs[..n][k := v];
      TotalAvailUpdate(vs[..n], k, v);
    }
  }

  /** Media offset of segment `n` of a leaf. */
  function SegmentKey(leaf: nat, n: nat): nat {
    leaf * LEVEL1_SIZE + n * SEGSIZE
  }

  /** Whether the segment is below the static area, in a leaf's reserved area, or past the end. */
  predicate ReservedSegment(leaf: nat, n: nat, allocatorBeg: nat, totalSize: nat) {
    var base := leaf * LEVEL1_SIZE;
    var beg := (allocatorBeg + SEGSIZE - 1) / SEGSIZE * SEGSIZE;
    var lokey := if beg < base + SEGSIZE then base + SEGSIZE else beg;
    var hikey := if base + LEVEL1_SIZE > totalSize then totalSize / SEGSIZE * SEGSIZE else base + LEVEL1_SIZE;
    SegmentKey(leaf, n) < lokey || SegmentKey(leaf, n) >= hikey
  }

  /** A segment that may serve lies within the allocatable part of the volume. */
  lemma {:induction false} ServableRange(leaf: nat, n: nat, allocatorBeg: nat, totalSize: nat)
    requires !ReservedSegment(leaf, n, allocatorBeg, totalSize) && n < FREEMAP_COUNT
    ensures allocatorBeg <= SegmentKey(leaf, n) && SegmentKey(leaf, n) + SEGSIZE <= totalSize && n >= 1
  {
    var beg := (allocatorBeg + SEGSIZE - 1) / SEGSIZE;
    assert allocatorBeg <= beg * SEGSIZE;
    var end := totalSize / SEGSIZE;
    assert end * SEGSIZE <= totalSize;
    assert SegmentKey(leaf, n) == (leaf * FREEMAP_COUNT + n) * SEGSIZE;
    if leaf * LEVEL1_SIZE + LEVEL1_SIZE > totalSize {
      assert leaf * FREEMAP_COUNT + n < end;
    } else {
      assert n * SEGSIZE + SEGSIZE <= LEVEL1_SIZE;
    }
  }

  lemma {:induction false} InLeaf(leaf: nat, n: nat, offset: nat)
    requires 1 <= n < FREEMAP_COUNT && offset < SEGSIZE
    ensures (SegmentKey(leaf, n) + offset) % LEVEL1_SIZE >= SEGSIZE
  {
    var m := n * SEGSIZE + offset;
    assert SEGSIZE <= m < LEVEL1_SIZE;
    assert (leaf * LEVEL1_SIZE + m) % LEVEL1_SIZE == m;
  }

  function InitialSegment(leaf: nat, n: nat, allocatorBeg: nat, totalSize: nat): Segment {
    FreshSegment(ReservedSegment(leaf, n, allocatorBeg, totalSize))
  }

  ghost predicate Sound(v: Segment) {
    Consistent(v.blocks, v.linear, v.avail)
  }

  ghost predicate Exhausted(v: Segment, radix: nat) {
    NoRoom(v.blocks, v.linear, radix)
  }

  /** Unless the search is relaxed, a segment serves only requests of its own class, or any if it has none yet. */
  predicate Serving(v: Segment, q: Request, relaxed: bool) {
    relaxed || v.bclass == 0 || v.bclass == q.wantClass
  }

  /** The segment is of no use to the request. */
  ghost predicate Refuses(v: Segment, q: Request, relaxed: bool) {
    Serving(v, q, relaxed) ==> Exhausted(v, q.radix)
  }

  /** The test that skips a segment skips none that has room. */
  lemma {:induction false} SkipIsSafe(v: Segment, radix: nat)
    requires Sound(v) && 10 <= radix <= 16
    requires v.avail == 0 && !(radix < BLOCK_RADIX && v.linear % BLOCK_SIZE != 0)
    ensures Exhausted(v, radix)
  {
    NoneFree(v.blocks);
    hide CountFree;
    forall b: nat | b % RunLength(radix) == 0 && b + RunLength(radix) <= BLOCKS
      ensures !RunFree(v.blocks, b, RunLength(radix))
    {
      assert v.blocks[b] != Free;
    }
  }

  lemma {:induction false} NoneFree(s: seq<BlockState>)
    requires CountFree(s) == 0
    ensures forall b :: 0 <= b < |s| ==> s[b] != Free
  {
    if s != [] { NoneFree(s[..|s| - 1]); }
  }

  /** A segment that serves has room. */
  lemma {:induction false} ServesFromRoom(v: Segment, v': Segment, q: Request, offset: nat)
    requires Serves(v, v', q, offset) && |v.blocks| == BLOCKS
    ensures !Exhausted(v, q.radix)
  {
    if !LinearFits(v.linear, Size(q.radix)) {
      assert RunFree(v.blocks, offset / BLOCK_SIZE, RunLength(q.radix));
    }
  }

  /** A reserved segment has no room for anything. */
  lemma {:induction false} ReservedExhausted(radix: nat)
    requires 10 <= radix <= 16
    ensures Exhausted(FreshSegment(true), radix)
  {
    FreshConsistent(true);
    SkipIsSafe(FreshSegment(true), radix);
  }

  /** A cleared hint bit never hides usable space, and a reserved segment has none. */
  ghost predicate SegmentSound(v: Segment, reserved: bool, usable: set<nat>) {
    && Sound(v)
    && (reserved ==> v == FreshSegment(true))
    && forall radix :: 10 <= radix <= 16 && radix !in usable ==> Exhausted(v, radix)
  }

  /** The full hint is always truthful. */
  lemma {:induction false} HintReset(v: Segment, reserved: bool, usable: set<nat>)
    requires SegmentSound(v, reserved, usable)
    ensures SegmentSound(v, reserved, RADICES)
  {
  }

  lemma {:induction false} ServeKeeps(v: Segment, v': Segment, q: Request, offset: nat, reserved: bool,
                                      usable: set<nat>)
    requires SegmentSound(v, reserved, usable) && Serves(v, v', q, offset) && 10 <= q.radix <= 16 && Sound(v')
    ensures SegmentSound(v', reserved, usable) && !reserved
  {
    hide Serves, NoRoom, Size, Consistent;
    assert |v.blocks| == BLOCKS by { assert Sound(v); CountOfSound(v); }
    ServesFromRoom(v, v', q, offset);
    if reserved { ReservedExhausted(q.radix); }
    forall radix | 10 <= radix <= 16 && radix !in usable ensures Exhausted(v', radix) {
      RoomShrinks(v, v', q, offset, radix);
    }
  }

  lemma {:induction false} FreshSound()
    ensures SegmentSound(FreshSegment(true), true, RADICES) && SegmentSound(FreshSegment(false), false, RADICES)
  {
    FreshConsistent(true);
    FreshConsistent(false);
  }

  lemma {:induction false} CountOfSound(v: Segment)
    requires Sound(v)
    ensures |v.blocks| == BLOCKS
  {
  }

  /** One segment of the leaf scan: skipped, refused or used. */
  method TryBmap(bmap: Bmap, q: Request, relaxed: bool, ghost reserved: bool, ghost usable: set<nat>)
    returns (r: AllocResult, bgsize: nat)
    requires bmap.bitmapq.Length == BLOCKS && SegmentSound(bmap.View(), reserved, usable) && Admissible(q)
    modifies bmap, bmap.bitmapq
    ensures SegmentSound(bmap.View(), reserved, usable) && bmap.avail == old(bmap.avail) - bgsize
    ensures r.ENOSPC? ==> bmap.View() == old(bmap.View()) && Refuses(bmap.View(), q, relaxed)
    ensures r.Allotted? ==>
              Serves(old(bmap.View()), bmap.View(), q, r.offset) && !reserved && Serving(old(bmap.View()), q, relaxed)
    ensures r.Allotted? ==> r.offset + Size(q.radix) <= SEGSIZE
  {
    ghost var was := bmap.View();
    var availchk := bmap.avail != 0 || (q.radix < BLOCK_RADIX && bmap.linear % BLOCK_SIZE != 0);
    if !availchk { SkipIsSafe(was, q.radix); }
    hide Serves, Consistent, Size, CountFree, NoRoom, FreshSegment;
    if availchk && (bmap.bclass == 0 || bmap.bclass == q.wantClass || relaxed) {
      r, bgsize := bmap.Alloc(q.wantClass, q.subKey, q.radix, {});
      if r.Allotted? { ServeKeeps(was, bmap.View(), q, r.offset, reserved, usable); }
    } else {
      r, bgsize := ENOSPC, 0;
    }
  }

  /** Segment `k` served the request; every other segment is as it was. */
  ghost predicate Served(vs: seq<Segment>, vs': seq<Segment>, k: nat, q: Request, offset: nat) {
    && |vs'| == |vs| && k < |vs|
    && vs' == vs[k := vs'[k]]
    && Serves(vs[k], vs'[k], q, offset) && offset + Size(q.radix) <= SEGSIZE
  }

  /** What the volume's free count changes by when segment `k` does. */
  ghost function Charge(vs: seq<Segment>, vs': seq<Segment>, k: nat): int
    requires k < |vs| == |vs'|
  {
    vs'[k].avail - vs[k].avail
  }

  ghost predicate LeafExhausted(vs: seq<Segment>, from: nat, to: nat, radix: nat) {
    to <= |vs| && forall k :: from <= k < to ==> Exhausted(vs[k], radix)
  }

  ghost predicate LeafRefuses(vs: seq<Segment>, from: nat, to: nat, q: Request, relaxed: bool) {
    to <= |vs| && forall k :: from <= k < to ==> Refuses(vs[k], q, relaxed)
  }

  /** All segments of a leaf that are less than `distance` away from `start` are of no use. */
  ghost predicate NearRefuse(vs: seq<Segment>, base: nat, start: nat, distance: nat, q: Request, relaxed: bool) {
    base + FREEMAP_COUNT <= |vs|
    && forall k :: base <= k < base + FREEMAP_COUNT && base + start - distance < k < base + start + distance ==>
         Refuses(vs[k], q, relaxed)
  }

  lemma {:induction false} NearNone(vs: seq<Segment>, base: nat, start: nat, q: Request, relaxed: bool)
    requires base + FREEMAP_COUNT <= |vs|
    ensures NearRefuse(vs, base, start, 0, q, relaxed)
  {
  }

  lemma {:induction false} NearMore(vs: seq<Segment>, base: nat, start: nat, distance: nat, q: Request, relaxed: bool)
    requires NearRefuse(vs, base, start, distance, q, relaxed) && start < FREEMAP_COUNT
    requires start + distance < FREEMAP_COUNT ==> Refuses(vs[base + start + distance], q, relaxed)
    requires distance <= start ==> Refuses(vs[base + start - distance], q, relaxed)
    ensures NearRefuse(vs, base, start, distance + 1, q, relaxed)
    ensures start + distance + 1 >= FREEMAP_COUNT && start < distance + 1 ==>
              LeafRefuses(vs, base, base + FREEMAP_COUNT, q, relaxed)
  {
    hide Refuses;
  }

  lemma {:induction false} RefusesAll(vs: seq<Segment>, from: nat, to: nat, q: Request)
    ensures LeafRefuses(vs, from, to, q, true) <==> LeafExhausted(vs, from, to, q.radix)
    ensures LeafExhausted(vs, from, to, q.radix) ==> LeafRefuses(vs, from, to, q, false)
  {
    hide Exhausted;
  }

  datatype Outcome = NoSpace | Again | Given(key: nat)

  /** The segment of a media offset. */
  function SegmentOf(key: nat): nat {
    key / SEGSIZE
  }

  lemma {:induction false} KeySegment(leaf: nat, n: nat, offset: nat)
    requires n < FREEMAP_COUNT && offset < SEGSIZE
    ensures SegmentOf(SegmentKey(leaf, n) + offset) == leaf * FREEMAP_COUNT + n
    ensures (SegmentKey(leaf, n) + offset) % SEGSIZE == offset
  {
    var k := leaf * FREEMAP_COUNT + n;
    assert SegmentKey(leaf, n) + offset == k * SEGSIZE + offset;
  }

  /** Serving costs the volume exactly what the segments lose. */
  lemma {:induction false} ServedTotal(vs: seq<Segment>, vs': seq<Segment>, k: nat, q: Request, offset: nat)
    requires Served(vs, vs', k, q, offset)
    ensures TotalAvail(vs') - TotalAvail(vs) == Charge(vs, vs', k)
  {
    TotalAvailUpdate(vs, k, vs'[k]);
  }

  /** What recovery of a run of blocks does to a segment: a run marked already is left alone. */
  ghost predicate RecoveredSegment(v: Segment, v': Segment, b: nat, n: nat) {
    && b + n <= |v.blocks| && v'.blocks == FillRun(v.blocks, b, n)
    && if RunMarked(v.blocks, b, n) then v' == v else v' != v && v'.linear == 0
  }

  /** A segment keeps its hint if recovery changed nothing; else the full hint is truthful. */
  lemma {:induction false} RecoveredSound(v: Segment, v': Segment, reserved: bool, usable: set<nat>, b: nat, n: nat)
    requires SegmentSound(v, reserved, usable) && RecoveredSegment(v, v', b, n) && Sound(v')
    ensures SegmentSound(v', reserved, if RunMarked(v.blocks, b, n) then usable else RADICES)
  {
  }

  /** Recovery in one segment. */
  method RecoverBmap(bmap: Bmap, offset: nat, wantClass: nat, radix: nat, ghost reserved: bool, ghost usable: set<nat>)
    returns (modified: bool, bgsize: nat)
    requires bmap.bitmapq.Length == BLOCKS && SegmentSound(bmap.View(), reserved, usable) && offset < SEGSIZE &&
             10 <= radix <= 16
    modifies bmap, bmap.bitmapq
    ensures SegmentSound(bmap.View(), reserved, if modified then RADICES else usable) &&
            bmap.avail == old(bmap.avail) - bgsize
    ensures RecoveredSegment(old(bmap.View()), bmap.View(), RecoveredBlock(offset), RunLength(radix))
    ensures modified <==> bmap.View() != old(bmap.View())
  {
    ghost var was := bmap.View();
    ghost var b, n := RecoveredBlock(offset), RunLength(radix);
    hide RecoveredBlock, Exhausted, FreshSegment;
    modified := !RunMarked(bmap.bitmapq[..], RecoveredBlock(offset), RunLength(radix));
    bgsize := bmap.Recover(offset, wantClass, radix);
    if !modified {
      assert FillRun(was.blocks, b, n) == was.blocks;
    } else {
      ghost var j :| b <= j < b + n && was.blocks[j] != Allocated;
      assert bmap.View().blocks[j] == Allocated;
    }
    RecoveredSound(was, bmap.View(), reserved, usable, b, n);
  }

  /** Recovery of an extent changes one segment of the volume. */
  ghost predicate Recovered(vs: seq<Segment>, vs': seq<Segment>, dataOff: nat, radix: nat) {
    var k := SegmentOf(dataOff);
    && |vs'| == |vs| && k < |vs| && vs' == vs[k := vs'[k]]
    && RecoveredSegment(vs[k], vs'[k], RecoveredBlock(dataOff % SEGSIZE), RunLength(radix))
  }

  lemma {:induction false} InOneSegment(vs: seq<Segment>, vs': seq<Segment>, dataOff: nat, radix: nat)
    requires var k := SegmentOf(dataOff);
             && |vs'| == |vs| && k < |vs| && vs' == vs[k := vs'[k]]
             && RecoveredSegment(vs[k], vs'[k], RecoveredBlock(dataOff % SEGSIZE), RunLength(radix))
    ensures Recovered(vs, vs', dataOff, radix)
  {
  }

  lemma {:induction false} RecoveredTotal(vs: seq<Segment>, vs': seq<Segment>, dataOff: nat, radix: nat)
    requires Recovered(vs, vs', dataOff, radix)
    ensures SegmentOf(dataOff) < |vs| && TotalAvail(vs') - TotalAvail(vs) == Charge(vs, vs', SegmentOf(dataOff))
  {
    TotalAvailUpdate(vs, SegmentOf(dataOff), vs'[SegmentOf(dataOff)]);
  }

  lemma {:induction false} LeafSegment(dataOff: nat)
    ensures SegmentOf(dataOff) == dataOff / LEVEL1_SIZE * FREEMAP_COUNT + dataOff % LEVEL1_SIZE / SEGSIZE
    ensures dataOff % LEVEL1_SIZE / SEGSIZE < FREEMAP_COUNT
  {
    var leaf, m := dataOff / LEVEL1_SIZE, dataOff % LEVEL1_SIZE;
    assert dataOff == leaf * LEVEL1_SIZE + m;
    var n, o := m / SEGSIZE, m % SEGSIZE;
    assert dataOff == (leaf * FREEMAP_COUNT + n) * SEGSIZE + o;
  }

  /** Whether an extent lies between the static area and the volume's end, and outside each leaf's reserved area. */
  predicate Allocatable(key: nat, size: nat, allocatorBeg: nat, totalSize: nat) {
    allocatorBeg <= key && key + size <= totalSize && key % LEVEL1_SIZE >= SEGSIZE
  }

  /** The allocator's position: the next leaf to try, how often it has wrapped, and its mode. */
  class Fiterate {
    var bnext: nat
    var loops: nat
    var relaxed: bool

    constructor (bpref: nat, relaxed: bool)
      ensures bnext == bpref && loops == 0 && this.relaxed == relaxed
    {
      bnext := bpref;
      loops := 0;
      this.relaxed := relaxed;
    }

    /** Wraps still to come: the last sweep begins when one is left. */
    ghost function Wraps(): nat
      reads this
    {
      if relaxed then (if loops >= 1 then 1 else 2) else (if loops >= 1 then 2 else 3)
    }

    /** Every leaf from the first on is tried in the present mode. */
    ghost predicate Sweeping()
      reads this
    {
      loops >= 1
    }

    /** On to the next leaf, or back to the first, or give up. */
    method Next(totalSize: nat) returns (done: bool)
      requires bnext < totalSize
      modifies this
      ensures old(relaxed) ==> relaxed
      ensures relaxed && !old(relaxed) ==> old(Sweeping()) && NextLeaf(old(bnext)) >= totalSize && Wraps() == 1
      ensures Sweeping() <==> old(Sweeping()) || NextLeaf(old(bnext)) >= totalSize
      ensures done <==> old(Wraps()) == 1 && NextLeaf(old(bnext)) >= totalSize
      ensures !done && NextLeaf(old(bnext)) < totalSize ==>
                bnext == NextLeaf(old(bnext)) && Wraps() == old(Wraps()) && relaxed == old(relaxed)
      ensures !done && NextLeaf(old(bnext)) >= totalSize ==> bnext == 0 && Wraps() == old(Wraps()) - 1
      ensures bnext < totalSize && (Wraps() == 1 ==> relaxed)
    {
      bnext := NextLeaf(bnext);
      if bnext >= totalSize {
        bnext := 0;
        loops := loops + 1;
        if loops >= 2 {
          if !relaxed { relaxed := true; } else { return true; }
        }
      }
      return false;
    }
  }

  function NextLeaf(bnext: nat): (r: nat)
    ensures r > bnext && r % LEVEL1_SIZE == 0 && r / LEVEL1_SIZE == bnext / LEVEL1_SIZE + 1
  {
    bnext / LEVEL1_SIZE * LEVEL1_SIZE + LEVEL1_SIZE
  }

  method AllocateMaps(count: nat) returns (maps: seq<Bmap>)
    ensures |maps| == count
    ensures forall k :: 0 <= k < |maps| ==> maps[k].bitmapq.Length == BLOCKS
    ensures forall j, k :: 0 <= j < |maps| && 0 <= k < |maps| && j != k ==>
              maps[j] != maps[k] && maps[j].bitmapq != maps[k].bitmapq
    ensures forall k :: 0 <= k < |maps| ==> fresh(maps[k]) && fresh(maps[k].bitmapq)
  {
    maps := [];
    while |maps| < count
      invariant |maps| <= count
      invariant forall k :: 0 <= k < |maps| ==>
                maps[k].bitmapq.Length == BLOCKS && fresh(maps[k]) && fresh(maps[k].bitmapq)
      invariant forall j, k :: 0 <= j < |maps| && 0 <= k < |maps| && j != k ==>
                  maps[j] != maps[k] && maps[j].bitmapq != maps[k].bitmapq
    {
      var m := new Bmap();
      maps := maps + [m];
    }
  }

  class Volume {
    const leaves: nat
    const allocatorBeg: nat
    const totalSize: nat
    const bmaps: seq<Bmap>
    const created: array<bool>
    const bigmask: array<set<nat>>
    var allocatorFree: int
    var freemapRelaxed: bool
    var heurFreemap: nat

    ghost function Maps(): set<object> {
      (set k | 0 <= k < |bmaps| :: bmaps[k] as object) + (set k | 0 <= k < |bmaps| :: bmaps[k].bitmapq as object)
    }

    ghost function Repr(): set<object> {
      {created as object, bigmask as object} + Maps()
    }

    ghost predicate Shape() {
      && |bmaps| == leaves * FREEMAP_COUNT && created.Length == bigmask.Length == leaves
      && leaves == (totalSize + LEVEL1_SIZE - 1) / LEVEL1_SIZE && totalSize > 0
      && (forall k :: 0 <= k < |bmaps| ==> bmaps[k].bitmapq.Length == BLOCKS)
      && (forall j, k :: 0 <= j < |bmaps| && 0 <= k < |bmaps| && j != k ==>
            bmaps[j] != bmaps[k] && bmaps[j].bitmapq != bmaps[k].bitmapq)
    }

    /** Segment `k` of the volume; one whose leaf does not exist yet is as its creation will find it. */
    ghost function View(k: nat): Segment
      requires Shape() && k < |bmaps|
      reads Repr()
    {
      if created[k / FREEMAP_COUNT] then bmaps[k].View()
      else InitialSegment(k / FREEMAP_COUNT, k % FREEMAP_COUNT, allocatorBeg, totalSize)
    }

    ghost function Views(): (vs: seq<Segment>)
      requires Shape()
      reads Repr()
      ensures |vs| == |bmaps|
      ensures forall k :: 0 <= k < |bmaps| ==> vs[k] == View(k)
    {
      seq(|bmaps|, k requires 0 <= k < |bmaps| reads Repr() => View(k))
    }

    ghost predicate Reserved(k: nat) {
      ReservedSegment(k / FREEMAP_COUNT, k % FREEMAP_COUNT, allocatorBeg, totalSize)
    }

    /** The radices that the hint of segment `k`'s leaf does not rule out. */
    ghost function Usable(k: nat): set<nat>
      requires Shape() && k < |bmaps|
      reads created, bigmask
    {
      if created[k / FREEMAP_COUNT] then bigmask[k / FREEMAP_COUNT] else RADICES
    }

    ghost predicate Valid()
      reads this, Repr()
    {
      Shape() && heurFreemap < totalSize && forall k :: 0 <= k < |bmaps| ==>
        SegmentSound(View(k), Reserved(k), Usable(k))
    }

    /** A change confined to the object of one segment leaves the others as they were. */
    twostate lemma OthersKept(k: nat)
      requires Shape() && k < |bmaps| && created[..] == old(created[..]) && bigmask[..] == old(bigmask[..])
      requires forall j :: 0 <= j < |bmaps| && j != k ==> bmaps[j].View() == old(bmaps[j].View())
      ensures forall j :: 0 <= j < |bmaps| && j != k ==> View(j) == old(View(j))
      ensures forall j :: 0 <= j < |bmaps| ==> Usable(j) == old(Usable(j))
    {
      hide InitialSegment;
      assert forall l :: 0 <= l < leaves ==> created[l] == created[..][l] && bigmask[l] == bigmask[..][l];
    }

    /** Segment `n` of the leaf, with its share of the volume's free count. */
    method TrySegment(leaf: nat, n: nat, q: Request, relaxed: bool) returns (r: AllocResult)
      requires Valid() && leaf < leaves && n < FREEMAP_COUNT && created[leaf] && Admissible(q)
      modifies this`allocatorFree, bmaps[leaf * FREEMAP_COUNT + n], bmaps[leaf * FREEMAP_COUNT + n].bitmapq
      ensures Valid() && allocatorFree - old(allocatorFree) == Charge(old(Views()), Views(), leaf * FREEMAP_COUNT + n)
      ensures r.ENOSPC? ==> Views() == old(Views()) && allocatorFree == old(allocatorFree)
      ensures r.ENOSPC? ==> Refuses(Views()[leaf * FREEMAP_COUNT + n], q, relaxed)
      ensures r.Allotted? ==> Serving(old(Views())[leaf * FREEMAP_COUNT + n], q, relaxed)
      ensures r.Allotted? ==>
                Served(old(Views()), Views(), leaf * FREEMAP_COUNT + n, q, r.offset) &&
                  !Reserved(leaf * FREEMAP_COUNT + n)
    {
      ghost var k := leaf * FREEMAP_COUNT + n;
      var bmap := bmaps[leaf * FREEMAP_COUNT + n];
      assert k / FREEMAP_COUNT == leaf;
      assert View(k) == bmap.View();
      ghost var was := Views();
      hide Serves, Exhausted, Admissible, Size, ReservedSegment, SegmentSound, InitialSegment;
      var bgsize;
      r, bgsize := TryBmap(bmap, q, relaxed, Reserved(k), Usable(k));
      allocatorFree := allocatorFree - bgsize;
      OthersKept(k);
      assert View(k) == bmap.View();
      hide View, Usable, Reserved;
      assert Views() == was[k := View(k)];
    }

    /** Scan the leaf from `start` outwards in both directions. */
    method ScanLeaf(leaf: nat, start: nat, q: Request, relaxed: bool)
      returns (r: AllocResult, n: nat)
      requires Valid() && leaf < leaves && start < FREEMAP_COUNT && created[leaf] && Admissible(q)
      modifies this`allocatorFree, Maps()
      ensures Valid() && n < FREEMAP_COUNT
      ensures r.ENOSPC? ==> allocatorFree == old(allocatorFree) && Views() == old(Views())
      ensures r.ENOSPC? ==>
                LeafRefuses(Views(), leaf * FREEMAP_COUNT, leaf * FREEMAP_COUNT + FREEMAP_COUNT, q, relaxed)
      ensures r.Allotted? ==>
                NearRefuse(old(Views()), leaf * FREEMAP_COUNT, start, if n < start then start - n
                  else n - start, q, relaxed)
      ensures r.Allotted? ==>
                var k := leaf * FREEMAP_COUNT + n;
                && Served(old(Views()), Views(), k, q, r.offset) && !Reserved(k) && Serving(old(Views())[k], q, relaxed)
                && allocatorFree - old(allocatorFree) == Charge(old(Views()), Views(), k)
    {
      hide Served, Refuses, Serving, Admissible, Size, ReservedSegment, SegmentSound, View, Views, Charge, NearRefuse,
           LeafRefuses;
      var count := 0;
      ghost var base, was := leaf * FREEMAP_COUNT, Views();
      NearNone(was, base, start, q, relaxed);
      while count < FREEMAP_COUNT
        invariant 0 <= count <= FREEMAP_COUNT
        invariant Valid() && allocatorFree == old(allocatorFree) && Views() == was
        invariant NearRefuse(was, base, start, count, q, relaxed)
        invariant count > 0 && start + count >= FREEMAP_COUNT && start < count ==>
                    LeafRefuses(was, base, base + FREEMAP_COUNT, q, relaxed)
        decreases FREEMAP_COUNT - count
      {
        if start + count >= FREEMAP_COUNT && start < count { break; }
        if start + count < FREEMAP_COUNT {
          n := start + count;
          r := TrySegment(leaf, n, q, relaxed);
          if r.Allotted? { return; }
        }
        if count <= start {
          n := start - count;
          r := TrySegment(leaf, n, q, relaxed);
          if r.Allotted? { return; }
        }
        NearMore(was, base, start, count, q, relaxed);
        count := count + 1;
      }
      r, n := ENOSPC, 0;
    }

    predicate InLeafRange(j: nat, leaf: nat, n: nat) {
      leaf * FREEMAP_COUNT <= j < leaf * FREEMAP_COUNT + n
    }

    /** Lay out the segments of a leaf. */
    method InitLeaf(leaf: nat)
      requires Shape() && leaf < leaves
      modifies Maps()
      ensures forall j :: 0 <= j < |bmaps| && !InLeafRange(j, leaf, FREEMAP_COUNT) ==>
              bmaps[j].View() == old(bmaps[j].View())
      ensures forall j :: 0 <= j < |bmaps| && InLeafRange(j, leaf, FREEMAP_COUNT) ==>
              bmaps[j].View() == FreshSegment(Reserved(j))
    {
      hide FreshSegment, ReservedSegment;
      var n := 0;
      while n < FREEMAP_COUNT
        invariant 0 <= n <= FREEMAP_COUNT
        invariant forall j :: 0 <= j < |bmaps| && !InLeafRange(j, leaf, FREEMAP_COUNT) ==>
                  bmaps[j].View() == old(bmaps[j].View())
        invariant forall j :: 0 <= j < |bmaps| && InLeafRange(j, leaf, n) ==>
                  bmaps[j].View() == FreshSegment(Reserved(j))
      {
        ghost var k := leaf * FREEMAP_COUNT + n;
        assert k / FREEMAP_COUNT == leaf && k % FREEMAP_COUNT == n;
        bmaps[leaf * FREEMAP_COUNT + n].Init(ReservedSegment(leaf, n, allocatorBeg, totalSize));
        n := n + 1;
      }
    }

    /** Create a leaf that does not exist yet: nothing the volume holds changes by it. */
    method CreateLeaf(leaf: nat)
      requires Valid() && leaf < leaves && !created[leaf]
      modifies Repr()
      ensures Valid() && created[leaf] && bigmask[leaf] == RADICES
      ensures Views() == old(Views())
      ensures forall l :: 0 <= l < leaves && l != leaf ==>
              created[l] == old(created[l]) && bigmask[l] == old(bigmask[l])
    {
      hide FreshSegment, ReservedSegment, SegmentSound;
      InitLeaf(leaf);
      created[leaf] := true;
      bigmask[leaf] := RADICES;
      forall j | 0 <= j < |bmaps|
        ensures View(j) == old(View(j)) && Usable(j) == old(Usable(j))
      {
        assert InLeafRange(j, leaf, FREEMAP_COUNT) <==> j / FREEMAP_COUNT == leaf;
      }
    }

    /** One attempt, at the leaf of the iterator. */
    method TryAlloc(q: Request, bnext: nat, relaxed: bool) returns (r: Outcome)
      requires Valid() && Admissible(q) && bnext < totalSize
      modifies this`allocatorFree, Repr()
      ensures Valid() && !r.NoSpace?
      ensures r.Again? ==> allocatorFree == old(allocatorFree) && Views() == old(Views())
      ensures r.Again? ==>
                var base := bnext / LEVEL1_SIZE * FREEMAP_COUNT;
                LeafRefuses(Views(), base, base + FREEMAP_COUNT, q, relaxed)
      ensures r.Given? ==>
                && SegmentOf(r.key) < |bmaps| && Serving(old(Views())[SegmentOf(r.key)], q, relaxed)
                && Served(old(Views()), Views(), SegmentOf(r.key), q, r.key % SEGSIZE)
                && Allocatable(r.key, Size(q.radix), allocatorBeg, totalSize)
                && allocatorFree - old(allocatorFree) == TotalAvail(Views()) - TotalAvail(old(Views()))
    {
      hide Served, Exhausted, Size, SegmentSound, Views, Charge, LeafExhausted, Allocatable, SegmentOf, TotalAvail,
           RunLength, ReservedSegment, SegmentKey, Refuses, Serving, NearRefuse, LeafRefuses;
      var leaf := bnext / LEVEL1_SIZE;
      LeafExists(bnext, totalSize, leaves);
      if !created[leaf] {
        CreateLeaf(leaf);
      } else if q.radix !in bigmask[leaf] {
        HintSaysExhausted(leaf, q.radix);
        RefusesAll(Views(), leaf * FREEMAP_COUNT, leaf * FREEMAP_COUNT + FREEMAP_COUNT, q);
        return Again;
      }
      var start := (bnext - leaf * LEVEL1_SIZE) / SEGSIZE;
      var a, n := ScanLeaf(leaf, start, q, relaxed);
      if a.Allotted? {
        r := Given(SegmentKey(leaf, n) + a.offset);
        GivenKey(old(Views()), Views(), leaf, n, q, a.offset, relaxed, allocatorBeg, totalSize);
      } else {
        RefusesAll(Views(), leaf * FREEMAP_COUNT, leaf * FREEMAP_COUNT + FREEMAP_COUNT, q);
        if start == 0 && relaxed {
          ClearHint(leaf, q.radix);
        }
        r := Again;
      }
    }

    lemma {:induction false} HintSaysExhausted(leaf: nat, radix: nat)
      requires Valid() && leaf < leaves && created[leaf] && radix !in bigmask[leaf] && 10 <= radix <= 16
      ensures LeafExhausted(Views(), leaf * FREEMAP_COUNT, leaf * FREEMAP_COUNT + FREEMAP_COUNT, radix)
    {
      hide View, Exhausted;
      forall k | leaf * FREEMAP_COUNT <= k < leaf * FREEMAP_COUNT + FREEMAP_COUNT
        ensures Exhausted(View(k), radix)
      {
        assert SegmentSound(View(k), Reserved(k), Usable(k)) && k / FREEMAP_COUNT == leaf;
      }
    }

    /** The hint bit goes only after a full scan in relaxed mode, which is when it may. */
    method ClearHint(leaf: nat, radix: nat)
      requires Valid() && leaf < leaves && created[leaf] && 10 <= radix <= 16
      requires LeafExhausted(Views(), leaf * FREEMAP_COUNT, leaf * FREEMAP_COUNT + FREEMAP_COUNT, radix)
      modifies bigmask
      ensures Valid() && Views() == old(Views())
    {
      hide Exhausted, InitialSegment, Sound;
      ghost var was := Views();
      bigmask[leaf] := bigmask[leaf] - {radix};
      forall k | 0 <= k < |bmaps|
        ensures View(k) == was[k] && SegmentSound(View(k), Reserved(k), Usable(k))
      {
        assert SegmentSound(old(View(k)), Reserved(k), old(Usable(k)));
        assert k / FREEMAP_COUNT == leaf <==> leaf * FREEMAP_COUNT <= k < leaf * FREEMAP_COUNT + FREEMAP_COUNT;
      }
    }

    /** Retry leaf by leaf until a segment serves or the last sweep has failed. */
    method Retry(q: Request, iter: Fiterate) returns (r: Outcome)
      requires Valid() && Admissible(q) && iter.bnext < totalSize && iter.loops == 0
      modifies this`allocatorFree, Repr(), iter
      ensures Valid() && iter.bnext < totalSize && !r.Again?
      ensures r.NoSpace? ==>
                Views() == old(Views()) && allocatorFree == old(allocatorFree) &&
                  LeafExhausted(Views(), 0, |bmaps|, q.radix)
      ensures old(iter.relaxed) ==> iter.relaxed
      ensures iter.relaxed && !old(iter.relaxed) ==> LeafRefuses(old(Views()), 0, |bmaps|, q, false)
      ensures r.Given? ==>
                && SegmentOf(r.key) < |bmaps| && Serving(old(Views())[SegmentOf(r.key)], q, iter.relaxed)
                && Served(old(Views()), Views(), SegmentOf(r.key), q, r.key % SEGSIZE)
                && Allocatable(r.key, Size(q.radix), allocatorBeg, totalSize)
                && allocatorFree - old(allocatorFree) == TotalAvail(Views()) - TotalAvail(old(Views()))
    {
      hide Served, Refuses, Serving, Size, SegmentSound, View, Views, Allocatable, SegmentOf, TotalAvail, Admissible,
           LeafExhausted;
      r := Again;
      while true
        invariant Valid() && iter.bnext < totalSize && (iter.Wraps() == 1 ==> iter.relaxed)
        invariant Views() == old(Views()) && allocatorFree == old(allocatorFree)
        invariant iter.Sweeping() ==>
                    iter.bnext % LEVEL1_SIZE == 0 &&
                      LeafRefuses(Views(), 0, iter.bnext / LEVEL1_SIZE * FREEMAP_COUNT, q, iter.relaxed)
        invariant old(iter.relaxed) ==> iter.relaxed
        invariant iter.relaxed && !old(iter.relaxed) ==> LeafRefuses(Views(), 0, |bmaps|, q, false) && iter.Wraps() == 1
        decreases iter.Wraps(), totalSize - iter.bnext
      {
        LeafExists(iter.bnext, totalSize, leaves);
        r := TryAlloc(q, iter.bnext, iter.relaxed);
        if r.Given? { return; }
        var done := iter.Next(totalSize);
        if done {
          RefusesAll(Views(), 0, |bmaps|, q);
          return NoSpace;
        }
      }
    }

    /**
      Allocate for a request.  It reports no space exactly when no segment of the volume has
      room for the radix, and the free count falls by exactly what the segments lose.  Segments
      of different classes are mixed only in relaxed mode, which is entered only if no segment of
      the request's class, or of none, has room.
     */
    method Alloc(q: Request) returns (r: Outcome)
      requires Valid() && Admissible(q)
      modifies this, Repr()
      ensures Valid() && !r.Again?
      ensures r.NoSpace? <==> LeafExhausted(old(Views()), 0, |bmaps|, q.radix)
      ensures r.NoSpace? ==> Views() == old(Views())
      ensures r.Given? ==> Served(old(Views()), Views(), SegmentOf(r.key), q, r.key % SEGSIZE)
      ensures r.Given? ==> Allocatable(r.key, Size(q.radix), allocatorBeg, totalSize)
      ensures r.Given? ==>
                SegmentOf(r.key) < |bmaps| && Serving(old(Views())[SegmentOf(r.key)], q, freemapRelaxed)
      ensures old(freemapRelaxed) ==> freemapRelaxed
      ensures freemapRelaxed && !old(freemapRelaxed) ==> LeafRefuses(old(Views()), 0, |bmaps|, q, false)
      ensures allocatorFree - old(allocatorFree) == TotalAvail(Views()) - TotalAvail(old(Views()))
    {
      hide Served, Exhausted, Size, SegmentSound, View, Views, Allocatable, SegmentOf, TotalAvail, LeafExhausted,
           Admissible, LeafRefuses, Serving;
      ghost var was := Views();
      Lengths();
      var bpref := if heurFreemap > totalSize then totalSize - 1 else heurFreemap;
      var iter := new Fiterate(bpref, freemapRelaxed);
      r := Retry(q, iter);
      if r.Given? { ServedHadRoom(was, Views(), q, r.key); }
      freemapRelaxed := freemapRelaxed || iter.relaxed;
      heurFreemap := iter.bnext;
    }

    /**
      Recovery of an extent, creating the leaf if it is missing.  If a block was not fully marked
      the leaf's hint and the volume's search mode are reset, and the volume is charged for the
      blocks that were free; else nothing changes.
     */
    method Recover(dataOff: nat, wantClass: nat, radix: nat)
      requires Valid() && 10 <= radix <= 16 && dataOff < totalSize
      modifies this`allocatorFree, this`freemapRelaxed, Repr()
      ensures Valid() && allocatorFree - old(allocatorFree) == TotalAvail(Views()) - TotalAvail(old(Views()))
      ensures dataOff < allocatorBeg ==> Views() == old(Views()) && freemapRelaxed == old(freemapRelaxed)
      ensures dataOff >= allocatorBeg ==> Recovered(old(Views()), Views(), dataOff, radix)
      ensures Views() != old(Views()) ==> !freemapRelaxed && bigmask[dataOff / LEVEL1_SIZE] == RADICES
      ensures Views() == old(Views()) ==> freemapRelaxed == old(freemapRelaxed)
      ensures Views() == old(Views()) && old(created[dataOff / LEVEL1_SIZE]) ==> bigmask[..] == old(bigmask[..])
    {
      hide Recovered, Exhausted, SegmentSound, Views, View, Charge, SegmentOf, TotalAvail, RunLength, ReservedSegment,
           SegmentKey;
      if dataOff < allocatorBeg { return; }
      var leaf := dataOff / LEVEL1_SIZE;
      LeafExists(dataOff, totalSize, leaves);
      LeafSegment(dataOff);
      if !created[leaf] { CreateLeaf(leaf); }
      ghost var was := Views();
      RecoverSegment(leaf, dataOff % LEVEL1_SIZE / SEGSIZE, dataOff, wantClass, radix);
      RecoveredTotal(was, Views(), dataOff, radix);
    }

    /** Recovery within segment `n` of an existing leaf. */
    method RecoverSegment(leaf: nat, n: nat, dataOff: nat, wantClass: nat, radix: nat)
      requires Valid() && leaf < leaves && n < FREEMAP_COUNT && created[leaf] && 10 <= radix <= 16
      requires SegmentOf(dataOff) == leaf * FREEMAP_COUNT + n
      modifies this`allocatorFree, this`freemapRelaxed, bigmask, Maps()
      ensures Valid() && Recovered(old(Views()), Views(), dataOff, radix)
      ensures allocatorFree - old(allocatorFree) == Charge(old(Views()), Views(), SegmentOf(dataOff))
      ensures Views() != old(Views()) ==> !freemapRelaxed && bigmask[leaf] == RADICES
      ensures Views() == old(Views()) ==> freemapRelaxed == old(freemapRelaxed) && bigmask[..] == old(bigmask[..])
    {
      hide ReservedSegment, SegmentSound, InitialSegment, RecoveredSegment, RecoveredBlock, RunLength, SegmentOf,
           Exhausted, Sound, Recovered;
      ghost var k := leaf * FREEMAP_COUNT + n;
      var bmap := bmaps[leaf * FREEMAP_COUNT + n];
      assert k / FREEMAP_COUNT == leaf;
      assert View(k) == bmap.View();
      ghost var was := Views();
      var modified, bgsize := RecoverBmap(bmap, dataOff % SEGSIZE, wantClass, radix, Reserved(k), Usable(k));
      allocatorFree := allocatorFree - bgsize;
      OthersKept(k);
      assert View(k) == bmap.View();
      hide View, Usable, Reserved;
      assert Views() == was[k := View(k)];
      if modified {
        ResetHint(leaf, k);
        freemapRelaxed := false;
      }
      InOneSegment(was, Views(), dataOff, radix);
    }

    /** The hint of a leaf may always be reset. */
    method ResetHint(leaf: nat, ghost k: nat)
      requires Shape() && heurFreemap < totalSize && leaf < leaves && k < |bmaps| && k / FREEMAP_COUNT == leaf
      requires forall j :: 0 <= j < |bmaps| ==>
                 SegmentSound(View(j), Reserved(j), if j == k then RADICES else Usable(j))
      modifies bigmask
      ensures Valid() && Views() == old(Views()) && bigmask[leaf] == RADICES
    {
      hide Exhausted, InitialSegment, Sound;
      ghost var was := Views();
      bigmask[leaf] := RADICES;
      forall j | 0 <= j < |bmaps|
        ensures View(j) == was[j] && SegmentSound(View(j), Reserved(j), Usable(j))
      {
        assert old(SegmentSound(View(j), Reserved(j), if j == k then RADICES else Usable(j)));
      }
    }

    lemma {:induction false} Lengths()
      requires Valid()
      ensures forall k :: 0 <= k < |bmaps| ==> |Views()[k].blocks| == BLOCKS
    {
      hide View;
      forall k | 0 <= k < |bmaps| ensures |View(k).blocks| == BLOCKS {
        assert SegmentSound(View(k), Reserved(k), Usable(k));
      }
    }

    lemma {:induction false} AllAbsent()
      requires Shape() && heurFreemap < totalSize && forall l :: 0 <= l < leaves ==> !created[l]
      ensures Valid()
      ensures forall k :: 0 <= k < |bmaps| ==>
                Views()[k] == InitialSegment(k / FREEMAP_COUNT, k % FREEMAP_COUNT, allocatorBeg, totalSize)
    {
      hide FreshSegment, ReservedSegment, SegmentSound;
      FreshSound();
    }

    /** A volume without any leaf yet. */
    constructor (allocatorBeg: nat, totalSize: nat, free: int)
      requires totalSize > 0
      ensures Valid() && allocatorFree == free
      ensures forall k :: 0 <= k < |bmaps| ==>
                Views()[k] == InitialSegment(k / FREEMAP_COUNT, k % FREEMAP_COUNT, allocatorBeg, totalSize)
    {
      this.allocatorBeg, this.totalSize := allocatorBeg, totalSize;
      leaves := (totalSize + LEVEL1_SIZE - 1) / LEVEL1_SIZE;
      var count := (totalSize + LEVEL1_SIZE - 1) / LEVEL1_SIZE;
      created := new bool[count](_ => false);
      bigmask := new set<nat>[count](_ => RADICES);
      var maps := AllocateMaps(count * FREEMAP_COUNT);
      bmaps := maps;
      heurFreemap, freemapRelaxed, allocatorFree := 0, false, free;
      new;
      AllAbsent();
    }
  }

  lemma {:induction false} LeafExists(bnext: nat, totalSize: nat, leaves: nat)
    requires bnext < totalSize && leaves == (totalSize + LEVEL1_SIZE - 1) / LEVEL1_SIZE
    ensures bnext / LEVEL1_SIZE < leaves && bnext - bnext / LEVEL1_SIZE * LEVEL1_SIZE < LEVEL1_SIZE
    ensures NextLeaf(bnext) >= totalSize <==> bnext / LEVEL1_SIZE + 1 == leaves
  {
  }

  lemma {:induction false} ServedRange(vs: seq<Segment>, vs': seq<Segment>, leaf: nat, n: nat, q: Request, offset: nat,
                      allocatorBeg: nat, totalSize: nat)
    requires n < FREEMAP_COUNT && Served(vs, vs', leaf * FREEMAP_COUNT + n, q, offset)
    requires !ReservedSegment(leaf, n, allocatorBeg, totalSize)
    ensures var key := SegmentKey(leaf, n) + offset;
            && Allocatable(key, Size(q.radix), allocatorBeg, totalSize)
            && SegmentOf(key) == leaf * FREEMAP_COUNT + n && key % SEGSIZE == offset
  {
    assert 1 <= Size(q.radix);
    assert offset < SEGSIZE;
    hide Served, Size, ReservedSegment, SegmentOf, SegmentKey;
    ServableRange(leaf, n, allocatorBeg, totalSize);
    InLeaf(leaf, n, offset);
    KeySegment(leaf, n, offset);
    assert offset + Size(q.radix) <= SEGSIZE by { ServedFits(vs, vs', leaf * FREEMAP_COUNT + n, q, offset); }
  }

  /** What a leaf's scan gives, in terms of the media offset. */
  lemma {:induction false} GivenKey(vs: seq<Segment>, vs': seq<Segment>, leaf: nat, n: nat, q: Request, offset: nat,
                                    relaxed: bool, allocatorBeg: nat, totalSize: nat)
    requires var k := leaf * FREEMAP_COUNT + n;
             n < FREEMAP_COUNT && k < |vs| && Served(vs, vs', k, q, offset) && Serving(vs[k], q, relaxed)
    requires !ReservedSegment(leaf, n, allocatorBeg, totalSize)
    ensures var key := SegmentKey(leaf, n) + offset;
            && SegmentOf(key) == leaf * FREEMAP_COUNT + n && Serving(vs[SegmentOf(key)], q, relaxed)
            && Served(vs, vs', SegmentOf(key), q, key % SEGSIZE)
            && Allocatable(key, Size(q.radix), allocatorBeg, totalSize)
            && TotalAvail(vs') - TotalAvail(vs) == Charge(vs, vs', leaf * FREEMAP_COUNT + n)
  {
    ServedRange(vs, vs', leaf, n, q, offset, allocatorBeg, totalSize);
    ServedTotal(vs, vs', leaf * FREEMAP_COUNT + n, q, offset);
  }

  lemma {:induction false} ServedFits(vs: seq<Segment>, vs': seq<Segment>, k: nat, q: Request, offset: nat)
    requires Served(vs, vs', k, q, offset)
    ensures offset + Size(q.radix) <= SEGSIZE
  {
  }

  lemma {:induction false} ServedHadRoom(vs: seq<Segment>, vs': seq<Segment>, q: Request, key: nat)
    requires Served(vs, vs', SegmentOf(key), q, key % SEGSIZE)
    requires forall k :: 0 <= k < |vs| ==> |vs[k].blocks| == BLOCKS
    ensures !LeafExhausted(vs, 0, |vs|, q.radix)
  {
    ServesFromRoom(vs[SegmentOf(key)], vs'[SegmentOf(key)], q, key % SEGSIZE);
  }
}
