/**
  One window of a bulkfree pass from end to end: the topology walk fills the in-memory maps, and
  these are merged into the live ones segment by segment.
 */
module BulkfreePass {
  import opened FreemapSegment
  import opened Collector
  import opened Bulkfree
  import opened BulkfreeWindow
  import BulkfreeScan
  import Freemap

  /** After the merge a segment is sound under the full hint; a reserved one stays as it was laid out. */
  lemma {:induction false} MergedSound(was: Segment, now: Segment, reserved: bool, found: seq<BlockState>, linear: nat)
    requires Freemap.Sound(now) && Merged(was.blocks, found, now.blocks)
    requires reserved ==> was == FreshSegment(true) && forall b :: 0 <= b < BLOCKS ==> found[b] == Allocated
    requires CountFree(now.blocks) != BLOCKS ==>
             now.linear == AdjustedLinear(now.blocks, was.linear, linear) && now.bclass == was.bclass
    ensures Freemap.SegmentSound(now, reserved, Freemap.RADICES)
  {
    if reserved {
      CountFreeNone(now.blocks);
      assert now.blocks[BLOCKS - 1] == Allocated;
      assert now.blocks == FreshSegment(true).blocks;
    }
  }

  class LiveMap {
    const window: Window
    const live: seq<Bmap>
    const dedup: seq<array<bool>>   // the dedup_alloc bits of each segment's blocks
    const bigmask: array<set<nat>>   // the hint of each leaf of the volume
    const tally: Collection

    constructor (window: Window, live: seq<Bmap>, dedup: seq<array<bool>>, bigmask: array<set<nat>>, tally: Collection)
      ensures this.window == window && this.live == live && this.dedup == dedup && this.bigmask == bigmask &&
              this.tally == tally
    {
      this.window, this.live, this.dedup, this.bigmask, this.tally := window, live, dedup, bigmask, tally;
    }

    ghost function Objects(): set<object> {
      (set k | 0 <= k < |live| :: live[k] as object) + (set k | 0 <= k < |live| :: live[k].bitmapq as object)
      + (set k | 0 <= k < |dedup| :: dedup[k] as object) + {bigmask as object}
    }

    /** The leaf of segment `k` of the window. */
    function Leaf(k: nat): nat {
      (window.sbase + k * SEGSIZE) / Freemap.LEVEL1_SIZE
    }


    ghost predicate Shape() {
      && |live| == |dedup| == |window.bmaps|
      && (forall k :: 0 <= k < |live| ==> live[k].bitmapq.Length == dedup[k].Length == BLOCKS)
      && (forall j, k :: 0 <= j < |live| && 0 <= k < |live| && j != k ==>
            live[j] != live[k] && live[j].bitmapq != live[k].bitmapq && dedup[j] != dedup[k])
      && Objects() !! window.Maps() && forall k :: 0 <= k < |live| ==> Leaf(k) < bigmask.Length
    }

    /** A segment as the allocator needs it, its leaf's hint included. */
    ghost predicate SegmentOk(k: nat)
      requires k < |live| == |dedup| && live[k].bitmapq.Length == dedup[k].Length == BLOCKS && Leaf(k) < bigmask.Length
      reads live[k], live[k].bitmapq, dedup[k], bigmask
    {
      && Freemap.SegmentSound(live[k].View(), window.Reserved(k), bigmask[Leaf(k)])
      && forall b :: 0 <= b < BLOCKS && dedup[k][b] ==> live[k].bitmapq[b] == Allocated
    }

    /** Hints of other segments stay truthful when one leaf's is reset. */
    twostate lemma OthersOk(k: nat)
      requires old(Valid()) && Shape() && k < |live|
      requires forall j :: 0 <= j < |live| && j != k ==>
               live[j].View() == old(live[j].View()) && dedup[j][..] == old(dedup[j][..])
      requires bigmask[..] == old(bigmask[..]) || bigmask[..] == old(bigmask[..])[Leaf(k) := Freemap.RADICES]
      ensures forall j :: 0 <= j < |live| && j != k ==> SegmentOk(j)
    {
      forall j | 0 <= j < |live| && j != k ensures SegmentOk(j) {
        assert old(SegmentOk(j));
        Freemap.HintReset(live[j].View(), window.Reserved(j), old(bigmask[Leaf(j)]));
        assert bigmask[Leaf(j)] == bigmask[..][Leaf(j)] && old(bigmask[Leaf(j)]) == old(bigmask[..])[Leaf(j)];
        hide Freemap.SegmentSound;
        forall b | 0 <= b < BLOCKS && dedup[j][b] ensures live[j].bitmapq[b] == Allocated {
          assert dedup[j][b] == dedup[j][..][b] && live[j].bitmapq[b] == live[j].View().blocks[b];
          assert old(dedup[j][..])[b] && old(live[j].View()).blocks[b] == old(live[j].bitmapq[b]);
        }
      }
    }

    ghost predicate Valid()
      reads Objects()
    {
      Shape() && forall k :: 0 <= k < |live| ==> SegmentOk(k)
    }

    ghost function Views(): (vs: seq<Segment>)
      reads Objects()
      ensures |vs| == |live| && forall k :: 0 <= k < |live| ==> vs[k] == live[k].View()
    {
      seq(|live|, k requires 0 <= k < |live| reads Objects() => live[k].View())
    }

    /** The segments a pass brings up to date: in the window and in the allocatable volume, with a freemap leaf. */
    predicate Due(k: nat, leaf: bool) {
      var dataOff := window.sbase + k * SEGSIZE;
      window.allocatorBeg <= dataOff < window.sstop && dataOff < window.totalSize && leaf
    }

    /** Whether the snapshot uses block `b` of segment `k`. */
    ghost predicate Marked(offs: set<int>, k: nat, b: nat) {
      window.Reserved(k) || exists e :: e in window.Found(offs, k) && Touches(e, b)
    }

    lemma {:induction false} MapsSay(offs: set<int>, k: nat)
      requires window.Collected(offs) && k < |window.bmaps|
      ensures window.bmaps[k].bitmapq.Length == BLOCKS
      ensures forall b :: 0 <= b < BLOCKS ==> (window.bmaps[k].bitmapq[b] == Allocated <==> Marked(offs, k, b))
      ensures window.Reserved(k) ==> forall b :: 0 <= b < BLOCKS ==> window.bmaps[k].bitmapq[..][b] == Allocated
      ensures InMemory(window.bmaps[k].bitmapq[..], window.bmaps[k].linear)
      ensures OutsideTail(window.Found(offs, k), window.bmaps[k].linear)
    {
      hide Touches, Overlap;
      assert Gathered(window.Found(offs, k), window.Reserved(k), window.bmaps[k].bitmapq[..], window.bmaps[k].linear);
      GatheredInMemory(window.Found(offs, k), window.Reserved(k), window.bmaps[k].bitmapq[..], window.bmaps[k].linear);
    }

    /**
      One segment: nothing to do if the maps agree and the iterator and hint are sane, else the
      merge, and the leaf's hint is reset.  Either way the states are those of the merge, and the
      hint is truthful, whatever the test of the hint has answered.
     */
    method SyncSegment(k: nat, hintGood: bool, ghost offs: set<int>)
      requires Valid() && window.Collected(offs) && k < |live|
      modifies tally, live[k], live[k].bitmapq, dedup[k], bigmask
      ensures SegmentOk(k) && tally.adjFree - old(tally.adjFree) == live[k].avail - old(live[k].avail)
      ensures forall b :: 0 <= b < BLOCKS ==> live[k].bitmapq[b] == Merge(old(live[k].bitmapq[b]), Marked(offs, k, b))
      ensures forall b :: 0 <= b < BLOCKS ==> dedup[k][b] == (old(dedup[k][b]) && live[k].bitmapq[b] != Staged)
      ensures live[k].View() != old(live[k].View()) ==> OutsideTail(window.Found(offs, k), live[k].linear)
      ensures if live[k].View() != old(live[k].View()) then bigmask[..] == old(bigmask[..])[Leaf(k) := Freemap.RADICES]
              else bigmask[..] == old(bigmask[..]) || bigmask[..] == old(bigmask[..])[Leaf(k) := Freemap.RADICES]
      ensures tally.freemapRelaxed ==> old(tally.freemapRelaxed) && live[k].View() == old(live[k].View())
    {
      hide Marked, Touches, Freemap.Exhausted, FreshSegment, AdjustedLinear, Gathered, Overlap, Due, CountFree,
           Window.Reserved;
      var l, bmap := live[k], window.bmaps[k];
      MapsSay(offs, k);
      assert SegmentOk(k);
      assert live[k] in Objects() && live[k].bitmapq in Objects() && bmap in window.Maps() &&
             bmap.bitmapq in window.Maps();
      ghost var was, found := l.View(), bmap.bitmapq[..];
      if l.bitmapq[..] == bmap.bitmapq[..] && l.linear >= bmap.linear && hintGood {
        assert forall b :: 0 <= b < BLOCKS ==> l.bitmapq[..][b] == bmap.bitmapq[..][b];
        return;
      }
      bigmask[Leaf(k)] := Freemap.RADICES;
      tally.freemapRelaxed := false;
      tally.SyncAdjust(l, bmap, dedup[k], window.Found(offs, k));
      MergedSound(was, l.View(), window.Reserved(k), found, bmap.linear);
      assert forall b :: 0 <= b < BLOCKS ==> l.bitmapq[..][b] == Merge(was.blocks[b], found[b] == Allocated);
    }

    /** Segment `k` before and after the merge. */
    ghost predicate Updated(offs: set<int>, k: nat, leaf: bool, was: Segment, now: Segment) {
      && |was.blocks| == |now.blocks| == BLOCKS
      && if Due(k, leaf) then forall b :: 0 <= b < BLOCKS ==> now.blocks[b] == Merge(was.blocks[b], Marked(offs, k, b))
         else now == was
    }

    method SyncNext(k: nat, leaf: bool, hintGood: bool, ghost offs: set<int>)
      requires Valid() && window.Collected(offs) && k < |live|
      modifies tally, Objects()
      ensures Valid() && window.Collected(offs)
      ensures forall l :: 0 <= l < bigmask.Length ==> bigmask[l] == old(bigmask[l]) || bigmask[l] == Freemap.RADICES
      ensures Views() == old(Views())[k := Views()[k]] && Updated(offs, k, leaf, old(Views())[k], Views()[k])
      ensures tally.freemapRelaxed ==> old(tally.freemapRelaxed) && Views() == old(Views())
      ensures tally.adjFree - old(tally.adjFree) == Freemap.TotalAvail(Views()) - Freemap.TotalAvail(old(Views()))
    {
      ghost var was := Views();
      hide Marked, Merge, Gathered, SegmentOk, Window.Collected, Freemap.TotalAvail;
      if Due(k, leaf) {
        assert live[k] in Objects() && live[k].bitmapq in Objects() && dedup[k] in Objects();
        SyncSegment(k, hintGood, offs);
        assert forall j :: 0 <= j < |live| && j != k ==> live[j].View() == was[j] && dedup[j][..] == old(dedup[j][..]);
        OthersOk(k);
      }
      assert Views() == was[k := Views()[k]];
      assert forall l :: 0 <= l < bigmask.Length ==>
             bigmask[l] == bigmask[..][l] && old(bigmask[l]) == old(bigmask[..])[l];
      Freemap.TotalAvailUpdate(was, k, Views()[k]);
    }

    /**
      Merge every segment of the window.  A block the snapshot uses ends fully allocated; one it
      does not use moves from 11 to 10 and from 10 to 00; the free-space adjustment is exactly
      the change of the total available space.
     */
    method SyncAll(leaf: seq<bool>, hintGood: seq<bool>, ghost offs: set<int>)
      requires Valid() && window.Collected(offs) && |leaf| == |hintGood| == |live|
      modifies tally, Objects()
      ensures Valid()
      ensures forall l :: 0 <= l < bigmask.Length ==> bigmask[l] == old(bigmask[l]) || bigmask[l] == Freemap.RADICES
      ensures forall k :: 0 <= k < |live| ==> Updated(offs, k, leaf[k], old(Views())[k], Views()[k])
      ensures tally.freemapRelaxed ==> old(tally.freemapRelaxed) && Views() == old(Views())
      ensures tally.adjFree - old(tally.adjFree) == Freemap.TotalAvail(Views()) - Freemap.TotalAvail(old(Views()))
    {
      hide Updated, Freemap.TotalAvail;
      ghost var was := Views();
      var k := 0;
      while k < |live|
        invariant 0 <= k <= |live| && Valid() && window.Collected(offs)
        invariant tally.freemapRelaxed ==> old(tally.freemapRelaxed) && Views() == was
        invariant forall l :: 0 <= l < bigmask.Length ==> bigmask[l] == old(bigmask[l]) || bigmask[l] == Freemap.RADICES
        invariant forall j :: 0 <= j < k ==> Updated(offs, j, leaf[j], was[j], Views()[j])
        invariant forall j :: k <= j < |live| ==> Views()[j] == was[j]
        invariant tally.adjFree - old(tally.adjFree) == Freemap.TotalAvail(Views()) - Freemap.TotalAvail(was)
      {
        SyncNext(k, leaf[k], hintGood[k], offs);
        k := k + 1;
      }
    }
  }

  /**
    One window: walk the snapshot, then merge.  Afterwards each segment due shows 11 exactly for
    the blocks that some reference below `root` uses, and every other block one stage nearer to
    free; what comes back is the change of the volume's free count.
   */
  method RunWindow(walk: BulkfreeScan.Walk, maps: LiveMap, root: BulkfreeScan.Ref, leaf: seq<bool>, hintGood: seq<bool>)
    returns (adjFree: int)
    requires walk.window == maps.window && maps.Valid() && |leaf| == |hintGood| == |maps.live|
    requires walk.cache.Valid() && walk.cache.inserted == {} && walk.list == [] && walk.backout == -1 && walk.seen == {}
    requires walk.depth == 0
    requires root.recurses && BulkfreeScan.Uniform(root)
    requires maps.window.Collected({}) && maps.window.Legal(BulkfreeScan.Offsets(BulkfreeScan.Below(root)))
    requires {walk as object, walk.cache, walk.cache.dedup, maps.tally} !! maps.window.Maps() + maps.Objects()
    requires (maps.tally as object) !in {walk as object, walk.cache, walk.cache.dedup}
    modifies walk, walk.cache`inserted, walk.cache.dedup, maps.window.Maps(), maps.tally, maps.Objects()
    ensures maps.Valid()
    ensures forall l :: 0 <= l < maps.bigmask.Length ==>
              maps.bigmask[l] == old(maps.bigmask[l]) || maps.bigmask[l] == Freemap.RADICES
    ensures var offs := BulkfreeScan.Offsets(BulkfreeScan.Below(root));
            forall k :: 0 <= k < |maps.live| ==> maps.Updated(offs, k, leaf[k], old(maps.Views())[k], maps.Views()[k])
    ensures maps.tally.freemapRelaxed ==> old(maps.tally.freemapRelaxed) && maps.Views() == old(maps.Views())
    ensures adjFree == Freemap.TotalAvail(maps.Views()) - Freemap.TotalAvail(old(maps.Views()))
  {
    hide LiveMap.Updated, Freemap.SegmentSound, Freemap.TotalAvail, BulkfreeScan.Below, BulkfreeScan.Uniform, Gathered,
         Separate;
    assert BulkfreeScan.Offsets({}) == {};
    ghost var was := maps.Views();
    walk.Pass(root);
    assert maps.Views() == was;
    var before := maps.tally.adjFree;
    maps.SyncAll(leaf, hintGood, BulkfreeScan.Offsets(BulkfreeScan.Below(root)));
    adjFree := maps.tally.adjFree - before;
  }
}
