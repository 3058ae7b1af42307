/**
  A whole bulkfree pass: window after window, each with a walk of the snapshot of its own, until
  the end of the volume.
 */
module BulkfreeVolume {
  import opened FreemapSegment
  import opened Collector
  import opened Bulkfree
  import opened BulkfreeWindow
  import opened BulkfreePass
  import BulkfreeScan
  import Freemap

  /** The extents in segment `k` of the volume that references with these offsets name. */
  ghost function Named(offs: set<int>, k: nat, beg: nat, total: nat): set<Extent> {
    set off | off in offs && beg <= DataOff(off) < total && 10 <= Radix(off) <= 16 && DataOff(off) / SEGSIZE == k ::
      Extent(DataOff(off) % SEGSIZE, Size(Radix(off)))
  }

  /** What holds of references that the allocator made. */
  ghost predicate Issued(offs: set<int>, beg: nat, total: nat) {
    && (forall off :: off in offs && beg <= DataOff(off) < total ==>
          && 10 <= Radix(off) <= 16 && DataOff(off) % ALLOC_MIN == 0
          && DataOff(off) + Size(Radix(off)) <= total && DataOff(off) % SEGSIZE + Size(Radix(off)) <= SEGSIZE)
    && forall k: nat :: Separate(Named(offs, k, beg, total))
  }

  /** Where segment `k` is in the freemap. */
  lemma {:induction false} SegmentPlace(k: nat)
    ensures k * SEGSIZE / Freemap.LEVEL1_SIZE == k / Freemap.FREEMAP_COUNT
    ensures k * SEGSIZE % Freemap.LEVEL1_SIZE / SEGSIZE == k % Freemap.FREEMAP_COUNT
  {
    var q, r := k / Freemap.FREEMAP_COUNT, k % Freemap.FREEMAP_COUNT;
    assert k * SEGSIZE == q * Freemap.LEVEL1_SIZE + r * SEGSIZE;
  }

  /** The window from segment `first` on collects what the volume's references name there. */
  lemma {:induction false} FoundIsNamed(w: Window, offs: set<int>, first: nat, i: nat)
    requires Issued(offs, w.allocatorBeg, w.totalSize) && w.sbase == first * SEGSIZE
    requires w.sbase + i * SEGSIZE < w.sstop && (w.sstop % SEGSIZE == 0 || w.sstop >= w.totalSize)
    ensures w.Found(offs, i) == Named(offs, first + i, w.allocatorBeg, w.totalSize)
  {
    hide Separate, Size;
    forall off | off in offs && w.allocatorBeg <= DataOff(off) < w.totalSize
      ensures DataOff(off) / SEGSIZE == first + i <==> w.Collects(off) && w.Index(off) == i
      ensures w.Collects(off) ==> (DataOff(off) - w.sbase) % SEGSIZE == DataOff(off) % SEGSIZE
    {
      var d := DataOff(off);
      var q, r := d / SEGSIZE, d % SEGSIZE;
      assert d == q * SEGSIZE + r;
      if d >= w.sbase {
        assert d - w.sbase == (q - first) * SEGSIZE + r;
        assert (d - w.sbase) / SEGSIZE == q - first;
      }
      if w.sstop % SEGSIZE == 0 {
        var s := w.sstop / SEGSIZE;
        assert s * SEGSIZE == w.sstop;
        assert q < s <==> d < w.sstop;
      }
    }
  }

  lemma {:induction false} FewerSeparate(some: set<Extent>, all: set<Extent>)
    requires Separate(all) && some <= all
    ensures Separate(some)
  {
  }

  lemma {:induction false} LegalOffset(d: int, size: nat, sbase: nat, first: nat, sstop: nat)
    requires sbase == first * SEGSIZE && d % ALLOC_MIN == 0 && d % SEGSIZE + size <= SEGSIZE && sbase <= d < sstop
    ensures (d - sbase) % ALLOC_MIN == 0
    ensures sstop % SEGSIZE == 0 ==> d + size <= sstop
  {
    var q, s, m := d / SEGSIZE, sstop / SEGSIZE, d / ALLOC_MIN;
    assert d == q * SEGSIZE + d % SEGSIZE && d == m * ALLOC_MIN;
    assert d - sbase == (m - first * 4096) * ALLOC_MIN;
    if sstop % SEGSIZE == 0 { assert s * SEGSIZE == sstop && q + 1 <= s; }
  }

  /** So its references are legal in the window. */
  lemma {:induction false} LegalThere(w: Window, offs: set<int>, first: nat)
    requires Issued(offs, w.allocatorBeg, w.totalSize) && w.sbase == first * SEGSIZE
    requires w.sstop <= w.totalSize && (w.sstop % SEGSIZE == 0 || w.sstop >= w.totalSize)
    ensures w.Legal(offs)
  {
    hide Separate, Size, Named, Window.Found;
    forall off | off in offs && w.Collects(off)
      ensures 10 <= Radix(off) <= 16 && (DataOff(off) - w.sbase) % ALLOC_MIN == 0
      ensures DataOff(off) + Size(Radix(off)) <= w.sstop
    {
      hide Radix, DataOff;
      LegalOffset(DataOff(off), Size(Radix(off)), w.sbase, first, w.sstop);
    }
    forall i: int | 0 <= i < |w.bmaps| ensures Separate(w.Found(offs, i)) {
      SeparateThere(w, offs, first, i);
    }
  }

  lemma {:induction false} SeparateThere(w: Window, offs: set<int>, first: nat, i: nat)
    requires Issued(offs, w.allocatorBeg, w.totalSize) && w.sbase == first * SEGSIZE
    ensures Separate(w.Found(offs, i))
  {
    hide Separate, Named, Window.Found;
    FoundAmong(w, offs, first, i);
    FewerSeparate(w.Found(offs, i), Named(offs, first + i, w.allocatorBeg, w.totalSize));
  }

  lemma {:induction false} FoundAmong(w: Window, offs: set<int>, first: nat, i: nat)
    requires w.sbase == first * SEGSIZE
    ensures w.Found(offs, i) <= Named(offs, first + i, w.allocatorBeg, w.totalSize)
  {
    forall off | off in offs && w.Collects(off) && w.Index(off) == i
      ensures DataOff(off) / SEGSIZE == first + i && (DataOff(off) - w.sbase) % SEGSIZE == DataOff(off) % SEGSIZE
    {
      var d := DataOff(off);
      var e := d - w.sbase;
      assert e == i * SEGSIZE + e % SEGSIZE;
      assert d == (first + i) * SEGSIZE + e % SEGSIZE;
    }
  }

  // ------------------------------------------------------------- totals

  lemma {:induction false} TotalConcat(a: seq<Segment>, b: seq<Segment>)
    ensures Freemap.TotalAvail(a + b) == Freemap.TotalAvail(a) + Freemap.TotalAvail(b)
    decreases |b|
  {
    if b == [] {
      assert a + b == a;
    } else {
      var n := |b| - 1;
      assert (a + b)[..|a + b| - 1] == a + b[..n];
      TotalConcat(a, b[..n]);
    }
  }

  /** Segments outside of a stretch that stay as they are do not matter to the change of the total. */
  lemma {:induction false} TotalStretch(vs: seq<Segment>, vs': seq<Segment>, first: nat, to: nat)
    requires first <= to <= |vs| == |vs'| && vs[..first] == vs'[..first] && vs[to..] == vs'[to..]
    ensures Freemap.TotalAvail(vs') - Freemap.TotalAvail(vs)
         == Freemap.TotalAvail(vs'[first..to]) - Freemap.TotalAvail(vs[first..to])
  {
    assert vs == vs[..first] + vs[first..to] + vs[to..] && vs' == vs'[..first] + vs'[first..to] + vs'[to..];
    TotalConcat(vs[..first] + vs[first..to], vs[to..]);
    TotalConcat(vs'[..first] + vs'[first..to], vs'[to..]);
    TotalConcat(vs[..first], vs[first..to]);
    TotalConcat(vs'[..first], vs'[first..to]);
  }

  lemma {:induction false} SameParts(vs: seq<Segment>, vs': seq<Segment>, first: nat, to: nat)
    requires first <= to <= |vs| == |vs'| && vs[..first] == vs'[..first] && vs[to..] == vs'[to..] &&
             vs[first..to] == vs'[first..to]
    ensures vs == vs'
  {
    assert vs == vs[..first] + vs[first..to] + vs[to..] && vs' == vs'[..first] + vs'[first..to] + vs'[to..];
  }

  // ----------------------------------------------------------- the volume

  class VolumeMap {
    const live: seq<Bmap>
    const dedup: seq<array<bool>>
    const bigmask: array<set<nat>>
    const allocatorBeg: nat
    const totalSize: nat
    var allocatorFree: int
    var freemapRelaxed: bool

    constructor (live: seq<Bmap>, dedup: seq<array<bool>>, bigmask: array<set<nat>>, allocatorBeg: nat, totalSize: nat,
                 free: int)
      ensures this.live == live && this.dedup == dedup && this.bigmask == bigmask
      ensures this.allocatorBeg == allocatorBeg && this.totalSize == totalSize && allocatorFree == free &&
              !freemapRelaxed
    {
      this.live, this.dedup, this.bigmask := live, dedup, bigmask;
      this.allocatorBeg, this.totalSize, allocatorFree, freemapRelaxed := allocatorBeg, totalSize, free, false;
    }

    ghost function Objects(): set<object> {
      (set k | 0 <= k < |live| :: live[k] as object) + (set k | 0 <= k < |live| :: live[k].bitmapq as object)
      + (set k | 0 <= k < |dedup| :: dedup[k] as object) + {bigmask as object}
    }

    ghost predicate Shape() {
      && |live| == |dedup| && totalSize <= |live| * SEGSIZE && |live| <= bigmask.Length * Freemap.FREEMAP_COUNT
      && (forall k :: 0 <= k < |live| ==> live[k].bitmapq.Length == dedup[k].Length == BLOCKS)
      && forall j, k :: 0 <= j < |live| && 0 <= k < |live| && j != k ==>
           live[j] != live[k] && live[j].bitmapq != live[k].bitmapq && dedup[j] != dedup[k]
    }

    ghost predicate Reserved(k: nat) {
      Freemap.ReservedSegment(k / Freemap.FREEMAP_COUNT, k % Freemap.FREEMAP_COUNT, allocatorBeg, totalSize)
    }

    ghost predicate SegmentOk(k: nat)
      requires k < |live| == |dedup| && live[k].bitmapq.Length == dedup[k].Length == BLOCKS
      requires k / Freemap.FREEMAP_COUNT < bigmask.Length
      reads live[k], live[k].bitmapq, dedup[k], bigmask
    {
      && Freemap.SegmentSound(live[k].View(), Reserved(k), bigmask[k / Freemap.FREEMAP_COUNT])
      && forall b :: 0 <= b < BLOCKS && dedup[k][b] ==> live[k].bitmapq[b] == Allocated
    }

    ghost predicate Valid()
      reads Objects()
    {
      Shape() && forall k :: 0 <= k < |live| ==> SegmentOk(k)
    }

    ghost function Views(): (vs: seq<Segment>)
      reads Objects()
      ensures |vs| == |live| && forall k :: 0 <= k < |live| ==> vs[k] == live[k].View()
    {
      seq(|live|, k requires 0 <= k < |live| reads Objects() => live[k].View())
    }

    /** Whether the snapshot uses block `b` of segment `k`. */
    ghost predicate Uses(offs: set<int>, k: nat, b: nat) {
      Reserved(k) || exists e :: e in Named(offs, k, allocatorBeg, totalSize) && Touches(e, b)
    }

    /** Segment `k` before and after a pass that begins at media offset `from`. */
    ghost predicate Collected(offs: set<int>, k: nat, from: nat, leaf: bool, was: Segment, now: Segment) {
      && |was.blocks| == |now.blocks| == BLOCKS
      && if allocatorBeg <= k * SEGSIZE < totalSize && from <= k * SEGSIZE && leaf then
           forall b :: 0 <= b < BLOCKS ==> now.blocks[b] == Merge(was.blocks[b], Uses(offs, k, b))
         else now == was
    }

    /** The part of the volume that one window works on. */
    ghost predicate PartOf(maps: LiveMap, first: nat, to: nat) {
      && first <= to <= |live| == |dedup| && maps.live == live[first..to] && maps.dedup == dedup[first..to]
      && maps.bigmask == bigmask
      && |maps.window.bmaps| == to - first && maps.window.sbase == first * SEGSIZE
      && maps.window.allocatorBeg == allocatorBeg && maps.window.totalSize == totalSize
    }

    lemma {:induction false} PartReserved(maps: LiveMap, first: nat, to: nat, i: nat)
      requires PartOf(maps, first, to) && i < to - first
      ensures maps.window.Reserved(i) == Reserved(first + i) && maps.Leaf(i) == (first + i) / Freemap.FREEMAP_COUNT
    {
      SegmentPlace(first + i);
      assert maps.window.sbase + i * SEGSIZE == (first + i) * SEGSIZE;
      hide Freemap.ReservedSegment;
    }

    lemma {:induction false} PartViews(maps: LiveMap, first: nat, to: nat)
      requires PartOf(maps, first, to)
      ensures maps.Views() == Views()[first..to]
    {
      assert forall i :: 0 <= i < to - first ==> maps.live[i] == live[first + i];
    }

    lemma {:induction false} PartValid(maps: LiveMap, first: nat, to: nat)
      requires Valid() && PartOf(maps, first, to) && maps.Objects() !! maps.window.Maps()
      ensures maps.Valid() && maps.Objects() <= Objects() && maps.Views() == Views()[first..to]
    {
      hide Freemap.SegmentSound, Window.Reserved, Reserved;
      forall i | 0 <= i < to - first
        ensures maps.live[i] == live[first + i] && maps.dedup[i] == dedup[first + i]
        ensures maps.Leaf(i) < bigmask.Length
      {
        PartReserved(maps, first, to, i);
      }
      assert maps.Shape();
      forall i | 0 <= i < to - first ensures maps.SegmentOk(i) {
        PartReserved(maps, first, to, i);
        assert SegmentOk(first + i);
      }
    }

    lemma {:induction false} PartOk(maps: LiveMap, first: nat, to: nat, k: nat)
      requires Shape() && PartOf(maps, first, to) && maps.Valid() && first <= k < to
      ensures k / Freemap.FREEMAP_COUNT < bigmask.Length && SegmentOk(k)
    {
      PartReserved(maps, first, to, k - first);
      assert maps.SegmentOk(k - first) && maps.live[k - first] == live[k] && maps.dedup[k - first] == dedup[k];
    }

    /** A segment that has not changed is as good as before, whether its hint was reset or not. */
    twostate lemma OthersStay(k: nat)
      requires Shape() && k < |live| && k / Freemap.FREEMAP_COUNT < bigmask.Length && old(SegmentOk(k))
      requires live[k].View() == old(live[k].View()) && dedup[k][..] == old(dedup[k][..])
      requires var l := k / Freemap.FREEMAP_COUNT; bigmask[l] == old(bigmask[l]) || bigmask[l] == Freemap.RADICES
      ensures SegmentOk(k)
    {
      Freemap.HintReset(live[k].View(), Reserved(k), old(bigmask[k / Freemap.FREEMAP_COUNT]));
      hide Freemap.SegmentSound;
      forall b | 0 <= b < BLOCKS && dedup[k][b] ensures live[k].bitmapq[b] == Allocated {
        assert dedup[k][b] == dedup[k][..][b] && live[k].bitmapq[b] == live[k].View().blocks[b];
        assert old(dedup[k][..])[b] && old(live[k].View()).blocks[b] == old(live[k].bitmapq[b]);
      }
    }

    /** What the window says of a segment is what the volume says. */
    lemma {:induction false} PartUpdated(maps: LiveMap, first: nat, to: nat, offs: set<int>, i: nat, from: nat,
                                         leaf: bool, was: Segment, now: Segment)
      requires PartOf(maps, first, to) && i < to - first && Issued(offs, allocatorBeg, totalSize) &&
               from <= maps.window.sbase
      requires maps.window.sstop % SEGSIZE == 0 || maps.window.sstop == totalSize
      requires maps.window.sbase + i * SEGSIZE < maps.window.sstop || maps.window.sstop == totalSize
      requires maps.Updated(offs, i, leaf, was, now)
      ensures Collected(offs, first + i, from, leaf, was, now)
    {
      PartReserved(maps, first, to, i);
      assert maps.window.sbase + i * SEGSIZE == (first + i) * SEGSIZE;
      if maps.Due(i, leaf) {
        FoundIsNamed(maps.window, offs, first, i);
        assert forall b :: maps.Marked(offs, i, b) == Uses(offs, first + i, b);
      }
    }

    lemma {:induction false} AllUpdated(maps: LiveMap, first: nat, to: nat, offs: set<int>, from: nat, leaf: seq<bool>,
                                        was: seq<Segment>, now: seq<Segment>)
      requires PartOf(maps, first, to) && Issued(offs, allocatorBeg, totalSize) && from <= maps.window.sbase
      requires maps.window.sstop == totalSize || maps.window.sstop == to * SEGSIZE
      requires |was| == |now| == |live| && |leaf| == to - first
      requires forall i :: 0 <= i < to - first ==> maps.Updated(offs, i, leaf[i], was[first..to][i], now[first..to][i])
      ensures forall k :: first <= k < to ==> Collected(offs, k, from, leaf[k - first], was[k], now[k])
    {
      hide LiveMap.Updated, VolumeMap.Collected, Issued;
      forall k | first <= k < to ensures Collected(offs, k, from, leaf[k - first], was[k], now[k]) {
        assert maps.Updated(offs, k - first, leaf[k - first], was[first..to][k - first], now[first..to][k - first]);
        assert maps.window.sbase + (k - first) * SEGSIZE == k * SEGSIZE;
        PartUpdated(maps, first, to, offs, k - first, from, leaf[k - first], was[k], now[k]);
      }
    }

    /** The collector's own objects are none of the volume's. */
    ghost predicate Apart(walk: BulkfreeScan.Walk, maps: LiveMap)
      reads walk.cache
    {
      && {walk as object, walk.cache, walk.cache.dedup, maps.tally} !! maps.window.Maps() + Objects() + {this}
      && maps.window.Maps() !! Objects() + {this} && (this as object) !in Objects()
      && (maps.tally as object) !in {walk as object, walk.cache, walk.cache.dedup}
    }

    /** Nothing that a window writes belongs to the segments outside of it. */
    lemma {:induction false} Frames(walk: BulkfreeScan.Walk, maps: LiveMap, first: nat, to: nat)
      requires Valid() && PartOf(maps, first, to) && Apart(walk, maps)
      ensures maps.Objects() <= Objects()
      ensures var own := {walk as object, walk.cache, walk.cache.dedup, maps.tally};
              && own !! maps.window.Maps() + maps.Objects() && maps.window.Maps() !! maps.Objects()
              && (this as object) !in own + maps.window.Maps() + maps.Objects()
              && forall k :: 0 <= k < |live| && !(first <= k < to) ==>
                   {live[k] as object, live[k].bitmapq, dedup[k]} !! own + maps.window.Maps() + maps.Objects()
    {
      hide SegmentOk, Freemap.SegmentSound, LiveMap.Objects, Window.Maps;
      PartObjects(maps, first, to);
      assert forall k :: 0 <= k < |live| ==> {live[k] as object, live[k].bitmapq, dedup[k]} <= Objects();
    }

    lemma {:induction false} PartObjects(maps: LiveMap, first: nat, to: nat)
      requires Shape() && PartOf(maps, first, to)
      ensures maps.Objects() <= Objects()
      ensures forall k :: 0 <= k < |live| && !(first <= k < to) ==>
                (live[k] as object) !in maps.Objects() && (live[k].bitmapq as object) !in maps.Objects()
                && (dedup[k] as object) !in maps.Objects()
    {
      assert forall i :: 0 <= i < to - first ==> maps.live[i] == live[first + i] && maps.dedup[i] == dedup[first + i];
    }

    /** The walk has not begun; its window lies inside the volume, on segment boundaries or at the end. */
    ghost predicate Fresh(walk: BulkfreeScan.Walk, maps: LiveMap, root: BulkfreeScan.Ref, to: nat)
      reads this, walk, walk.cache, walk.cache.dedup, maps.window.Maps(), maps.tally
    {
      && maps.tally.freemapRelaxed == freemapRelaxed
      && walk.window == maps.window && walk.cache.Valid() && walk.cache.inserted == {}
      && walk.list == [] && walk.backout == -1 && walk.seen == {} && walk.depth == 0
      && root.recurses && BulkfreeScan.Uniform(root)
      && Issued(BulkfreeScan.Offsets(BulkfreeScan.Below(root)), allocatorBeg, totalSize)
      && maps.window.Collected({}) && maps.window.sstop <= totalSize
      && (maps.window.sstop == totalSize || maps.window.sstop == to * SEGSIZE)
    }

    /** Run the window on its part of the volume; the other segments stay as they are. */
    method RunHere(walk: BulkfreeScan.Walk, maps: LiveMap, root: BulkfreeScan.Ref, leaf: seq<bool>, hintGood: seq<bool>,
                   ghost first: nat, ghost to: nat)
      requires Valid() && PartOf(maps, first, to) && Apart(walk, maps) && |leaf| == |hintGood| == to - first
      requires Fresh(walk, maps, root, to)
      modifies this`allocatorFree, this`freemapRelaxed, Objects(), walk, walk.cache`inserted, walk.cache.dedup,
               maps.window.Maps(), maps.tally
      ensures maps.Valid()
      ensures forall l :: 0 <= l < bigmask.Length ==> bigmask[l] == old(bigmask[l]) || bigmask[l] == Freemap.RADICES
      ensures forall k :: 0 <= k < |live| && !(first <= k < to) ==> live[k].View() == old(live[k].View())
      ensures forall k :: 0 <= k < |live| && !(first <= k < to) ==> dedup[k][..] == old(dedup[k][..])
      ensures var offs := BulkfreeScan.Offsets(BulkfreeScan.Below(root));
              forall i :: 0 <= i < to - first ==> maps.Updated(offs, i, leaf[i], old(maps.Views())[i], maps.Views()[i])
      ensures allocatorFree - old(allocatorFree)
           == Freemap.TotalAvail(maps.Views()) - Freemap.TotalAvail(old(maps.Views()))
      ensures freemapRelaxed ==> old(freemapRelaxed) && maps.Views() == old(maps.Views())
    {
      hide Issued, Freemap.SegmentSound, Freemap.TotalAvail, BulkfreeScan.Uniform, BulkfreeScan.Below, Reserved,
           LiveMap.Updated, LiveMap.Valid, Valid, Apart, Objects, LiveMap.Objects, Window.Maps, Window.Collected,
           Window.Legal, SegmentOk, LiveMap.SegmentOk, BulkfreeScan.Cache.Valid;
      Frames(walk, maps, first, to);
      PartValid(maps, first, to);
      LegalThere(maps.window, BulkfreeScan.Offsets(BulkfreeScan.Below(root)), first);
      var adjFree := RunWindow(walk, maps, root, leaf, hintGood);
      allocatorFree, freemapRelaxed := allocatorFree + adjFree, maps.tally.freemapRelaxed;
    }

    /** One window, and its share of the volume's free count. */
    method RunPart(walk: BulkfreeScan.Walk, maps: LiveMap, root: BulkfreeScan.Ref, leaf: seq<bool>, hintGood: seq<bool>,
                   ghost first: nat, ghost to: nat, ghost from: nat)
      requires Valid() && PartOf(maps, first, to) && Apart(walk, maps) && |leaf| == |hintGood| == to - first
      requires Fresh(walk, maps, root, to) && from <= maps.window.sbase
      modifies this`allocatorFree, this`freemapRelaxed, Objects(), walk, walk.cache`inserted, walk.cache.dedup,
               maps.window.Maps(), maps.tally
      ensures Valid() && Views()[..first] == old(Views())[..first] && Views()[to..] == old(Views())[to..]
      ensures var offs := BulkfreeScan.Offsets(BulkfreeScan.Below(root));
              forall k :: first <= k < to ==> Collected(offs, k, from, leaf[k - first], old(Views())[k], Views()[k])
      ensures allocatorFree - old(allocatorFree) == Freemap.TotalAvail(Views()) - Freemap.TotalAvail(old(Views()))
      ensures freemapRelaxed ==> old(freemapRelaxed) && Views() == old(Views())
    {
      ghost var was, offs := Views(), BulkfreeScan.Offsets(BulkfreeScan.Below(root));
      hide Issued, Freemap.SegmentSound, Freemap.TotalAvail, BulkfreeScan.Uniform, BulkfreeScan.Below, Reserved,
           LiveMap.Updated,
           VolumeMap.Collected, SegmentOk, LiveMap.SegmentOk, LiveMap.Valid;
      PartViews(maps, first, to);
      RunHere(walk, maps, root, leaf, hintGood, first, to);
      PartViews(maps, first, to);
      forall k | 0 <= k < |live| ensures SegmentOk(k) {
        if first <= k < to { PartOk(maps, first, to, k); } else { OthersStay(k); }
      }
      TotalStretch(was, Views(), first, to);
      AllUpdated(maps, first, to, offs, from, leaf, was, Views());
      if freemapRelaxed { SameParts(was, Views(), first, to); }
    }

    /** Visited cache and walk of a window. */
    method Equip(window: Window, first: nat, to: nat, sets: int, hash: int -> int, limits: (int, int),
                 relaxed: bool, ghost root: BulkfreeScan.Ref, ghost others: set<object>)
      returns (walk: BulkfreeScan.Walk, maps: LiveMap)
      requires Valid() && (this as object) !in Objects() && first <= to <= |live| && sets > 0
      requires root.recurses && BulkfreeScan.Uniform(root)
      requires Issued(BulkfreeScan.Offsets(BulkfreeScan.Below(root)), allocatorBeg, totalSize)
      requires window.Collected({}) && window.sbase == first * SEGSIZE && |window.bmaps| == to - first
      requires window.allocatorBeg == allocatorBeg && window.totalSize == totalSize && window.sstop <= totalSize
      requires (window.sstop == totalSize || window.sstop == to * SEGSIZE) && window.Maps() !! Objects() + {this}
      requires others == window.Maps() + Objects() + {this} && relaxed == freemapRelaxed
      ensures fresh(walk) && fresh(walk.cache) && fresh(walk.cache.dedup) && fresh(maps.tally) && maps.window == window
      ensures PartOf(maps, first, to) && Apart(walk, maps) && Fresh(walk, maps, root, to)
    {
      hide Issued, BulkfreeScan.Uniform, BulkfreeScan.Below, Window.Collected, BulkfreeScan.Cache.Valid, SegmentOk,
           BulkfreeScan.Offsets, Objects, Window.Maps;
      assert |live| == |dedup|;
      hide Valid;
      var cache := new BulkfreeScan.Cache(sets, hash);
      walk := new BulkfreeScan.Walk(cache, window, limits.0, limits.1);
      var tally := new Collection(relaxed);
      maps := new LiveMap(window, live[first..to], dedup[first..to], bigmask, tally);
    }

    /** The window from `sbase` to `sstop`, with maps, visited cache and walk of its own. */
    method OneWindow(root: BulkfreeScan.Ref, leaf: seq<bool>, hintGood: seq<bool>, sbase: nat, sstop: nat, first: nat,
                     to: nat, sets: int, hash: int -> int, limits: (int, int), ghost from: nat)
      requires Valid() && (this as object) !in Objects() && first <= to <= |live| == |leaf| == |hintGood| && sets > 0
      requires root.recurses && BulkfreeScan.Uniform(root)
      requires Issued(BulkfreeScan.Offsets(BulkfreeScan.Below(root)), allocatorBeg, totalSize)
      requires sbase == first * SEGSIZE && sbase % Freemap.LEVEL1_SIZE == 0 && from <= sbase
      requires sstop <= to * SEGSIZE && sstop <= totalSize && (sstop == totalSize || sstop == to * SEGSIZE)
      modifies this`allocatorFree, this`freemapRelaxed, Objects()
      ensures Valid() && Views()[..first] == old(Views())[..first] && Views()[to..] == old(Views())[to..]
      ensures var offs := BulkfreeScan.Offsets(BulkfreeScan.Below(root));
              forall k :: first <= k < to ==> Collected(offs, k, from, leaf[k], old(Views())[k], Views()[k])
      ensures allocatorFree - old(allocatorFree) == Freemap.TotalAvail(Views()) - Freemap.TotalAvail(old(Views()))
      ensures freemapRelaxed ==> old(freemapRelaxed) && Views() == old(Views())
    {
      hide Issued, Freemap.TotalAvail, BulkfreeScan.Uniform, BulkfreeScan.Below, Reserved, VolumeMap.Collected,
           SegmentOk, PartOf, Apart, Fresh;
      ghost var was := Views();
      var window := new Window(sbase, sstop, allocatorBeg, totalSize, to - first);
      var walk, maps := Equip(window, first, to, sets, hash, limits, freemapRelaxed, root, window.Maps() + Objects() +
        {this});
      assert Valid() && Views() == was;
      hide Valid, Objects;
      assert forall k :: first <= k < to ==> leaf[first..to][k - first] == leaf[k];
      RunPart(walk, maps, root, leaf[first..to], hintGood[first..to], first, to, from);
    }

    /** How far the pass has come: the segments before `done` are merged, the others as they were. */
    ghost predicate Progress(offs: set<int>, from: nat, sbase: nat, done: nat, leaf: seq<bool>, was: seq<Segment>,
                             now: seq<Segment>) {
      && done <= |live| == |leaf| == |was| == |now|
      && (sbase < totalSize ==> sbase == done * SEGSIZE && sbase % Freemap.LEVEL1_SIZE == 0)
      && (sbase >= totalSize ==> done * SEGSIZE >= totalSize) && from <= sbase
      && (forall k :: 0 <= k < done ==> Collected(offs, k, from, leaf[k], was[k], now[k]))
      && forall k :: done <= k < |live| ==> now[k] == was[k]
    }

    /**
      The pass.  Every segment from the starting point to the end of the volume that has a freemap
      leaf is merged once, with all references of the snapshot that lie in it; no other segment
      changes; and the volume's free count changes by what the segments gain and lose.
     */
    method Pass(root: BulkfreeScan.Ref, leaf: seq<bool>, hintGood: seq<bool>, start: nat, leaves: nat, sets: int,
                hash: int -> int, limits: (int, int))
      requires Valid() && (this as object) !in Objects() && |live| == |leaf| == |hintGood| && sets > 0 && leaves > 0
      requires root.recurses && BulkfreeScan.Uniform(root)
      requires Issued(BulkfreeScan.Offsets(BulkfreeScan.Below(root)), allocatorBeg, totalSize)
      modifies this`allocatorFree, this`freemapRelaxed, Objects()
      ensures Valid()
      ensures var offs, from := BulkfreeScan.Offsets(BulkfreeScan.Below(root)),
              LeafBase(if start > totalSize then totalSize else start);
              forall k :: 0 <= k < |live| ==> Collected(offs, k, from, leaf[k], old(Views())[k], Views()[k])
      ensures allocatorFree - old(allocatorFree) == Freemap.TotalAvail(Views()) - Freemap.TotalAvail(old(Views()))
      ensures freemapRelaxed ==> old(freemapRelaxed) && Views() == old(Views())
    {
      hide Issued, Freemap.TotalAvail, BulkfreeScan.Uniform, BulkfreeScan.Below, Progress, Valid, Objects,
           VolumeMap.Collected,
           LeafBase;
      var sbase := LeafBase(if start > totalSize then totalSize else start);
      ghost var offs, was := BulkfreeScan.Offsets(BulkfreeScan.Below(root)), Views();
      ghost var from: nat, done: nat := sbase, sbase / SEGSIZE;
      Begun(offs, if start > totalSize then totalSize else start, leaf);
      while sbase < totalSize
        invariant Valid() && Progress(offs, from, sbase, done, leaf, was, Views())
        invariant freemapRelaxed ==> old(freemapRelaxed) && Views() == was
        invariant allocatorFree - old(allocatorFree) == Freemap.TotalAvail(Views()) - Freemap.TotalAvail(was)
        decreases totalSize - sbase
      {
        var incr := leaves * Freemap.LEVEL1_SIZE;
        var sstop := if totalSize - sbase <= incr then totalSize else sbase + incr;
        var first := sbase / SEGSIZE;
        var to := if leaves * Freemap.FREEMAP_COUNT < |live| - first then first + leaves * Freemap.FREEMAP_COUNT
          else |live|;
        Bounds(offs, from, sbase, done, leaf, was, Views(), leaves, sstop, to);
        ghost var before := Views();
        OneWindow(root, leaf, hintGood, sbase, sstop, first, to, sets, hash, limits, from);
        Advanced(offs, from, sbase, done, leaf, was, before, Views(), sstop, to);
        sbase, done := sstop, to;
      }
      Finished(offs, from, sbase, done, leaf, was);
    }

    lemma {:induction false} WholeLeaves(start: nat)
      ensures var sbase := LeafBase(start);
              && sbase / SEGSIZE * SEGSIZE == sbase && sbase % Freemap.LEVEL1_SIZE == 0 && sbase <= start
    {
      var q := start / 0x4000_0000;
      LeafSegments(q);
      assert LeafBase(start) == 0x4000_0000 * q;
    }

    lemma {:induction false} LeafSegments(q: nat)
      ensures (0x4000_0000 * q) / 0x40_0000 == 256 * q && (0x4000_0000 * q) % 0x4000_0000 == 0
      ensures 256 * q * 0x40_0000 == 0x4000_0000 * q
    {
    }

    lemma {:induction false} Begun(offs: set<int>, start: nat, leaf: seq<bool>)
      requires Valid() && |leaf| == |live| && start <= totalSize
      ensures Progress(offs, LeafBase(start), LeafBase(start), LeafBase(start) / SEGSIZE, leaf, Views(), Views())
    {
      hide LeafBase;
      WholeLeaves(start);
      forall k | 0 <= k < |live| ensures |Views()[k].blocks| == BLOCKS { assert live[k].bitmapq.Length == BLOCKS; }
    }

    lemma {:induction false} Bounds(offs: set<int>, from: nat, sbase: nat, done: nat, leaf: seq<bool>,
                                    was: seq<Segment>, now: seq<Segment>,
                                    leaves: nat, sstop: nat, to: nat)
      requires Valid() && Progress(offs, from, sbase, done, leaf, was, now) && sbase < totalSize && leaves > 0
      requires sstop == if totalSize - sbase <= leaves * Freemap.LEVEL1_SIZE then totalSize
               else sbase + leaves * Freemap.LEVEL1_SIZE
      requires var first := sbase / SEGSIZE;
               to == if leaves * Freemap.FREEMAP_COUNT < |live| - first then first + leaves * Freemap.FREEMAP_COUNT
                 else |live|
      ensures sbase / SEGSIZE == done <= to <= |live| && sbase < sstop <= to * SEGSIZE
      ensures sbase == done * SEGSIZE && sbase % Freemap.LEVEL1_SIZE == 0 && from <= sbase
      ensures sstop == totalSize || (sstop == to * SEGSIZE && sstop % Freemap.LEVEL1_SIZE == 0)
    {
      hide Collected;
      assert totalSize <= |live| * SEGSIZE;
      PartBounds(sbase, done, totalSize, |live|, leaves, sstop, to);
    }

    /** The arithmetic of it: 256 segments of 4MB to a leaf. */
    lemma {:induction false} PartBounds(sbase: nat, done: nat, total: nat, n: nat, leaves: nat, sstop: nat, to: nat)
      requires sbase == 0x40_0000 * done && sbase % 0x4000_0000 == 0 && sbase < total <= 0x40_0000 * n && leaves > 0
      requires sstop == if total - sbase <= 0x4000_0000 * leaves then total else sbase + 0x4000_0000 * leaves
      requires to == if 256 * leaves < n - done then done + 256 * leaves else n
      ensures sbase / 0x40_0000 == done <= to <= n && sbase < sstop <= 0x40_0000 * to
      ensures sstop == total || (sstop == 0x40_0000 * to && sstop % 0x4000_0000 == 0)
    {
      var q := sbase / 0x4000_0000;
      assert sbase + 0x4000_0000 * leaves == 0x4000_0000 * (q + leaves);
    }

    lemma {:induction false} Advanced(offs: set<int>, from: nat, sbase: nat, done: nat, leaf: seq<bool>,
                                      was: seq<Segment>,
                                      before: seq<Segment>, now: seq<Segment>, sstop: nat, to: nat)
      requires Progress(offs, from, sbase, done, leaf, was, before) && sbase <= sstop <= to * SEGSIZE &&
               done <= to <= |live| == |now|
      requires sstop == totalSize || (sstop == to * SEGSIZE && sstop % Freemap.LEVEL1_SIZE == 0)
      requires now[..done] == before[..done] && now[to..] == before[to..]
      requires forall k :: done <= k < to ==> Collected(offs, k, from, leaf[k], before[k], now[k])
      ensures Progress(offs, from, sstop, to, leaf, was, now)
    {
      hide VolumeMap.Collected;
      forall k | 0 <= k < to ensures Collected(offs, k, from, leaf[k], was[k], now[k]) {
        if k < done { assert now[..done][k] == before[..done][k]; }
      }
      forall k | to <= k < |live| ensures now[k] == was[k] { assert now[to..][k - to] == before[to..][k - to]; }
    }

    lemma {:induction false} Finished(offs: set<int>, from: nat, sbase: nat, done: nat, leaf: seq<bool>,
                                      was: seq<Segment>)
      requires Valid() && Progress(offs, from, sbase, done, leaf, was, Views()) && sbase >= totalSize
      ensures |was| == |leaf| == |live|
      ensures forall k :: 0 <= k < |live| ==> Collected(offs, k, from, leaf[k], was[k], Views()[k])
    {
      hide SegmentOk;
      forall k | 0 <= k < |live| ensures |Views()[k].blocks| == BLOCKS { assert live[k].bitmapq.Length == BLOCKS; }
    }
  }
}
