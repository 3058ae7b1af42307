/**
  The window of the volume that one topology scan collects: what the scan's callback does with
  a block reference, and which blocks the in-memory maps show at the end.
 */
module BulkfreeWindow {
  import opened FreemapSegment
  import opened Bulkfree
  import Freemap
  import Prelude

  /** A media offset carries the radix of its size in its low six bits. */
  function DataOff(off: int): int { off / 64 * 64 }

  function Radix(off: int): int { off % 64 }

  function LeafBase(key: nat): nat { key / Freemap.LEVEL1_SIZE * Freemap.LEVEL1_SIZE }

  lemma {:induction false} Parts(at: nat, r: nat)
    requires at % 64 == 0 && r < 64
    ensures DataOff(at + r) == at && Radix(at + r) == r
  {
  }

  /** A reference to 1 << r bytes names just these, in the segment they lie in. */
  lemma {:induction false} ReferenceNames(w: Window, at: nat, r: nat)
    requires at % 64 == 0 && 10 <= r <= 16
    ensures w.Collects(at + r) <==> w.sbase <= at < w.sstop && w.allocatorBeg <= at < w.totalSize
    ensures w.Collects(at + r) ==>
              var o := at - w.sbase;
              w.Index(at + r) == o / 0x40_0000 && w.ExtentOf(at + r) == Extent(o % 0x40_0000, Prelude.Pow2(r))
  {
    hide DataOff, Radix, Size, Prelude.Pow2;
    Parts(at, r);
    if w.Collects(at + r) { SizeIs(r); }
  }

  lemma {:induction false} LaterLeaf(key: nat)
    ensures LeafBase(key) <= LeafBase(key + SEGSIZE)
  {
  }

  lemma {:induction false} SegmentOfKey(sbase: nat, k: nat)
    requires sbase % Freemap.LEVEL1_SIZE == 0
    ensures var key := sbase + k * SEGSIZE;
            key == LeafBase(key) + key % Freemap.LEVEL1_SIZE / SEGSIZE * SEGSIZE
  {
    var key := sbase + k * SEGSIZE;
    var leaf, m := key / Freemap.LEVEL1_SIZE, key % Freemap.LEVEL1_SIZE;
    var q := sbase / Freemap.LEVEL1_SIZE;
    assert sbase == q * Freemap.LEVEL1_SIZE && key == leaf * Freemap.LEVEL1_SIZE + m;
    assert m == (q * 256 + k - leaf * 256) * SEGSIZE;
  }

  lemma {:induction false} ReservedAt(leaf: nat, n: nat, allocatorBeg: nat, totalSize: nat)
    requires n < Freemap.FREEMAP_COUNT
    ensures var key := Freemap.SegmentKey(leaf, n);
            var beg := (allocatorBeg + SEGSIZE - 1) / SEGSIZE * SEGSIZE;
            var first := leaf * Freemap.LEVEL1_SIZE + SEGSIZE;
            Freemap.ReservedSegment(leaf, n, allocatorBeg, totalSize)
            <==> key < (if beg < first then first else beg) || key >= totalSize / SEGSIZE * SEGSIZE
  {
    var beg, end := (allocatorBeg + SEGSIZE - 1) / SEGSIZE, totalSize / SEGSIZE;
    assert totalSize == end * SEGSIZE + totalSize % SEGSIZE;
  }

  lemma {:induction false} NothingFound(v: Segment, reserved: bool)
    requires v == FreshSegment(reserved)
    ensures Gathered({}, reserved, v.blocks, v.linear)
  {
  }

  /** The part of the volume that one scan collects, with an in-memory map for each segment of it. */
  class Window {
    const sbase: nat
    const sstop: nat
    const allocatorBeg: nat
    const totalSize: nat
    const bmaps: seq<Bmap>

    predicate Collects(off: int) {
      sbase <= DataOff(off) < sstop && allocatorBeg <= DataOff(off) < totalSize
    }

    function Index(off: int): nat
      requires Collects(off)
    {
      (DataOff(off) - sbase) / SEGSIZE
    }

    function ExtentOf(off: int): Extent
      requires Collects(off) && 10 <= Radix(off) <= 16
    {
      Extent((DataOff(off) - sbase) % SEGSIZE, Size(Radix(off)))
    }

    /** The extents in segment `i` that references with these offsets name. */
    ghost function Found(offs: set<int>, i: int): set<Extent> {
      set off | off in offs && Collects(off) && 10 <= Radix(off) <= 16 && Index(off) == i :: ExtentOf(off)
    }

    /** What holds of references that the allocator made: sizes it serves, inside the window, apart or shared. */
    ghost predicate Legal(offs: set<int>) {
      && (forall off :: off in offs && Collects(off) ==>
            10 <= Radix(off) <= 16 && (DataOff(off) - sbase) % ALLOC_MIN == 0 &&
              DataOff(off) + Size(Radix(off)) <= sstop)
      && forall i :: 0 <= i < |bmaps| ==> Separate(Found(offs, i))
    }

    /** Segments that hold no allocatable storage. */
    predicate Reserved(k: nat) {
      var key := sbase + k * SEGSIZE;
      Freemap.ReservedSegment(key / Freemap.LEVEL1_SIZE, key % Freemap.LEVEL1_SIZE / SEGSIZE, allocatorBeg, totalSize)
    }

    ghost function Maps(): set<object> {
      (set k | 0 <= k < |bmaps| :: bmaps[k] as object) + (set k | 0 <= k < |bmaps| :: bmaps[k].bitmapq as object)
    }

    ghost predicate Shape() {
      && sstop <= sbase + |bmaps| * SEGSIZE
      && (forall k :: 0 <= k < |bmaps| ==> bmaps[k].bitmapq.Length == BLOCKS)
      && (forall j, k :: 0 <= j < |bmaps| && 0 <= k < |bmaps| && j != k ==>
            bmaps[j] != bmaps[k] && bmaps[j].bitmapq != bmaps[k].bitmapq)
    }

    /** Every map of the window has recorded exactly what the references name. */
    ghost predicate Collected(offs: set<int>)
      reads Maps()
    {
      Shape() && forall k :: 0 <= k < |bmaps| ==>
        Gathered(Found(offs, k), Reserved(k), bmaps[k].bitmapq[..], bmaps[k].linear)
    }

    /** The maps before the scan: free, or full where the segment is reserved. */
    constructor (sbase: nat, sstop: nat, allocatorBeg: nat, totalSize: nat, count: nat)
      requires sbase % Freemap.LEVEL1_SIZE == 0 && sstop <= sbase + count * SEGSIZE
      ensures Collected({}) && fresh(Maps()) && |bmaps| == count
      ensures this.sbase == sbase && this.sstop == sstop && this.allocatorBeg == allocatorBeg &&
              this.totalSize == totalSize
    {
      this.sbase, this.sstop, this.allocatorBeg, this.totalSize := sbase, sstop, allocatorBeg, totalSize;
      var maps := Freemap.AllocateMaps(count);
      bmaps := maps;
      new;
      InitMaps();
    }

    method InitMaps()
      requires Shape() && sbase % Freemap.LEVEL1_SIZE == 0
      modifies Maps()
      ensures Collected({})
    {
      hide FreshSegment, Gathered, Freemap.ReservedSegment, LeafBase, Found, Reserved;
      var key, k := sbase, 0;
      var lokey := (allocatorBeg + SEGSIZE - 1) / SEGSIZE * SEGSIZE;
      var hikey := totalSize / SEGSIZE * SEGSIZE;
      while k < |bmaps|
        invariant 0 <= k <= |bmaps| && key == sbase + k * SEGSIZE
        invariant (allocatorBeg + SEGSIZE - 1) / SEGSIZE * SEGSIZE <= lokey
        invariant lokey <= (allocatorBeg + SEGSIZE - 1) / SEGSIZE * SEGSIZE || lokey <= LeafBase(key) + SEGSIZE
        invariant forall j :: 0 <= j < k ==> bmaps[j].View() == FreshSegment(Reserved(j))
      {
        if lokey < LeafBase(key) { lokey := LeafBase(key); }
        if lokey < LeafBase(key) + SEGSIZE { lokey := LeafBase(key) + SEGSIZE; }
        ReservedKey(k, key, lokey, hikey);
        bmaps[k].Init(key < lokey || key >= hikey);
        LaterLeaf(key);
        key, k := key + SEGSIZE, k + 1;
      }
      forall j | 0 <= j < |bmaps| ensures Gathered(Found({}, j), Reserved(j), bmaps[j].bitmapq[..], bmaps[j].linear) {
        NothingFound(bmaps[j].View(), Reserved(j));
        FoundNothing(j);
      }
    }

    /** The initialization reserves what the allocator's own does, although it bounds both ends differently. */
    lemma {:induction false} ReservedKey(k: nat, key: nat, lokey: nat, hikey: nat)
      requires sbase % Freemap.LEVEL1_SIZE == 0 && key == sbase + k * SEGSIZE
      requires var beg := (allocatorBeg + SEGSIZE - 1) / SEGSIZE * SEGSIZE;
               lokey == if beg < LeafBase(key) + SEGSIZE then LeafBase(key) + SEGSIZE else beg
      requires hikey == totalSize / SEGSIZE * SEGSIZE
      ensures Reserved(k) <==> key < lokey || key >= hikey
    {
      SegmentOfKey(sbase, k);
      hide Freemap.ReservedSegment;
      ReservedAt(key / Freemap.LEVEL1_SIZE, key % Freemap.LEVEL1_SIZE / SEGSIZE, allocatorBeg, totalSize);
    }

    lemma {:induction false} FoundNothing(j: int)
      ensures Found({}, j) == {}
    {
    }

    lemma {:induction false} LegalPart(some: set<int>, offs: set<int>)
      requires Legal(offs) && some <= offs
      ensures Legal(some)
    {
      forall i | 0 <= i < |bmaps| ensures Separate(Found(some, i)) {
        assert Found(some, i) <= Found(offs, i);
        assert Separate(Found(offs, i));
      }
    }

    /** A reference adds its extent to the segment it names, and to no other. */
    lemma {:induction false} FoundMore(offs: set<int>, off: int, k: int)
      requires Collects(off) ==> 10 <= Radix(off) <= 16
      ensures Found(offs + {off}, k) ==
                if Collects(off) && Index(off) == k then Found(offs, k) + {ExtentOf(off)} else Found(offs, k)
    {
    }

    /** What the segment that the reference names requires. */
    lemma {:induction false} Recordable(offs: set<int>, off: int)
      requires Shape() && Legal(offs + {off}) && Collects(off)
      ensures 10 <= Radix(off) <= 16 && Index(off) < |bmaps| && Separate(Found(offs, Index(off)) + {ExtentOf(off)})
      ensures ExtentOf(off).offset % ALLOC_MIN == 0 && ExtentOf(off).size % ALLOC_MIN == 0
    {
      hide Separate;
      assert off in offs + {off};
      FoundMore(offs, off, Index(off));
    }

    /** One block reference of the topology: recorded if it lies in the window. */
    method Callback(off: int, ghost offs: set<int>)
      requires Collected(offs) && Legal(offs + {off})
      modifies Maps()
      ensures Collected(offs + {off})
    {
      hide Gathered, Separate, Legal, Found, Freemap.ReservedSegment;
      var dataOff := DataOff(off);
      if dataOff < sbase || dataOff >= sstop || dataOff < allocatorBeg || dataOff >= totalSize {
        forall k ensures Found(offs + {off}, k) == Found(offs, k) { FoundMore(offs, off, k); }
        return;
      }
      Recordable(offs, off);
      var i := (dataOff - sbase) / SEGSIZE;
      var e := Extent((dataOff - sbase) % SEGSIZE, Size(Radix(off)));
      forall k ensures Found(offs + {off}, k) == if k == i then Found(offs, i) + {e} else Found(offs, k) {
        FoundMore(offs, off, k);
      }
      Record(bmaps[i], e, Found(offs, i), Reserved(i));
      assert forall k :: 0 <= k < |bmaps| && k != i ==>
        bmaps[k].bitmapq[..] == old(bmaps[k].bitmapq[..]) && bmaps[k].linear == old(bmaps[k].linear);
    }
  }
}
