/**
  The topology walk of a bulkfree pass: depth first, with a lossy cache of visited blocks, a
  depth limit, and a list of deferred blocks that is run down later.
 */
module BulkfreeScan {
  import BulkfreeWindow

  /**
    A block reference of the snapshot with everything below it.  `off` is the media offset
    with its radix, 0 for a reference without data.
   */
  datatype Ref = Ref(off: int, recurses: bool, pfsroot: bool, kids: seq<Ref>)

  // -------------------------------------------------- the plain walk

  /** All references with data below `t`. */
  ghost function Below(t: Ref): set<Ref> {
    if t.recurses then BelowAll(t.kids) else {}
  }

  ghost function BelowAll(kids: seq<Ref>): set<Ref> {
    if kids == [] then {}
    else (if kids[0].off == 0 then {} else {kids[0]} + Below(kids[0])) + BelowAll(kids[1..])
  }

  function Size(t: Ref): (n: int)
    ensures n >= 1
  {
    1 + SizeAll(t.kids)
  }

  function SizeAll(kids: seq<Ref>): (n: int)
    ensures n >= 0
  {
    if kids == [] then 0 else Size(kids[0]) + SizeAll(kids[1..])
  }

  lemma {:induction false} SizeSplit(a: seq<Ref>, b: seq<Ref>)
    ensures SizeAll(a + b) == SizeAll(a) + SizeAll(b)
    decreases |a|
  {
    if a == [] {
      assert a + b == b;
    } else {
      assert (a + b)[1..] == a[1..] + b;
      SizeSplit(a[1..], b);
    }
  }

  lemma {:induction false} BelowKid(kids: seq<Ref>, i: int)
    requires 0 <= i < |kids| && kids[i].off != 0
    ensures kids[i] in BelowAll(kids) && Below(kids[i]) <= BelowAll(kids)
    decreases i
  {
    if i > 0 { BelowKid(kids[1..], i - 1); }
  }

  lemma {:induction false} BelowMember(kids: seq<Ref>, x: Ref)
    requires x in BelowAll(kids)
    ensures exists i :: 0 <= i < |kids| && kids[i].off != 0 && (x == kids[i] || x in Below(kids[i]))
    decreases |kids|
  {
    if kids[0].off != 0 && (x == kids[0] || x in Below(kids[0])) {
    } else {
      BelowMember(kids[1..], x);
      var i :| 0 <= i < |kids[1..]| && kids[1..][i].off != 0 && (x == kids[1..][i] || x in Below(kids[1..][i]));
      assert kids[i + 1] == kids[1..][i];
    }
  }

  /** What is below something below is below. */
  lemma {:induction false} BelowTrans(t: Ref, x: Ref)
    requires x in Below(t)
    ensures Below(x) <= Below(t) && Size(x) < Size(t)
    decreases t
  {
    BelowMember(t.kids, x);
    var i :| 0 <= i < |t.kids| && t.kids[i].off != 0 && (x == t.kids[i] || x in Below(t.kids[i]));
    BelowKid(t.kids, i);
    KidSmaller(t.kids, i);
    if x != t.kids[i] { BelowTrans(t.kids[i], x); }
  }

  lemma {:induction false} KidSmaller(kids: seq<Ref>, i: int)
    requires 0 <= i < |kids|
    ensures Size(kids[i]) <= SizeAll(kids)
    decreases i
  {
    if i > 0 { KidSmaller(kids[1..], i - 1); }
  }

  // ----------------------------------------------------------- the cache

  datatype Slot = Slot(off: int, ticks: int)

  /** Slot `j` of the set holds the offset now; on a miss it was the set's least. */
  ghost predicate Holds(s: seq<Slot>, n: int, j: int, off: int, pri: int, hit: bool, s': seq<Slot>) {
    && 0 <= n <= j < n + 8 <= |s|
    && (hit ==> s[j].off == off)
    && (!hit ==> forall k :: n <= k < n + 8 ==> s[k].off != off && s[j].ticks <= s[k].ticks)
    && s' == s[j := Slot(off, if hit && s[j].ticks > pri then s[j].ticks else pri)]
  }

  class Cache {
    const sets: int
    const hash: int -> int
    var dedup: array<Slot>
    ghost var inserted: set<int>

    ghost predicate Valid()
      reads this, dedup
    {
      && sets > 0 && dedup.Length == 8 * sets
      && forall i :: 0 <= i < dedup.Length ==> dedup[i].off == 0 || dedup[i].off in inserted
    }

    constructor (sets: int, hash: int -> int)
      requires sets > 0
      ensures Valid() && fresh(dedup) && inserted == {} && this.sets == sets
    {
      this.sets, this.hash := sets, hash;
      dedup := new Slot[8 * sets](_ => Slot(0, 0));
      inserted := {};
    }

    /**
      Look the offset up among the eight slots of its set; if it is not there it replaces the
      one of lowest priority.  A hit has been inserted before; a miss says nothing.
     */
    method Test(off: int, pri: int) returns (hit: bool)
      requires Valid() && off != 0
      modifies this`inserted, dedup
      ensures Valid()
      ensures hit ==> off in old(inserted) && inserted == old(inserted)
      ensures !hit ==> inserted == old(inserted) + {off}
      ensures exists j :: Holds(old(dedup[..]), hash(off) % sets * 8, j, off, pri, hit, dedup[..])
    {
      var n := (hash(off) % sets) * 8;
      var best, i := 0, 0;
      ghost var was := dedup[..];
      while i < 8
        invariant 0 <= i <= 8 && 0 <= best < 8 && 0 <= n <= dedup.Length - 8
        invariant Valid() && inserted == old(inserted) && dedup[..] == was
        invariant forall j :: n <= j < n + i ==> was[j].off != off && was[n + best].ticks <= was[j].ticks
        decreases 8 - i
      {
        if dedup[n + i].off == off {
          if dedup[n + i].ticks < pri { dedup[n + i] := dedup[n + i].(ticks := pri); }
          assert dedup[..] == was[n + i := Slot(off, if was[n + i].ticks > pri then was[n + i].ticks else pri)];
          assert Holds(was, n, n + i, off, pri, true, dedup[..]);
          return true;
        }
        if dedup[n + i].ticks < dedup[n + best].ticks { best := i; }
        i := i + 1;
      }
      dedup[n + best] := Slot(off, pri);
      assert dedup[..] == was[n + best := Slot(off, pri)];
      inserted := inserted + {off};
      assert Holds(was, n, n + best, off, pri, false, dedup[..]);
      return false;
    }
  }

  // ------------------------------------------------------------ the walk

  /** Blocks of one snapshot: an offset names one block, with one content. */
  ghost predicate Uniform(root: Ref) {
    forall x, y :: x in Below(root) + {root} && y in Below(root) + {root} && x.off == y.off && x.off != 0 ==> x == y
  }

  ghost predicate KidsSeen(x: Ref, seen: set<Ref>) {
    forall i :: 0 <= i < |x.kids| && x.kids[i].off != 0 ==> x.kids[i] in seen
  }

  /** Whatever was reported has its references reported too, or is being walked, or is on the list. */
  ghost predicate Covered(seen: set<Ref>, list: seq<Ref>, stack: set<Ref>) {
    forall x :: x in seen && x.recurses ==> x in stack || x in list || KidsSeen(x, seen)
  }

  /** The cache knows only offsets that were reported, and the starting point. */
  ghost predicate CacheSound(inserted: set<int>, seen: set<Ref>, root: Ref) {
    forall o :: o in inserted ==> o == root.off || exists x :: x in seen && x.off == o
  }

  ghost predicate Sound(root: Ref, inserted: set<int>, seen: set<Ref>, list: seq<Ref>) {
    && Uniform(root) && seen <= Below(root) && CacheSound(inserted, seen, root)
    && forall x :: x in list ==> x in seen && x.recurses
  }

  lemma {:induction false} HitIsSeen(root: Ref, inserted: set<int>, seen: set<Ref>, list: seq<Ref>, k: Ref)
    requires Sound(root, inserted, seen, list) && k in Below(root) && k.off != 0 && k.off in inserted
    ensures k in seen
  {
    BelowTrans(root, k);
    if k.off != root.off {
      var x :| x in seen && x.off == k.off;
      assert x in Below(root);
    }
  }

  lemma {:induction false} Report(root: Ref, inserted: set<int>, seen: set<Ref>, list: seq<Ref>, stack: set<Ref>,
                                  k: Ref)
    requires Sound(root, inserted, seen, list) && Covered(seen, list, stack) && k in Below(root)
    ensures Sound(root, inserted + {k.off}, seen + {k}, list)
    ensures Covered(seen + {k}, list, stack + {k})
    ensures !k.recurses ==> Covered(seen + {k}, list, stack)
  {
  }

  /** Closed under references, the reported set is all there is. */
  lemma {:induction false} ClosedIsAll(root: Ref, t: Ref, seen: set<Ref>)
    requires Covered(seen, [], {}) && KidsSeen(t, seen)
    ensures Below(t) <= seen
    decreases t
  {
    if t.recurses {
      forall x | x in Below(t) ensures x in seen {
        BelowMember(t.kids, x);
        var i :| 0 <= i < |t.kids| && t.kids[i].off != 0 && (x == t.kids[i] || x in Below(t.kids[i]));
        if x in Below(t.kids[i]) { ClosedIsAll(root, t.kids[i], seen); }
      }
    }
  }

  ghost function Offsets(s: set<Ref>): set<int> {
    set x | x in s :: x.off
  }

  /** Deferred blocks in front of what was on the list before. */
  ghost predicate Deferred(list: seq<Ref>, p: seq<Ref>, list0: seq<Ref>, backout: int) {
    list == p + list0 && -1 <= backout < |p|
  }

  ghost predicate PutAt(list: seq<Ref>, k: Ref, at: int, list': seq<Ref>) {
    0 <= at <= |list| && list' == list[..at] + [k] + list[at..]
  }

  lemma {:induction false} BackoutBound(list: seq<Ref>, p: seq<Ref>, list0: seq<Ref>, backout: int)
    requires Deferred(list, p, list0, backout)
    ensures -1 <= backout && list == p + list0
  {
  }

  /** What a deeper walk has deferred comes in front of what was deferred before it. */
  lemma {:induction false} Joined(list: seq<Ref>, r: seq<Ref>, p: seq<Ref>, list0: seq<Ref>, backout: int)
    requires Deferred(list, r, p + list0, backout)
    ensures Deferred(list, r + p, list0, backout) && SizeAll(r + p) == SizeAll(r) + SizeAll(p)
  {
    SizeSplit(r, p);
    assert r + (p + list0) == r + p + list0;
  }

  class Walk {
    const cache: Cache
    const window: BulkfreeWindow.Window
    const limitDepth: int
    const limitSaved: int
    var list: seq<Ref>
    var backout: int
    var depth: int
    var seen: set<Ref>   // what the callback was given

    constructor (cache: Cache, window: BulkfreeWindow.Window, limitDepth: int, limitSaved: int)
      ensures this.cache == cache && this.window == window && list == [] && backout == -1 && depth == 0 && seen == {}
    {
      this.cache, this.window, this.limitDepth, this.limitSaved := cache, window, limitDepth, limitSaved;
      list, backout, depth, seen := [], -1, 0, {};
    }

    ghost predicate Walking(root: Ref, stack: set<Ref>)
      reads this`seen, this`list, cache, cache.dedup
    {
      cache.Valid() && Sound(root, cache.inserted, seen, list) && Covered(seen, list, stack)
    }

    /** The maps of the window hold exactly what has been reported, and nothing else writes to them. */
    ghost predicate Collecting(root: Ref)
      reads this`seen, cache, window.Maps()
    {
      && window.Legal(Offsets(Below(root))) && window.Collected(Offsets(seen))
      && (this as object) !in window.Maps() && (cache as object) !in window.Maps()
      && (cache.dedup as object) !in window.Maps()
    }

    /** Put a block on the list: at its head, or after the last one while backing out. */
    method Defer(k: Ref, ghost p: seq<Ref>, ghost list0: seq<Ref>, ghost root: Ref, ghost stack: set<Ref>)
      returns (ghost q: seq<Ref>)
      requires Deferred(list, p, list0, backout)
      requires Walking(root, stack + {k}) && k in seen && k.recurses
      modifies this`list, this`backout
      ensures Deferred(list, q, list0, backout) && SizeAll(q) == SizeAll(p) + Size(k)
      ensures Walking(root, stack)
      ensures PutAt(old(list), k, old(backout) + 1, list) && backout == old(backout) + 1
    {
      hide Uniform, Covered, Sound, Below;
      ghost var before := list;
      if backout >= 0 {
        q := p[..backout + 1] + [k] + p[backout + 1..];
        SizeInsert(p, backout + 1, k);
        list := list[..backout + 1] + [k] + list[backout + 1..];
        backout := backout + 1;
      } else {
        q := [k] + p;
        SizeInsert(p, 0, k);
        assert q == p[..0] + [k] + p[0..];
        list := [k] + list;
        backout := 0;
      }
      assert list == q + list0;
      Shelved(root, cache.inserted, seen, before, list, stack, k);
    }

    /**
      Walk one block, never more than 16 below the first: every reference in it is reported, and
      what is left to do is on the list.
     */
    method Scan(t: Ref, ghost root: Ref, ghost stack: set<Ref>) returns (ghost p: seq<Ref>)
      requires Walking(root, stack + {t}) && t.recurses && (t == root || t in seen) && (t in Below(root) || t == root)
      requires backout == -1 && Collecting(root) && depth <= 16
      modifies this, cache`inserted, cache.dedup, window.Maps()
      ensures Walking(root, stack) && KidsSeen(t, seen) && old(seen) <= seen && Collecting(root)
      ensures Deferred(list, p, old(list), backout) && SizeAll(p) < Size(t) && depth == old(depth)
      ensures t.pfsroot ==> p == [] && backout == -1
      ensures t.off != 0 ==> t.off in cache.inserted
      decreases Size(t), 3
    {
      hide Uniform, Covered, Sound, Below;
      ghost var list0 := list;
      var tail := |list|;
      p := ScanKids(t, root, stack + {t});
      Leave(seen, list, stack, t);
      if t.pfsroot { p := Exhaust(t, tail, root, stack, p, list0); }
      if t.off != 0 { Remember(t, root, stack); }
    }

    /** The references of one block, in order. */
    method ScanKids(t: Ref, ghost root: Ref, ghost stack: set<Ref>) returns (ghost p: seq<Ref>)
      requires Walking(root, stack) && t.recurses && (t in Below(root) || t == root)
      requires backout == -1 && Collecting(root) && depth <= 16
      modifies this, cache`inserted, cache.dedup, window.Maps()
      ensures Walking(root, stack) && KidsSeen(t, seen) && old(seen) <= seen && Collecting(root)
      ensures Deferred(list, p, old(list), backout) && SizeAll(p) < Size(t) && depth == old(depth)
      decreases Size(t), 2
    {
      hide Uniform, Covered, Sound, Below, Walking, Collecting;
      ghost var list0 := list;
      p := [];
      var i := 0;
      assert SizeAll(t.kids[..0]) == 0;
      while i < |t.kids|
        invariant 0 <= i <= |t.kids| && Walking(root, stack) && old(seen) <= seen && Collecting(root)
        invariant forall j :: 0 <= j < i && t.kids[j].off != 0 ==> t.kids[j] in seen
        invariant Deferred(list, p, list0, backout) && SizeAll(p) <= SizeAll(t.kids[..i]) && depth == old(depth)
      {
        KidFacts(root, t, i);
        p := ScanKid(t, t.kids[i], root, stack, p, list0);
        i := i + 1;
      }
      assert t.kids[..i] == t.kids;
    }

    /** Enter a block that has been walked into the cache. */
    method Remember(t: Ref, ghost root: Ref, ghost stack: set<Ref>)
      requires Walking(root, stack) && Collecting(root) && t.off != 0 && (t == root || t in seen)
      modifies cache`inserted, cache.dedup
      ensures Walking(root, stack) && Collecting(root) && t.off in cache.inserted
    {
      hide Uniform, Covered, Sound, Below, Holds;
      InsertSeen(root, cache.inserted, seen, list, t);
      var _ := cache.Test(t.off, 1);
    }

    /** Report a reference unless the cache knows it. */
    method Visit(k: Ref, ghost root: Ref, ghost stack: set<Ref>) returns (hit: bool)
      requires Walking(root, stack) && Collecting(root) && k.off != 0 && k in Below(root)
      modifies this`seen, cache`inserted, cache.dedup, window.Maps()
      ensures Collecting(root) && old(seen) <= seen && k in seen
      ensures hit || !k.recurses ==> Walking(root, stack)
      ensures !hit ==> Walking(root, stack + {k})
      ensures hit ==> k in old(seen)
    {
      hide Holds;
      ghost var known := cache.inserted;
      hit := cache.Test(k.off, 1);
      if hit {
        HitIsSeen(root, known, seen, list, k);
      } else {
        Report(root, known, seen, list, stack, k);
        Reportable(root, seen, k, window);
        hide Uniform, Covered, Sound, Below;
        window.Callback(k.off, Offsets(seen));
        seen := seen + {k};
      }
    }

    /** One reference: known already, or reported and then walked, deferred, or done with. */
    method ScanKid(t: Ref, k: Ref, ghost root: Ref, ghost stack: set<Ref>, ghost p: seq<Ref>, ghost list0: seq<Ref>)
      returns (ghost q: seq<Ref>)
      requires Walking(root, stack) && Deferred(list, p, list0, backout) && Size(k) < Size(t)
      requires (k.off != 0 ==> k in Below(root)) && Collecting(root) && depth <= 16
      modifies this, cache`inserted, cache.dedup, window.Maps()
      ensures Walking(root, stack) && old(seen) <= seen && (k.off != 0 ==> k in seen) && Collecting(root)
      ensures Deferred(list, q, list0, backout) && SizeAll(q) <= SizeAll(p) + Size(k) && depth == old(depth)
      ensures k.off != 0 && k.recurses && k !in old(seen) ==>
              if old(depth) + 1 > 16 || old(backout) >= 0
                 || (old(depth) + 1 > limitDepth && |old(list)| >= limitSaved / 4)
              then PutAt(old(list), k, old(backout) + 1, list) else KidsSeen(k, seen)
      decreases Size(t), 1
    {
      q := p;
      if k.off == 0 { return; }
      var hit := Visit(k, root, stack);
      if hit || !k.recurses { return; }
      hide Walking, Collecting, Below, Deferred, SizeAll, Size, PutAt, KidsSeen;
      q := Descend(t, k, root, stack, p, list0);
    }

    /** Walk a block that has just been reported, or defer it: too deep, backing out, or too much deferred already. */
    method Descend(ghost t: Ref, k: Ref, ghost root: Ref, ghost stack: set<Ref>, ghost p: seq<Ref>,
                   ghost list0: seq<Ref>)
      returns (ghost q: seq<Ref>)
      requires Walking(root, stack + {k}) && Deferred(list, p, list0, backout) && Size(k) < Size(t)
      requires k in Below(root) && k in seen && k.recurses && Collecting(root) && depth <= 16
      modifies this, cache`inserted, cache.dedup, window.Maps()
      ensures Walking(root, stack) && old(seen) <= seen && Collecting(root)
      ensures Deferred(list, q, list0, backout) && SizeAll(q) <= SizeAll(p) + Size(k) && depth == old(depth)
      ensures if old(depth) + 1 > 16 || old(backout) >= 0
                 || (old(depth) + 1 > limitDepth && |old(list)| >= limitSaved / 4)
              then PutAt(old(list), k, old(backout) + 1, list) else KidsSeen(k, seen)
      decreases Size(t), 0
    {
      hide Walking, Collecting, Below, Deferred, SizeAll, Size, PutAt, KidsSeen;
      BackoutBound(list, p, list0, backout);
      depth := depth + 1;
      if depth > 16 || backout >= 0 || (depth > limitDepth && |list| >= limitSaved / 4) {
        q := Defer(k, p, list0, root, stack);
      } else {
        ghost var r := Scan(k, root, stack);
        q := r + p;
        Joined(list, r, p, list0, backout);
      }
      depth := depth - 1;
    }

    /** Run down what the walk of a PFS root has put on the list. */
    method Exhaust(ghost t: Ref, tail: int, ghost root: Ref, ghost stack: set<Ref>, ghost p: seq<Ref>,
                   ghost list0: seq<Ref>)
      returns (ghost q: seq<Ref>)
      requires Walking(root, stack) && Deferred(list, p, list0, backout) && SizeAll(p) < Size(t) && tail == |list0| &&
               Collecting(root) && depth <= 16
      modifies this, cache`inserted, cache.dedup, window.Maps()
      ensures Walking(root, stack) && old(seen) <= seen && Deferred(list, q, list0, backout) && SizeAll(q) < Size(t)
      ensures depth == old(depth) && q == [] && backout == -1 && Collecting(root)
      decreases Size(t), 1
    {
      q := p;
      hide Uniform, Covered, Sound, Below;
      while |list| > tail
        invariant Walking(root, stack) && old(seen) <= seen && Deferred(list, q, list0, backout) && SizeAll(q) < Size(t)
        invariant tail == |list0| && depth == old(depth) && Collecting(root)
        decreases SizeAll(q)
      {
        q := RunFirst(root, stack, q, list0, t);
      }
    }

    method RunFirst(ghost root: Ref, ghost stack: set<Ref>, ghost q: seq<Ref>, ghost list0: seq<Ref>, ghost t: Ref)
      returns (ghost r: seq<Ref>)
      requires Walking(root, stack) && Deferred(list, q, list0, backout) && q != [] && SizeAll(q) < Size(t) &&
               Collecting(root) && depth <= 16
      modifies this, cache`inserted, cache.dedup, window.Maps()
      ensures Walking(root, stack) && old(seen) <= seen && Deferred(list, r, list0, backout) && SizeAll(r) < SizeAll(q)
      ensures depth == old(depth) && Collecting(root)
      decreases Size(t), 0
    {
      var save := list[0];
      hide Uniform, Covered, Sound, Below;
      list := list[1..];
      backout := -1;
      r := Scan(save, root, stack);
      Joined(list, r, q[1..], list0, backout);
      r := r + q[1..];
    }

    /**
      A whole pass over a snapshot terminates, and has reported exactly the references that a
      plain walk of the snapshot finds; the maps of the window hold exactly those that lie in it.
     */
    method Pass(root: Ref)
      requires cache.Valid() && cache.inserted == {} && list == [] && backout == -1 && seen == {} && depth == 0
      requires root.recurses && Uniform(root) && Collecting(root)
      modifies this, cache`inserted, cache.dedup, window.Maps()
      ensures seen == Below(root) && list == []
      ensures window.Collected(Offsets(Below(root)))
    {
      ghost var p := Scan(root, root, {});
      assert list == p;
      hide Uniform, Covered, Sound, Below;
      while list != []
        invariant Walking(root, {}) && KidsSeen(root, seen) && Collecting(root) && depth == 0 &&
                  Deferred(list, p, [], backout) &&
                  SizeAll(p) < Size(root)
        decreases SizeAll(p)
      {
        ghost var before := seen;
        p := RunFirst(root, {}, p, [], root);
      }
      SeenBelow(root, cache.inserted, seen, list);
      ClosedIsAll(root, root, seen);
    }
  }

  lemma {:induction false} Reportable(root: Ref, seen: set<Ref>, k: Ref, window: BulkfreeWindow.Window)
    requires seen <= Below(root) && k in Below(root) && window.Legal(Offsets(Below(root)))
    ensures Offsets(seen + {k}) == Offsets(seen) + {k.off} && window.Legal(Offsets(seen) + {k.off})
  {
    assert Offsets(seen) + {k.off} <= Offsets(Below(root));
    window.LegalPart(Offsets(seen) + {k.off}, Offsets(Below(root)));
  }

  /** A block whose references are all reported needs no attention any more. */
  lemma {:induction false} Leave(seen: set<Ref>, list: seq<Ref>, stack: set<Ref>, t: Ref)
    requires Covered(seen, list, stack + {t}) && KidsSeen(t, seen)
    ensures Covered(seen, list, stack)
  {
  }

  lemma {:induction false} SeenBelow(root: Ref, inserted: set<int>, seen: set<Ref>, list: seq<Ref>)
    requires Sound(root, inserted, seen, list)
    ensures seen <= Below(root)
  {
  }

  lemma {:induction false} InsertSeen(root: Ref, inserted: set<int>, seen: set<Ref>, list: seq<Ref>, t: Ref)
    requires Sound(root, inserted, seen, list) && (t == root || t in seen)
    ensures Sound(root, inserted + {t.off}, seen, list)
  {
  }

  lemma {:induction false} Shelved(root: Ref, inserted: set<int>, seen: set<Ref>, list: seq<Ref>, list': seq<Ref>,
                                   stack: set<Ref>, k: Ref)
    requires Sound(root, inserted, seen, list) && Covered(seen, list, stack + {k}) && k in seen && k.recurses
    requires forall x :: x in list' <==> x in list || x == k
    ensures Sound(root, inserted, seen, list') && Covered(seen, list', stack)
  {
  }

  lemma {:induction false} SizeInsert(p: seq<Ref>, i: int, k: Ref)
    requires 0 <= i <= |p|
    ensures SizeAll(p[..i] + [k] + p[i..]) == SizeAll(p) + Size(k)
  {
    assert p == p[..i] + p[i..];
    SizeSplit(p[..i], p[i..]);
    SizeSplit(p[..i] + [k], p[i..]);
    SizeSplit(p[..i], [k]);
    assert [k][1..] == [];
  }

  lemma {:induction false} KidFacts(root: Ref, t: Ref, i: int)
    requires t.recurses && (t in Below(root) || t == root) && 0 <= i < |t.kids|
    ensures t.kids[i].off != 0 ==> t.kids[i] in Below(root)
    ensures Size(t.kids[i]) < Size(t)
    ensures SizeAll(t.kids[..i + 1]) == SizeAll(t.kids[..i]) + Size(t.kids[i])
  {
    KidSmaller(t.kids, i);
    if t.kids[i].off != 0 { BelowKid(t.kids, i); }
    if t in Below(root) { BelowTrans(root, t); }
    assert t.kids[..i + 1] == t.kids[..i] + [t.kids[i]];
    SizeSplit(t.kids[..i], [t.kids[i]]);
    assert [t.kids[i]][1..] == [];
  }
}
