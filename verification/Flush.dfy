/**
  Flushing a tree of chains: dirty chains are found from the top by a flag on their ancestors,
  and written from the bottom, each entering its new reference in its parent's block table.
 */
module Flush {

  /** A block reference: key, media offset, and the check code of what is stored there. */
  datatype Blockref = Blockref(key: int, off: int, check: int)

  type Blockmap = map<int, Blockref>

  /** A chain: its links, its flags, its own reference and its block table. */
  datatype Chain = Chain(parent: int, inode: bool, kids: seq<int>,
                         modified: bool, update: bool, onflush: bool, mapped: bool, mapupd: bool,
                         bref: Blockref, table: Blockmap)

  type Memory = map<int, Chain>

  /** The tree below a chain, by address. */
  datatype Shape = Shape(id: int, kids: seq<Shape>)

  ghost function Ids(s: Shape): set<int> {
    {s.id} + IdsAll(s.kids)
  }

  ghost function IdsAll(kids: seq<Shape>): set<int> {
    if kids == [] then {} else Ids(kids[0]) + IdsAll(kids[1..])
  }

  function Roots(kids: seq<Shape>): seq<int> {
    if kids == [] then [] else [kids[0].id] + Roots(kids[1..])
  }

  /** Memory has this shape below parent `p`: links both ways, no chain twice, keys of their own. */
  ghost predicate Shaped(m: Memory, s: Shape, p: int) {
    && s.id in m && m[s.id].parent == p && m[s.id].kids == Roots(s.kids)
    && s.id !in IdsAll(s.kids) && ShapedAll(m, s.kids, s.id)
  }

  ghost predicate ShapedAll(m: Memory, kids: seq<Shape>, p: int) {
    kids == [] ||
    (&& Shaped(m, kids[0], p) && ShapedAll(m, kids[1..], p) && Ids(kids[0]) !! IdsAll(kids[1..])
     && forall k :: k in Roots(kids[1..]) ==> k in m && m[k].bref.key != m[kids[0].id].bref.key)
  }

  predicate Dirty(c: Chain) {
    c.modified || c.update || c.onflush
  }

  /** What the flags of chain `c` say about its entry in its parent's table. */
  ghost predicate EntryOk(c: Chain, t: Blockmap) {
    && (c.mapped <==> c.bref.key in t)
    && (c.mapupd ==> c.mapped)
    && (c.mapped && !c.mapupd ==> t[c.bref.key] == c.bref)
    && (!c.update ==> c.mapped && !c.mapupd)
  }

  /** A modified chain is due for an update of its parent; an unmodified one has its check code. */
  ghost predicate NodeOk(c: Chain, hash: Blockmap -> int) {
    && (c.modified ==> c.update && (c.mapped ==> c.mapupd))
    && (!c.modified ==> c.bref.check == hash(c.table))
  }

  /** Flags and tables fit together, and every dirty chain's parent knows. */
  ghost predicate Ready(m: Memory, s: Shape, hash: Blockmap -> int) {
    && s.id in m && NodeOk(m[s.id], hash) && ReadyAll(m, s.kids, s.id, hash)
    && forall k :: k in Roots(s.kids) && k in m && Dirty(m[k]) ==> m[s.id].onflush
  }

  ghost predicate ReadyAll(m: Memory, kids: seq<Shape>, p: int, hash: Blockmap -> int) {
    kids == [] ||
    (&& p in m && Ready(m, kids[0], hash) && EntryOk(m[kids[0].id], m[p].table)
     && ReadyAll(m, kids[1..], p, hash))
  }

  /** Nothing is dirty, and every chain's parent table holds its reference. */
  ghost predicate Flushed(m: Memory, s: Shape, hash: Blockmap -> int) {
    s.id in m && !Dirty(m[s.id]) && m[s.id].bref.check == hash(m[s.id].table) && FlushedAll(m, s.kids, s.id, hash)
  }

  ghost predicate Entered(m: Memory, k: int, p: int) {
    k in m && p in m && m[k].mapped && !m[k].mapupd && m[k].bref.key in m[p].table &&
      m[p].table[m[k].bref.key] == m[k].bref
  }

  ghost predicate FlushedAll(m: Memory, kids: seq<Shape>, p: int, hash: Blockmap -> int) {
    kids == [] || (Flushed(m, kids[0], hash) && Entered(m, kids[0].id, p) && FlushedAll(m, kids[1..], p, hash))
  }

  /** A chain without flags has nothing dirty anywhere below it. */
  lemma {:induction false} QuietIsFlushed(m: Memory, s: Shape, p: int, hash: Blockmap -> int)
    requires Shaped(m, s, p) && Ready(m, s, hash) && !Dirty(m[s.id])
    ensures Flushed(m, s, hash)
    decreases s
  {
    QuietAll(m, s.kids, s.id, hash);
  }

  lemma {:induction false} QuietAll(m: Memory, kids: seq<Shape>, p: int, hash: Blockmap -> int)
    requires ShapedAll(m, kids, p) && ReadyAll(m, kids, p, hash) && forall k :: k in Roots(kids) && k in m ==>
             !Dirty(m[k])
    ensures FlushedAll(m, kids, p, hash)
    decreases kids
  {
    if kids != [] {
      assert kids[0].id in Roots(kids) && forall k :: k in Roots(kids[1..]) ==> k in Roots(kids);
      QuietIsFlushed(m, kids[0], p, hash);
      QuietAll(m, kids[1..], p, hash);
    }
  }

  // ------------------------------------------------------------- frames

  ghost predicate Agree(m: Memory, m': Memory, on: set<int>) {
    forall x :: x in on && x in m ==> x in m' && m'[x] == m[x]
  }

  lemma {:induction false} RootsInIds(kids: seq<Shape>)
    ensures forall k :: k in Roots(kids) ==> k in IdsAll(kids)
  {
    if kids != [] { RootsInIds(kids[1..]); }
  }

  lemma {:induction false} KidsIn(m: Memory, kids: seq<Shape>, p: int)
    requires ShapedAll(m, kids, p)
    ensures forall k :: k in Roots(kids) ==> k in m
  {
  }

  /** The parent's table is the same as far as these chains are concerned. */
  ghost predicate SameEntries(m: Memory, m': Memory, kids: seq<Shape>, p: int) {
    && p in m && p in m'
    && forall k :: k in Roots(kids) && k in m ==>
         var key := m[k].bref.key;
         (key in m'[p].table <==> key in m[p].table) && (key in m[p].table ==> m'[p].table[key] == m[p].table[key])
  }

  /** Writing elsewhere changes nothing below; of the parent only the entries matter. */
  lemma {:induction false} Frame(m: Memory, m': Memory, s: Shape, p: int, hash: Blockmap -> int)
    requires Shaped(m, s, p) && Agree(m, m', Ids(s))
    ensures Shaped(m', s, p) && (Ready(m, s, hash) ==> Ready(m', s, hash)) &&
            (Flushed(m, s, hash) ==> Flushed(m', s, hash))
    decreases s
  {
    RootsInIds(s.kids);
    KidsIn(m, s.kids, s.id);
    FrameAll(m, m', s.kids, s.id, hash);
  }

  lemma {:induction false} FrameAll(m: Memory, m': Memory, kids: seq<Shape>, p: int, hash: Blockmap -> int)
    requires ShapedAll(m, kids, p) && Agree(m, m', IdsAll(kids)) && SameEntries(m, m', kids, p)
    ensures ShapedAll(m', kids, p)
    ensures ReadyAll(m, kids, p, hash) ==> ReadyAll(m', kids, p, hash)
    ensures FlushedAll(m, kids, p, hash) ==> FlushedAll(m', kids, p, hash)
    decreases kids
  {
    if kids != [] {
      RootsInIds(kids);
      RootsInIds(kids[1..]);
      KidsIn(m, kids, p);
      assert forall k :: k in Roots(kids[1..]) ==> k in Roots(kids);
      assert kids[0].id in Roots(kids) && kids[0].id in Ids(kids[0]);
      Frame(m, m', kids[0], p, hash);
      FrameAll(m, m', kids[1..], p, hash);
    }
  }

  /** What a flush below may do to a parent, its table aside. */
  ghost predicate Touched(c: Chain, c': Chain) {
    && c'.parent == c.parent && c'.inode == c.inode && c'.kids == c.kids && c'.mapped == c.mapped
    && c'.bref.key == c.bref.key
    && (c.onflush ==> c'.onflush) && (!c.mapped ==> c'.mapupd == c.mapupd)
    && if c'.modified && !c.modified then c'.update && (c'.mapped ==> c'.mapupd)
       else c'.modified == c.modified && c'.update == c.update && c'.mapupd == c.mapupd && c'.bref == c.bref
  }

  /** What a flush of the chains `inside`, children of `p`, may do to the rest. */
  ghost predicate Outside(m: Memory, m': Memory, inside: set<int>, p: int, anc: set<int>) {
    forall x :: x in m && x !in inside ==>
      && x in m'
      && (x == p ==> Touched(m[x], m'[x]))
      && (x != p && x in anc ==> m'[x] == m[x].(onflush := m'[x].onflush) && (m[x].onflush ==> m'[x].onflush))
      && (x != p && x !in anc ==> m'[x] == m[x])
  }

  /** The keys of a chain's children in memory. */
  ghost function ChildKeys(m: Memory, y: int): set<int>
    requires y in m
  {
    set k | k in m[y].kids && k in m :: m[k].bref.key
  }

  /** A chain keeps its place, key and table but the entries for `keys`; its block is the old one or a new one. */
  ghost predicate KeptChain(c: Chain, c': Chain, n: int, keys: set<int>) {
    && c'.inode == c.inode && c'.kids == c.kids && c'.parent == c.parent && c'.bref.key == c.bref.key
    && OnlyKeys(c.table, c'.table, keys) && (c'.bref.off == c.bref.off || c'.bref.off >= n)
  }

  /** No chain loses or changes an entry but those of its children in memory; chain `p` only those for `keys`. */
  ghost predicate Kept(m: Memory, m': Memory, n: int, p: int, keys: set<int>) {
    m'.Keys == m.Keys && forall y :: y in m ==> KeptChain(m[y], m'[y], n, if y == p then keys else ChildKeys(m, y))
  }

  lemma {:induction false} KeptSelf(m: Memory, n: int, p: int, keys: set<int>)
    ensures Kept(m, m, n, p, keys)
  {
  }

  lemma {:induction false} KeptTrans(a: Memory, b: Memory, c: Memory, n: int, n': int, p: int, ks: set<int>,
                                     ks': set<int>)
    requires Kept(a, b, n, p, ks) && Kept(b, c, n', p, ks') && n <= n'
    ensures Kept(a, c, n, p, ks + ks')
  {
    forall y | y in a ensures KeptChain(a[y], c[y], n, if y == p then ks + ks' else ChildKeys(a, y)) {
      assert KeptChain(a[y], b[y], n, if y == p then ks else ChildKeys(a, y));
      assert KeptChain(b[y], c[y], n', if y == p then ks' else ChildKeys(b, y));
      assert ChildKeys(b, y) == ChildKeys(a, y) by {
        assert forall k :: k in a ==> KeptChain(a[k], b[k], n, if k == p then ks else ChildKeys(a, k));
      }
    }
  }

  lemma {:induction false} KeptFlag(m: Memory, x: int, n: int, p: int)
    requires x in m
    ensures Kept(m, Lowered(m, x), n, p, {})
  {
  }

  lemma {:induction false} KeptAltered(m: Memory, m': Memory, x: int, anc: set<int>, n: int, p: int)
    requires Altered(m, m', x, anc) && (m'[x].bref.off == m[x].bref.off || m'[x].bref.off >= n)
    ensures Kept(m, m', n, p, {})
  {
  }

  lemma {:induction false} KeptWritten(m: Memory, c: Chain, x: int, n: int, p: int)
    requires x in m && c == m[x].(modified := c.modified, update := c.update, bref := c.bref)
    requires c.bref == m[x].bref.(check := c.bref.check)
    ensures Kept(m, m[x := c], n, p, {})
  {
  }

  lemma {:induction false} KeptEntered(m: Memory, x: int, p: int, n: int)
    requires x in m && p in m && x != p
    ensures Kept(m, WithEntry(m, x, p), n, p, {m[x].bref.key})
  {
  }

  /** What a flush does to the children's parent, seen from the parent's own parent. */
  lemma {:induction false} KeptInner(m: Memory, m': Memory, n: int, x: int, p: int)
    requires x in m && p in m && x != p && Kept(m, m', n, x, ChildKeys(m, x)) && p in m' && m'[p].table == m[p].table
    ensures Kept(m, m', n, p, {})
  {
  }

  lemma {:induction false} WrittenKept(m: Memory, m1: Memory, x: int, p: int, n: int, hash: Blockmap -> int)
    requires x in m && m1 == if m[x].modified then m[x := m[x].(modified := false,
             bref := m[x].bref.(check := hash(m[x].table)))] else m
    ensures Kept(m, m1, n, p, {m[x].bref.key}) && Kept(m, m1, n, p, {}) && m1[x].bref.off == m[x].bref.off
    ensures Known(m, n) ==> Known(m1, n)
  {
  }

  lemma {:induction false} UpdateKept(m: Memory, m1: Memory, m2: Memory, x: int, p: int, n: int)
    requires x in m1 && Kept(m, m1, n, p, {}) && m2 == m1[x := m1[x].(update := false)]
    ensures Kept(m, m2, n, p, {}) && m2[x].bref == m1[x].bref && (Known(m1, n) ==> Known(m2, n))
  {
    assert Kept(m1, m2, n, p, {});
    KeptTrans(m, m1, m2, n, n, p, {}, {});
  }

  lemma {:induction false} ToldKept(m: Memory, m2: Memory, m3: Memory, x: int, p: int, anc: set<int>, n: int)
    requires Kept(m, m2, n, p, {}) && Modified(m2, m3, p, anc) && x in m2 && x !in anc && x != p
    requires m3[p].bref.off == m2[p].bref.off || m3[p].bref.off >= n
    ensures Kept(m, m3, n, p, {}) && x in m3 && m3[x] == m2[x]
  {
    KeptAltered(m2, m3, p, anc, n, p);
    KeptTrans(m, m2, m3, n, n, p, {}, {});
  }

  lemma {:induction false} EnteredKept(m: Memory, m3: Memory, x: int, p: int, n: int)
    requires Kept(m, m3, n, p, {}) && x in m3 && p in m3 && x != p
    ensures x in m && WithEntry(m3, x, p).Keys == m3.Keys && Kept(m, WithEntry(m3, x, p), n, p, {m[x].bref.key})
    ensures WithEntry(m3, x, p)[x].bref == m3[x].bref
  {
    KeptEntered(m3, x, p, n);
    assert KeptChain(m[x], m3[x], n, ChildKeys(m, x));
    KeptTrans(m, m3, WithEntry(m3, x, p), n, n, p, {}, {m3[x].bref.key});
  }

  lemma {:induction false} LoweredIs(m: Memory, x: int)
    requires x in m
    ensures Lowered(m, x) == m[x := m[x].(onflush := false)]
  {
  }

  lemma {:induction false} KnownLowered(m: Memory, x: int, n: int)
    requires x in m && Known(m, n)
    ensures Known(m[x := m[x].(onflush := false)], n)
  {
  }

  /** The children's scan and the flags lowered around it, seen from the parent's own parent. */
  lemma {:induction false} KidsKept(m: Memory, m1: Memory, s: Shape, p: int, anc: set<int>, hash: Blockmap -> int,
                                    n: int)
    requires Flushable(m, s, p, anc, hash)
    requires ScanDone(Lowered(m, s.id), m1, s.id, s.kids, anc + {s.id}, hash)
    requires Kept(Lowered(m, s.id), m1, n, s.id, KeysOf(Lowered(m, s.id), s.kids))
    requires OwnBlocks(Lowered(m, s.id), m1, IdsAll(s.kids))
    ensures s.id in m1 && Kept(m, Lowered(m1, s.id), n, p, {}) && OwnBlocks(m, Lowered(m1, s.id), Ids(s))
  {
    hide Kept, OwnBlocks, KeysOf;
    FinishKids(m, m1, s, p, anc, hash);
    KidsKeptHere(m, m1, s, p, anc, hash, n);
    var x := s.id;
    assert x in m && p in m && x != p && Lowered(m1, x)[p].table == m[p].table && x !in IdsAll(s.kids);
    KeptInner(m, Lowered(m1, x), n, x, p);
    OwnKids(m, m1, s, anc, hash);
  }

  lemma {:induction false} KidsKeptHere(m: Memory, m1: Memory, s: Shape, p: int, anc: set<int>, hash: Blockmap -> int,
                                        n: int)
    requires Shaped(m, s, p) && s.id in m1
    requires Kept(Lowered(m, s.id), m1, n, s.id, KeysOf(Lowered(m, s.id), s.kids))
    ensures Kept(m, Lowered(m1, s.id), n, s.id, ChildKeys(m, s.id))
  {
    var x, m' := s.id, Lowered(m, s.id);
    KeptFlag(m, x, n, x);
    KeptFlag(m1, x, n, x);
    assert KeysOf(m', s.kids) == ChildKeys(m, x);
    hide Shaped, Kept, KeysOf, ChildKeys;
    KeptTrans(m, m', m1, n, n, x, {}, KeysOf(m', s.kids));
    KeptTrans(m, m1, Lowered(m1, x), n, n, x, {} + KeysOf(m', s.kids), {});
    assert {} + KeysOf(m', s.kids) + {} == ChildKeys(m, x);
  }

  lemma {:induction false} OwnKids(m: Memory, m1: Memory, s: Shape, anc: set<int>, hash: Blockmap -> int)
    requires s.id in m && s.id !in IdsAll(s.kids) && s.id in m1
    requires ScanDone(Lowered(m, s.id), m1, s.id, s.kids, anc + {s.id}, hash)
    requires OwnBlocks(Lowered(m, s.id), m1, IdsAll(s.kids))
    ensures OwnBlocks(m, Lowered(m1, s.id), Ids(s))
  {
    assert Touched(Lowered(m, s.id)[s.id], m1[s.id]);
    hide ShapedAll, FlushedAll, IdsAll, Outside;
  }

  /** One child and then the rest. */
  lemma {:induction false} ScanKept(m: Memory, m1: Memory, m2: Memory, x: int, kids: seq<Shape>, anc: set<int>,
                                    hash: Blockmap -> int, n: int, n1: int)
    requires Scannable(m, x, kids, anc, hash) && kids != [] && n <= n1
    requires kids[0].id in m && FlushDone(m, m1, kids[0], x, anc, hash)
    requires x in m1 && ScanDone(m1, m2, x, kids[1..], anc, hash)
    requires Kept(m, m1, n, x, {m[kids[0].id].bref.key}) && Kept(m1, m2, n1, x, KeysOf(m1, kids[1..]))
    requires OwnBlocks(m, m1, Ids(kids[0])) && OwnBlocks(m1, m2, IdsAll(kids[1..]))
    ensures Kept(m, m2, n, x, KeysOf(m, kids)) && OwnBlocks(m, m2, IdsAll(kids))
  {
    KeysJoined(m, m1, x, kids, anc, hash);
    KeptTrans(m, m1, m2, n, n1, x, {m[kids[0].id].bref.key}, KeysOf(m1, kids[1..]));
    assert Ids(kids[0]) !! IdsAll(kids[1..]) && IdsAll(kids) == Ids(kids[0]) + IdsAll(kids[1..]);
    assert Outside(m, m1, Ids(kids[0]), x, anc) && Outside(m1, m2, IdsAll(kids[1..]), x, anc);
    assert anc !! IdsAll(kids) && x in anc;
    hide ShapedAll, ReadyAll, Shaped, Flushed, Ready, Kept, KeysOf, IdsAll, Ids, ScanDone, FlushDone, Scannable;
  }

  lemma {:induction false} OwnCombined(m: Memory, m1: Memory, m2: Memory, s: Shape, p: int, anc: set<int>,
                                       hash: Blockmap -> int)
    requires Flushable(m, s, p, anc, hash) && OwnBlocks(m, m1, Ids(s))
    requires s.id in m1 && p in m1 && EnterDone(m1, m2, s.id, p, anc, hash) && m2[s.id].bref.off == m1[s.id].bref.off
    ensures OwnBlocks(m, m2, Ids(s))
  {
    assert anc !! Ids(s) && p in anc;
    hide Shaped, Ready, Ids;
  }

  /** Every block that is referred to has been given out before `n`. */
  ghost predicate Known(m: Memory, n: int) {
    forall x :: x in m ==> m[x].bref.off < n && forall k :: k in m[x].table ==> m[x].table[k].off < n
  }

  lemma {:induction false} KnownRaised(m: Memory, m': Memory, anc: set<int>, n: int)
    requires Raised(m, m', anc) && Known(m, n)
    ensures Known(m', n)
  {
  }

  lemma {:induction false} KnownChanged(m: Memory, c: Chain, x: int, n: int, n': int)
    requires x in m && Known(m, n) && n <= n' && c.bref.off < n' && c.table == m[x].table
    ensures Known(m[x := c], n')
  {
  }

  lemma {:induction false} KnownEntered(m: Memory, x: int, p: int, n: int)
    requires x in m && p in m && Known(m, n)
    ensures Known(WithEntry(m, x, p), n)
  {
  }

  /** Modified chains keep the block they were given. */
  ghost predicate OwnBlocks(m: Memory, m': Memory, ids: set<int>) {
    forall y :: y in ids && y in m && m[y].modified ==> y in m' && m'[y].bref.off == m[y].bref.off
  }

  /** The way up stays among the ancestors. */
  ghost predicate Climb(m: Memory, anc: set<int>) {
    0 !in anc && forall a :: a in anc ==> a in m && (m[a].parent == 0 || m[a].parent in anc)
  }

  lemma {:induction false} OutsideTrans(a: Memory, b: Memory, c: Memory, i: set<int>, j: set<int>, p: int,
                                        anc: set<int>)
    requires Outside(a, b, i, p, anc) && Outside(b, c, j, p, anc)
    ensures Outside(a, c, i + j, p, anc)
  {
  }

  // ----------------------------------------------------------- operations

  class Flusher {
    var mem: Memory
    var next: int
    const hash: Blockmap -> int

    /** Set the flag from a chain upward until it is set already, or to the inode. */
    method SetFlush(y: int, ghost anc: set<int>)
      requires y in anc && Climb(mem, anc)
      modifies this`mem
      ensures Raised(old(mem), mem, anc) && mem[y].onflush && Propagated(old(mem), mem, anc)
      ensures OnlyUp(old(mem), mem, y)
    {
      var chain := y;
      ghost var m0, unset, last := mem, set a | a in anc && !mem[a].onflush, 0;
      if !mem[chain].onflush {
        hide Propagated, Raised, OnlyUp;
        ClimbBegin(mem, anc, y);
        while !mem[chain].onflush
          invariant Climbing(m0, mem, anc, y, chain, last, unset)
          decreases unset
        {
          ClimbStep(m0, mem, anc, y, chain, last, unset);
          mem := mem[chain := mem[chain].(onflush := true)];
          unset, last := unset - {chain}, chain;
          if mem[chain].inode { return; }
          var parent := mem[chain].parent;
          if parent == 0 { return; }
          chain := parent;
        }
        ClimbEnd(m0, mem, anc, y, chain, last, unset);
      }
    }

    /**
      Mark a chain modified: a new block for it, an update due in its parent, and the parent told.
      A deduplication, for which `dedupOff` is not 0, shares the block there instead: the chain is
      not modified, and its check code is set to that of the block.
     */
    method Modify(x: int, dedupOff: int, ghost anc: set<int>)
      requires x in anc && Climb(mem, anc)
      modifies this
      ensures Changed(old(mem), mem, x, anc, hash) && Propagated(old(mem), mem, anc)
      ensures dedupOff == 0 || old(mem)[x].modified ==> Modified(old(mem), mem, x, anc)
      ensures dedupOff != 0 && !old(mem)[x].modified ==>
                !mem[x].modified && mem[x].bref == Blockref(old(mem)[x].bref.key, dedupOff, hash(mem[x].table))
      ensures mem[x].parent != 0 ==> mem[mem[x].parent].onflush
      ensures next == old(next) + if !old(mem)[x].modified && dedupOff == 0 then 1 else 0
      ensures mem[x].bref.off == if old(mem)[x].modified then old(mem)[x].bref.off
                                 else if dedupOff != 0 then dedupOff else old(next)
      ensures Known(old(mem), old(next)) && dedupOff < old(next) ==> Known(mem, next)
    {
      ghost var m := mem;
      assert x in mem && (mem[x].parent != 0 ==> mem[x].parent in anc);
      hide Altered, Propagated, Raised, Climb, Known, OnlyUp;
      ghost var n, known := next, Known(mem, next) && dedupOff < next;
      var c := Retouch(mem[x], dedupOff);
      mem := mem[x := c];
      StillClimb(m, c, x, anc);
      if known { KnownChanged(m, c, x, n, next); }
      if c.parent != 0 {
        ghost var m1 := mem;
        SetFlush(c.parent, anc);
        if known { KnownRaised(m1, mem, anc, next); }
      } else {
        NothingRaised(mem, anc);
      }
      AlteredBy(m, c, mem, x, anc);
      PropagatedFrom(m, c, mem, x, anc);
    }

    /** The chain's own part of a modification. */
    method Retouch(c: Chain, dedupOff: int) returns (c': Chain)
      modifies this`next
      ensures c' == c.(modified := c'.modified, bref := c'.bref, update := true, mapupd := c.mapped || c.mapupd)
      ensures c'.bref.key == c.bref.key && (c'.modified || c'.bref.check == hash(c'.table))
      ensures dedupOff == 0 || c.modified ==> c'.modified
      ensures c.modified ==> c'.bref == c.bref
      ensures next == old(next) + if !c.modified && dedupOff == 0 then 1 else 0
      ensures !c.modified && dedupOff == 0 ==> c'.bref == c.bref.(off := old(next))
      ensures dedupOff != 0 && !c.modified ==> !c'.modified && c'.bref == Blockref(c.bref.key, dedupOff, hash(c.table))
    {
      c' := c;
      if !c.modified {
        if dedupOff != 0 {
          c' := c'.(bref := c.bref.(off := dedupOff, check := hash(c.table)));
        } else {
          c' := c'.(modified := true, bref := c.bref.(off := next));
          next := next + 1;
        }
      }
      c' := c'.(update := true);
      if c.mapped { c' := c'.(mapupd := true); }
    }

    /** Flush one chain: what is below it first, then itself, then its entry in the parent. */
    method FlushCore(x: int, p: int, ghost s: Shape, ghost anc: set<int>)
      requires Flushable(mem, s, p, anc, hash) && x == s.id
      modifies this
      ensures FlushDone(old(mem), mem, s, p, anc, hash)
      ensures next >= old(next) && Kept(old(mem), mem, old(next), p, {old(mem)[x].bref.key})
      ensures OwnBlocks(old(mem), mem, Ids(s)) && (Known(old(mem), old(next)) ==> Known(mem, next))
      ensures !Dirty(old(mem)[x]) ==> mem == old(mem)
      decreases s, 2
    {
      if !Dirty(mem[x]) {
        NothingToDo(mem, s, p, anc, hash);
        KeptSelf(mem, next, p, {mem[x].bref.key});
        return;
      }
      ghost var m0, n0 := mem, next;
      if mem[x].onflush {
        FlushKids(x, p, s, anc);
      } else {
        NoKids(mem, s, p, anc, hash);
        KeptSelf(mem, next, p, {});
      }
      ghost var m1, n1 := mem, next;
      Enter(x, p, anc);
      Combined(m0, m1, mem, s, p, anc, hash);
      KeptTrans(m0, m1, mem, n0, n1, p, {}, {m1[x].bref.key});
      OwnCombined(m0, m1, mem, s, p, anc, hash);
    }

    /** Clear the flag and flush the children; once more if that raised the flag again. */
    method FlushKids(x: int, p: int, ghost s: Shape, ghost anc: set<int>)
      requires Flushable(mem, s, p, anc, hash) && x == s.id
      modifies this
      ensures KidsDone(old(mem), mem, s, p, anc, hash)
      ensures next >= old(next) && Kept(old(mem), mem, old(next), p, {})
      ensures OwnBlocks(old(mem), mem, Ids(s)) && (Known(old(mem), old(next)) ==> Known(mem, next))
      decreases s, 1
    {
      hide *;
      ghost var m0, n0 := mem, next;
      BeginKids(m0, s, p, anc, hash);
      mem := mem[x := mem[x].(onflush := false)];
      if Known(m0, n0) { KnownLowered(m0, x, n0); }
      assert mem == Lowered(m0, x) by { LoweredIs(m0, x); }
      ScanKids(x, mem[x].kids, s.kids, anc + {x});
      ghost var m1 := mem;
      FinishKids(m0, m1, s, p, anc, hash);
      KidsKept(m0, m1, s, p, anc, hash, n0);
      LoweredIs(m1, x);
      if mem[x].onflush {
        mem := mem[x := mem[x].(onflush := false)];
        AgainKids(m0, mem, s, p, anc, hash);
        if Known(m1, next) { KnownLowered(m1, x, next); }
        ScanKids(x, mem[x].kids, s.kids, anc + {x});
      } else {
        assert m1[x := m1[x].(onflush := false)] == m1;
      }
    }

    /** Flush the children that have any flag set. */
    method ScanKids(x: int, ks: seq<int>, ghost kids: seq<Shape>, ghost anc: set<int>)
      requires Scannable(mem, x, kids, anc, hash) && ks == Roots(kids)
      modifies this
      ensures ScanDone(old(mem), mem, x, kids, anc, hash)
      ensures next >= old(next) && Kept(old(mem), mem, old(next), x, KeysOf(old(mem), kids))
      ensures OwnBlocks(old(mem), mem, IdsAll(kids)) && (Known(old(mem), old(next)) ==> Known(mem, next))
      ensures (forall k :: k in ks && k in old(mem) ==> !Dirty(old(mem)[k])) ==> mem == old(mem)
      decreases kids, 0
    {
      if ks == [] {
        KeptSelf(mem, next, x, KeysOf(mem, kids));
        return;
      }
      ghost var m0, n0 := mem, next;
      HeadFlushable(mem, x, kids, anc, hash);
      if Dirty(mem[ks[0]]) {
        FlushCore(ks[0], x, kids[0], anc);
      } else {
        NothingToDo(mem, kids[0], x, anc, hash);
        KeptSelf(mem, next, x, {mem[ks[0]].bref.key});
      }
      ghost var m1, n1 := mem, next;
      TailScannable(m0, m1, x, kids, anc, hash);
      ScanKids(x, ks[1..], kids[1..], anc);
      ScanJoined(m0, m1, mem, x, kids, anc, hash);
      ScanKept(m0, m1, mem, x, kids, anc, hash, n0, n1);
    }

    /** Write the chain and put its reference into the parent's table. */
    method Enter(x: int, p: int, ghost anc: set<int>)
      requires EnterableAt(mem, x, p, anc, hash)
      modifies this
      ensures EnterDone(old(mem), mem, x, p, anc, hash) && mem[x].bref.off == old(mem)[x].bref.off
      ensures next >= old(next) && Kept(old(mem), mem, old(next), p, {old(mem)[x].bref.key})
      ensures Known(old(mem), old(next)) ==> Known(mem, next)
    {
      ghost var m0, n := mem, next;
      if mem[x].modified {
        mem := mem[x := mem[x].(modified := false, bref := mem[x].bref.(check := hash(mem[x].table)))];
      }
      ghost var m1 := mem;
      Written(m0, m1, x, p, anc, hash);
      WrittenKept(m0, m1, x, p, n, hash);
      hide Kept, Known, EnterDone, EnterableAt;
      if mem[x].update { EnterUpdate(x, p, m0, anc); }
    }

    /** The update of the parent that a written chain is due. */
    method EnterUpdate(x: int, p: int, ghost m0: Memory, ghost anc: set<int>)
      requires WrittenOk(m0, mem, x, p, anc, hash) && Climb(mem, anc) && x in mem && mem[x].update
      requires Kept(m0, mem, next, p, {}) && mem[x].bref.off == m0[x].bref.off
      modifies this
      ensures EnterDone(m0, mem, x, p, anc, hash) && mem[x].bref.off == m0[x].bref.off
      ensures next >= old(next) && Kept(m0, mem, old(next), p, {m0[x].bref.key})
      ensures Known(old(mem), old(next)) ==> Known(mem, next)
    {
      ghost var m1, n := mem, next;
      ghost var known := Known(mem, next);
      hide Kept, Known, EnterDone, Climb, Modified, Changed, Altered, Propagated;
      mem := mem[x := mem[x].(update := false)];
      ghost var m2 := mem;
      UpdateKept(m0, m1, m2, x, p, n);
      StillClimb(m1, m2[x], x, anc);
      Modify(p, 0, anc);
      ghost var m3 := mem;
      Told(m1, m2, m3, x, p, anc, hash);
      ToldKept(m0, m2, m3, x, p, anc, n);
      hide *;
      EnterTable(x, p);
      ToldWritten(m0, m1, m3, x, p, anc, hash);
      Tabled(m0, m3, mem, x, p, anc, hash);
      EnteredKept(m0, m3, x, p, n);
      if known { KnownEntered(m3, x, p, next); }
    }

    /** Replace or make the chain's entry in the parent's table. */
    method EnterTable(x: int, p: int)
      requires x in mem && p in mem && x != p
      modifies this`mem
      ensures mem == WithEntry(old(mem), x, p)
    {
      var c, base := mem[x], mem[p].table;
      TableReplaced(base, c.bref.key, c.bref);
      if c.mapupd {
        if c.mapped {
          base := base - {c.bref.key};
          c := c.(mapped := false);
        }
        c := c.(mapupd := false);
      }
      if !c.mapped {
        base := base[c.bref.key := c.bref];
        c := c.(mapped := true);
      }
      mem := mem[p := mem[p].(table := base)][x := c];
    }
  }

  /** All flags raised so far have been passed on, but the last one, whose parent is next. */
  ghost predicate Climbing(m0: Memory, m: Memory, anc: set<int>, y: int, chain: int, last: int, unset: set<int>) {
    && y in anc && chain in anc && Climb(m, anc) && Raised(m0, m, anc) && (forall a :: a in anc ==> a in m0)
    && (chain == y || m[y].onflush)
    && (forall a :: a in anc && m[a].onflush && !m0[a].onflush && a != last ==> Tells(m, a))
    && (last in anc ==> m[last].parent == chain)
    && OnlyUp(m0, m, y) && (chain == y || RaisedBy(m0, m, last, chain))
    && unset == set a | a in anc && !m[a].onflush
  }

  lemma {:induction false} ClimbBegin(m: Memory, anc: set<int>, y: int)
    requires y in anc && Climb(m, anc)
    ensures Climbing(m, m, anc, y, y, 0, set a | a in anc && !m[a].onflush)
  {
  }

  lemma {:induction false} ClimbStep(m0: Memory, m: Memory, anc: set<int>, y: int, chain: int, last: int,
                                     unset: set<int>)
    requires Climbing(m0, m, anc, y, chain, last, unset) && !m[chain].onflush
    ensures var m' := m[chain := m[chain].(onflush := true)];
            && chain in unset && Raised(m0, m', anc) && m'[y].onflush
            && (m[chain].inode || m[chain].parent == 0 ==> Propagated(m0, m', anc))
            && (m[chain].parent != 0 && !m[chain].inode ==>
               Climbing(m0, m', anc, y, m[chain].parent, chain, unset - {chain}))
            && OnlyUp(m0, m', y)
  {
    hide OnlyUp;
    var m' := m[chain := m[chain].(onflush := true)];
    StepUp(m0, m, anc, y, chain, last);
    forall a | a in anc && m'[a].onflush && !m0[a].onflush && a != chain ensures Tells(m', a) {
      assert a != last ==> Tells(m, a);
    }
  }

  lemma {:induction false} StepUp(m0: Memory, m: Memory, anc: set<int>, y: int, chain: int, last: int)
    requires Raised(m0, m, anc) && OnlyUp(m0, m, y) && chain in m && !m[chain].onflush
    requires chain == y || RaisedBy(m0, m, last, chain)
    ensures var m' := m[chain := m[chain].(onflush := true)];
            OnlyUp(m0, m', y) && (m[chain].inode || RaisedBy(m0, m', chain, m[chain].parent))
  {
    var m' := m[chain := m[chain].(onflush := true)];
    assert m[chain].inode || RaisedBy(m0, m', chain, m[chain].parent);
    assert m0.Keys == m.Keys && forall a :: a in m0 && a != chain ==> m'[a] == m[a];
    hide Raised;
    if chain != y { StillRaised(m0, m, last, chain, chain); }
    forall k, a | RaisedBy(m0, m, k, a) ensures RaisedBy(m0, m', k, a) { StillRaised(m0, m, k, a, chain); }
    hide RaisedBy;
    forall a | a in m0 && m'[a].onflush && !m0[a].onflush && a != y ensures exists k :: RaisedBy(m0, m', k, a) {
      if a == chain { assert RaisedBy(m0, m', last, a); }
    }
  }

  lemma {:induction false} StillRaised(m0: Memory, m: Memory, k: int, a: int, chain: int)
    requires RaisedBy(m0, m, k, a) && chain in m
    ensures RaisedBy(m0, m[chain := m[chain].(onflush := true)], k, a)
  {
  }

  lemma {:induction false} ClimbEnd(m0: Memory, m: Memory, anc: set<int>, y: int, chain: int, last: int,
                                    unset: set<int>)
    requires Climbing(m0, m, anc, y, chain, last, unset) && m[chain].onflush
    ensures Raised(m0, m, anc) && m[y].onflush && Propagated(m0, m, anc) && OnlyUp(m0, m, y)
  {
  }

  /** The flag of `a` has been raised on behalf of its child `k`, which is no inode. */
  ghost predicate RaisedBy(m: Memory, m': Memory, k: int, a: int) {
    && k in m && k in m' && m[k].parent == a && !m[k].inode && !m[k].onflush && m'[k].onflush
  }

  /** No flag is raised but from chain `y` upward, and not beyond an inode. */
  ghost predicate OnlyUp(m: Memory, m': Memory, y: int) {
    forall a :: a in m && a in m' && m'[a].onflush && !m[a].onflush ==> a == y || exists k :: RaisedBy(m, m', k, a)
  }

  /** The parent of a raised chain is raised, unless the chain is an inode or has no parent. */
  ghost predicate Tells(m: Memory, a: int) {
    a in m && (m[a].inode || m[a].parent == 0 || (m[a].parent in m && m[m[a].parent].onflush))
  }

  ghost predicate Propagated(m: Memory, m': Memory, anc: set<int>) {
    forall a :: a in anc && a in m && a in m' && m'[a].onflush && !m[a].onflush ==> Tells(m', a)
  }

  lemma {:induction false} StillClimb(m: Memory, c: Chain, x: int, anc: set<int>)
    requires Climb(m, anc) && x in m && c.parent == m[x].parent
    ensures Climb(m[x := c], anc)
  {
  }

  lemma {:induction false} NothingRaised(m: Memory, anc: set<int>)
    ensures Propagated(m, m, anc)
  {
  }

  /** Raising is among the flags of memory with one chain changed. */
  lemma {:induction false} PropagatedFrom(m: Memory, c: Chain, m': Memory, x: int, anc: set<int>)
    requires x in m && c.onflush == m[x].onflush && Propagated(m[x := c], m', anc)
    ensures Propagated(m, m', anc)
  {
  }

  /** Only the flag has been raised, among the ancestors. */
  ghost predicate Raised(m: Memory, m': Memory, anc: set<int>) {
    && m'.Keys == m.Keys
    && forall x :: x in m ==>
         if x in anc then m'[x] == m[x].(onflush := m'[x].onflush) && (m[x].onflush ==> m'[x].onflush)
           else m'[x] == m[x]
  }

  /**
    Chain `x` is due for an update; its links, key and table are as they were; above it only the
    flag has been raised.
   */
  ghost predicate Altered(m: Memory, m': Memory, x: int, anc: set<int>) {
    && m'.Keys == m.Keys && x in m
    && m'[x].parent == m[x].parent && m'[x].inode == m[x].inode && m'[x].kids == m[x].kids
    && m'[x].mapped == m[x].mapped && m'[x].mapupd == (m[x].mapped || m[x].mapupd) && m'[x].update
    && m'[x].bref.key == m[x].bref.key && m'[x].table == m[x].table && (m[x].onflush ==> m'[x].onflush)
    && forall y :: y in m && y != x ==>
         if y in anc then m'[y] == m[y].(onflush := m'[y].onflush) && (m[y].onflush ==> m'[y].onflush)
           else m'[y] == m[y]
  }

  /** So that it is modified, or has a reference whose check code is right. */
  ghost predicate Changed(m: Memory, m': Memory, x: int, anc: set<int>, hash: Blockmap -> int) {
    Altered(m, m', x, anc) && (m'[x].modified || m'[x].bref.check == hash(m'[x].table))
  }

  ghost predicate Modified(m: Memory, m': Memory, x: int, anc: set<int>) {
    Altered(m, m', x, anc) && m'[x].modified && (m[x].modified ==> m'[x].bref == m[x].bref)
  }

  lemma {:induction false} AlteredBy(m: Memory, c: Chain, m': Memory, x: int, anc: set<int>)
    requires x in m && x in anc && (m' == m[x := c] || Raised(m[x := c], m', anc))
    requires c == m[x].(modified := c.modified, bref := c.bref, update := true, mapupd := m[x].mapped || m[x].mapupd)
    requires c.bref.key == m[x].bref.key
    ensures Altered(m, m', x, anc) && m'[x] == c.(onflush := m'[x].onflush)
  {
  }

  /** Memory with the chain's reference in its parent's table. */
  function WithEntry(m: Memory, x: int, p: int): Memory
    requires x in m && p in m
  {
    var c := m[x];
    var t := if c.mapped && !c.mapupd then m[p].table else m[p].table[c.bref.key := c.bref];
    m[p := m[p].(table := t)][x := c.(mapped := true, mapupd := false)]
  }

  lemma {:induction false} TableReplaced(t: Blockmap, key: int, b: Blockref)
    ensures (t - {key})[key := b] == t[key := b]
  {
  }

  /** The chain itself is written: its check code fits its table, and its entry is due if it was modified. */
  lemma {:induction false} Written(m: Memory, m1: Memory, x: int, p: int, anc: set<int>, hash: Blockmap -> int)
    requires EnterableAt(m, x, p, anc, hash)
    requires m1 == if m[x].modified then m[x := m[x].(modified := false,
             bref := m[x].bref.(check := hash(m[x].table)))] else m
    ensures WrittenOk(m, m1, x, p, anc, hash) && Climb(m1, anc)
    ensures !m1[x].update ==> EnterDone(m, m1, x, p, anc, hash)
  {
  }

  ghost predicate WrittenOk(m: Memory, m1: Memory, x: int, p: int, anc: set<int>, hash: Blockmap -> int)
  {
    && EnterableAt(m, x, p, anc, hash) && m1.Keys == m.Keys && (forall y :: y in m && y != x ==> m1[y] == m[y])
    && m1[x] == m[x].(modified := false, bref := m1[x].bref) && m1[x].bref.key == m[x].bref.key
    && m1[x].bref.check == hash(m1[x].table)
    && (m1[x].mapped && !m1[x].mapupd ==> m1[x].bref == m[x].bref)
  }

  /** The parent has been told and is modified. */
  ghost predicate ToldOk(m: Memory, m3: Memory, x: int, p: int, anc: set<int>, hash: Blockmap -> int)
  {
    && x in m && p in m && x in m3 && p in m3 && x != p && Outside(m, m3, {x}, p, anc) && Climb(m3, anc) && x !in anc
    && !Dirty(m3[x]) && m3[x].bref.check == hash(m3[x].table) && EntryOk(m3[x].(update := true), m3[p].table)
    && m3[x].parent == m[x].parent && m3[x].inode == m[x].inode && m3[x].kids == m[x].kids && m3[x].table == m[x].table
    && m3[x].bref.key == m[x].bref.key
    && m3[p].modified && m3[p].update && (m3[p].mapped ==> m3[p].mapupd) && m3[p].table == m[p].table
  }

  lemma {:induction false} Told(m1: Memory, m2: Memory, m3: Memory, x: int, p: int, anc: set<int>,
                                hash: Blockmap -> int)
    requires x in m1 && p in m1 && x != p && x !in anc && p in anc && !m1[x].modified && !m1[x].onflush && m1[x].update
    requires m1[x].bref.check == hash(m1[x].table) && EntryOk(m1[x], m1[p].table) && NodeOk(m1[p], hash) &&
             Climb(m1, anc)
    requires m2 == m1[x := m1[x].(update := false)] && Modified(m2, m3, p, anc)
    ensures ToldOk(m1, m3, x, p, anc, hash)
  {
  }

  lemma {:induction false} ToldWritten(m: Memory, m1: Memory, m3: Memory, x: int, p: int, anc: set<int>,
                                       hash: Blockmap -> int)
    requires WrittenOk(m, m1, x, p, anc, hash) && ToldOk(m1, m3, x, p, anc, hash)
    ensures ToldOk(m, m3, x, p, anc, hash)
  {
  }

  lemma {:induction false} Tabled(m: Memory, m3: Memory, m4: Memory, x: int, p: int, anc: set<int>,
                                  hash: Blockmap -> int)
    requires ToldOk(m, m3, x, p, anc, hash) && m4 == WithEntry(m3, x, p) && p in anc
    ensures EnterDone(m, m4, x, p, anc, hash)
  {
  }

  lemma {:induction false} EntryTouched(c: Chain, c': Chain, t: Blockmap)
    requires EntryOk(c, t) && Touched(c, c')
    ensures EntryOk(c', t)
  {
  }

  lemma {:induction false} OutsideKids(m: Memory, m1: Memory, x: int, inside: set<int>, p: int, anc: set<int>)
    requires x in m && x !in anc && p in anc && Outside(Lowered(m, x), m1, inside, x, anc + {x}) && x in m1
    ensures Outside(m, Lowered(m1, x), inside + {x}, p, anc)
    ensures p in m && p !in inside ==> p in m1 && Lowered(m1, x)[p] == m[p].(onflush := m1[p].onflush)
  {
  }

  // ----------------------------------------------------- what holds where

  ghost predicate EnterableAt(m: Memory, x: int, p: int, anc: set<int>, hash: Blockmap -> int) {
    && x in m && p in m && p != x && p in anc && x !in anc && Climb(m, anc) && NodeOk(m[x], hash) && NodeOk(m[p], hash)
    && EntryOk(m[x], m[p].table) && !m[x].onflush
  }

  ghost predicate OnlyKeys(t: Blockmap, t': Blockmap, keys: set<int>) {
    forall k :: k !in keys ==> (k in t' <==> k in t) && (k in t ==> t'[k] == t[k])
  }

  ghost function KeysOf(m: Memory, kids: seq<Shape>): set<int> {
    set k | k in Roots(kids) && k in m :: m[k].bref.key
  }

  ghost predicate Flushable(m: Memory, s: Shape, p: int, anc: set<int>, hash: Blockmap -> int) {
    && Shaped(m, s, p) && Ready(m, s, hash) && p in m && p != 0 && p in anc && anc !! Ids(s) && 0 !in Ids(s)
    && Climb(m, anc)
    && EntryOk(m[s.id], m[p].table) && NodeOk(m[p], hash)
  }

  ghost predicate FlushDone(m: Memory, m': Memory, s: Shape, p: int, anc: set<int>, hash: Blockmap -> int)
    requires s.id in m && p in m
  {
    && Shaped(m', s, p) && Flushed(m', s, hash) && Entered(m', s.id, p) && Climb(m', anc)
    && Outside(m, m', Ids(s), p, anc) && p in m' && NodeOk(m'[p], hash)
    && m'[s.id].bref.key == m[s.id].bref.key && OnlyKeys(m[p].table, m'[p].table, {m[s.id].bref.key})
  }

  ghost predicate Scannable(m: Memory, x: int, kids: seq<Shape>, anc: set<int>, hash: Blockmap -> int) {
    && ShapedAll(m, kids, x) && ReadyAll(m, kids, x, hash) && x in m && x != 0 && x in anc
    && anc !! IdsAll(kids) && 0 !in IdsAll(kids) && Climb(m, anc) && NodeOk(m[x], hash)
  }

  ghost predicate ScanDone(m: Memory, m': Memory, x: int, kids: seq<Shape>, anc: set<int>, hash: Blockmap -> int)
    requires x in m
  {
    && ShapedAll(m', kids, x) && FlushedAll(m', kids, x, hash) && Climb(m', anc)
    && Outside(m, m', IdsAll(kids), x, anc) && x in m' && NodeOk(m'[x], hash)
    && OnlyKeys(m[x].table, m'[x].table, KeysOf(m, kids))
    && forall k :: k in Roots(kids) && k in m ==> k in m' && m'[k].bref.key == m[k].bref.key
  }

  ghost predicate KidsDone(m: Memory, m': Memory, s: Shape, p: int, anc: set<int>, hash: Blockmap -> int)
    requires s.id in m && p in m
  {
    && ShapedAll(m', s.kids, s.id) && FlushedAll(m', s.kids, s.id, hash) && Climb(m', anc + {s.id})
    && Outside(m, m', Ids(s), p, anc) && p in m' && m'[p] == m[p].(onflush := m'[p].onflush) && s.id in m'
    && !m'[s.id].onflush && NodeOk(m'[s.id], hash) && m'[s.id].parent == m[s.id].parent && m'[s.id].kids == m[s.id].kids
    && m'[s.id].inode == m[s.id].inode && m'[s.id].bref.key == m[s.id].bref.key && EntryOk(m'[s.id], m'[p].table)
  }

  ghost predicate EnterDone(m: Memory, m': Memory, x: int, p: int, anc: set<int>, hash: Blockmap -> int)
    requires x in m && p in m
  {
    && x in m' && p in m' && !Dirty(m'[x]) && m'[x].bref.check == hash(m'[x].table) && Entered(m', x, p)
    && Climb(m', anc)
    && m'[x].parent == m[x].parent && m'[x].inode == m[x].inode && m'[x].kids == m[x].kids && m'[x].table == m[x].table
    && m'[x].bref.key == m[x].bref.key
    && Outside(m, m', {x}, p, anc) && NodeOk(m'[p], hash) && OnlyKeys(m[p].table, m'[p].table, {m[x].bref.key})
  }

  /** A chain without flags is flushed as it stands. */
  lemma {:induction false} NothingToDo(m: Memory, s: Shape, p: int, anc: set<int>, hash: Blockmap -> int)
    requires Flushable(m, s, p, anc, hash) && !Dirty(m[s.id])
    ensures FlushDone(m, m, s, p, anc, hash)
  {
    QuietIsFlushed(m, s, p, hash);
  }

  /** A chain without the flag has clean children. */
  lemma {:induction false} NoKids(m: Memory, s: Shape, p: int, anc: set<int>, hash: Blockmap -> int)
    requires Flushable(m, s, p, anc, hash) && !m[s.id].onflush
    ensures KidsDone(m, m, s, p, anc, hash)
  {
    KidsIn(m, s.kids, s.id);
    QuietAll(m, s.kids, s.id, hash);
  }

  function Lowered(m: Memory, x: int): Memory
    requires x in m
  {
    m[x := m[x].(onflush := false)]
  }

  lemma {:induction false} BeginKids(m: Memory, s: Shape, p: int, anc: set<int>, hash: Blockmap -> int)
    requires Flushable(m, s, p, anc, hash)
    ensures s.id in m && p in m && Scannable(Lowered(m, s.id), s.id, s.kids, anc + {s.id}, hash)
    ensures m[s.id].kids == Roots(s.kids)
  {
    var m' := Lowered(m, s.id);
    assert Agree(m, m', IdsAll(s.kids)) && SameEntries(m, m', s.kids, s.id);
    FrameAll(m, m', s.kids, s.id, hash);
    hide ShapedAll, ReadyAll;
  }

  lemma {:induction false} FlushedReady(m: Memory, s: Shape, hash: Blockmap -> int)
    requires Flushed(m, s, hash)
    ensures Ready(m, s, hash)
    decreases s
  {
    FlushedReadyAll(m, s.kids, s.id, hash);
  }

  lemma {:induction false} FlushedReadyAll(m: Memory, kids: seq<Shape>, p: int, hash: Blockmap -> int)
    requires FlushedAll(m, kids, p, hash) && p in m
    ensures ReadyAll(m, kids, p, hash) && forall k :: k in Roots(kids) && k in m ==> !Dirty(m[k])
    decreases kids
  {
    if kids != [] {
      FlushedReady(m, kids[0], hash);
      FlushedReadyAll(m, kids[1..], p, hash);
    }
  }

  /** After the first scan all children are done; only the flag may have come back. */
  lemma {:induction false} FinishKids(m: Memory, m1: Memory, s: Shape, p: int, anc: set<int>, hash: Blockmap -> int)
    requires Flushable(m, s, p, anc, hash)
    requires ScanDone(Lowered(m, s.id), m1, s.id, s.kids, anc + {s.id}, hash)
    ensures KidsDone(m, Lowered(m1, s.id), s, p, anc, hash)
  {
    var m2 := Lowered(m1, s.id);
    RootsInIds(s.kids);
    assert Agree(m1, m2, IdsAll(s.kids)) && SameEntries(m1, m2, s.kids, s.id);
    FrameAll(m1, m2, s.kids, s.id, hash);
    var x := s.id;
    assert IdsAll(s.kids) + {x} == Ids(s);
    OutsideKids(m, m1, x, IdsAll(s.kids), p, anc);
    assert Touched(Lowered(m, x)[x], m1[x]);
    EntryTouched(Lowered(m, x)[x], m1[x], m[p].table);
    hide ShapedAll, FlushedAll, Ready, IdsAll, Roots, Outside, Agree, SameEntries;
  }

  lemma {:induction false} AgainKids(m: Memory, m2: Memory, s: Shape, p: int, anc: set<int>, hash: Blockmap -> int)
    requires Flushable(m, s, p, anc, hash) && KidsDone(m, m2, s, p, anc, hash)
    ensures Scannable(m2, s.id, s.kids, anc + {s.id}, hash) && s.id in m2 && m2[s.id].kids == Roots(s.kids)
    ensures forall k :: k in Roots(s.kids) && k in m2 ==> !Dirty(m2[k])
  {
    FlushedReadyAll(m2, s.kids, s.id, hash);
    hide ShapedAll, FlushedAll, ReadyAll, Ready;
  }

  lemma {:induction false} Combined(m: Memory, m1: Memory, m2: Memory, s: Shape, p: int, anc: set<int>,
                                    hash: Blockmap -> int)
    requires Flushable(m, s, p, anc, hash) && KidsDone(m, m1, s, p, anc, hash)
    requires s.id in m1 && p in m1 && EnterDone(m1, m2, s.id, p, anc, hash)
    ensures FlushDone(m, m2, s, p, anc, hash)
  {
    RootsInIds(s.kids);
    KidsIn(m1, s.kids, s.id);
    assert Agree(m1, m2, IdsAll(s.kids)) && SameEntries(m1, m2, s.kids, s.id);
    FrameAll(m1, m2, s.kids, s.id, hash);
    OutsideTrans(m, m1, m2, Ids(s), {s.id}, p, anc);
    assert Ids(s) + {s.id} == Ids(s);
    hide ShapedAll, FlushedAll, Ready, IdsAll, Roots;
  }

  lemma {:induction false} ScanJoined(m: Memory, m1: Memory, m2: Memory, x: int, kids: seq<Shape>, anc: set<int>,
                                      hash: Blockmap -> int)
    requires Scannable(m, x, kids, anc, hash) && kids != []
    requires kids[0].id in m && FlushDone(m, m1, kids[0], x, anc, hash)
    requires x in m1 && ScanDone(m1, m2, x, kids[1..], anc, hash)
    ensures ScanDone(m, m2, x, kids, anc, hash)
  {
    var head, tail := kids[0], kids[1..];
    RootsInIds(tail);
    KidsIn(m, tail, x);
    assert head.id in Ids(head);
    assert Agree(m1, m2, Ids(head));
    Frame(m1, m2, head, x, hash);
    OutsideTrans(m, m1, m2, Ids(head), IdsAll(tail), x, anc);
    KeysJoined(m, m1, x, kids, anc, hash);
    hide ShapedAll, ReadyAll, Shaped, Flushed, Ready;
  }

  lemma {:induction false} KeysJoined(m: Memory, m1: Memory, x: int, kids: seq<Shape>, anc: set<int>,
                                      hash: Blockmap -> int)
    requires Scannable(m, x, kids, anc, hash) && kids != []
    requires kids[0].id in m && FlushDone(m, m1, kids[0], x, anc, hash)
    ensures KeysOf(m1, kids[1..]) == KeysOf(m, kids[1..])
    ensures KeysOf(m, kids) == {m[kids[0].id].bref.key} + KeysOf(m, kids[1..])
    ensures m[kids[0].id].bref.key !in KeysOf(m, kids[1..])
    ensures forall k :: k in Roots(kids[1..]) ==> k in m && k in m1 && m1[k] == m[k]
  {
    TailScannable(m, m1, x, kids, anc, hash);
    KidsIn(m, kids[1..], x);
  }

  lemma {:induction false} HeadFlushable(m: Memory, x: int, kids: seq<Shape>, anc: set<int>, hash: Blockmap -> int)
    requires Scannable(m, x, kids, anc, hash) && kids != []
    ensures Flushable(m, kids[0], x, anc, hash)
  {
  }

  lemma {:induction false} TailScannable(m: Memory, m1: Memory, x: int, kids: seq<Shape>, anc: set<int>,
                                         hash: Blockmap -> int)
    requires Scannable(m, x, kids, anc, hash) && kids != [] && kids[0].id in m &&
             FlushDone(m, m1, kids[0], x, anc, hash)
    ensures Scannable(m1, x, kids[1..], anc, hash)
    ensures forall k :: k in Roots(kids[1..]) ==> k in m1 && m1[k] == m[k]
  {
    var tail := kids[1..];
    RootsInIds(tail);
    KidsIn(m, tail, x);
    assert Agree(m, m1, IdsAll(tail));
    assert SameEntries(m, m1, tail, x);
    FrameAll(m, m1, tail, x, hash);
    hide ShapedAll, ReadyAll, FlushedAll, Shaped, Flushed;
  }

  // -------------------------------------------------- the tree as a whole

  ghost predicate At(m: Memory, x: int, hash: Blockmap -> int) {
    x in m && NodeOk(m[x], hash) && m[x].parent in m && EntryOk(m[x], m[m[x].parent].table)
  }

  ghost predicate Heard(m: Memory, x: int) {
    x in m && m[x].parent in m && (Dirty(m[x]) ==> m[m[x].parent].onflush)
  }

  /** The condition of a tree, chain by chain. */
  ghost predicate ReadyAt(m: Memory, s: Shape, hash: Blockmap -> int) {
    s.id in m && NodeOk(m[s.id], hash) && forall x :: x in IdsAll(s.kids) ==> At(m, x, hash) && Heard(m, x)
  }

  ghost predicate ReadyAllAt(m: Memory, kids: seq<Shape>, hash: Blockmap -> int) {
    forall x :: x in IdsAll(kids) ==> At(m, x, hash) && (x !in Roots(kids) ==> Heard(m, x))
  }

  lemma {:induction false} ReadyPointwise(m: Memory, s: Shape, p: int, hash: Blockmap -> int)
    requires Shaped(m, s, p)
    ensures Ready(m, s, hash) <==> ReadyAt(m, s, hash)
    decreases s
  {
    ReadyAllPointwise(m, s.kids, s.id, hash);
    RootsInIds(s.kids);
    RootsParent(m, s.kids, s.id);
    hide Shaped, ShapedAll, EntryOk, NodeOk, ReadyAll;
  }

  lemma {:induction false} RootsParent(m: Memory, kids: seq<Shape>, p: int)
    requires ShapedAll(m, kids, p)
    ensures forall k :: k in Roots(kids) ==> k in m && m[k].parent == p
  {
    if kids != [] { RootsParent(m, kids[1..], p); }
  }

  lemma {:induction false} ReadyAllPointwise(m: Memory, kids: seq<Shape>, p: int, hash: Blockmap -> int)
    requires ShapedAll(m, kids, p) && p in m
    ensures ReadyAll(m, kids, p, hash) <==> ReadyAllAt(m, kids, hash)
    decreases kids
  {
    if kids != [] {
      var head, tail := kids[0], kids[1..];
      ReadyPointwise(m, head, p, hash);
      ReadyAllPointwise(m, tail, p, hash);
      RootsInIds(tail);
      RootsInIds(head.kids);
      RootsParent(m, kids, p);
      assert head.id in Roots(kids) && Roots(kids) == [head.id] + Roots(tail);
      assert IdsAll(kids) == {head.id} + IdsAll(head.kids) + IdsAll(tail);
      assert head.id !in IdsAll(head.kids) && Ids(head) !! IdsAll(tail) by { assert Shaped(m, head, p); }
      hide Shaped, ShapedAll, EntryOk, NodeOk, Ready, IdsAll, Roots, Dirty;
    }
  }

  /** After a flush, chain by chain: nothing dirty, check codes right, every reference in its parent's table. */
  ghost predicate FlushedAt(m: Memory, s: Shape, hash: Blockmap -> int) {
    && (forall x :: x in Ids(s) ==> x in m && !Dirty(m[x]) && m[x].bref.check == hash(m[x].table))
    && (forall x :: x in IdsAll(s.kids) && x in m ==> Entered(m, x, m[x].parent))
  }

  lemma {:induction false} FlushedPointwise(m: Memory, s: Shape, p: int, hash: Blockmap -> int)
    requires Shaped(m, s, p) && Flushed(m, s, hash)
    ensures FlushedAt(m, s, hash)
    decreases s
  {
    FlushedAllPointwise(m, s.kids, s.id, hash);
    hide Shaped, ShapedAll, Entered, Dirty;
  }

  lemma {:induction false} FlushedAllPointwise(m: Memory, kids: seq<Shape>, p: int, hash: Blockmap -> int)
    requires ShapedAll(m, kids, p) && FlushedAll(m, kids, p, hash)
    ensures forall x :: x in IdsAll(kids) ==>
              x in m && !Dirty(m[x]) && m[x].bref.check == hash(m[x].table) && Entered(m, x, m[x].parent)
    decreases kids
  {
    if kids != [] {
      FlushedPointwise(m, kids[0], p, hash);
      FlushedAllPointwise(m, kids[1..], p, hash);
      assert m[kids[0].id].parent == p;
      hide Shaped, ShapedAll, Entered, Dirty;
    }
  }

  /** A modification anywhere in the tree keeps the condition: the flag goes up as far as it is needed. */
  lemma {:induction false} ModifiedStaysReady(m: Memory, m': Memory, s: Shape, p: int, x: int, anc: set<int>,
                                              hash: Blockmap -> int)
    requires Shaped(m, s, p) && Ready(m, s, hash) && x in Ids(s) && Ids(s) <= anc && 0 !in Ids(s)
    requires forall y :: y in IdsAll(s.kids) && y in m ==> !m[y].inode
    requires Changed(m, m', x, anc, hash) && Propagated(m, m', anc) && x in m' && m[x].parent in m'
    requires m'[x].parent != 0 ==> m'[m'[x].parent].onflush
    ensures Shaped(m', s, p) && Ready(m', s, hash)
  {
    ReadyPointwise(m, s, p, hash);
    ShapeKept(m, m', s, p);
    ReadyPointwise(m', s, p, hash);
    ParentsIn(m, s, p);
    assert NodeOk(m'[s.id], hash);
    hide Shaped, Ready, Ids, IdsAll, At, Heard, NodeOk, EntryOk, Dirty, Changed, Altered, Propagated;
    forall y | y in IdsAll(s.kids) ensures At(m', y, hash) && Heard(m', y) {
      assert At(m, y, hash) && Heard(m, y);
      OneKept(m, m', x, anc, y, hash);
    }
  }

  lemma {:induction false} OneKept(m: Memory, m': Memory, x: int, anc: set<int>, y: int, hash: Blockmap -> int)
    requires At(m, y, hash) && Heard(m, y) && y in anc && !m[y].inode && m[y].parent != 0
    requires Changed(m, m', x, anc, hash) && Propagated(m, m', anc) && x in m'
    requires m'[x].parent != 0 ==> m'[x].parent in m' && m'[m'[x].parent].onflush
    ensures At(m', y, hash) && Heard(m', y)
  {
  }

  lemma {:induction false} ParentsIn(m: Memory, s: Shape, p: int)
    requires Shaped(m, s, p)
    ensures IdsAll(s.kids) <= Ids(s) && s.id in Ids(s) && forall x :: x in IdsAll(s.kids) ==>
            x in m && m[x].parent in Ids(s) && m[x].parent in m
    decreases s
  {
    ParentsInAll(m, s.kids, s.id);
  }

  lemma {:induction false} ParentsInAll(m: Memory, kids: seq<Shape>, p: int)
    requires ShapedAll(m, kids, p)
    ensures forall x :: x in IdsAll(kids) ==>
            x in m && (m[x].parent == p || (m[x].parent in IdsAll(kids) && m[x].parent in m))
    decreases kids
  {
    if kids != [] {
      ParentsIn(m, kids[0], p);
      ParentsInAll(m, kids[1..], p);
      assert m[kids[0].id].parent == p;
      hide ShapedAll;
    }
  }

  /** Links and keys are as they were. */
  ghost predicate SameLinks(m: Memory, m': Memory) {
    m'.Keys == m.Keys && forall y :: y in m ==>
      m'[y].parent == m[y].parent && m'[y].kids == m[y].kids && m'[y].bref.key == m[y].bref.key
  }

  lemma {:induction false} ShapeKept(m: Memory, m': Memory, s: Shape, p: int)
    requires Shaped(m, s, p) && SameLinks(m, m')
    ensures Shaped(m', s, p)
    decreases s
  {
    ShapeKeptAll(m, m', s.kids, s.id);
  }

  lemma {:induction false} ShapeKeptAll(m: Memory, m': Memory, kids: seq<Shape>, p: int)
    requires ShapedAll(m, kids, p) && SameLinks(m, m')
    ensures ShapedAll(m', kids, p)
    decreases kids
  {
    if kids != [] {
      ShapeKept(m, m', kids[0], p);
      ShapeKeptAll(m, m', kids[1..], p);
    }
  }

  /** What is flushed may be flushed again. */
  lemma {:induction false} FlushedFlushable(m: Memory, m': Memory, s: Shape, p: int, anc: set<int>,
                                            hash: Blockmap -> int)
    requires Flushable(m, s, p, anc, hash) && FlushDone(m, m', s, p, anc, hash)
    ensures Flushable(m', s, p, anc, hash)
  {
    FlushedReady(m', s, hash);
    hide Shaped, Ready, Flushed, Ids;
  }

  /**
    Flushing the tree of one inode leaves nothing dirty in it: every chain's reference, with
    the check code of its table, is in its parent's table.
   */
  method FlushInode(f: Flusher, x: int, p: int, ghost s: Shape, ghost anc: set<int>)
    requires Flushable(f.mem, s, p, anc, f.hash) && x == s.id
    modifies f
    ensures FlushedAt(f.mem, s, f.hash) && x in f.mem && Entered(f.mem, x, p)
    ensures Outside(old(f.mem), f.mem, Ids(s), p, anc) && Flushable(f.mem, s, p, anc, f.hash)
    ensures Kept(old(f.mem), f.mem, old(f.next), p, {old(f.mem)[x].bref.key}) && OwnBlocks(old(f.mem), f.mem, Ids(s))
    ensures f.next >= old(f.next) && (Known(old(f.mem), old(f.next)) ==> Known(f.mem, f.next))
  {
    hide Outside, Entered, FlushedAt, Climb, Kept, OwnBlocks, Known;
    f.FlushCore(x, p, s, anc);
    FlushedFlushable(old(f.mem), f.mem, s, p, anc, f.hash);
    FlushedPointwise(f.mem, s, p, f.hash);
  }
}
