/**
  What the frontend does between flushes to a tree of chains: chains are loaded, created,
  modified, moved and deleted.  Each operation leaves the tree fit for the next flush.
 */
module FlushTree {
  import opened Flush

  /** A tree of one inode that may be flushed. */
  ghost predicate Fit(m: Memory, s: Shape, p: int, up: set<int>, hash: Blockmap -> int) {
    Flushable(m, s, p, up, hash) && forall y :: y in IdsAll(s.kids) && y in m ==> !m[y].inode
  }

  // ------------------------------------------------------ shapes of trees

  /** The tree with the subtree `c` added below chain `y`. */
  function Graft(s: Shape, y: int, c: Shape): Shape
    decreases s, 1
  {
    if s.id == y then Shape(s.id, [c] + s.kids) else Shape(s.id, GraftAll(s.kids, y, c))
  }

  function GraftAll(kids: seq<Shape>, y: int, c: Shape): seq<Shape>
    decreases kids, 0
  {
    if kids == [] then [] else [Graft(kids[0], y, c)] + GraftAll(kids[1..], y, c)
  }

  /** The trees without chain `x` and what is below it. */
  function Prune(kids: seq<Shape>, x: int): seq<Shape>
    decreases kids
  {
    if kids == [] then []
    else if kids[0].id == x then Prune(kids[1..], x)
    else [Shape(kids[0].id, Prune(kids[0].kids, x))] + Prune(kids[1..], x)
  }

  function Without(ks: seq<int>, x: int): seq<int> {
    if ks == [] then [] else (if ks[0] == x then [] else [ks[0]]) + Without(ks[1..], x)
  }

  lemma {:induction false} WithoutAbsent(ks: seq<int>, x: int)
    ensures x !in ks ==> Without(ks, x) == ks
    ensures forall k :: k in Without(ks, x) <==> k in ks && k != x
  {
    if ks != [] { WithoutAbsent(ks[1..], x); }
  }

  lemma {:induction false} GraftIds(s: Shape, y: int, c: Shape)
    ensures if y in Ids(s) then Ids(Graft(s, y, c)) == Ids(s) + Ids(c) else Graft(s, y, c) == s
    decreases s, 1
  {
    if s.id == y {
      assert ([c] + s.kids)[1..] == s.kids;
    } else {
      GraftAllIds(s.kids, y, c);
    }
  }

  lemma {:induction false} GraftAllIds(kids: seq<Shape>, y: int, c: Shape)
    ensures if y in IdsAll(kids) then IdsAll(GraftAll(kids, y, c)) == IdsAll(kids) + Ids(c)
            else GraftAll(kids, y, c) == kids
    ensures Roots(GraftAll(kids, y, c)) == Roots(kids)
    decreases kids, 0
  {
    if kids != [] {
      GraftIds(kids[0], y, c);
      GraftAllIds(kids[1..], y, c);
    }
  }

  lemma {:induction false} PruneIds(kids: seq<Shape>, x: int)
    ensures IdsAll(Prune(kids, x)) <= IdsAll(kids) && x !in IdsAll(Prune(kids, x))
    ensures Roots(Prune(kids, x)) == Without(Roots(kids), x)
    decreases kids
  {
    if kids != [] {
      PruneIds(kids[0].kids, x);
      PruneIds(kids[1..], x);
    }
  }

  // ---------------------------------------------- what linked trees offer

  /** Every chain below the root is in its parent's list. */
  lemma {:induction false} Listed(m: Memory, kids: seq<Shape>, p: int)
    requires ShapedAll(m, kids, p) && p in m && forall k :: k in Roots(kids) ==> k in m[p].kids
    ensures forall z :: z in IdsAll(kids) ==> z in m && m[z].parent in m && z in m[m[z].parent].kids
    decreases kids
  {
    if kids != [] {
      Listed(m, kids[0].kids, kids[0].id);
      Listed(m, kids[1..], p);
    }
  }

  /** The children of one chain have different keys. */
  ghost predicate Apart(m: Memory, ks: seq<int>) {
    && (forall a :: a in ks ==> a in m)
    && forall a, b :: a in ks && b in ks && a != b ==> m[a].bref.key != m[b].bref.key
  }

  lemma {:induction false} RootsApart(m: Memory, kids: seq<Shape>, p: int)
    requires ShapedAll(m, kids, p)
    ensures Apart(m, Roots(kids))
  {
    if kids != [] {
      RootsApart(m, kids[1..], p);
      KidsIn(m, kids, p);
    }
  }

  lemma {:induction false} KeysApart(m: Memory, s: Shape, p: int)
    requires Shaped(m, s, p)
    ensures forall z :: z in Ids(s) ==> z in m && Apart(m, m[z].kids)
    decreases s, 1
  {
    RootsApart(m, s.kids, s.id);
    KeysApartAll(m, s.kids, s.id);
  }

  lemma {:induction false} KeysApartAll(m: Memory, kids: seq<Shape>, p: int)
    requires ShapedAll(m, kids, p)
    ensures forall z :: z in IdsAll(kids) ==> z in m && Apart(m, m[z].kids)
    decreases kids, 0
  {
    if kids != [] {
      KeysApart(m, kids[0], p);
      KeysApartAll(m, kids[1..], p);
      hide Apart;
    }
  }

  // ------------------------------------------------------- linking a chain

  /** Memory after chain `x` has been put below `y`. */
  function Linked(m: Memory, x: int, y: int, update: bool): Memory
    requires x in m && y in m
  {
    m[x := m[x].(parent := y, update := update)][y := m[y].(kids := [x] + m[y].kids)]
  }

  /** Links of the chains `ids` are as they were, but for the children of `y`. */
  ghost predicate LinksBut(m: Memory, m': Memory, ids: set<int>, y: int, ks: seq<int>) {
    forall z :: z in ids && z in m ==>
      z in m' && m'[z].parent == m[z].parent && m'[z].bref.key == m[z].bref.key && m'[z].kids == if z == y then ks
        else m[z].kids
  }

  ghost predicate Joins(m: Memory, m': Memory, y: int, c: Shape) {
    && y in m && Shaped(m', c, y)
    && forall k :: k in m[y].kids && k in m ==> c.id in m' && m'[c.id].bref.key != m[k].bref.key
  }

  lemma {:induction false} GraftShaped(m: Memory, m': Memory, s: Shape, p: int, y: int, c: Shape)
    requires Shaped(m, s, p) && Joins(m, m', y, c) && Ids(c) !! Ids(s) && LinksBut(m, m', Ids(s), y, [c.id] + m[y].kids)
    ensures Shaped(m', Graft(s, y, c), p)
    decreases s, 1
  {
    GraftAllIds(s.kids, y, c);
    GraftAllShaped(m, m', s.kids, s.id, y, c);
    if s.id == y {
      assert ([c] + s.kids)[1..] == s.kids;
      KidsIn(m, s.kids, s.id);
      RootsInIds(s.kids);
    }
  }

  lemma {:induction false} GraftAllShaped(m: Memory, m': Memory, kids: seq<Shape>, p: int, y: int, c: Shape)
    requires ShapedAll(m, kids, p) && Joins(m, m', y, c) && Ids(c) !! IdsAll(kids) &&
             LinksBut(m, m', IdsAll(kids), y, [c.id] + m[y].kids)
    ensures ShapedAll(m', GraftAll(kids, y, c), p)
    decreases kids, 0
  {
    if kids != [] {
      GraftShaped(m, m', kids[0], p, y, c);
      GraftAllShaped(m, m', kids[1..], p, y, c);
      GraftIds(kids[0], y, c);
      GraftAllIds(kids[1..], y, c);
      RootsInIds(kids[1..]);
      KidsIn(m, kids, p);
      assert kids[0].id in Ids(kids[0]) && kids[0].id in Roots(kids);
      hide Joins;
    }
  }

  /** A tree of chains that is linked nowhere, none of it in `s`. */
  ghost predicate Free(m: Memory, s: Shape, c: Shape, hash: Blockmap -> int) {
    && Shaped(m, c, 0) && Ready(m, c, hash) && Ids(c) !! Ids(s) && 0 !in Ids(c)
    && forall z :: z in Ids(c) && z in m ==> !m[z].inode
  }

  /** A loose chain with what is below it, which may be put below `y`. */
  ghost predicate Loose(m: Memory, s: Shape, y: int, c: Shape, hash: Blockmap -> int) {
    && y in Ids(s) && y in m && Free(m, s, c, hash)
    && forall k :: k in m[y].kids && k in m ==> c.id in m && m[c.id].bref.key != m[k].bref.key
  }

  /** A loose tree under its new parent. */
  lemma {:induction false} Rooted(m: Memory, m': Memory, c: Shape, p: int, p': int)
    requires Shaped(m, c, p) && c.id in m' && m'[c.id].parent == p' && m'[c.id].kids == m[c.id].kids
    requires forall z :: z in IdsAll(c.kids) && z in m ==> z in m' && m'[z] == m[z]
    ensures Shaped(m', c, p')
    decreases c, 1
  {
    KidsIn(m, c.kids, c.id);
    RootsInIds(c.kids);
    LooseAll(m, m', c.kids, c.id);
  }

  lemma {:induction false} LooseAll(m: Memory, m': Memory, kids: seq<Shape>, p: int)
    requires ShapedAll(m, kids, p) && forall z :: z in IdsAll(kids) && z in m ==> z in m' && m'[z] == m[z]
    ensures ShapedAll(m', kids, p)
    decreases kids, 0
  {
    if kids != [] {
      Rooted(m, m', kids[0], p, p);
      LooseAll(m, m', kids[1..], p);
      RootsInIds(kids[1..]);
      KidsIn(m, kids, p);
    }
  }

  /** As `ReadyAt`, but the parent of chain `x` may not know yet that `x` is dirty. */
  ghost predicate Almost(m: Memory, s: Shape, x: int, hash: Blockmap -> int) {
    s.id in m && NodeOk(m[s.id], hash) && forall z :: z in IdsAll(s.kids) ==> At(m, z, hash) && (z != x ==> Heard(m, z))
  }

  lemma {:induction false} LinkShaped(m: Memory, m': Memory, s: Shape, p: int, y: int, c: Shape, update: bool,
                                      hash: Blockmap -> int)
    requires Shaped(m, s, p) && Loose(m, s, y, c, hash) && c.id in m && m' == Linked(m, c.id, y, update)
    ensures Shaped(m', Graft(s, y, c), p) && Graft(s, y, c).id == s.id
    ensures IdsAll(Graft(s, y, c).kids) == IdsAll(s.kids) + Ids(c)
  {
    var g := Graft(s, y, c);
    ParentsIn(m, s, p);
    Rooted(m, m', c, 0, y);
    assert Joins(m, m', y, c) && LinksBut(m, m', Ids(s), y, [c.id] + m[y].kids);
    GraftShaped(m, m', s, p, y, c);
    GraftIds(s, y, c);
    assert g.id == s.id && s.id !in IdsAll(g.kids) && s.id !in IdsAll(s.kids);
  }

  lemma {:induction false} OneLinked(m: Memory, x: int, y: int, update: bool, z: int, hash: Blockmap -> int)
    requires x in m && y in m && x != y && z != x && At(m, z, hash) && Heard(m, z)
    ensures At(Linked(m, x, y, update), z, hash) && Heard(Linked(m, x, y, update), z)
  {
  }

  /** A chain put below another is known to its parent as soon as the flag is raised. */
  lemma {:induction false} LinkReady(m: Memory, m': Memory, s: Shape, p: int, y: int, c: Shape, update: bool,
                                     hash: Blockmap -> int)
    requires Shaped(m, s, p) && Ready(m, s, hash) && Loose(m, s, y, c, hash) && c.id in m &&
             m' == Linked(m, c.id, y, update)
    requires NodeOk(m'[c.id], hash) && EntryOk(m'[c.id], m'[y].table)
    ensures Shaped(m', Graft(s, y, c), p) && Almost(m', Graft(s, y, c), c.id, hash)
    ensures IdsAll(Graft(s, y, c).kids) == IdsAll(s.kids) + Ids(c)
  {
    LinkShaped(m, m', s, p, y, c, update, hash);
    ReadyPointwise(m, s, p, hash);
    ReadyPointwise(m, c, 0, hash);
    assert c.id in Ids(c) && y in Ids(s) && Ids(c) !! Ids(s) && Ids(s) == {s.id} + IdsAll(s.kids) &&
           Ids(c) == {c.id} + IdsAll(c.kids);
    assert NodeOk(m'[s.id], hash);
    assert At(m', c.id, hash);
    var g := Graft(s, y, c);
    hide Shaped, Ready, Graft, Loose, Dirty, EntryOk, NodeOk, At, Heard, Linked, Ids, IdsAll;
    forall z | z in IdsAll(g.kids) ensures At(m', z, hash) && (z != c.id ==> Heard(m', z)) {
      if z != c.id { OneLinked(m, c.id, y, update, z, hash); }
    }
  }

  /** Raising the flag from the parent of `x` upward tells all that have to know. */
  lemma {:induction false} RaisedReady(m: Memory, m': Memory, s: Shape, p: int, x: int, anc: set<int>,
                                       hash: Blockmap -> int)
    requires Shaped(m, s, p) && Almost(m, s, x, hash) && Ids(s) <= anc && 0 !in Ids(s)
    requires forall z :: z in IdsAll(s.kids) && z in m ==> !m[z].inode
    requires Raised(m, m', anc) && Propagated(m, m', anc) && x in m && m[x].parent in m' && m'[m[x].parent].onflush
    ensures Shaped(m', s, p) && Ready(m', s, hash)
  {
    ShapeKept(m, m', s, p);
    ParentsIn(m, s, p);
    ReadyPointwise(m', s, p, hash);
    hide Shaped, Ready, IdsAll, Ids;
    forall z | z in IdsAll(s.kids) ensures At(m', z, hash) && Heard(m', z) {
      assert At(m, z, hash) && (z != x ==> Heard(m, z));
    }
  }

  lemma {:induction false} ClimbTree(m: Memory, s: Shape, p: int, up: set<int>)
    requires Shaped(m, s, p) && p in up && Climb(m, up) && 0 !in Ids(s)
    ensures Climb(m, up + Ids(s))
  {
    ParentsIn(m, s, p);
    assert m[s.id].parent == p;
    hide Shaped, IdsAll;
    assert forall a :: a in Ids(s) ==> a == s.id || a in IdsAll(s.kids) by { assert Ids(s) == {s.id} + IdsAll(s.kids); }
  }

  /** What a flush needs around the tree: its root's entry, and the way up. */
  ghost predicate Surrounded(m: Memory, x: int, p: int, up: set<int>, hash: Blockmap -> int) {
    x in m && p in m && p != 0 && p in up && Climb(m, up) && EntryOk(m[x], m[p].table) && NodeOk(m[p], hash)
  }

  /** Flags raised, and the lists and the table below the root changed, leave that alone. */
  lemma {:induction false} StillSurrounded(m: Memory, m': Memory, x: int, p: int, up: set<int>, hash: Blockmap -> int)
    requires Surrounded(m, x, p, up, hash) && x in m'
    requires forall a :: a in up ==> a in m && a in m' && m'[a] == m[a].(kids := m'[a].kids, onflush := m'[a].onflush)
    requires m'[x] == m[x].(kids := m'[x].kids, onflush := m'[x].onflush, table := m'[x].table) && x != p
    ensures Surrounded(m', x, p, up, hash)
  {
  }

  lemma {:induction false} LinkedFit(m: Memory, m1: Memory, m2: Memory, s: Shape, p: int, up: set<int>, y: int,
                                     c: Shape, update: bool,
                                     hash: Blockmap -> int)
    requires Fit(m, s, p, up, hash) && Loose(m, s, y, c, hash) && Ids(c) !! up && c.id in m &&
             m1 == Linked(m, c.id, y, update)
    requires var g := Graft(s, y, c);
             && IdsAll(g.kids) == IdsAll(s.kids) + Ids(c) && Raised(m1, m2, up + Ids(g)) && Shaped(m2, g, p)
             && Ready(m2, g, hash)
    ensures Fit(m2, Graft(s, y, c), p, up, hash)
  {
    var g := Graft(s, y, c);
    GraftIds(s, y, c);
    assert s.id in Ids(s) && c.id in Ids(c) && y in Ids(s);
    hide Shaped, Ready, Ids, IdsAll, Graft, EntryOk, NodeOk;
    assert forall a :: a in up ==> a in m && m1[a] == m[a];
    StillSurrounded(m, m2, s.id, p, up, hash);
    forall z | z in IdsAll(g.kids) && z in m2 ensures !m2[z].inode { assert m2[z].inode == m[z].inode; }
  }

  /** After the link, before the flag is raised. */
  ghost predicate Attached(m: Memory, s: Shape, p: int, up: set<int>, x: int, y: int, hash: Blockmap -> int) {
    && Shaped(m, s, p) && Almost(m, s, x, hash) && Climb(m, up + Ids(s)) && y in Ids(s) && 0 !in Ids(s)
    && (forall z :: z in IdsAll(s.kids) && z in m ==> !m[z].inode) && x in m && m[x].parent == y
  }

  lemma {:induction false} LinkAttaches(m: Memory, s: Shape, p: int, up: set<int>, y: int, c: Shape, update: bool,
                                        hash: Blockmap -> int)
    requires Fit(m, s, p, up, hash) && Loose(m, s, y, c, hash) && Ids(c) !! up && c.id in m
    requires EntryOk(m[c.id].(update := update), m[y].table) && NodeOk(m[c.id].(update := update), hash)
    ensures Attached(Linked(m, c.id, y, update), Graft(s, y, c), p, up, c.id, y, hash)
    ensures IdsAll(Graft(s, y, c).kids) == IdsAll(s.kids) + Ids(c)
  {
    var m', g := Linked(m, c.id, y, update), Graft(s, y, c);
    assert c.id in Ids(c) && y in Ids(s);
    LinkReady(m, m', s, p, y, c, update, hash);
    GraftIds(s, y, c);
    hide Shaped, Ready, Almost, Graft, Ids, IdsAll, EntryOk, NodeOk;
    assert Climb(m', up);
    ClimbTree(m', g, p, up);
  }

  /** Put a loose chain that the parent's table does not have below `y`; the parent is told. */
  method Attach(f: Flusher, x: int, y: int, ghost s: Shape, ghost p: int, ghost up: set<int>, ghost c: Shape)
    requires Fit(f.mem, s, p, up, f.hash) && Loose(f.mem, s, y, c, f.hash) && x == c.id && Ids(c) !! up && x in f.mem
    requires !f.mem[x].mapped && !f.mem[x].mapupd && f.mem[x].bref.key !in f.mem[y].table
    modifies f`mem
    ensures Fit(f.mem, Graft(s, y, c), p, up, f.hash)
    ensures Raised(Linked(old(f.mem), x, y, true), f.mem, up + Ids(Graft(s, y, c)))
    ensures Known(old(f.mem), f.next) ==> Known(f.mem, f.next)
  {
    ghost var m, g := f.mem, Graft(s, y, c);
    ghost var m1 := Linked(m, x, y, true);
    LinkAttaches(m, s, p, up, y, c, true, f.hash);
    hide Shaped, Ready, Almost, Graft, IdsAll, Ids, Climb, Propagated, Raised, Loose, Fit, NodeOk, EntryOk, Known,
         OnlyUp;
    f.mem := f.mem[x := f.mem[x].(parent := y, update := true)];
    f.mem := f.mem[y := f.mem[y].(kids := [x] + f.mem[y].kids)];
    assert f.mem == m1;
    f.SetFlush(y, up + Ids(g));
    RaisedReady(m1, f.mem, g, p, x, up + Ids(g), f.hash);
    LinkedFit(m, m1, f.mem, s, p, up, y, c, true, f.hash);
    if Known(m, f.next) { KnownLinked(m, f.mem, x, y, true, up + Ids(g), f.next); }
  }

  /** Load a chain for an entry of the parent's table: nobody has to be told. */
  method Load(f: Flusher, x: int, y: int, ghost s: Shape, ghost p: int, ghost up: set<int>, ghost c: Shape)
    requires Fit(f.mem, s, p, up, f.hash) && Loose(f.mem, s, y, c, f.hash) && x == c.id && Ids(c) !! up && x in f.mem
    requires !Dirty(f.mem[x]) && f.mem[x].mapped && !f.mem[x].mapupd
    requires f.mem[x].bref.key in f.mem[y].table && f.mem[y].table[f.mem[x].bref.key] == f.mem[x].bref
    modifies f`mem
    ensures Fit(f.mem, Graft(s, y, c), p, up, f.hash) && f.mem == Linked(old(f.mem), x, y, false)
    ensures Known(old(f.mem), f.next) ==> Known(f.mem, f.next)
  {
    ghost var m, g := f.mem, Graft(s, y, c);
    LinkAttaches(m, s, p, up, y, c, false, f.hash);
    ReadyPointwise(Linked(m, x, y, false), g, p, f.hash);
    hide Shaped, Ready, Graft, IdsAll, Ids, Climb, Loose, Fit, NodeOk, EntryOk;
    f.mem := f.mem[x := f.mem[x].(parent := y)];
    f.mem := f.mem[y := f.mem[y].(kids := [x] + f.mem[y].kids)];
    assert f.mem == Linked(m, x, y, false);
    LinkedFit(m, f.mem, f.mem, s, p, up, y, c, false, f.hash);
    if Known(m, f.next) { KnownLinked(m, f.mem, x, y, false, up, f.next); }
  }

  /** A new chain, modified from the start, with storage of its own and an empty table. */
  function NewChain(key: int, off: int): Chain {
    Chain(0, false, [], true, true, false, false, false, Blockref(key, off, 0), map[])
  }

  lemma {:induction false} SingleReady(m: Memory, x: int, key: int, off: int, hash: Blockmap -> int)
    requires x in m && m[x] == NewChain(key, off)
    ensures var c := Shape(x, []); Shaped(m, c, 0) && Ready(m, c, hash) && Ids(c) == {x}
  {
    var c := Shape(x, []);
    assert c.kids == [] && IdsAll([]) == {} && Roots([]) == [];
  }

  /** A chain that is not linked anywhere changes nothing. */
  lemma {:induction false} StillFit(m: Memory, s: Shape, p: int, up: set<int>, x: int, v: Chain, hash: Blockmap -> int)
    requires Fit(m, s, p, up, hash) && x !in m
    ensures Fit(m[x := v], s, p, up, hash) && x !in Ids(s) && x !in up && forall z :: z in Ids(s) ==>
            z in m && x !in m[z].kids
  {
    var m' := m[x := v];
    Frame(m, m', s, p, hash);
    ParentsIn(m, s, p);
    KeysApart(m, s, p);
    assert Ids(s) == {s.id} + IdsAll(s.kids) && s.id in m;
    assert (forall a :: a in up ==> a in m) && forall z :: z in Ids(s) ==> z in m && Apart(m, m[z].kids);
    hide Shaped, Ready, Ids, IdsAll, NodeOk, EntryOk;
    StillSurrounded(m, m', s.id, p, up, hash);
  }

  lemma {:induction false} NewLoose(m: Memory, s: Shape, p: int, up: set<int>, x: int, y: int, key: int, off: int,
                                    hash: Blockmap -> int)
    requires Fit(m, s, p, up, hash) && x !in m && x != 0 && y in Ids(s) && y in m
    requires forall k :: k in m[y].kids && k in m ==> m[k].bref.key != key
    ensures var m' := m[x := NewChain(key, off)];
            Fit(m', s, p, up, hash) && Loose(m', s, y, Shape(x, []), hash) && Ids(Shape(x, [])) == {x} && {x} !! up
  {
    StillFit(m, s, p, up, x, NewChain(key, off), hash);
    SingleReady(m[x := NewChain(key, off)], x, key, off, hash);
    hide Shaped, Ready, Ids, Fit;
  }

  lemma {:induction false} KnownNew(m: Memory, x: int, key: int, n: int)
    requires Known(m, n)
    ensures Known(m[x := NewChain(key, n)], n + 1)
  {
  }

  lemma {:induction false} KnownLinked(m: Memory, m': Memory, x: int, y: int, update: bool, anc: set<int>, n: int)
    requires x in m && y in m && Known(m, n) &&
             (m' == Linked(m, x, y, update) || Raised(Linked(m, x, y, update), m', anc))
    ensures Known(m', n)
  {
  }

  /** Create a chain for a key that the parent has neither in memory nor in its table. */
  method Create(f: Flusher, x: int, y: int, key: int, ghost s: Shape, ghost p: int, ghost up: set<int>)
    requires Fit(f.mem, s, p, up, f.hash) && x !in f.mem && x != 0 && y in Ids(s) && y in f.mem
    requires key !in f.mem[y].table && forall k :: k in f.mem[y].kids && k in f.mem ==> f.mem[k].bref.key != key
    modifies f
    ensures Fit(f.mem, Graft(s, y, Shape(x, [])), p, up, f.hash)
    ensures x in f.mem && f.mem[x].modified && f.mem[x].parent == y && f.mem[x].bref.key == key
    ensures f.mem[x].bref.off == old(f.next) && f.mem[x].table == map[] && f.next == old(f.next) + 1
    ensures Raised(Linked(old(f.mem)[x := NewChain(key, old(f.next))], x, y, true), f.mem,
                   up + Ids(Graft(s, y, Shape(x, []))))
    ensures Known(old(f.mem), old(f.next)) ==> Known(f.mem, f.next)
  {
    NewLoose(f.mem, s, p, up, x, y, key, f.next, f.hash);
    hide Fit, Loose, Ids, Graft, Known;
    if Known(f.mem, f.next) { KnownNew(f.mem, x, key, f.next); }
    f.mem := f.mem[x := NewChain(key, f.next)];
    f.next := f.next + 1;
    Attach(f, x, y, s, p, up, Shape(x, []));
  }

  /** Modify any chain of the tree, or share a block for it. */
  method Modify(f: Flusher, x: int, dedupOff: int, ghost s: Shape, ghost p: int, ghost up: set<int>)
    requires Fit(f.mem, s, p, up, f.hash) && x in Ids(s)
    modifies f
    ensures Fit(f.mem, s, p, up, f.hash) && Changed(old(f.mem), f.mem, x, up + Ids(s), f.hash)
    ensures dedupOff == 0 ==> Modified(old(f.mem), f.mem, x, up + Ids(s))
    ensures dedupOff != 0 && x in old(f.mem) && !old(f.mem)[x].modified ==>
              !f.mem[x].modified && f.mem[x].bref.off == dedupOff
    ensures dedupOff == 0 && x in old(f.mem) && !old(f.mem)[x].modified ==>
              f.mem[x].bref.off == old(f.next) && f.next == old(f.next) + 1
    ensures f.next >= old(f.next) && (Known(old(f.mem), old(f.next)) && dedupOff < old(f.next) ==> Known(f.mem, f.next))
  {
    ghost var m, anc := f.mem, up + Ids(s);
    ParentsIn(m, s, p);
    ClimbTree(m, s, p, up);
    assert x in m && m[x].parent in anc by { assert m[s.id].parent == p; assert Ids(s) == {s.id} + IdsAll(s.kids); }
    hide Shaped, Ready, Ids, IdsAll, Known, OnlyUp;
    f.Modify(x, dedupOff, anc);
    ModifiedStaysReady(m, f.mem, s, p, x, anc, f.hash);
    ModifiedSurrounded(m, f.mem, s.id, p, up, x, anc, f.hash);
  }

  lemma {:induction false} ModifiedSurrounded(m: Memory, m': Memory, r: int, p: int, up: set<int>, x: int,
                                              anc: set<int>, hash: Blockmap -> int)
    requires Surrounded(m, r, p, up, hash) && Changed(m, m', x, anc, hash) && x !in up && r !in up
    ensures Surrounded(m', r, p, up, hash)
  {
  }

  // ----------------------------------------------------- unlinking a chain

  /** Memory after chain `x` has been taken from its parent `y`, and its entry from `y`'s table. */
  function Unlinked(m: Memory, x: int, y: int): Memory
    requires x in m && y in m
  {
    m[y := m[y].(kids := Without(m[y].kids, x), table := m[y].table - {m[x].bref.key})]
     [x := m[x].(parent := 0, mapped := false, mapupd := false)]
  }

  /** `c` is somewhere in these trees. */
  predicate Below(kids: seq<Shape>, c: Shape)
    decreases kids
  {
    kids != [] && (kids[0] == c || Below(kids[0].kids, c) || Below(kids[1..], c))
  }

  lemma {:induction false} BelowIs(m: Memory, kids: seq<Shape>, p: int, c: Shape)
    requires ShapedAll(m, kids, p) && Below(kids, c) && p !in IdsAll(kids)
    ensures c.id in m && Shaped(m, c, m[c.id].parent) && m[c.id].parent !in Ids(c) && Ids(c) <= IdsAll(kids)
    ensures IdsAll(Prune(kids, c.id)) !! Ids(c)
    decreases kids
  {
    var head, tail := kids[0], kids[1..];
    PruneIds(head.kids, c.id);
    PruneIds(tail, c.id);
    assert c.id in Ids(c);
    if head == c {
      assert Shaped(m, head, p);
    } else if Below(head.kids, c) {
      BelowIs(m, head.kids, head.id, c);
    } else {
      BelowIs(m, tail, p, c);
    }
  }

  ghost predicate LinksLess(m: Memory, m': Memory, ids: set<int>, x: int) {
    forall z :: z in ids && z in m && z != x ==>
      z in m' && m'[z].parent == m[z].parent && m'[z].bref.key == m[z].bref.key && m'[z].kids == Without(m[z].kids, x)
  }

  lemma {:induction false} PruneShaped(m: Memory, m': Memory, kids: seq<Shape>, p: int, x: int)
    requires ShapedAll(m, kids, p) && LinksLess(m, m', IdsAll(kids), x)
    ensures ShapedAll(m', Prune(kids, x), p)
    decreases kids
  {
    if kids != [] {
      var head, tail := kids[0], kids[1..];
      PruneShaped(m, m', tail, p, x);
      PruneShaped(m, m', head.kids, head.id, x);
      PruneIds(head.kids, x);
      PruneIds(tail, x);
      RootsInIds(tail);
      if head.id != x {
        var left := Shape(head.id, Prune(head.kids, x));
        WithoutAbsent(Roots(tail), x);
        assert head.id in Ids(head);
        assert Shaped(m', left, p);
        PutFirst(m', left, Prune(tail, x), p);
      }
    }
  }

  lemma {:induction false} PutFirst(m: Memory, head: Shape, tail: seq<Shape>, p: int)
    requires Shaped(m, head, p) && ShapedAll(m, tail, p) && Ids(head) !! IdsAll(tail)
    requires forall k :: k in Roots(tail) ==> k in m && m[k].bref.key != m[head.id].bref.key
    ensures ShapedAll(m, [head] + tail, p)
  {
    assert ([head] + tail)[1..] == tail;
  }

  /** No other chain's entry has been taken out. */
  lemma {:induction false} OneUnlinked(m: Memory, x: int, y: int, z: int, hash: Blockmap -> int)
    requires x in m && y in m && x != y && z != x && At(m, z, hash) && Heard(m, z) && At(m, x, hash) && m[x].parent == y
    requires m[x].mapped ==> m[y].modified
    requires m[z].parent == y ==> m[z].bref.key != m[x].bref.key
    ensures At(Unlinked(m, x, y), z, hash) && Heard(Unlinked(m, x, y), z)
  {
    assert !m[x].mapped ==> m[y].table - {m[x].bref.key} == m[y].table;
  }

  /** Where the chain is in the tree, and that its key is its own among its siblings. */
  lemma {:induction false} Placed(m: Memory, s: Shape, p: int, c: Shape)
    requires Shaped(m, s, p) && Below(s.kids, c)
    ensures c.id in IdsAll(s.kids) && c.id in m && m[c.id].parent in m && m[c.id].parent in Ids(s) &&
            m[c.id].parent != c.id
    ensures forall z :: z in IdsAll(s.kids) && z != c.id ==>
            z in m && (m[z].parent == m[c.id].parent ==> m[z].bref.key != m[c.id].bref.key)
  {
    BelowIs(m, s.kids, s.id, c);
    ParentsIn(m, s, p);
    Listed(m, s.kids, s.id);
    KeysApart(m, s, p);
    assert c.id in Ids(c);
    var y := m[c.id].parent;
    assert Apart(m, m[y].kids);
    hide Shaped, Ids, IdsAll;
  }

  /** The lists of all other chains are without the unlinked one already. */
  lemma {:induction false} OthersWithout(m: Memory, s: Shape, p: int, x: int)
    requires Shaped(m, s, p) && x in m && m[x].parent in m && x != m[x].parent
    ensures LinksLess(m, Unlinked(m, x, m[x].parent), Ids(s), x)
  {
    ParentsIn(m, s, p);
    ListedParents(m, s, p);
    hide Shaped, Ids, IdsAll;
    forall z | z in Ids(s) && z in m && z != x && z != m[x].parent ensures Without(m[z].kids, x) == m[z].kids {
      WithoutAbsent(m[z].kids, x);
    }
  }

  /** A chain in a list has the list's owner for its parent. */
  lemma {:induction false} ListedParents(m: Memory, s: Shape, p: int)
    requires Shaped(m, s, p)
    ensures forall z, k :: z in Ids(s) && z in m && k in m[z].kids ==> k in m && m[k].parent == z
    decreases s, 1
  {
    RootsParent(m, s.kids, s.id);
    ListedParentsAll(m, s.kids, s.id);
  }

  lemma {:induction false} ListedParentsAll(m: Memory, kids: seq<Shape>, p: int)
    requires ShapedAll(m, kids, p)
    ensures forall z, k :: z in IdsAll(kids) && z in m && k in m[z].kids ==> k in m && m[k].parent == z
    decreases kids, 0
  {
    if kids != [] {
      ListedParents(m, kids[0], p);
      ListedParentsAll(m, kids[1..], p);
    }
  }

  /** The tree that is left, and the one that has become loose. */
  lemma {:induction false} UnlinkShaped(m: Memory, s: Shape, p: int, c: Shape)
    requires Shaped(m, s, p) && Below(s.kids, c)
    ensures c.id in m && m[c.id].parent in m
    ensures var m', left := Unlinked(m, c.id, m[c.id].parent), Shape(s.id, Prune(s.kids, c.id));
            Shaped(m', left, p) && Shaped(m', c, 0) && Ids(c) !! Ids(left)
    ensures Ids(c) <= IdsAll(s.kids) && IdsAll(Prune(s.kids, c.id)) <= IdsAll(s.kids) &&
            c.id !in IdsAll(Prune(s.kids, c.id))
  {
    Placed(m, s, p, c);
    var y := m[c.id].parent;
    OthersWithout(m, s, p, c.id);
    BelowIs(m, s.kids, s.id, c);
    PruneShaped(m, Unlinked(m, c.id, y), s.kids, s.id, c.id);
    PruneIds(s.kids, c.id);
    assert y !in Ids(c) && c.id in m && c.id !in IdsAll(c.kids) && c.id in Ids(c);
    Rooted(m, Unlinked(m, c.id, y), c, y, 0);
    hide IdsAll;
  }

  /** Both are as fit as before, if the parent that loses an entry is modified. */
  lemma {:induction false} UnlinkReady(m: Memory, s: Shape, p: int, c: Shape, hash: Blockmap -> int)
    requires Shaped(m, s, p) && Ready(m, s, hash) && Below(s.kids, c) && c.id in m && m[c.id].parent in m
    requires m[c.id].mapped ==> m[m[c.id].parent].modified
    ensures var m', left := Unlinked(m, c.id, m[c.id].parent), Shape(s.id, Prune(s.kids, c.id));
            Shaped(m', left, p) && Ready(m', left, hash) && Shaped(m', c, 0) && Ready(m', c, hash) &&
              Ids(c) !! Ids(left)
  {
    var x, y := c.id, m[c.id].parent;
    var m', left := Unlinked(m, x, y), Shape(s.id, Prune(s.kids, x));
    UnlinkShaped(m, s, p, c);
    Placed(m, s, p, c);
    ReadyPointwise(m, s, p, hash);
    ReadyPointwise(m', left, p, hash);
    ReadyPointwise(m', c, 0, hash);
    assert x !in IdsAll(c.kids) && IdsAll(c.kids) <= IdsAll(s.kids) && s.id !in IdsAll(s.kids);
    assert At(m, x, hash);
    assert NodeOk(m'[s.id], hash) &&
           NodeOk(m'[x], hash) by { assert !m[x].mapped ==> m[y].table - {m[x].bref.key} == m[y].table; }
    hide Shaped, Ready, Ids, IdsAll, At, Heard, Unlinked, NodeOk, Prune, Below;
    forall z | z in IdsAll(s.kids) && z != x ensures At(m', z, hash) && Heard(m', z) {
      OneUnlinked(m, x, y, z, hash);
    }
  }

  lemma {:induction false} UnlinkFit(m: Memory, s: Shape, p: int, up: set<int>, c: Shape, hash: Blockmap -> int)
    requires Fit(m, s, p, up, hash) && Below(s.kids, c) && c.id in m && m[c.id].parent in m
    requires m[c.id].mapped ==> m[m[c.id].parent].modified
    ensures var m', left := Unlinked(m, c.id, m[c.id].parent), Shape(s.id, Prune(s.kids, c.id));
            Fit(m', left, p, up, hash) && Free(m', left, c, hash)
  {
    var m', left := Unlinked(m, c.id, m[c.id].parent), Shape(s.id, Prune(s.kids, c.id));
    UnlinkReady(m, s, p, c, hash);
    UnlinkShaped(m, s, p, c);
    Placed(m, s, p, c);
    assert IdsAll(left.kids) <= IdsAll(s.kids) && Ids(s) == {s.id} + IdsAll(s.kids) &&
           Ids(left) == {s.id} + IdsAll(left.kids);
    assert s.id !in IdsAll(s.kids) && s.id in m;
    hide Shaped, Ready, Ids, IdsAll, Prune, Below, EntryOk, NodeOk;
    StillSurrounded(m, m', s.id, p, up, hash);
    forall z | z in IdsAll(s.kids) && z in m' ensures !m'[z].inode { assert m'[z].inode == m[z].inode; }
  }

  lemma {:induction false} KnownUnlinked(m: Memory, x: int, y: int, n: int)
    requires x in m && y in m && Known(m, n)
    ensures Known(Unlinked(m, x, y), n)
  {
  }

  /**
    Delete chain `x` from its parent.  If the parent's table has it the parent is modified first
    and loses the entry.  What is left is fit for a flush, and `x` with what is below it is
    loose: it may be put elsewhere.
   */
  method Detach(f: Flusher, x: int, ghost s: Shape, ghost p: int, ghost up: set<int>, ghost c: Shape)
    returns (ghost m1: Memory)
    requires Fit(f.mem, s, p, up, f.hash) && Below(s.kids, c) && x == c.id && x in f.mem
    modifies f
    ensures Fit(f.mem, Shape(s.id, Prune(s.kids, x)), p, up, f.hash)
    ensures Free(f.mem, Shape(s.id, Prune(s.kids, x)), c, f.hash) && Ids(c) !! up
    ensures x in f.mem && !f.mem[x].mapped && !f.mem[x].mapupd && f.mem[x].bref.key == old(f.mem)[x].bref.key
    ensures var y := old(f.mem)[x].parent; y in f.mem && f.mem[x].bref.key !in f.mem[y].table && x !in f.mem[y].kids
    ensures var y := old(f.mem)[x].parent;
            && (if old(f.mem)[x].mapped then Modified(old(f.mem), m1, y, up + Ids(s)) else m1 == old(f.mem))
            && x in m1 && y in m1 && f.mem == Unlinked(m1, x, y)
    ensures f.next >= old(f.next) && (Known(old(f.mem), old(f.next)) && 0 < old(f.next) ==> Known(f.mem, f.next))
  {
    Placed(f.mem, s, p, c);
    var y := f.mem[x].parent;
    assert Ids(c) !! up by { BelowIs(f.mem, s.kids, s.id, c); }
    WithoutAbsent(f.mem[y].kids, x);
    hide Fit, Shaped, Ready, Ids, IdsAll, Below, Prune, Free, Known;
    if f.mem[x].mapped {
      Modify(f, y, 0, s, p, up);
    }
    assert f.mem[x].parent == y;
    UnlinkFit(f.mem, s, p, up, c, f.hash);
    m1 := f.mem;
    if Known(m1, f.next) { KnownUnlinked(m1, x, y, f.next); }
    f.mem := f.mem[y := f.mem[y].(kids := Without(f.mem[y].kids, x), table := f.mem[y].table - {f.mem[x].bref.key})];
    f.mem := f.mem[x := f.mem[x].(parent := 0, mapped := false, mapupd := false)];
    assert f.mem == Unlinked(m1, x, y);
  }

  // -------------------------------------------- entering an old reference

  /** Memory after the reference `obref`, saved when `x` was moved, has been entered for it. */
  function Reentered(m: Memory, x: int, y: int, obref: Blockref): Memory
    requires x in m && y in m
  {
    m[y := m[y].(table := m[y].table[obref.key := obref])]
     [x := m[x].(mapped := true, mapupd := obref != m[x].bref, update := obref != m[x].bref)]
  }

  lemma {:induction false} OneReentered(m: Memory, x: int, y: int, obref: Blockref, z: int, hash: Blockmap -> int)
    requires x in m && y in m && x != y && z != x && At(m, z, hash) && Heard(m, z) && m[x].parent == y &&
             m[x].bref.key == obref.key
    requires m[y].modified && (m[z].parent == y ==> m[z].bref.key != m[x].bref.key)
    ensures At(Reentered(m, x, y, obref), z, hash) && Heard(Reentered(m, x, y, obref), z)
  {
  }

  /**
    A moved chain that had an entry gets it back in its new parent, and is due for an update
    exactly if it differs from it.  That is right unless the chain is modified and yet does not
    differ.
   */
  lemma {:induction false} ReenterReady(m: Memory, s: Shape, p: int, c: Shape, obref: Blockref, hash: Blockmap -> int)
    requires Shaped(m, s, p) && Ready(m, s, hash) && Below(s.kids, c) && c.id in m && m[c.id].parent in m
    requires !m[c.id].mapped && !m[c.id].mapupd && m[m[c.id].parent].modified && obref.key == m[c.id].bref.key
    ensures var m' := Reentered(m, c.id, m[c.id].parent, obref);
            Shaped(m', s, p) && (Ready(m', s, hash) <==> !(m[c.id].modified && obref == m[c.id].bref))
  {
    var x, y := c.id, m[c.id].parent;
    var m' := Reentered(m, x, y, obref);
    Placed(m, s, p, c);
    ShapeKept(m, m', s, p);
    ReadyPointwise(m, s, p, hash);
    ReadyPointwise(m', s, p, hash);
    assert s.id !in IdsAll(s.kids) && At(m, x, hash) && Heard(m, x);
    assert At(m', x, hash) <==> !(m[x].modified && obref == m[x].bref);
    assert NodeOk(m'[s.id], hash) && Heard(m', x);
    hide Shaped, Ready, Ids, IdsAll, At, Heard, Reentered, NodeOk, Below;
    forall z | z in IdsAll(s.kids) && z != x ensures At(m', z, hash) && Heard(m', z) {
      OneReentered(m, x, y, obref, z, hash);
    }
  }

  lemma {:induction false} ReenterFit(m: Memory, s: Shape, p: int, up: set<int>, c: Shape, obref: Blockref,
                                      hash: Blockmap -> int)
    requires Fit(m, s, p, up, hash) && Below(s.kids, c) && c.id in m && m[c.id].parent in m
    requires !m[c.id].mapped && !m[c.id].mapupd && m[m[c.id].parent].modified && obref.key == m[c.id].bref.key
    ensures Fit(Reentered(m, c.id, m[c.id].parent, obref), s, p, up, hash) <==>
            !(m[c.id].modified && obref == m[c.id].bref)
  {
    ReenterReady(m, s, p, c, obref, hash);
    Placed(m, s, p, c);
    assert Ids(s) == {s.id} + IdsAll(s.kids) && s.id !in IdsAll(s.kids) && s.id in m;
    hide Shaped, Ready, Ids, IdsAll, Below, EntryOk, NodeOk;
    StillSurrounded(m, Reentered(m, c.id, m[c.id].parent, obref), s.id, p, up, hash);
  }

  lemma {:induction false} KnownReentered(m: Memory, x: int, y: int, obref: Blockref, n: int)
    requires x in m && y in m && Known(m, n) && obref.off < n
    ensures Known(Reentered(m, x, y, obref), n)
  {
  }

  /** Enter the old reference of a chain that was moved here. */
  method Reenter(f: Flusher, x: int, obref: Blockref, ghost s: Shape, ghost p: int, ghost up: set<int>, ghost c: Shape)
    returns (ghost m: Memory)
    requires Fit(f.mem, s, p, up, f.hash) && Below(s.kids, c) && x == c.id && x in f.mem
    requires !f.mem[x].mapped && !f.mem[x].mapupd && obref.key == f.mem[x].bref.key
    modifies f
    ensures Fit(f.mem, s, p, up, f.hash) <==> !(old(f.mem)[x].modified && obref == old(f.mem)[x].bref)
    ensures x in f.mem && f.mem[x].mapped && f.mem[x].bref == old(f.mem)[x].bref
    ensures f.mem[x].update <==> obref != f.mem[x].bref
    ensures f.mem[x].parent in f.mem && obref.key in f.mem[f.mem[x].parent].table &&
            f.mem[f.mem[x].parent].table[obref.key] == obref
    ensures var y := old(f.mem)[x].parent;
            && Modified(old(f.mem), m, y, up + Ids(s)) && x in m && y in m && f.mem == Reentered(m, x, y, obref)
    ensures f.next >= old(f.next)
    ensures Known(old(f.mem), old(f.next)) && 0 < old(f.next) && obref.off < old(f.next) ==> Known(f.mem, f.next)
  {
    Placed(f.mem, s, p, c);
    var y := f.mem[x].parent;
    hide Fit, Shaped, Ready, Ids, IdsAll, Below, Known;
    Modify(f, y, 0, s, p, up);
    m := f.mem;
    if Known(m, f.next) && obref.off < f.next { KnownReentered(m, x, y, obref, f.next); }
    ReenterFit(m, s, p, up, c, obref, f.hash);
    f.mem := f.mem[y := f.mem[y].(table := f.mem[y].table[obref.key := obref])];
    var differs := obref != f.mem[x].bref;
    f.mem := f.mem[x := f.mem[x].(mapped := true, mapupd := differs, update := differs)];
    assert f.mem == Reentered(m, x, y, obref);
  }

  /** A flush of the tree leaves it fit for the next round. */
  method Sync(f: Flusher, ghost s: Shape, x: int, p: int, ghost up: set<int>)
    requires Fit(f.mem, s, p, up, f.hash) && x == s.id
    modifies f
    ensures Fit(f.mem, s, p, up, f.hash) && FlushedAt(f.mem, s, f.hash) && Entered(f.mem, x, p)
    ensures x in old(f.mem) && Kept(old(f.mem), f.mem, old(f.next), p, {old(f.mem)[x].bref.key})
    ensures OwnBlocks(old(f.mem), f.mem, Ids(s))
    ensures f.next >= old(f.next) && (Known(old(f.mem), old(f.next)) ==> Known(f.mem, f.next))
  {
    ParentsIn(f.mem, s, p);
    hide Flushable, FlushedAt, Entered, Outside, IdsAll, Known, OwnBlocks;
    assert Flushable(f.mem, s, p, up, f.hash);
    FlushInode(f, x, p, s, up);
  }
}
