/**
  Taking a node out of a red-black tree: directly if it has at most one child, else by putting
  its successor in its place.
 */
module RbRemove {
  import opened RbTree
  import opened RbInsert
  import opened RbErase

  // ------------------------------------------------- at most one child

  function OnlyChild(t: Tree): Tree
    requires t.Bin?
  {
    if t.l.Leaf? then t.r else t.l
  }

  /** The node is bypassed: parent and child point at each other. */
  ghost predicate Unlinked(m: Memory, m': Memory, root: nat, root': nat, c: Context, child: Tree)
    requires (c.In? ==> c.n in m) && (child.Bin? ==> child.n in m)
  {
    && (child.Bin? ==> child.n in m' && m'[child.n] == m[child.n].(parent := Parent(c)))
    && (if c.In? then root' == root && c.n in m' && m'[c.n] == WithChild(m[c.n], c.side, Link(child))
       else root' == Link(child))
    && Elsewhere(m, m', (if child.Bin? then {child.n} else {}) + (if c.In? then {c.n} else {}))
  }

  lemma {:induction false} UnlinkedHolds(m: Memory, m': Memory, root: nat, root': nat, c: Context, t: Tree)
    requires Holds(m, root, c, t) && t.Bin? && (t.l.Leaf? || t.r.Leaf?)
    requires (c.In? ==> c.n in m) && (OnlyChild(t).Bin? ==> OnlyChild(t).n in m)
    requires Unlinked(m, m', root, root', c, OnlyChild(t))
    ensures Holds(m', root', c, OnlyChild(t))
  {
    var child := OnlyChild(t);
    assert Rep(m, child, t.n) && Separate(child) && Nodes(child) <= Nodes(t);
    assert child.Bin? ==> child.n in Nodes(child);
    ParentIn(m, root, c, t.n);
    var touched := (if child.Bin? then {child.n} else {}) + (if c.In? then {c.n} else {});
    hide Rep, RepAbove, Separate, SeparateAbove, Nodes, Above;
    AgreeOff(m, m', touched, Nodes(child) - {Link(child)});
    AgreeOff(m, m', touched, Above(c) - {Parent(c)});
    RepMoved(m, m', child, t.n, Parent(c));
    RepAboveRelinked(m, m', root, root', c, t.n, Link(child));
  }

  /** Redirect the links around `n`, which has at most one child. */
  method Bypass(root: RbRoot, n: nat, child: nat, ghost at: Side)
    requires n in root.mem
    requires var p := root.mem[n].parent;
             && (child != 0 ==> child in root.mem && child != n && child != p)
             && (p != 0 ==> p in root.mem && p != n && Child(root.mem[p], at) == n && Child(root.mem[p], !at) != n)
    modifies root
    ensures var m, p := old(root.mem), old(root.mem)[n].parent;
            && root.mem.Keys == m.Keys
            && (child != 0 ==> root.mem[child] == m[child].(parent := p))
            && (if p != 0 then root.node == old(root.node) && root.mem[p] == WithChild(m[p], at, child)
               else root.node == child)
            && forall x :: x in m && (child != 0 ==> x != child) && (p != 0 ==> x != p) ==> root.mem[x] == m[x]
  {
    var parent := root.mem[n].parent;
    if child != 0 { root.SetParent(child, parent); }
    if parent != 0 {
      if root.mem[parent].left == n { root.SetChild(parent, true, child); }
        else { root.SetChild(parent, false, child); }
    } else {
      root.node := child;
    }
  }

  method UnlinkNode(root: RbRoot, n: nat, child: nat, ghost c: Context, ghost t: Tree)
    requires Holds(root.mem, root.node, c, t) && t.Bin? && (t.l.Leaf? || t.r.Leaf?)
    requires n == t.n && child == Link(OnlyChild(t))
    modifies root
    ensures Holds(root.mem, root.node, c, OnlyChild(t)) && root.mem.Keys == old(root.mem.Keys)
  {
    ghost var m, r := root.mem, root.node;
    Here(m, r, c, t);
    ChildHere(m, r, c, t, !t.l.Leaf?);
    assert OnlyChild(t) == Near(t, !t.l.Leaf?);
    hide Holds, Near;
    Bypass(root, n, child, SideOf(c));
    UnlinkedHolds(m, root.mem, r, root.node, c, t);
  }

  lemma {:induction false} ChildHere(m: Memory, root: nat, c: Context, t: Tree, side: Side)
    requires Holds(m, root, c, t) && t.Bin?
    ensures t.n != 0 && (c.In? ==> c.n != t.n)
    ensures var x := Near(t, side);
            && (Link(x) == 0 <==> x.Leaf?)
            && (x.Bin? ==>
               x.n in m && x.n != t.n && (c.In? ==> x.n != c.n) && m[x.n] == Cell(t.n, x.red, Link(x.l), Link(x.r)))
  {
    ParentIn(m, root, c, t.n);
    assert t.n in Nodes(t);
    var x := Near(t, side);
    assert Rep(m, x, t.n);
    assert x.Bin? ==> x.n in Nodes(x) && x.n in Nodes(t);
  }

  /** A red node had no child; a black one leaves its place short. */
  lemma {:induction false} UnlinkShort(c: Context, t: Tree)
    requires GoodHere(c, t) && t.Bin? && (t.l.Leaf? || t.r.Leaf?)
    ensures t.red ==> Whole(c, OnlyChild(t)) && c.In?
    ensures !t.red ==> Short(c, OnlyChild(t))
  {
    var child := OnlyChild(t);
    assert Good(child) && BlackHeight(child) == BlackHeight(t.l);
    assert BlackHeight(t) == BlackHeight(child) + if t.red then 0 else 1;
    assert t.red ==> !Red(child);
    assert child.Bin? ==> Good(child.l) && Good(child.r);
    hide Good, BlackHeight, GoodAbove;
  }

  // ------------------------------------------------------ two children

  /** The context `k` levels up. */
  function Up(c: Context, k: nat): Context
    requires k <= Depth(c)
  {
    if k == 0 then c else Up(c.up, k - 1)
  }

  /** The subtree that has grown by then. */
  function PlugUp(c: Context, k: nat, t: Tree): Tree
    requires k <= Depth(c)
  {
    if k == 0 then t else PlugUp(c.up, k - 1, Mk(c.n, c.red, c.side, t, c.sib))
  }

  /** The same way up, continued in another context from level `k` on. */
  function Rebase(c: Context, k: nat, base: Context): (r: Context)
    requires k <= Depth(c)
    ensures Depth(r) == k + Depth(base)
  {
    if k == 0 then base else c.(up := Rebase(c.up, k - 1, base))
  }

  lemma {:induction false} PlugUpHolds(m: Memory, root: nat, c: Context, k: nat, t: Tree)
    requires k <= Depth(c)
    ensures Holds(m, root, c, t) <==> Holds(m, root, Up(c, k), PlugUp(c, k, t))
    ensures Elements(c, t) == Elements(Up(c, k), PlugUp(c, k, t))
    decreases k
  {
    hide Holds, Elements;
    if k > 0 {
      Refocus(m, root, c, t);
      ElementsUp(c, t, c.red);
      PlugUpHolds(m, root, c.up, k - 1, Mk(c.n, c.red, c.side, t, c.sib));
    }
  }

  lemma {:induction false} RebaseParts(c: Context, k: nat, base: Context, t: Tree)
    requires k <= Depth(c)
    ensures Up(Rebase(c, k, base), k) == base && PlugUp(Rebase(c, k, base), k, t) == PlugUp(c, k, t)
    decreases k
  {
    if k > 0 { RebaseParts(c.up, k - 1, base, Mk(c.n, c.red, c.side, t, c.sib)); }
  }

  /** Every step up is from a left child. */
  predicate LeftSpine(c: Context, k: nat)
    requires k <= Depth(c)
  {
    k == 0 || (c.side && LeftSpine(c.up, k - 1))
  }

  /** What lies above on a left spine comes after. */
  function SpineOrder(c: Context, k: nat): seq<nat>
    requires k <= Depth(c)
  {
    if k == 0 then [] else [c.n] + InOrder(c.sib) + SpineOrder(c.up, k - 1)
  }

  lemma {:induction false} SpineInOrder(c: Context, k: nat, t: Tree)
    requires k <= Depth(c) && LeftSpine(c, k)
    ensures InOrder(PlugUp(c, k, t)) == InOrder(t) + SpineOrder(c, k)
    decreases k
  {
    if k > 0 {
      var u := Mk(c.n, c.red, c.side, t, c.sib);
      SpineInOrder(c.up, k - 1, u);
      Assoc(InOrder(t), [c.n] + InOrder(c.sib), SpineOrder(c.up, k - 1));
      Assoc(InOrder(t), [c.n], InOrder(c.sib));
    }
  }

  /** Colors and heights do not depend on which nodes carry them. */
  lemma {:induction false} RebaseGood(c: Context, k: nat, n: nat, h: nat)
    requires k < Depth(c)
    ensures Up(c, k).In?
    ensures var base := Up(c, k).(n := n);
            && GoodAbove(Rebase(c, k, base), h) == GoodAbove(c, h)
            && (Rebase(c, k, base).In? && Rebase(c, k, base).red == c.red)
    decreases k
  {
    if k > 0 {
      RebaseGood(c.up, k - 1, n, h + if c.red then 0 else 1);
    }
  }

  /** Node `s`, which is not in the tree, takes over the links and color of the root of `t`. */
  ghost predicate TakenOver(m: Memory, m': Memory, root: nat, root': nat, c: Context, t: Tree, s: nat)
    requires t.Bin? && t.n in m && (c.In? ==> c.n in m) && (t.l.Bin? ==> t.l.n in m) && (t.r.Bin? ==> t.r.n in m)
  {
    && s in m' && m'[s] == m[t.n]
    && (t.l.Bin? ==> t.l.n in m' && m'[t.l.n] == m[t.l.n].(parent := s))
    && (t.r.Bin? ==> t.r.n in m' && m'[t.r.n] == m[t.r.n].(parent := s))
    && (if c.In? then root' == root && c.n in m' && m'[c.n] == WithChild(m[c.n], c.side, s) else root' == s)
    && Elsewhere(m, m', {s, t.n} + (if t.l.Bin? then {t.l.n} else {}) + (if t.r.Bin? then {t.r.n} else {}) +
       (if c.In? then {c.n} else {}))
  }

  lemma {:induction false} TakenOverHolds(m: Memory, m': Memory, root: nat, root': nat, c: Context, t: Tree, s: nat)
    requires Holds(m, root, c, t) && t.Bin? && s != 0 && s !in Nodes(t) && s !in Above(c)
    requires t.n in m && (c.In? ==> c.n in m) && (t.l.Bin? ==> t.l.n in m) && (t.r.Bin? ==> t.r.n in m)
    requires TakenOver(m, m', root, root', c, t, s)
    ensures Holds(m', root', c, t.(n := s))
  {
    var l, r := t.l, t.r;
    assert Rep(m, l, t.n) && Rep(m, r, t.n) && Separate(l) && Separate(r) && Nodes(l) !! Nodes(r);
    assert Nodes(t) == {t.n} + Nodes(l) + Nodes(r);
    assert Nodes(t.(n := s)) == {s} + Nodes(l) + Nodes(r) && Separate(t.(n := s));
    assert (l.Bin? ==> l.n in Nodes(l)) && (r.Bin? ==> r.n in Nodes(r));
    assert m[t.n] == Cell(Parent(c), t.red, Link(l), Link(r));
    ParentIn(m, root, c, t.n);
    var touched := {s, t.n} + (if l.Bin? then {l.n} else {}) + (if r.Bin? then {r.n} else {}) +
      (if c.In? then {c.n} else {});
    hide RepAbove, Separate, SeparateAbove, Nodes, Above;
    AgreeOff(m, m', touched, Nodes(l) - {Link(l)});
    AgreeOff(m, m', touched, Nodes(r) - {Link(r)});
    AgreeOff(m, m', touched, Above(c) - {Parent(c)});
    RepMoved(m, m', l, t.n, s);
    RepMoved(m, m', r, t.n, s);
    RepAboveRelinked(m, m', root, root', c, t.n, s);
  }

  // ------------------------------------------- the successor, in memory

  /** The addresses around a node `gone` with two children and its successor `s`. */
  datatype Around = Around(gone: nat, s: nat, q: nat, ch: nat, left: nat, right: nat, above: nat, at: Side)

  ghost predicate Spliceable(m: Memory, a: Around) {
    && a.gone in m && a.s in m && a.q in m && a.left in m && a.right in m && 0 !in {a.gone, a.s, a.q, a.left, a.right}
    && m[a.gone].parent == a.above && m[a.gone].left == a.left && m[a.gone].right == a.right
    && m[a.s].parent == a.q && m[a.s].left == 0 && m[a.s].right == a.ch
    && a.s !in {a.gone, a.left, a.above, a.q, a.ch} && a.gone !in {a.left, a.right, a.above, a.ch}
    && a.left !in {a.right, a.above, a.q, a.ch}
    && (a.above != 0 ==> a.above in m && a.above !in {a.right, a.q, a.ch}
                         && Child(m[a.above], a.at) == a.gone && Child(m[a.above], !a.at) != a.gone)
    && (a.ch != 0 ==> a.ch in m && a.ch !in {a.right, a.q} && m[a.ch].parent == a.s)
    && (a.q == a.gone <==> a.right == a.s)
    && (a.q != a.gone ==> m[a.q].left == a.s)
  }

  /** Memory once the successor is out of its old place. */
  ghost function Bypassed(m: Memory, a: Around): Memory
    requires Spliceable(m, a)
  {
    var m1 := m[a.q := WithChild(m[a.q], a.q != a.gone, a.ch)];
    if a.ch == 0 then m1 else m1[a.ch := m1[a.ch].(parent := a.q)]
  }

  /** The cells that the successor's move writes, each compared with the state in which it is only bypassed. */
  ghost predicate Spliced(m1: Memory, m': Memory, root: nat, root': nat, a: Around)
    requires a.gone in m1 && a.left in m1 && a.right in m1 && (a.above != 0 ==> a.above in m1) &&
             (a.ch != 0 ==> a.ch in m1)
  {
    && m'.Keys == m1.Keys && a.s in m1
    && m'[a.s] == m1[a.gone]
    && m'[a.left] == m1[a.left].(parent := a.s)
    && (a.q == a.gone && a.ch != 0 ==> m'[a.ch] == m1[a.ch].(parent := a.s))
    && (a.q != a.gone ==> m'[a.right] == m1[a.right].(parent := a.s))
    && (if a.above != 0 then root' == root && m'[a.above] == WithChild(m1[a.above], a.at, a.s) else root' == a.s)
    && forall x :: x in m1 && x !in {a.s, a.gone, a.left} && (a.above != 0 ==> x != a.above)
                   && (a.q == a.gone && a.ch != 0 ==> x != a.ch) && (a.q != a.gone ==> x != a.right)
                   ==> m'[x] == m1[x]
  }

  /** The parent of the removed node points at the successor. */
  ghost function Redirected(m: Memory, a: Around): Memory
    requires a.above != 0 ==> a.above in m
  {
    if a.above == 0 then m else m[a.above := WithChild(m[a.above], a.at, a.s)]
  }

  /** The successor is out of its old place and has the removed node's right subtree. */
  ghost function MovedOut(m: Memory, a: Around): Memory
    requires {a.s, a.q, a.right} <= m.Keys && (a.ch != 0 ==> a.ch in m)
  {
    var m1 := if a.ch == 0 then m else m[a.ch := m[a.ch].(parent := a.q)];
    var m2 := m1[a.q := m1[a.q].(left := a.ch)];
    var m3 := m2[a.s := m2[a.s].(right := a.right)];
    m3[a.right := m3[a.right].(parent := a.s)]
  }

  /** The successor has the rest of the removed node's cell. */
  ghost function CellTaken(m: Memory, a: Around): Memory
    requires {a.s, a.gone, a.left} <= m.Keys
  {
    var m1 := m[a.s := Cell(m[a.gone].parent, m[a.gone].red, m[a.gone].left, m[a.s].right)];
    m1[a.left := m1[a.left].(parent := a.s)]
  }

  lemma {:induction false} NextIsRight(m: Memory, root: nat, root': nat, a: Around)
    requires Spliceable(m, a) && a.q == a.gone && (if a.above == 0 then root' == a.s else root' == root)
    ensures var m' := Redirected(m, a);
            {a.s, a.gone, a.left} <= m'.Keys && Spliced(Bypassed(m, a), CellTaken(m', a), root, root', a)
  {
  }

  lemma {:induction false} NextIsDeep(m: Memory, root: nat, root': nat, a: Around)
    requires Spliceable(m, a) && a.q != a.gone && (if a.above == 0 then root' == a.s else root' == root)
    ensures var m' := Redirected(m, a);
            && {a.s, a.q, a.right} <= m'.Keys && (a.ch != 0 ==> a.ch in m')
            && {a.s, a.gone, a.left} <= MovedOut(m', a).Keys
            && Spliced(Bypassed(m, a), CellTaken(MovedOut(m', a), a), root, root', a)
  {
  }

  method RedirectAbove(root: RbRoot, gone: nat, n: nat, ghost a: Around)
    requires Spliceable(root.mem, a) && gone == a.gone && n == a.s
    modifies root
    ensures root.mem == Redirected(old(root.mem), a) && root.node == if a.above == 0 then n else old(root.node)
  {
    var above := root.mem[gone].parent;
    if above != 0 {
      if root.mem[above].left == gone { root.SetChild(above, true, n); } else { root.SetChild(above, false, n); }
    } else {
      root.node := n;
    }
  }

  method MoveOut(root: RbRoot, gone: nat, n: nat, child: nat, parent: nat, ghost a: Around)
    requires {a.s, a.q, a.right, a.gone} <= root.mem.Keys && (a.ch != 0 ==> a.ch in root.mem)
    requires gone == a.gone && n == a.s && child == a.ch && parent == a.q && root.mem[gone].right == a.right
    requires a.gone !in {a.s, a.q, a.ch}
    modifies root`mem
    ensures root.mem == MovedOut(old(root.mem), a)
  {
    if child != 0 { root.SetParent(child, parent); }
    root.SetChild(parent, true, child);
    root.SetChild(n, false, root.mem[gone].right);
    root.SetParent(root.mem[gone].right, n);
  }

  method TakeCell(root: RbRoot, gone: nat, n: nat, ghost a: Around)
    requires {a.s, a.gone, a.left} <= root.mem.Keys && gone == a.gone && n == a.s && a.gone != a.s
    requires root.mem[gone].left == a.left
    modifies root`mem
    ensures root.mem == CellTaken(old(root.mem), a)
  {
    root.SetParent(n, root.mem[gone].parent);
    root.SetRed(n, root.mem[gone].red);
    root.SetChild(n, true, root.mem[gone].left);
    root.SetParent(root.mem[gone].left, n);
  }

  /** Move the successor into the place of the removed node. */
  method Splice(root: RbRoot, gone: nat, n: nat, ghost a: Around) returns (child: nat, parent: nat)
    requires Spliceable(root.mem, a) && gone == a.gone && n == a.s
    modifies root
    ensures Spliced(Bypassed(old(root.mem), a), root.mem, old(root.node), root.node, a)
    ensures child == a.ch && parent == if a.q == a.gone then a.s else a.q
  {
    ghost var m, r := root.mem, root.node;
    RedirectAbove(root, gone, n, a);
    child := root.mem[n].right;
    parent := root.mem[n].parent;
    if parent == gone {
      parent := n;
      NextIsRight(m, r, root.node, a);
    } else {
      NextIsDeep(m, r, root.node, a);
      MoveOut(root, gone, n, child, parent, a);
    }
    hide Spliced, Bypassed;
    TakeCell(root, gone, n, a);
  }

  // --------------------------------------- the successor, as a position

  lemma {:induction false} UpAbove(c: Context, k: nat)
    requires k <= Depth(c)
    ensures Above(Up(c, k)) <= Above(c)
    decreases k
  {
    if k > 0 { UpAbove(c.up, k - 1); }
  }

  lemma {:induction false} PlugUpNodes(c: Context, k: nat, t: Tree)
    requires k <= Depth(c)
    ensures Nodes(PlugUp(c, k, t)) + Above(Up(c, k)) == Nodes(t) + Above(c)
    decreases k
  {
    if k > 0 {
      var u := Mk(c.n, c.red, c.side, t, c.sib);
      PlugUpNodes(c.up, k - 1, u);
      assert Nodes(u) == {c.n} + Nodes(t) + Nodes(c.sib);
    }
  }

  lemma {:induction false} PlugUpLink(c: Context, k: nat, t: Tree)
    requires 0 < k <= Depth(c)
    ensures PlugUp(c, k, t).Bin? && Up(c, k - 1).In? && PlugUp(c, k, t).n == Up(c, k - 1).n &&
            Up(c, k - 1).n in Above(c)
    decreases k
  {
    if k > 1 { PlugUpLink(c.up, k - 1, Mk(c.n, c.red, c.side, t, c.sib)); }
  }

  /** A node with two children and its successor, `k` levels down the left spine of the right child. */
  ghost predicate Successor(cs: Context, k: nat, ts: Tree) {
    && k < Depth(cs) && LeftSpine(cs, k) && ts.Bin? && ts.l.Leaf?
    && Up(cs, k).In? && !Up(cs, k).side && Up(cs, k).sib.Bin?
  }

  function AroundOf(cs: Context, k: nat, ts: Tree): Around
    requires k < Depth(cs) && Up(cs, k).In? && cs.In? && ts.Bin?
  {
    var b := Up(cs, k);
    Around(b.n, ts.n, cs.n, Link(ts.r), Link(b.sib), Link(PlugUp(cs, k, ts)), Parent(b.up), SideOf(b.up))
  }

  /** The node to be removed, with everything below it. */
  function Doomed(cs: Context, k: nat, t: Tree): Tree
    requires k < Depth(cs) && Up(cs, k).In?
  {
    var b := Up(cs, k);
    Mk(b.n, b.red, b.side, PlugUp(cs, k, t), b.sib)
  }

  lemma {:induction false} DoomedHolds(m: Memory, root: nat, cs: Context, k: nat, t: Tree)
    requires k < Depth(cs) && Up(cs, k).In?
    ensures Holds(m, root, cs, t) <==> Holds(m, root, Up(cs, k).up, Doomed(cs, k, t))
  {
    PlugUpHolds(m, root, cs, k, t);
    Refocus(m, root, Up(cs, k), PlugUp(cs, k, t));
  }

  /** Which of the addresses may coincide: the successor's parent is the node itself, or neither is the other. */
  lemma {:induction false} SuccessorApart(m: Memory, root: nat, cs: Context, k: nat, ts: Tree)
    requires Holds(m, root, cs, ts) && Successor(cs, k, ts)
    ensures var a := AroundOf(cs, k, ts);
            && a.s !in {a.gone, a.left, a.q, a.ch} && (a.above != 0 ==> a.above !in {a.s, a.q, a.ch})
            && (a.ch != 0 ==> a.ch !in {a.gone, a.left, a.q, a.right})
            && (k == 0 ==> a.q == a.gone && a.right == a.s)
            && (k > 0 ==> a.q != a.gone && a.right != a.s && a.q != a.left)
  {
    var b := Up(cs, k);
    var a := AroundOf(cs, k, ts);
    UpAbove(cs, k);
    assert b.n in Above(b) && b.sib.n in Nodes(b.sib) && b.sib.n in Above(b);
    assert b.up.In? ==> b.up.n in Above(b.up) && b.up.n in Above(b);
    assert ts.n in Nodes(ts) && (ts.r.Bin? ==> ts.r.n in Nodes(ts.r) && ts.r.n in Nodes(ts));
    assert cs.n in Above(cs);
    Here(m, root, cs, ts);
    LinkIn(m, ts.r, ts.n);
    ParentIn(m, root, cs, ts.n);
    AboveLinks(m, root, cs, k, ts);
    if k > 0 {
      UpAbove(cs.up, k - 1);
      PlugUpLink(cs, k, ts);
      assert b.n in Above(cs.up) && b.sib.n in Above(cs.up);
      assert b.up.In? ==> b.up.n in Above(cs.up);
      assert cs.n !in Above(cs.up);
    }
    hide Rep, RepAbove, Separate, Nodes, Above, SeparateAbove;
  }

  lemma {:induction false} AboveLinks(m: Memory, root: nat, cs: Context, k: nat, ts: Tree)
    requires Holds(m, root, cs, ts) && Successor(cs, k, ts)
    ensures var a := AroundOf(cs, k, ts);
            && 0 !in {a.s, a.q, a.gone, a.left} && ts.n !in Nodes(ts.r)
            && (a.above != 0 <==> Up(cs, k).up.In?)
  {
    Here(m, root, cs, ts);
    ParentIn(m, root, cs, ts.n);
    DoomedHolds(m, root, cs, k, ts);
    var w := Doomed(cs, k, ts);
    MkSwap(Up(cs, k).n, Up(cs, k).red, false, PlugUp(cs, k, ts), Up(cs, k).sib);
    Here(m, root, Up(cs, k).up, w);
    ChildHere(m, root, Up(cs, k).up, w, true);
  }

  lemma {:induction false} SpliceReady(m: Memory, root: nat, cs: Context, k: nat, ts: Tree)
    requires Holds(m, root, cs, ts) && Successor(cs, k, ts)
    ensures Spliceable(m, AroundOf(cs, k, ts))
  {
    var a := AroundOf(cs, k, ts);
    var b := Up(cs, k);
    var w := Doomed(cs, k, ts);
    Here(m, root, cs, ts);
    ChildHere(m, root, cs, ts, false);
    SuccessorApart(m, root, cs, k, ts);
    AboveLinks(m, root, cs, k, ts);
    DoomedHolds(m, root, cs, k, ts);
    MkSwap(b.n, b.red, false, PlugUp(cs, k, ts), b.sib);
    Here(m, root, b.up, w);
    ChildHere(m, root, b.up, w, true);
    ChildHere(m, root, b.up, w, false);
    if k > 0 { PlugUpLink(cs, k, ts); }
    DoomedApart(m, root, cs, k, ts);
    hide Rep, RepAbove, Separate, Nodes, Above, SeparateAbove, Holds, PlugUp, Up;
  }

  lemma {:induction false} DoomedApart(m: Memory, root: nat, cs: Context, k: nat, ts: Tree)
    requires Holds(m, root, cs, ts) && Successor(cs, k, ts)
    ensures var a := AroundOf(cs, k, ts);
            && a.left != a.right
            && (Up(cs, k).up.In? ==>
               Up(cs, k).up.n in m && Child(m[Up(cs, k).up.n], a.at) == a.gone &&
                 Child(m[Up(cs, k).up.n], !a.at) != a.gone)
  {
    var b := Up(cs, k);
    var w := Doomed(cs, k, ts);
    DoomedHolds(m, root, cs, k, ts);
    MkParts(b.n, b.red, b.side, PlugUp(cs, k, ts), b.sib);
    assert b.sib.n in Nodes(b.sib);
    if k > 0 { PlugUpLink(cs, k, ts); }
    assert PlugUp(cs, k, ts).Bin? && PlugUp(cs, k, ts).n in Nodes(PlugUp(cs, k, ts));
    if b.up.In? { NotSibling(m, root, b.up, b.n); }
  }

  /** After the move the tree is the same but for the successor standing where the removed node stood. */
  lemma {:induction false} SpliceHolds(m: Memory, m': Memory, root: nat, root': nat, cs: Context, k: nat, ts: Tree)
    requires Holds(m, root, cs, ts) && Successor(cs, k, ts) && Spliceable(m, AroundOf(cs, k, ts))
    requires Spliced(Bypassed(m, AroundOf(cs, k, ts)), m', root, root', AroundOf(cs, k, ts))
    ensures Holds(m', root', Rebase(cs, k, Up(cs, k).(n := ts.n)), ts.r)
  {
    var a := AroundOf(cs, k, ts);
    var b := Up(cs, k);
    var m1 := Bypassed(m, a);
    BypassHolds(m, root, cs, k, ts);
    DoomedHolds(m1, root, cs, k, ts.r);
    var w1 := Doomed(cs, k, ts.r);
    MkSwap(b.n, b.red, false, PlugUp(cs, k, ts.r), b.sib);
    assert w1.Bin? && w1.n == b.n && w1.red == b.red && w1.l == b.sib && w1.r == PlugUp(cs, k, ts.r);
    SuccessorOutside(m, root, cs, k, ts);
    RightLink(cs, k, ts);
    AboveLinks(m, root, cs, k, ts);
    Here(m1, root, b.up, w1);
    ChildHere(m1, root, b.up, w1, false);
    TakeOver(m1, m', root, root', a, b.up, w1);
    var b' := b.(n := ts.n);
    MkSwap(ts.n, b.red, false, PlugUp(cs, k, ts.r), b.sib);
    RebaseParts(cs, k, b', ts.r);
    Refocus(m', root', b', PlugUp(cs, k, ts.r));
    PlugUpHolds(m', root', Rebase(cs, k, b'), k, ts.r);
  }

  lemma {:induction false} RightLink(cs: Context, k: nat, ts: Tree)
    requires Successor(cs, k, ts)
    ensures if k == 0 then PlugUp(cs, k, ts.r) == ts.r
            else PlugUp(cs, k, ts.r).Bin? && PlugUp(cs, k, ts.r).n == AroundOf(cs, k, ts).right
  {
    if k > 0 {
      PlugUpLink(cs, k, ts);
      PlugUpLink(cs, k, ts.r);
    }
  }

  lemma {:induction false} BypassHolds(m: Memory, root: nat, cs: Context, k: nat, ts: Tree)
    requires Holds(m, root, cs, ts) && Successor(cs, k, ts) && Spliceable(m, AroundOf(cs, k, ts))
    ensures Holds(Bypassed(m, AroundOf(cs, k, ts)), root, cs, ts.r)
  {
    var a := AroundOf(cs, k, ts);
    SuccessorApart(m, root, cs, k, ts);
    ChildHere(m, root, cs, ts, false);
    Here(m, root, cs, ts);
    assert cs.side == (k > 0);
    hide Holds;
    assert Unlinked(m, Bypassed(m, a), root, root, cs, ts.r);
    UnlinkedHolds(m, Bypassed(m, a), root, root, cs, ts);
  }

  /** The successor is not in what remains without it. */
  lemma {:induction false} SuccessorOutside(m: Memory, root: nat, cs: Context, k: nat, ts: Tree)
    requires Holds(m, root, cs, ts) && Successor(cs, k, ts)
    ensures ts.n !in Nodes(Doomed(cs, k, ts.r)) && ts.n !in Above(Up(cs, k).up) && ts.n != 0
  {
    var b := Up(cs, k);
    PlugUpNodes(cs, k, ts.r);
    MkParts(b.n, b.red, b.side, PlugUp(cs, k, ts.r), b.sib);
    assert Above(b) == {b.n} + Nodes(b.sib) + Above(b.up);
    assert ts.n in Nodes(ts) && ts.n !in Nodes(ts.r) && ts.n !in Above(cs);
  }

  lemma {:induction false} TakeOver(m1: Memory, m': Memory, root: nat, root': nat, a: Around, c: Context, w: Tree)
    requires Holds(m1, root, c, w) && w.Bin? && w.n == a.gone && a.s != 0 && a.s !in Nodes(w) && a.s !in Above(c)
    requires a.gone in m1 && a.left in m1 && a.right in m1 && (a.above != 0 ==> a.above in m1) &&
             (a.ch != 0 ==> a.ch in m1)
    requires Spliced(m1, m', root, root', a) && a.above == Parent(c) && a.at == SideOf(c) && a.left == Link(w.l) &&
             w.l.Bin?
    requires a.q == a.gone ==> Link(w.r) == a.ch
    requires a.q != a.gone ==> Link(w.r) == a.right && w.r.Bin?
    ensures Holds(m', root', c, w.(n := a.s))
  {
    Here(m1, root, c, w);
    ChildHere(m1, root, c, w, false);
    hide Holds, Rep, RepAbove, Separate, SeparateAbove, Nodes, Above;
    assert TakenOver(m1, m', root, root', c, w, a.s);
    TakenOverHolds(m1, m', root, root', c, w, a.s);
  }

  // ------------------------------------------------------------- removal

  /** The elements left when the root of `t` goes. */
  function Remaining(c: Context, t: Tree): seq<nat>
    requires t.Bin?
  {
    Before(c) + InOrder(t.l) + (InOrder(t.r) + After(c))
  }

  lemma {:induction false} OnlyChildElements(c: Context, t: Tree)
    requires t.Bin? && (t.l.Leaf? || t.r.Leaf?)
    ensures Elements(c, OnlyChild(t)) == Remaining(c, t)
  {
  }

  lemma {:induction false} SuccessorElements(cs: Context, k: nat, ts: Tree, t: Tree)
    requires Successor(cs, k, ts) && t.Bin? && t.l == Up(cs, k).sib && t.r == PlugUp(cs, k, ts)
    ensures Elements(Rebase(cs, k, Up(cs, k).(n := ts.n)), ts.r) == Remaining(Up(cs, k).up, t)
  {
    var b := Up(cs, k);
    var b' := b.(n := ts.n);
    var r1 := PlugUp(cs, k, ts.r);
    RebaseParts(cs, k, b', ts.r);
    PlugUpHolds(map[], 0, Rebase(cs, k, b'), k, ts.r);
    SpineInOrder(cs, k, ts);
    SpineInOrder(cs, k, ts.r);
    var x, i, a := SpineOrder(cs, k), InOrder(ts.r), After(b.up);
    assert InOrder(ts) == [ts.n] + i;
    assert InOrder(t.r) == [ts.n] + InOrder(r1) by { Assoc([ts.n], i, x); }
    assert Elements(b', r1) == (Before(b.up) + InOrder(t.l) + [ts.n]) + InOrder(r1) + a;
    Shift(Before(b.up) + InOrder(t.l), [ts.n], InOrder(r1), a);
  }

  lemma {:induction false} Shift(b: seq<nat>, n: seq<nat>, i: seq<nat>, a: seq<nat>)
    ensures (b + n) + i + a == b + ((n + i) + a)
  {
  }

  /** Repair what taking a node of the given color out has left. */
  method Settle(root: RbRoot, red: bool, child: nat, parent: nat, ghost c: Context, ghost t: Tree)
    returns (ghost whole: Tree)
    requires Holds(root.mem, root.node, c, t) && child == Link(t) && parent == Parent(c)
    requires if red then Whole(c, t) && c.In? else Short(c, t)
    modifies root
    ensures Holds(root.mem, root.node, Top, whole) && Good(whole) && !Red(whole)
    ensures InOrder(whole) == Elements(c, t) && root.mem.Keys == old(root.mem.Keys)
  {
    if !red {
      whole := EraseColor(root, child, parent, c, t);
    } else {
      whole := Plug(c, t);
      PlugWhole(root.mem, root.node, c, t);
      PlugGood(c, t);
    }
  }

  /** The successor: the leftmost node below the right child. */
  method FindSuccessor(root: RbRoot, n: nat, ghost c: Context, ghost t: Tree)
    returns (s: nat, ghost cs: Context, ghost k: nat, ghost ts: Tree)
    requires Holds(root.mem, root.node, c, t) && GoodHere(c, t) && t.Bin? && t.l.Bin? && t.r.Bin? && n == t.n
    ensures Holds(root.mem, root.node, cs, ts) && GoodHere(cs, ts) && Successor(cs, k, ts) && s == ts.n
    ensures Up(cs, k) == DownContext(c, t, false) && PlugUp(cs, k, ts) == t.r
  {
    Here(root.mem, root.node, c, t);
    Down(root.mem, root.node, c, t, false);
    s := root.mem[n].right;
    cs, k, ts := DownContext(c, t, false), 0, t.r;
    assert Depth(cs) > 0 && LeftSpine(cs, 0) && Up(cs, 0) == cs && PlugUp(cs, 0, ts) == ts;
    Here(root.mem, root.node, cs, ts);
    LeftHere(root.mem, root.node, cs, ts);
    hide Holds, GoodHere, Up, PlugUp, LeftSpine, Depth;
    while root.mem[s].left != 0
      invariant Holds(root.mem, root.node, cs, ts) && GoodHere(cs, ts) && ts.Bin? && s == ts.n && s in root.mem
      invariant root.mem[s].left == Link(ts.l) && (Link(ts.l) == 0 <==> ts.l.Leaf?)
      invariant k < Depth(cs) && LeftSpine(cs, k) && Up(cs, k) == DownContext(c, t, false) && PlugUp(cs, k, ts) == t.r
      decreases ts
    {
      Down(root.mem, root.node, cs, ts, true);
      s := root.mem[s].left;
      cs, k, ts := DownContext(cs, ts, true), k + 1, ts.l;
      Here(root.mem, root.node, cs, ts);
      LeftHere(root.mem, root.node, cs, ts);
    }
  }

  lemma {:induction false} LeftHere(m: Memory, root: nat, c: Context, t: Tree)
    requires Holds(m, root, c, t) && t.Bin?
    ensures Link(t.l) == 0 <==> t.l.Leaf?
  {
    ChildHere(m, root, c, t, true);
  }

  /** Remove node `n`. */
  method Erase(root: RbRoot, n: nat, ghost c: Context, ghost t: Tree) returns (ghost whole: Tree)
    requires Holds(root.mem, root.node, c, t) && GoodHere(c, t) && t.Bin? && n == t.n
    modifies root
    ensures Holds(root.mem, root.node, Top, whole) && Good(whole) && !Red(whole)
    ensures InOrder(whole) == Remaining(c, t) && root.mem.Keys == old(root.mem.Keys)
  {
    Here(root.mem, root.node, c, t);
    ChildHere(root.mem, root.node, c, t, true);
    ChildHere(root.mem, root.node, c, t, false);
    hide Holds, GoodHere, Whole, Short, Elements, Remaining, Good;
    var child, parent, red;
    if root.mem[n].left == 0 {
      child := root.mem[n].right;
    } else if root.mem[n].right == 0 {
      child := root.mem[n].left;
    } else {
      whole := EraseInner(root, n, c, t);
      return;
    }
    parent := root.mem[n].parent;
    red := root.mem[n].red;
    UnlinkShort(c, t);
    OnlyChildElements(c, t);
    UnlinkNode(root, n, child, c, t);
    whole := Settle(root, red, child, parent, c, OnlyChild(t));
  }

  /** Remove a node with two children. */
  method EraseInner(root: RbRoot, n: nat, ghost c: Context, ghost t: Tree) returns (ghost whole: Tree)
    requires Holds(root.mem, root.node, c, t) && GoodHere(c, t) && t.Bin? && t.l.Bin? && t.r.Bin? && n == t.n
    modifies root
    ensures Holds(root.mem, root.node, Top, whole) && Good(whole) && !Red(whole)
    ensures InOrder(whole) == Remaining(c, t) && root.mem.Keys == old(root.mem.Keys)
  {
    ghost var cs, k, ts;
    var s;
    s, cs, k, ts := FindSuccessor(root, n, c, t);
    ghost var a := AroundOf(cs, k, ts);
    ghost var b := Up(cs, k);
    ghost var cs' := Rebase(cs, k, b.(n := s));
    ghost var m, r := root.mem, root.node;
    Here(m, r, cs, ts);
    SpliceReady(m, r, cs, k, ts);
    SuccessorApart(m, r, cs, k, ts);
    SuccessorElements(cs, k, ts, t);
    UnlinkShort(cs, ts);
    RebaseSettles(cs, k, s, ts);
    hide Holds, GoodHere, Whole, Short, Elements, Remaining, Good, Spliceable, Spliced, Bypassed, Successor;
    var red := root.mem[s].red;
    var child, parent := Splice(root, n, s, a);
    SpliceHolds(m, root.mem, r, root.node, cs, k, ts);
    RebaseParent(cs, k, s);
    SplicedKeys(m, root.mem, r, root.node, a);
    whole := Settle(root, red, child, parent, cs', ts.r);
  }

  lemma {:induction false} SplicedKeys(m: Memory, m': Memory, root: nat, root': nat, a: Around)
    requires Spliceable(m, a) && Spliced(Bypassed(m, a), m', root, root', a)
    ensures m'.Keys == m.Keys
  {
  }

  lemma {:induction false} RebaseParent(cs: Context, k: nat, s: nat)
    requires k < Depth(cs) && Up(cs, k).In?
    ensures Parent(Rebase(cs, k, Up(cs, k).(n := s))) == if k == 0 then s else cs.n
  {
  }

  /** The colors around the successor's old place are what they were. */
  lemma {:induction false} RebaseSettles(cs: Context, k: nat, s: nat, ts: Tree)
    requires k < Depth(cs) && Up(cs, k).In? && ts.Bin? && ts.l.Leaf?
    requires if ts.red then Whole(cs, ts.r) else Short(cs, ts.r)
    ensures var cs' := Rebase(cs, k, Up(cs, k).(n := s)); if ts.red then Whole(cs', ts.r) && cs'.In?
            else Short(cs', ts.r)
  {
    RebaseGood(cs, k, s, BlackHeight(ts.r));
    RebaseGood(cs, k, s, BlackHeight(ts.r) + 1);
    hide GoodAbove, Rebase, Up, Good;
  }

  /** The position of an element in a good tree. */
  lemma {:induction false} Locate(m: Memory, root: nat, c: Context, t: Tree, n: nat) returns (c': Context, t': Tree)
    requires Holds(m, root, c, t) && GoodHere(c, t) && n in InOrder(t)
    ensures Holds(m, root, c', t') && GoodHere(c', t') && t'.Bin? && t'.n == n && Elements(c', t') == Elements(c, t)
    decreases t
  {
    if t.n == n {
      c', t' := c, t;
    } else {
      var side := n in InOrder(t.l);
      Down(m, root, c, t, side);
      c', t' := Locate(m, root, DownContext(c, t, side), DownTree(t, side), n);
    }
  }

  lemma {:induction false} SortedDrop(keys: Keys, b: seq<nat>, n: nat, a: seq<nat>)
    requires Sorted(keys, b + [n] + a)
    ensures Sorted(keys, b + a)
  {
    var s, s' := b + [n] + a, b + a;
    assert forall i :: 0 <= i < |s'| ==> s'[i] == s[if i < |b| then i else i + 1];
  }

  /** Remove an element: all others stay, in order, in a good tree. */
  method Remove(root: RbRoot, keys: Keys, elm: nat, ghost t: Tree) returns (ghost whole: Tree)
    requires Holds(root.mem, root.node, Top, t) && Good(t) && !Red(t) && Sorted(keys, InOrder(t)) && elm in InOrder(t)
    modifies root
    ensures Holds(root.mem, root.node, Top, whole) && Good(whole) && !Red(whole) && Sorted(keys, InOrder(whole))
    ensures exists b, a {:trigger b + a} :: InOrder(t) == b + [elm] + a && InOrder(whole) == b + a
  {
    ghost var c, u, b, a := LocateIn(root.mem, root.node, keys, t, elm);
    hide *;
    whole := Erase(root, elm, c, u);
    assert InOrder(t) == b + [elm] + a && InOrder(whole) == b + a;
  }

  lemma {:induction false} LocateIn(m: Memory, root: nat, keys: Keys, t: Tree, elm: nat)
    returns (c: Context, u: Tree, b: seq<nat>, a: seq<nat>)
    requires Holds(m, root, Top, t) && Good(t) && !Red(t) && Sorted(keys, InOrder(t)) && elm in InOrder(t)
    ensures Holds(m, root, c, u) && GoodHere(c, u) && u.Bin? && u.n == elm
    ensures InOrder(t) == b + [elm] + a && Remaining(c, u) == b + a && Sorted(keys, b + a)
  {
    c, u := Locate(m, root, Top, t, elm);
    b, a := Before(c) + InOrder(u.l), InOrder(u.r) + After(c);
    assert Elements(Top, t) == InOrder(t);
    assert Elements(c, u) == b + [elm] + a by { Reassoc(Before(c), InOrder(u.l), [elm], InOrder(u.r), After(c)); }
    SortedDrop(keys, b, elm, a);
  }

  lemma {:induction false} Reassoc(b: seq<nat>, l: seq<nat>, n: seq<nat>, r: seq<nat>, a: seq<nat>)
    ensures b + (l + n + r) + a == (b + l) + n + (r + a)
  {
  }
}
