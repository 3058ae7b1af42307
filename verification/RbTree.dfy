/**
  Red-black trees with parent links.  Nodes are addresses, 0 is NULL, and the memory maps an
  address to its links and color.  A tree in memory is described by a pure value; a position
  in it by the path above (a context) and the subtree below.  Code that comes in two mirror
  images is written once, for a side.
 */
module RbTree {
  import opened Prelude

  /** The left side; the other is the right. */
  type Side = bool

  /** What a node holds. */
  datatype Cell = Cell(parent: nat, red: bool, left: nat, right: nat)

  function MkCell(parent: nat, red: bool, side: Side, a: nat, b: nat): Cell {
    if side then Cell(parent, red, a, b) else Cell(parent, red, b, a)
  }

  function Child(x: Cell, side: Side): nat {
    if side then x.left else x.right
  }

  function WithChild(x: Cell, side: Side, v: nat): Cell {
    if side then x.(left := v) else x.(right := v)
  }

  type Memory = map<nat, Cell>

  datatype Tree = Leaf | Bin(n: nat, red: bool, l: Tree, r: Tree)

  /** A node with subtree `a` on the given side and `b` on the other. */
  function Mk(n: nat, red: bool, side: Side, a: Tree, b: Tree): Tree {
    if side then Bin(n, red, a, b) else Bin(n, red, b, a)
  }

  function Link(t: Tree): nat {
    if t.Leaf? then 0 else t.n
  }

  /** The way up from a position: its parent, the side it is on, and the parent's other subtree. */
  datatype Context = Top | In(n: nat, red: bool, side: Side, sib: Tree, up: Context)

  function Parent(c: Context): nat {
    if c.Top? then 0 else c.n
  }

  ghost function Nodes(t: Tree): set<nat> {
    match t case Leaf => {} case Bin(n, _, l, r) => {n} + Nodes(l) + Nodes(r)
  }

  ghost function Above(c: Context): set<nat> {
    match c case Top => {} case In(n, _, _, sib, up) => {n} + Nodes(sib) + Above(up)
  }

  ghost predicate Separate(t: Tree) {
    t.Bin? ==>
      && t.n !in Nodes(t.l) && t.n !in Nodes(t.r) && Nodes(t.l) !! Nodes(t.r)
      && Separate(t.l) && Separate(t.r)
  }

  ghost predicate SeparateAbove(c: Context) {
    c.In? ==>
      && c.n !in Nodes(c.sib) && c.n !in Above(c.up) && Nodes(c.sib) !! Above(c.up)
      && Separate(c.sib) && SeparateAbove(c.up)
  }

  /** Memory holds tree `t`, whose parent is `p`. */
  ghost predicate Rep(m: Memory, t: Tree, p: nat) {
    match t
    case Leaf => true
    case Bin(x, red, l, r) =>
      x != 0 && x in m && m[x] == Cell(p, red, Link(l), Link(r)) && Rep(m, l, x) && Rep(m, r, x)
  }

  /** Memory holds the context `c` above link `hole`. */
  ghost predicate RepAbove(m: Memory, root: nat, c: Context, hole: nat) {
    match c
    case Top => root == hole
    case In(x, red, side, sib, up) =>
      && x != 0 && x in m && m[x] == MkCell(Parent(up), red, side, hole, Link(sib))
      && Rep(m, sib, x) && RepAbove(m, root, up, x)
  }

  /** The whole tree, seen from the position of `t`. */
  ghost predicate Holds(m: Memory, root: nat, c: Context, t: Tree) {
    Rep(m, t, Parent(c)) && RepAbove(m, root, c, Link(t)) && Apart(c, t)
  }

  ghost predicate Apart(c: Context, t: Tree) {
    Separate(t) && SeparateAbove(c) && Nodes(t) !! Above(c)
  }

  // ------------------------------------------------------------- frames

  ghost predicate Agree(m: Memory, m': Memory, on: set<nat>) {
    forall x :: x in on && x in m ==> x in m' && m'[x] == m[x]
  }

  lemma {:induction false} RepKept(m: Memory, m': Memory, t: Tree, p: nat)
    requires Rep(m, t, p) && Agree(m, m', Nodes(t))
    ensures Rep(m', t, p)
  {
    if t.Bin? {
      RepKept(m, m', t.l, t.n);
      RepKept(m, m', t.r, t.n);
    }
  }

  lemma {:induction false} RepAboveKept(m: Memory, m': Memory, root: nat, c: Context, hole: nat)
    requires RepAbove(m, root, c, hole) && Agree(m, m', Above(c))
    ensures RepAbove(m', root, c, hole)
  {
    if c.In? {
      RepKept(m, m', c.sib, c.n);
      RepAboveKept(m, m', root, c.up, c.n);
    }
  }

  /** A subtree moved below another parent. */
  lemma {:induction false} RepMoved(m: Memory, m': Memory, t: Tree, p: nat, p': nat)
    requires Rep(m, t, p) && Separate(t) && Agree(m, m', Nodes(t) - {Link(t)})
    requires t.Bin? ==> t.n in m' && m'[t.n] == m[t.n].(parent := p')
    ensures Rep(m', t, p')
  {
    if t.Bin? {
      RepKept(m, m', t.l, t.n);
      RepKept(m, m', t.r, t.n);
    }
  }

  /** The context with another node in its hole. */
  lemma {:induction false} RepAboveRelinked(m: Memory, m': Memory, root: nat, root': nat, c: Context, hole: nat,
                                            hole': nat)
    requires RepAbove(m, root, c, hole) && SeparateAbove(c) && Agree(m, m', Above(c) - {Parent(c)})
    requires if c.Top? then root' == hole'
             else root' == root && c.n in m' && m'[c.n] == WithChild(m[c.n], c.side, hole')
    ensures RepAbove(m', root', c, hole')
  {
    if c.In? {
      RepKept(m, m', c.sib, c.n);
      RepAboveKept(m, m', root, c.up, c.n);
    }
  }

  /** The other child of the parent is not the node itself. */
  lemma {:induction false} NotSibling(m: Memory, root: nat, c: Context, n: nat)
    requires RepAbove(m, root, c, n) && c.In? && n != 0 && n !in Above(c)
    ensures Child(m[c.n], !c.side) != n && Child(m[c.n], c.side) == n
  {
  }

  // -------------------------------------------------------------- order

  function InOrder(t: Tree): seq<nat> {
    match t case Leaf => [] case Bin(n, _, l, r) => InOrder(l) + [n] + InOrder(r)
  }

  function Before(c: Context): seq<nat> {
    match c
    case Top => []
    case In(n, _, side, sib, up) => if side then Before(up) else Before(up) + InOrder(sib) + [n]
  }

  function After(c: Context): seq<nat> {
    match c
    case Top => []
    case In(n, _, side, sib, up) => if side then [n] + InOrder(sib) + After(up) else After(up)
  }

  /** The elements of the whole tree from left to right. */
  function Elements(c: Context, t: Tree): seq<nat> {
    Before(c) + InOrder(t) + After(c)
  }

  lemma {:induction false} Assoc(a: seq<nat>, b: seq<nat>, c: seq<nat>)
    ensures (a + b) + c == a + (b + c)
  {
  }

  lemma {:induction false} ElementsUp(c: Context, t: Tree, red: bool)
    requires c.In?
    ensures Elements(c, t) == Elements(c.up, Mk(c.n, red, c.side, t, c.sib))
  {
  }

  lemma {:induction false} InOrderRotate(n: nat, r: nat, cn: bool, cr: bool, cn': bool, cr': bool,
                                         side: Side, a: Tree, b: Tree, d: Tree)
    ensures InOrder(Mk(n, cn, side, a, Mk(r, cr, side, b, d))) == InOrder(Mk(r, cr', side, Mk(n, cn', side, a, b), d))
  {
  }

  // ----------------------------------------------------------- rotation

  /** Only the nodes given were written. */
  ghost predicate Elsewhere(m: Memory, m': Memory, touched: set<nat>) {
    forall x :: x in m && x !in touched ==> x in m' && m'[x] == m[x]
  }

  lemma {:induction false} AgreeOff(m: Memory, m': Memory, touched: set<nat>, on: set<nat>)
    requires Elsewhere(m, m', touched) && on !! touched
    ensures Agree(m, m', on)
  {
  }

  function Touched(c: Context, n: nat, r: nat, b: Tree): set<nat> {
    {n, r} + (if b.Bin? then {b.n} else {}) + (if c.In? then {c.n} else {})
  }

  /** What a rotation leaves in memory. */
  ghost predicate Rotated(m: Memory, m': Memory, root: nat, root': nat, c: Context, n: nat, r: nat, cn: bool, cr: bool,
                          side: Side, a: Tree, b: Tree, d: Tree)
    requires c.In? ==> c.n in m
    requires b.Bin? ==> b.n in m
  {
    && n in m' && m'[n] == MkCell(r, cn, side, Link(a), Link(b))
    && r in m' && m'[r] == MkCell(Parent(c), cr, side, n, Link(d))
    && (b.Bin? ==> b.n in m' && m'[b.n] == m[b.n].(parent := n))
    && (if c.Top? then root' == r else root' == root && c.n in m' && m'[c.n] == WithChild(m[c.n], c.side, r))
    && Elsewhere(m, m', Touched(c, n, r, b))
  }

  /** Taking a node apart, whichever side is meant. */
  lemma {:induction false} MkParts(n: nat, red: bool, side: Side, a: Tree, b: Tree)
    ensures Link(Mk(n, red, side, a, b)) == n && Nodes(Mk(n, red, side, a, b)) == {n} + Nodes(a) + Nodes(b)
    ensures Separate(Mk(n, red, side, a, b)) <==>
              n !in Nodes(a) && n !in Nodes(b) && Nodes(a) !! Nodes(b) && Separate(a) && Separate(b)
    ensures forall m, p :: Rep(m, Mk(n, red, side, a, b), p) <==>
              && n != 0 && n in m && m[n] == MkCell(p, red, side, Link(a), Link(b))
              && Rep(m, a, n) && Rep(m, b, n)
  {
  }

  lemma {:induction false} LinkIn(m: Memory, t: Tree, p: nat)
    requires Rep(m, t, p)
    ensures Link(t) == 0 <==> t.Leaf?
    ensures t.Bin? ==> t.n in m && t.n in Nodes(t) && m[t.n].parent == p
  {
  }

  lemma {:induction false} ParentIn(m: Memory, root: nat, c: Context, hole: nat)
    requires RepAbove(m, root, c, hole)
    ensures Parent(c) == 0 <==> c.Top?
    ensures c.In? ==> c.n in m && c.n in Above(c)
  {
  }

  lemma {:induction false} RotateHolds(m: Memory, m': Memory, root: nat, root': nat, c: Context, n: nat, r: nat,
                                       cn: bool, cr: bool,
                                       side: Side, a: Tree, b: Tree, d: Tree)
    requires Holds(m, root, c, Mk(n, cn, side, a, Mk(r, cr, side, b, d)))
    requires (c.In? ==> c.n in m) && (b.Bin? ==> b.n in m)
    requires Rotated(m, m', root, root', c, n, r, cn, cr, side, a, b, d)
    ensures Holds(m', root', c, Mk(r, cr, side, Mk(n, cn, side, a, b), d))
  {
    var inner := Mk(r, cr, side, b, d);
    MkParts(n, cn, side, a, inner);
    MkParts(r, cr, side, b, d);
    ParentIn(m, root, c, n);
    LinkIn(m, b, r);
    RotateApart(c, n, r, cn, cr, side, a, b, d);
    var touched := Touched(c, n, r, b);
    assert Nodes(a) !! touched && Nodes(d) !! touched && (Nodes(b) - {Link(b)}) !! touched &&
           (Above(c) - {Parent(c)}) !! touched
      by { hide *; RotateTouched(m, root, c, n, r, cn, cr, side, a, b, d); }
    hide Mk, Rep, RepAbove, Separate, Nodes, Above, SeparateAbove, Touched;
    AgreeOff(m, m', touched, Nodes(a));
    AgreeOff(m, m', touched, Nodes(d));
    AgreeOff(m, m', touched, Nodes(b) - {Link(b)});
    AgreeOff(m, m', touched, Above(c) - {Parent(c)});
    hide Agree, Elsewhere;
    RotateTree(m, m', c, n, r, cn, cr, side, a, b, d);
    RepAboveRelinked(m, m', root, root', c, n, r);
    MkParts(r, cr, side, Mk(n, cn, side, a, b), d);
  }

  lemma {:induction false} RotateTouched(m: Memory, root: nat, c: Context, n: nat, r: nat, cn: bool, cr: bool,
                                         side: Side, a: Tree, b: Tree, d: Tree)
    requires Holds(m, root, c, Mk(n, cn, side, a, Mk(r, cr, side, b, d)))
    ensures var touched := Touched(c, n, r, b);
            Nodes(a) !! touched && Nodes(d) !! touched && (Nodes(b) - {Link(b)}) !! touched &&
              (Above(c) - {Parent(c)}) !! touched
  {
    assert Link(Mk(n, cn, side, a, Mk(r, cr, side, b, d))) == n;
    ParentIn(m, root, c, n);
    RotateApart(c, n, r, cn, cr, side, a, b, d);
    assert b.Bin? ==> b.n in Nodes(b);
    hide Mk, Rep, RepAbove, Separate, Nodes, Above, SeparateAbove;
  }

  lemma {:induction false} RotateTree(m: Memory, m': Memory, c: Context, n: nat, r: nat, cn: bool, cr: bool,
                                      side: Side, a: Tree, b: Tree, d: Tree)
    requires Rep(m, a, n) && Rep(m, b, r) && Rep(m, d, r) && Separate(b) && n != 0 && r != 0
    requires n in m' && m'[n] == MkCell(r, cn, side, Link(a), Link(b))
    requires r in m' && m'[r] == MkCell(Parent(c), cr, side, n, Link(d))
    requires b.Bin? ==> b.n in m && b.n in m' && m'[b.n] == m[b.n].(parent := n)
    requires Agree(m, m', Nodes(a)) && Agree(m, m', Nodes(d)) && Agree(m, m', Nodes(b) - {Link(b)})
    ensures Rep(m', Mk(r, cr, side, Mk(n, cn, side, a, b), d), Parent(c))
  {
    RepKept(m, m', a, n);
    RepKept(m, m', d, r);
    RepMoved(m, m', b, r, n);
    MkParts(n, cn, side, a, b);
    MkParts(r, cr, side, Mk(n, cn, side, a, b), d);
  }

  lemma {:induction false} RotateApart(c: Context, n: nat, r: nat, cn: bool, cr: bool, side: Side, a: Tree, b: Tree,
                                       d: Tree)
    requires Apart(c, Mk(n, cn, side, a, Mk(r, cr, side, b, d)))
    ensures Apart(c, Mk(r, cr, side, Mk(n, cn, side, a, b), d))
    ensures n != r && n !in Nodes(a) && n !in Nodes(b) && n !in Nodes(d) && n !in Above(c)
    ensures r !in Nodes(a) && r !in Nodes(b) && r !in Nodes(d) && r !in Above(c)
    ensures Nodes(a) !! Nodes(b) && Nodes(a) !! Nodes(d) && Nodes(b) !! Nodes(d)
    ensures Nodes(a) !! Above(c) && Nodes(b) !! Above(c) && Nodes(d) !! Above(c)
    ensures Separate(a) && Separate(b) && Separate(d)
  {
    MkParts(n, cn, side, a, Mk(r, cr, side, b, d));
    MkParts(r, cr, side, b, d);
    MkParts(n, cn, side, a, b);
    MkParts(r, cr, side, Mk(n, cn, side, a, b), d);
    hide Mk, Rep, Separate, Nodes, Above, SeparateAbove;
  }

  lemma {:induction false} RotateDistinct(m: Memory, root: nat, c: Context, n: nat, r: nat, cn: bool, cr: bool,
                                          side: Side, a: Tree, b: Tree, d: Tree)
    requires Holds(m, root, c, Mk(n, cn, side, a, Mk(r, cr, side, b, d)))
    ensures n != r && (b.Bin? ==> b.n != n && b.n != r) && n !in Above(c)
    ensures c.In? ==> c.n != n && c.n != r && (b.Bin? ==> c.n != b.n)
  {
    assert Link(Mk(n, cn, side, a, Mk(r, cr, side, b, d))) == n;
    ParentIn(m, root, c, n);
    RotateApart(c, n, r, cn, cr, side, a, b, d);
    assert b.Bin? ==> b.n in Nodes(b);
    hide Mk, Rep, RepAbove, Separate, Nodes, Above, SeparateAbove;
  }

  class RbRoot {
    var node: nat
    var mem: Memory

    method SetChild(n: nat, side: Side, v: nat)
      requires n in mem
      modifies this`mem
      ensures mem == old(mem)[n := WithChild(old(mem)[n], side, v)]
    {
      mem := mem[n := WithChild(mem[n], side, v)];
    }

    method SetParent(n: nat, p: nat)
      requires n in mem
      modifies this`mem
      ensures mem == old(mem)[n := old(mem)[n].(parent := p)]
    {
      mem := mem[n := mem[n].(parent := p)];
    }

    method SetRed(n: nat, red: bool)
      requires n in mem
      modifies this`mem
      ensures mem == old(mem)[n := old(mem)[n].(red := red)]
    {
      mem := mem[n := mem[n].(red := red)];
    }

    /** Color the node at the position. */
    method Paint(x: nat, red: bool, ghost c: Context, ghost t: Tree)
      requires Holds(mem, node, c, t) && t.Bin? && t.n == x
      modifies this`mem
      ensures Holds(mem, node, c, t.(red := red)) && mem.Keys == old(mem.Keys)
    {
      PaintHolds(mem, node, c, t, red);
      SetRed(x, red);
    }

    /** Rotate `n` down to the given side; its child on the other side takes its place. */
    method RotateLinks(n: nat, side: Side, ghost at: Side)
      requires Rotatable(mem, n, side, at)
      modifies this
      ensures Relinked(old(mem), mem, old(node), node, n, side, at)
    {
      var r := Child(mem[n], !side);
      var p := mem[n].parent;
      SetChild(n, !side, Child(mem[r], side));
      if Child(mem[r], side) != 0 { SetParent(Child(mem[r], side), n); }
      SetChild(r, side, n);
      SetParent(r, p);
      if p != 0 {
        if n == Child(mem[p], side) { SetChild(p, side, r); } else { SetChild(p, !side, r); }
      } else {
        node := r;
      }
      SetParent(n, r);
    }

    method Rotate(n: nat, side: Side, ghost c: Context, ghost cn: bool, ghost cr: bool,
                  ghost a: Tree, ghost b: Tree, ghost d: Tree, ghost r: nat)
      requires Holds(mem, node, c, Mk(n, cn, side, a, Mk(r, cr, side, b, d)))
      modifies this
      ensures Holds(mem, node, c, Mk(r, cr, side, Mk(n, cn, side, a, b), d))
      ensures mem.Keys == old(mem.Keys)
    {
      hide *;
      ghost var m, root := mem, node;
      RotateBefore(m, root, c, n, r, cn, cr, side, a, b, d);
      RotateLinks(n, side, SideOf(c));
      RotateAfter(m, mem, root, node, c, n, r, cn, cr, side, a, b, d);
    }
  }

  function SideOf(c: Context): Side {
    c.In? && c.side
  }

  ghost predicate Rotatable(m: Memory, n: nat, side: Side, at: Side) {
    && n in m && Child(m[n], !side) in m && Child(m[n], !side) !in {0, n}
    && var r, p := Child(m[n], !side), m[n].parent;
       var below := Child(m[r], side);
       && (below != 0 ==> below in m && below != n && below != r)
       && (p != 0 ==> p in m && p != n && p != r && p != below && Child(m[p], at) == n && Child(m[p], !at) != n)
  }

  ghost predicate Relinked(m: Memory, m': Memory, root: nat, root': nat, n: nat, side: Side, at: Side)
    requires Rotatable(m, n, side, at)
  {
    var r, p := Child(m[n], !side), m[n].parent;
    var below := Child(m[r], side);
    && m'.Keys == m.Keys
    && m'[n] == MkCell(r, m[n].red, side, Child(m[n], side), below)
    && m'[r] == MkCell(p, m[r].red, side, n, Child(m[r], !side))
    && (below != 0 ==> m'[below] == m[below].(parent := n))
    && (if p == 0 then root' == r else root' == root && m'[p] == WithChild(m[p], at, r))
    && forall x :: x in m && x != n && x != r && (below != 0 ==> x != below) && (p != 0 ==> x != p) ==> m'[x] == m[x]
  }

  lemma {:induction false} RotateBefore(m: Memory, root: nat, c: Context, n: nat, r: nat, cn: bool, cr: bool,
                                        side: Side, a: Tree, b: Tree, d: Tree)
    requires Holds(m, root, c, Mk(n, cn, side, a, Mk(r, cr, side, b, d)))
    ensures Rotatable(m, n, side, SideOf(c))
    ensures m[n] == MkCell(Parent(c), cn, side, Link(a), r) && m[r] == MkCell(n, cr, side, Link(b), Link(d))
    ensures (Parent(c) == 0 <==> c.Top?) && (Link(b) == 0 <==> b.Leaf?)
    ensures (c.In? ==> c.n in m) && (b.Bin? ==> b.n in m)
  {
    RotateDistinct(m, root, c, n, r, cn, cr, side, a, b, d);
    if c.In? { NotSibling(m, root, c, n); }
    MkParts(n, cn, side, a, Mk(r, cr, side, b, d));
    MkParts(r, cr, side, b, d);
    ParentIn(m, root, c, n);
    LinkIn(m, b, r);
    hide Rep, RepAbove, Apart, Separate, SeparateAbove, Nodes, Above, Mk;
  }

  lemma {:induction false} RotateAfter(m: Memory, m': Memory, root: nat, root': nat, c: Context, n: nat, r: nat,
                                       cn: bool, cr: bool,
                                       side: Side, a: Tree, b: Tree, d: Tree)
    requires Holds(m, root, c, Mk(n, cn, side, a, Mk(r, cr, side, b, d)))
    requires Rotatable(m, n, side, SideOf(c)) && Relinked(m, m', root, root', n, side, SideOf(c))
    ensures Holds(m', root', c, Mk(r, cr, side, Mk(n, cn, side, a, b), d)) && m'.Keys == m.Keys
  {
    RotateBefore(m, root, c, n, r, cn, cr, side, a, b, d);
    hide Rep, RepAbove, Apart, Separate, SeparateAbove, Nodes, Above, Mk, Holds;
    assert Rotated(m, m', root, root', c, n, r, cn, cr, side, a, b, d);
    RotateHolds(m, m', root, root', c, n, r, cn, cr, side, a, b, d);
  }

  // ---------------------------------------------------------- positions

  lemma {:induction false} PaintHolds(m: Memory, root: nat, c: Context, t: Tree, red: bool)
    requires Holds(m, root, c, t) && t.Bin?
    ensures t.n in m && Holds(m[t.n := m[t.n].(red := red)], root, c, t.(red := red))
  {
    var m' := m[t.n := m[t.n].(red := red)];
    assert t.n in Nodes(t);
    RepKept(m, m', t.l, t.n);
    RepKept(m, m', t.r, t.n);
    RepAboveKept(m, m', root, c, t.n);
  }

  /** One position up or down, with either side named first. */
  lemma {:induction false} Refocus(m: Memory, root: nat, c: Context, t: Tree)
    requires c.In?
    ensures Holds(m, root, c, t) <==> Holds(m, root, c.up, Mk(c.n, c.red, c.side, t, c.sib))
  {
    MkParts(c.n, c.red, c.side, t, c.sib);
    assert RepAbove(m, root, c, Link(t)) <==>
      && c.n != 0 && c.n in m && m[c.n] == MkCell(Parent(c.up), c.red, c.side, Link(t), Link(c.sib))
      && Rep(m, c.sib, c.n) && RepAbove(m, root, c.up, c.n);
    assert Above(c) == {c.n} + Nodes(c.sib) + Above(c.up);
    hide Mk, Nodes, Above, Separate, Rep, RepAbove;
  }

  lemma {:induction false} MkSwap(n: nat, red: bool, side: Side, a: Tree, b: Tree)
    ensures Mk(n, red, side, a, b) == Mk(n, red, !side, b, a)
    ensures Mk(n, red, side, a, b).Bin? && Mk(n, red, side, a, b).n == n && Mk(n, red, side, a, b).red == red
    ensures forall red' :: Mk(n, red, side, a, b).(red := red') == Mk(n, red', side, a, b)
  {
  }

  // ------------------------------------------------------------- balance

  predicate Red(t: Tree) {
    t.Bin? && t.red
  }

  /** Black nodes on the way to the leftmost leaf; in a good tree, on every way. */
  function BlackHeight(t: Tree): nat {
    if t.Leaf? then 0 else BlackHeight(t.l) + if t.red then 0 else 1
  }

  /** No red node has a red child, and all ways down pass as many black nodes. */
  predicate Good(t: Tree) {
    t.Bin? ==>
      && Good(t.l) && Good(t.r) && BlackHeight(t.l) == BlackHeight(t.r)
      && (t.red ==> !Red(t.l) && !Red(t.r))
  }

  /** The context is good around a subtree of black height `h`, but for the color of the subtree's root. */
  predicate GoodAbove(c: Context, h: nat) {
    c.In? ==>
      && Good(c.sib) && BlackHeight(c.sib) == h
      && (c.red ==> !Red(c.sib) && c.up.In? && !c.up.red)
      && GoodAbove(c.up, h + if c.red then 0 else 1)
  }

  lemma {:induction false} MkGood(n: nat, red: bool, side: Side, a: Tree, b: Tree)
    ensures Good(Mk(n, red, side, a, b)) <==>
              Good(a) && Good(b) && BlackHeight(a) == BlackHeight(b) && (red ==> !Red(a) && !Red(b))
    ensures BlackHeight(a) == BlackHeight(b) ==>
              BlackHeight(Mk(n, red, side, a, b)) == BlackHeight(a) + if red then 0 else 1
    ensures Red(Mk(n, red, side, a, b)) <==> red
  {
  }

  lemma {:induction false} PaintGood(t: Tree)
    requires Good(t) && Red(t)
    ensures Good(t.(red := false)) && BlackHeight(t.(red := false)) == BlackHeight(t) + 1
    ensures InOrder(t.(red := false)) == InOrder(t)
  {
  }

  function Plug(c: Context, t: Tree): Tree {
    if c.Top? then t else Plug(c.up, Mk(c.n, c.red, c.side, t, c.sib))
  }

  lemma {:induction false} PlugWhole(m: Memory, root: nat, c: Context, t: Tree)
    requires Holds(m, root, c, t)
    ensures Holds(m, root, Top, Plug(c, t)) && InOrder(Plug(c, t)) == Elements(c, t)
    decreases c
  {
    if c.In? {
      Refocus(m, root, c, t);
      ElementsUp(c, t, c.red);
      PlugWhole(m, root, c.up, Mk(c.n, c.red, c.side, t, c.sib));
    }
  }

  lemma {:induction false} PlugGood(c: Context, t: Tree)
    requires Good(t) && GoodAbove(c, BlackHeight(t)) && (c.In? && c.red ==> !Red(t))
    ensures Good(Plug(c, t)) && (Red(Plug(c, t)) <==> c.Top? && Red(t)) && (Plug(c, t).Leaf? <==> c.Top? && t.Leaf?)
    decreases c
  {
    if c.In? { PlugGood(c.up, Mk(c.n, c.red, c.side, t, c.sib)); }
  }

  function Size(t: Tree): nat {
    if t.Leaf? then 0 else Size(t.l) + 1 + Size(t.r)
  }

  function Height(t: Tree): nat {
    if t.Leaf? then 0 else 1 + if Height(t.l) > Height(t.r) then Height(t.l) else Height(t.r)
  }

  lemma {:induction false} SizeBound(t: Tree)
    requires Good(t)
    ensures Pow2(BlackHeight(t)) <= Size(t) + 1
  {
    if t.Bin? {
      SizeBound(t.l);
      SizeBound(t.r);
    }
  }

  lemma {:induction false} HeightBound(t: Tree)
    requires Good(t)
    ensures Height(t) <= 2 * BlackHeight(t) + if Red(t) then 1 else 0
  {
    if t.Bin? {
      HeightBound(t.l);
      HeightBound(t.r);
    }
  }

  lemma {:induction false} SizeIsLength(t: Tree)
    ensures |InOrder(t)| == Size(t)
  {
    if t.Bin? {
      SizeIsLength(t.l);
      SizeIsLength(t.r);
    }
  }

  /** A good tree with a black root of `n` elements is at most 2 log2(n + 1) high. */
  lemma {:induction false} LogarithmicHeight(t: Tree)
    requires Good(t) && !Red(t)
    ensures exists h :: Height(t) <= 2 * h && Pow2(h) <= |InOrder(t)| + 1
  {
    SizeBound(t);
    HeightBound(t);
    SizeIsLength(t);
  }

  /** The nodes on a way down: a node with some way down below it. */
  ghost predicate WayDown(t: Tree, nodes: seq<nat>)
    decreases nodes
  {
    nodes == [] || (t.Bin? && nodes[0] == t.n && (WayDown(t.l, nodes[1..]) || WayDown(t.r, nodes[1..])))
  }

  /** Every way down a good tree with a black root is that short. */
  lemma {:induction false} ShortWays(t: Tree, nodes: seq<nat>)
    requires Good(t) && !Red(t) && WayDown(t, nodes)
    ensures exists h :: |nodes| <= 2 * h && Pow2(h) <= |InOrder(t)| + 1
  {
    LogarithmicHeight(t);
    WayWithin(t, nodes);
  }

  lemma {:induction false} WayWithin(t: Tree, nodes: seq<nat>)
    requires WayDown(t, nodes)
    ensures |nodes| <= Height(t)
    decreases nodes
  {
    if nodes != [] {
      if WayDown(t.l, nodes[1..]) { WayWithin(t.l, nodes[1..]); } else { WayWithin(t.r, nodes[1..]); }
    }
  }

  lemma {:induction false} PaintBlack(t: Tree)
    requires Good(t) && t.Bin?
    ensures Good(t.(red := false)) && InOrder(t.(red := false)) == InOrder(t)
  {
  }

  /** What the links around a position read as. */
  lemma {:induction false} Here(m: Memory, root: nat, c: Context, t: Tree)
    requires Holds(m, root, c, t)
    ensures (Link(t) == 0 <==> t.Leaf?) && (Parent(c) == 0 <==> c.Top?)
    ensures t.Bin? ==> t.n in m && m[t.n] == Cell(Parent(c), t.red, Link(t.l), Link(t.r))
    ensures c.In? ==>
              && c.n in m && m[c.n] == MkCell(Parent(c.up), c.red, c.side, Link(t), Link(c.sib))
              && (t.Bin? ==> Link(t) != Link(c.sib))
              && (Link(c.sib) == 0 <==> c.sib.Leaf?)
              && (c.sib.Bin? ==> c.sib.n in m && m[c.sib.n] == Cell(c.n, c.sib.red, Link(c.sib.l), Link(c.sib.r)))
  {
    if c.In? && c.sib.Bin? { assert c.sib.n in Nodes(c.sib); }
    if t.Bin? { assert t.n in Nodes(t); }
  }
}
