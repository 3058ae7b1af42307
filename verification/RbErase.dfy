/**
  The repair after a black node has left a red-black tree: the subtree in its place is one black
  node short, and rotations and colors make up for it or move the deficit up.
 */
module RbErase {
  import opened RbTree
  import opened RbInsert

  // ----------------------------------------------------- the repair, as shapes

  /** Good below the root; the root may be red above red. */
  predicate Almost(t: Tree) {
    t.Bin? ==> Good(t.l) && Good(t.r) && BlackHeight(t.l) == BlackHeight(t.r)
  }

  /** The subtree here is one black node short of what its surroundings need. */
  ghost predicate Short(c: Context, t: Tree) {
    Almost(t) && GoodAbove(c, BlackHeight(t) + 1)
  }

  /** Nothing is amiss, but perhaps a red root. */
  ghost predicate Whole(c: Context, t: Tree) {
    Good(t) && GoodAbove(c, BlackHeight(t)) && (c.In? && c.red ==> !Red(t))
  }

  function Near(s: Tree, side: Side): Tree
    requires s.Bin?
  {
    if side then s.l else s.r
  }

  function Far(s: Tree, side: Side): Tree
    requires s.Bin?
  {
    if side then s.r else s.l
  }

  lemma {:induction false} NearFar(s: Tree, side: Side)
    requires s.Bin?
    ensures s == Mk(s.n, s.red, side, Near(s, side), Far(s, side))
    ensures Good(s) ==> Good(Near(s, side)) && Good(Far(s, side))
                        && BlackHeight(Near(s, side)) == BlackHeight(Far(s, side))
                        && BlackHeight(s) == BlackHeight(Near(s, side)) + (if s.red then 0 else 1)
                        && (s.red ==> !Red(Near(s, side)) && !Red(Far(s, side)))
  {
  }

  /** A red sibling rotated over the parent: the new sibling is black. */
  function AfterRedSibling(c: Context): Context
    requires c.In? && c.sib.Bin?
  {
    In(c.n, true, c.side, Near(c.sib, c.side), In(c.sib.n, false, c.side, Far(c.sib, c.side), c.up))
  }

  lemma {:induction false} RedSiblingShort(c: Context, t: Tree)
    requires c.In? && Short(c, t) && !Red(t) && Red(c.sib)
    ensures Short(AfterRedSibling(c), t) && !Red(AfterRedSibling(c).sib) && !c.red
  {
  }

  lemma {:induction false} RedSiblingElements(c: Context, t: Tree)
    requires c.In? && c.sib.Bin?
    ensures Elements(AfterRedSibling(c), t) == Elements(c, t)
  {
    var c1 := AfterRedSibling(c);
    var x, y, p, s := Near(c.sib, c.side), Far(c.sib, c.side), c.n, c.sib.n;
    NearFar(c.sib, c.side);
    ElementsUp(c, t, true);
    InOrderRotate(p, s, true, c.sib.red, true, false, c.side, t, x, y);
    ElementsUp(c1, t, true);
    ElementsUp(c1.up, Mk(p, true, c.side, t, x), false);
    hide Mk, InOrder, Before, After;
  }

  /** Both nephews black: the sibling turns red, and the parent's subtree is short. */
  function AfterBlackNephews(c: Context, t: Tree): Tree
    requires c.In? && c.sib.Bin?
  {
    Mk(c.n, c.red, c.side, t, c.sib.(red := true))
  }

  lemma {:induction false} BlackNephewsShort(c: Context, t: Tree)
    requires c.In? && c.sib.Bin? && Short(c, t) && !Red(t) && !Red(c.sib) && !Red(c.sib.l) && !Red(c.sib.r)
    ensures Short(c.up, AfterBlackNephews(c, t)) && Elements(c.up, AfterBlackNephews(c, t)) == Elements(c, t)
  {
    var s := c.sib.(red := true);
    assert Good(s) && BlackHeight(s) == BlackHeight(c.sib) - 1;
    assert InOrder(s) == InOrder(c.sib);
    ElementsUp(c, t, c.red);
    assert Good(t);
    hide Good, InOrder, Elements;
  }

  /** The red near nephew rotated over the sibling: the new sibling's far child is red. */
  function AfterNearNephew(c: Context): Context
    requires c.In? && c.sib.Bin? && Near(c.sib, c.side).Bin?
  {
    var x := Near(c.sib, c.side);
    c.(sib := Mk(x.n, false, c.side, Near(x, c.side), Mk(c.sib.n, true, c.side, Far(x, c.side), Far(c.sib, c.side))))
  }

  lemma {:induction false} NearNephewShort(c: Context, t: Tree)
    requires c.In? && c.sib.Bin? && Short(c, t) && !Red(c.sib) && Red(Near(c.sib, c.side)) && !Red(Far(c.sib, c.side))
    ensures Short(AfterNearNephew(c), t) && AfterNearNephew(c).sib.Bin? && !Red(AfterNearNephew(c).sib)
    ensures Red(Far(AfterNearNephew(c).sib, c.side))
  {
    var x, y := Near(c.sib, c.side), Far(c.sib, c.side);
    NearFar(c.sib, c.side);
    NearFar(x, c.side);
    MkGood(c.sib.n, true, c.side, Far(x, c.side), y);
    MkGood(x.n, false, c.side, Near(x, c.side), Mk(c.sib.n, true, c.side, Far(x, c.side), y));
    hide Good, BlackHeight;
  }

  lemma {:induction false} NearNephewElements(c: Context, t: Tree)
    requires c.In? && c.sib.Bin? && Near(c.sib, c.side).Bin?
    ensures Elements(AfterNearNephew(c), t) == Elements(c, t)
  {
    var side := c.side;
    var s := c.sib;
    var x, y := Near(s, side), Far(s, side);
    var d, b := Near(x, side), Far(x, side);
    NearFar(s, side);
    NearFar(x, side);
    MkSwap(s.n, s.red, side, x, y);
    MkSwap(x.n, x.red, side, d, b);
    InOrderRotate(s.n, x.n, s.red, x.red, true, false, !side, y, b, d);
    MkSwap(s.n, true, side, b, y);
    MkSwap(x.n, false, side, d, Mk(s.n, true, side, b, y));
    ElementsUp(c, t, c.red);
    ElementsUp(AfterNearNephew(c), t, c.red);
    hide Mk, InOrder, Before, After;
  }

  /** The red far nephew rotated up with the sibling: the missing black node is made up for. */
  function AfterFarNephew(c: Context, t: Tree): Tree
    requires c.In? && c.sib.Bin? && Far(c.sib, c.side).Bin?
  {
    var s := c.sib;
    Mk(s.n, c.red, c.side, Mk(c.n, false, c.side, t, Near(s, c.side)), Far(s, c.side).(red := false))
  }

  lemma {:induction false} FarNephewWhole(c: Context, t: Tree)
    requires c.In? && c.sib.Bin? && Short(c, t) && !Red(t) && !Red(c.sib) && Red(Far(c.sib, c.side))
    ensures Whole(c.up, AfterFarNephew(c, t))
  {
    var x, y := Near(c.sib, c.side), Far(c.sib, c.side);
    NearFar(c.sib, c.side);
    PaintGood(y);
    MkGood(c.n, false, c.side, t, x);
    MkGood(c.sib.n, c.red, c.side, Mk(c.n, false, c.side, t, x), y.(red := false));
    assert Good(t);
    assert Red(y.(red := false)) == false && Red(Mk(c.n, false, c.side, t, x)) == false;
    hide Good, BlackHeight, Mk;
  }

  lemma {:induction false} FarNephewElements(c: Context, t: Tree)
    requires c.In? && c.sib.Bin? && Far(c.sib, c.side).Bin?
    ensures Elements(c.up, AfterFarNephew(c, t)) == Elements(c, t)
  {
    var side := c.side;
    var s := c.sib;
    var x, y := Near(s, side), Far(s, side);
    NearFar(s, side);
    ElementsUp(c, t, c.red);
    InOrderRotate(c.n, s.n, c.red, s.red, false, c.red, side, t, x, y);
    assert InOrder(y) == InOrder(y.(red := false));
    hide Mk, InOrder, Before, After;
  }

  // ------------------------------------------------- the repair, in memory

  /** A red sibling: recolor it and the parent and rotate the parent down. */
  method RotateRedSibling(root: RbRoot, sibling: nat, parent: nat, side: Side, ghost c: Context, ghost t: Tree)
    requires Holds(root.mem, root.node, c, t) && c.In? && !c.red && Red(c.sib)
    requires sibling == c.sib.n && parent == c.n && side == c.side
    modifies root
    ensures Holds(root.mem, root.node, AfterRedSibling(c), t) && root.mem.Keys == old(root.mem.Keys)
  {
    ghost var s0, s1 := c.sib, c.sib.(red := false);
    ghost var x, y := Near(s0, side), Far(s0, side);
    NearFar(s0, side);
    NearFar(s1, side);
    MkSwap(c.n, false, side, t, s0);
    MkSwap(c.n, false, side, t, s1);
    ghost var at := In(c.n, false, !side, t, c.up);
    hide Mk, Holds;
    Refocus(root.mem, root.node, c, t);
    Refocus(root.mem, root.node, at, s0);
    root.Paint(sibling, false, at, s0);
    Refocus(root.mem, root.node, at, s1);
    root.Paint(parent, true, c.up, Mk(c.n, false, side, t, s1));
    root.Rotate(parent, side, c.up, true, false, t, x, y, sibling);
    Refocus(root.mem, root.node, AfterRedSibling(c).up, Mk(c.n, true, side, t, x));
    Refocus(root.mem, root.node, AfterRedSibling(c), t);
  }

  /** Both nephews black: redden the sibling. */
  method PaintSibling(root: RbRoot, sibling: nat, ghost c: Context, ghost t: Tree)
    requires Holds(root.mem, root.node, c, t) && c.In? && c.sib.Bin? && sibling == c.sib.n
    modifies root
    ensures Holds(root.mem, root.node, c.up, AfterBlackNephews(c, t)) && root.mem.Keys == old(root.mem.Keys)
  {
    ghost var s1 := c.sib.(red := true);
    ghost var at := In(c.n, c.red, !c.side, t, c.up);
    MkSwap(c.n, c.red, c.side, t, c.sib);
    MkSwap(c.n, c.red, c.side, t, s1);
    hide Mk, Holds;
    Refocus(root.mem, root.node, c, t);
    Refocus(root.mem, root.node, at, c.sib);
    root.Paint(sibling, true, at, c.sib);
    Refocus(root.mem, root.node, at, s1);
  }

  /** Near nephew red, far one black: recolor and rotate the sibling down. */
  method RotateNearNephew(root: RbRoot, nephew: nat, sibling: nat, side: Side, ghost c: Context, ghost t: Tree)
    requires Holds(root.mem, root.node, c, t) && c.In? && c.sib.Bin? && Near(c.sib, c.side).Bin?
    requires nephew == Near(c.sib, c.side).n && sibling == c.sib.n && side == c.side
    modifies root
    ensures Holds(root.mem, root.node, AfterNearNephew(c), t) && root.mem.Keys == old(root.mem.Keys)
  {
    ghost var p, s := c.n, c.sib;
    ghost var x, y := Near(s, side), Far(s, side);
    ghost var d, b := Near(x, side), Far(x, side);
    ghost var x1 := x.(red := false);
    ghost var at := In(p, c.red, !side, t, c.up);
    ghost var deep := In(s.n, s.red, side, y, at);
    NearFar(s, side);
    NearFar(x1, side);
    MkSwap(p, c.red, side, t, s);
    MkSwap(s.n, s.red, side, x1, y);
    MkSwap(s.n, true, side, x1, y);
    MkSwap(x.n, false, side, d, b);
    MkSwap(s.n, true, side, b, y);
    MkSwap(x.n, false, side, d, Mk(s.n, true, side, b, y));
    MkSwap(p, c.red, side, t, AfterNearNephew(c).sib);
    hide Mk, Holds;
    Refocus(root.mem, root.node, c, t);
    Refocus(root.mem, root.node, at, s);
    Refocus(root.mem, root.node, deep, x);
    root.Paint(nephew, false, deep, x);
    Refocus(root.mem, root.node, deep, x1);
    root.Paint(sibling, true, at, Mk(s.n, s.red, side, x1, y));
    root.Rotate(sibling, !side, at, true, false, y, b, d, x.n);
    Refocus(root.mem, root.node, at, AfterNearNephew(c).sib);
    Refocus(root.mem, root.node, AfterNearNephew(c), t);
  }

  /** Far nephew red: the sibling takes the parent's color and place. */
  method RotateFarNephew(root: RbRoot, nephew: nat, sibling: nat, parent: nat, side: Side, ghost c: Context,
                         ghost t: Tree)
    requires Holds(root.mem, root.node, c, t) && c.In? && c.sib.Bin? && Far(c.sib, c.side).Bin?
    requires nephew == Far(c.sib, c.side).n && sibling == c.sib.n && side == c.side && parent == c.n
    modifies root
    ensures Holds(root.mem, root.node, c.up, AfterFarNephew(c, t)) && root.mem.Keys == old(root.mem.Keys)
  {
    ghost var p, s := c.n, c.sib;
    ghost var x, y := Near(s, side), Far(s, side);
    ghost var y1 := y.(red := false);
    ghost var s1 := s.(red := c.red);
    ghost var at, at1 := In(p, c.red, !side, t, c.up), In(p, false, !side, t, c.up);
    ghost var deep := In(s.n, c.red, !side, x, at1);
    Here(root.mem, root.node, c, t);
    NearFar(s1, side);
    MkSwap(p, c.red, side, t, s);
    MkSwap(p, c.red, side, t, s1);
    MkSwap(p, false, side, t, s1);
    MkSwap(s.n, c.red, side, x, y);
    MkSwap(s.n, c.red, side, x, y1);
    MkSwap(p, false, side, t, Mk(s.n, c.red, side, x, y1));
    hide Mk, Holds;
    Refocus(root.mem, root.node, c, t);
    Refocus(root.mem, root.node, at, s);
    root.Paint(sibling, root.mem[parent].red, at, s);
    Refocus(root.mem, root.node, at, s1);
    root.Paint(parent, false, c.up, Mk(p, c.red, side, t, s1));
    Refocus(root.mem, root.node, at1, s1);
    Refocus(root.mem, root.node, deep, y);
    root.Paint(nephew, false, deep, y);
    Refocus(root.mem, root.node, deep, y1);
    Refocus(root.mem, root.node, at1, Mk(s.n, c.red, side, x, y1));
    root.Rotate(parent, side, c.up, false, c.red, t, x, y1, s.n);
  }

  /** What the sibling and the nephews read as. */
  lemma {:induction false} SiblingHere(m: Memory, root: nat, c: Context, t: Tree)
    requires Holds(m, root, c, t) && c.In? && c.sib.Bin?
    ensures c.n in m && c.sib.n in m && m[c.sib.n].red == c.sib.red && c.sib.n != 0
    ensures (m[c.n].left == Link(t) <==> c.side) && Child(m[c.n], !c.side) == c.sib.n
    ensures forall side ::
              && Child(m[c.sib.n], side) == Link(Near(c.sib, side))
              && (Link(Near(c.sib, side)) == 0 <==> Near(c.sib, side).Leaf?)
              && (Near(c.sib, side).Bin? ==>
                 Link(Near(c.sib, side)) in m && m[Link(Near(c.sib, side))].red == Near(c.sib, side).red)
  {
    Here(m, root, c, t);
    forall side
      ensures Link(Near(c.sib, side)) == 0 <==> Near(c.sib, side).Leaf?
      ensures Near(c.sib, side).Bin? ==>
              Link(Near(c.sib, side)) in m && m[Link(Near(c.sib, side))].red == Near(c.sib, side).red
    {
      assert Rep(m, Near(c.sib, side), c.sib.n);
    }
  }

  /** One turn of the repair after a removal. */
  method EraseStep(root: RbRoot, n: nat, parent: nat, ghost c: Context, ghost t: Tree)
    returns (done: bool, n': nat, parent': nat, ghost c': Context, ghost t': Tree)
    requires Holds(root.mem, root.node, c, t) && Short(c, t) && !Red(t) && c.In? && n == Link(t) && parent == c.n
    modifies root
    ensures Holds(root.mem, root.node, c', t') && Elements(c', t') == Elements(c, t) &&
            root.mem.Keys == old(root.mem.Keys)
    ensures done ==> Whole(c', t')
    ensures !done ==> Short(c', t') && n' == Link(t') && parent' == Parent(c') && (Red(t') || Depth(c') < Depth(c))
  {
    SiblingHere(root.mem, root.node, c, t);
    hide Holds, Short, Whole, Elements, Red, Good;
    var side := root.mem[parent].left == n;
    var sibling := Child(root.mem[parent], !side);
    if sibling != 0 && root.mem[sibling].red {
      assert Red(c.sib) by { IsRed(c.sib); }
      RedSiblingShort(c, t);
      RotateRedSibling(root, sibling, parent, side, c, t);
      RedSiblingElements(c, t);
      done, n', parent', c', t' := EraseBlack(root, parent, side, AfterRedSibling(c), t);
    } else {
      assert !Red(c.sib) by { IsRed(c.sib); }
      done, n', parent', c', t' := EraseBlack(root, parent, side, c, t);
    }
  }

  lemma {:induction false} IsRed(t: Tree)
    ensures Red(t) <==> t.Bin? && t.red
  {
  }

  /** The rest of a turn, the sibling being black. */
  method EraseBlack(root: RbRoot, parent: nat, side: Side, ghost c: Context, ghost t: Tree)
    returns (done: bool, n': nat, parent': nat, ghost c': Context, ghost t': Tree)
    requires Holds(root.mem, root.node, c, t) && Short(c, t) && !Red(t) && c.In? && parent == c.n && side == c.side
    requires !Red(c.sib)
    modifies root
    ensures Holds(root.mem, root.node, c', t') && Elements(c', t') == Elements(c, t) &&
            root.mem.Keys == old(root.mem.Keys)
    ensures done ==> Whole(c', t')
    ensures !done ==>
              && Short(c', t') && n' == Link(t') && parent' == Parent(c') && c' == c.up
              && (c.red ==> Red(t'))
  {
    SiblingHere(root.mem, root.node, c, t);
    var sibling := Child(root.mem[parent], !side);
    var near, far := Child(root.mem[sibling], side), Child(root.mem[sibling], !side);
    assert near == Link(Near(c.sib, side)) && far == Link(Far(c.sib, side));
    IsRed(Near(c.sib, side));
    IsRed(Far(c.sib, side));
    IsRed(c.sib);
    assert !Red(Near(c.sib, side)) && !Red(Far(c.sib, side)) ==> !Red(c.sib.l) && !Red(c.sib.r);
    hide Holds, Short, Whole, Elements, Red, Good, Mk;
    if (near == 0 || !root.mem[near].red) && (far == 0 || !root.mem[far].red) {
      BlackNephewsShort(c, t);
      PaintSibling(root, sibling, c, t);
      c', t' := c.up, AfterBlackNephews(c, t);
      MkSwap(c.n, c.red, c.side, t, c.sib.(red := true));
      IsRed(t');
      Here(root.mem, root.node, c', t');
      done, n', parent' := false, parent, root.mem[parent].parent;
    } else {
      ghost var c1 := c;
      if far == 0 || !root.mem[far].red {
        NearNephewShort(c, t);
        NearNephewElements(c, t);
        RotateNearNephew(root, near, sibling, side, c, t);
        c1 := AfterNearNephew(c);
        SiblingHere(root.mem, root.node, c1, t);
        sibling := Child(root.mem[parent], !side);
      }
      IsRed(Far(c1.sib, side));
      SiblingHere(root.mem, root.node, c1, t);
      FarNephewWhole(c1, t);
      FarNephewElements(c1, t);
      RotateFarNephew(root, Child(root.mem[sibling], !side), sibling, parent, side, c1, t);
      done, n', parent', c', t' := true, root.node, 0, c.up, AfterFarNephew(c1, t);
    }
  }

  /** Repair the tree where it is one black node short. */
  method EraseColor(root: RbRoot, n: nat, parent: nat, ghost c: Context, ghost t: Tree) returns (ghost whole: Tree)
    requires Holds(root.mem, root.node, c, t) && Short(c, t) && n == Link(t) && parent == Parent(c)
    modifies root
    ensures Holds(root.mem, root.node, Top, whole) && Good(whole) && !Red(whole)
    ensures InOrder(whole) == Elements(c, t) && root.mem.Keys == old(root.mem.Keys)
  {
    var x, p, done := n, parent, false;
    ghost var c', t' := c, t;
    hide Holds, Short, Whole, Elements, Good, InOrder;
    Position(root.mem, root.node, c', t');
    while !done && (x == 0 || !root.mem[x].red) && x != root.node
      invariant Holds(root.mem, root.node, c', t') && Elements(c', t') == Elements(c, t)
      invariant root.mem.Keys == old(root.mem.Keys)
      invariant done ==> Whole(c', t')
      invariant !done ==>
        && Short(c', t') && x == Link(t') && p == Parent(c')
        && (x != 0 ==> x in root.mem && root.mem[x].red == Red(t')) && (x == 0 ==> t'.Leaf?)
        && (x == root.node <==> c'.Top?)
      decreases if done then 0 else if Red(t') then 1 else 2 + Depth(c')
    {
      done, x, p, c', t' := EraseStep(root, x, p, c', t');
      Position(root.mem, root.node, c', t');
    }
    whole := FinishErase(root, if done then root.node else x, done, c', t');
  }

  lemma {:induction false} Position(m: Memory, root: nat, c: Context, t: Tree)
    requires Holds(m, root, c, t)
    ensures (Link(t) == 0 <==> t.Leaf?) && (Link(t) != 0 ==> Link(t) in m && m[Link(t)].red == Red(t))
    ensures Link(t) == root <==> c.Top?
    ensures root != 0 ==> root in m
  {
    Here(m, root, c, t);
    PlugWhole(m, root, c, t);
    if c.In? { RootAbove(m, root, c, Link(t)); }
    if t.Bin? { assert t.n in Nodes(t); }
  }

  lemma {:induction false} RootAbove(m: Memory, root: nat, c: Context, hole: nat)
    requires RepAbove(m, root, c, hole) && c.In?
    ensures root in Above(c) && root != 0 && root in m
  {
    if c.up.In? { RootAbove(m, root, c.up, c.n); }
  }

  /** The last act: the node where the repair ended turns black. */
  method FinishErase(root: RbRoot, n: nat, done: bool, ghost c: Context, ghost t: Tree) returns (ghost whole: Tree)
    requires Holds(root.mem, root.node, c, t)
    requires if done then Whole(c, t) && n == root.node else Short(c, t) && n == Link(t) && (Red(t) || c.Top?)
    modifies root
    ensures Holds(root.mem, root.node, Top, whole) && Good(whole) && !Red(whole)
    ensures InOrder(whole) == Elements(c, t) && root.mem.Keys == old(root.mem.Keys)
  {
    Position(root.mem, root.node, c, t);
    ghost var t0 := t;
    if done {
      PlugWhole(root.mem, root.node, c, t);
      PlugGood(c, t);
      whole := Plug(c, t);
      if n != 0 {
        root.Paint(n, false, Top, whole);
        PaintBlack(whole);
        whole := whole.(red := false);
      }
    } else {
      if n != 0 {
        root.Paint(n, false, c, t);
        t0 := t.(red := false);
      }
      PlugWhole(root.mem, root.node, c, t0);
      PlugGood(c, t0);
      whole := Plug(c, t0);
    }
  }
}
