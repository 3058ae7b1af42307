/**
  In-order walks of a red-black tree: the successor of a node, and the scan of the elements
  that a monotone comparison puts in range.
 */
module RbScan {
  import opened RbTree
  import opened RbInsert
  import opened RbErase
  import opened RbRemove

  function First(s: seq<nat>): nat {
    if s == [] then 0 else s[0]
  }

  /** What follows the node at a position. */
  function Following(c: Context, t: Tree): seq<nat>
    requires t.Bin?
  {
    InOrder(t.r) + After(c)
  }

  lemma {:induction false} FirstOfConcat(a: seq<nat>, b: seq<nat>)
    ensures a != [] ==> First(a + b) == First(a)
    ensures a == [] ==> a + b == b
  {
  }

  /** The leftmost node below a link. */
  method Leftmost(root: RbRoot, n: nat, ghost t: Tree, ghost p: nat) returns (x: nat)
    requires Rep(root.mem, t, p) && n == Link(t) && t.Bin?
    ensures x == First(InOrder(t)) && x != 0 && InOrder(t) != []
  {
    x := n;
    ghost var u, q := t, p;
    while root.mem[x].left != 0
      invariant Rep(root.mem, u, q) && u.Bin? && x == u.n && x in root.mem && First(InOrder(u)) == First(InOrder(t))
      decreases u
    {
      LinkIn(root.mem, u.l, u.n);
      FirstOfConcat(InOrder(u.l), [u.n] + InOrder(u.r));
      assert InOrder(u) == InOrder(u.l) + ([u.n] + InOrder(u.r));
      assert InOrder(u.l) != [];
      x := root.mem[x].left;
      u, q := u.l, u.n;
    }
    LinkIn(root.mem, u.l, u.n);
    assert InOrder(u) == [u.n] + InOrder(u.r);
    assert InOrder(t) != [];
  }

  /** The next node in order, or 0. */
  method Next(root: RbRoot, n: nat, ghost c: Context, ghost t: Tree) returns (x: nat)
    requires Holds(root.mem, root.node, c, t) && t.Bin? && n == t.n
    ensures x == First(Following(c, t)) && (x == 0 <==> Following(c, t) == [])
  {
    Here(root.mem, root.node, c, t);
    ChildHere(root.mem, root.node, c, t, false);
    if root.mem[n].right != 0 {
      x := Leftmost(root, root.mem[n].right, t.r, t.n);
      FirstOfConcat(InOrder(t.r), After(c));
      return;
    }
    assert Following(c, t) == After(c);
    x := Climb(root, n, c, t);
  }

  /** Up to the first ancestor reached from its left side. */
  method Climb(root: RbRoot, n: nat, ghost c: Context, ghost t: Tree) returns (x: nat)
    requires Holds(root.mem, root.node, c, t) && t.Bin? && n == t.n
    ensures x == First(After(c)) && (x == 0 <==> After(c) == [])
  {
    var y := n;
    ghost var d, u := c, t;
    Here(root.mem, root.node, d, u);
    if d.In? { ClimbHere(root.mem, root.node, d, u); }
    hide Holds;
    while root.mem[y].parent != 0 && y == root.mem[root.mem[y].parent].right
      invariant Holds(root.mem, root.node, d, u) && u.Bin? && y == u.n && y in root.mem && After(d) == After(c)
      invariant root.mem[y].parent == Parent(d) && (Parent(d) == 0 <==> d.Top?)
      invariant d.In? ==> d.n in root.mem && (y == root.mem[d.n].right <==> !d.side)
      decreases Depth(d)
    {
      Refocus(root.mem, root.node, d, u);
      MkSwap(d.n, d.red, d.side, u, d.sib);
      y := root.mem[y].parent;
      d, u := d.up, Mk(d.n, d.red, d.side, u, d.sib);
      Here(root.mem, root.node, d, u);
      if d.In? { ClimbHere(root.mem, root.node, d, u); }
    }
    x := root.mem[y].parent;
  }

  lemma {:induction false} ClimbHere(m: Memory, root: nat, c: Context, t: Tree)
    requires Holds(m, root, c, t) && t.Bin? && c.In?
    ensures c.n in m && (t.n == m[c.n].right <==> !c.side) && c.n != 0
  {
  }

  // ---------------------------------------------------------------- scan

  /** Negative before the range, positive after it, 0 inside. */
  ghost predicate Monotone(cmp: nat -> int, s: seq<nat>) {
    forall i, j :: 0 <= i < j < |s| ==> (cmp(s[j]) < 0 ==> cmp(s[i]) < 0) && (cmp(s[i]) > 0 ==> cmp(s[j]) > 0)
  }

  /** From position `i` to position `j`: exactly the elements in range. */
  ghost predicate InRange(cmp: nat -> int, s: seq<nat>, i: nat, j: nat) {
    && i <= j <= |s|
    && (forall k :: 0 <= k < i ==> cmp(s[k]) < 0)
    && (forall k :: i <= k < j ==> cmp(s[k]) == 0)
    && (forall k :: j <= k < |s| ==> cmp(s[k]) > 0)
  }

  /** Where the descent stands: everything to the left is before the range, everything to the right is not. */
  ghost predicate Descending(cmp: nat -> int, c: Context, u: Tree, best: nat, t: Tree) {
    && Elements(c, u) == InOrder(t)
    && (forall x :: x in Before(c) ==> cmp(x) < 0)
    && (forall x :: x in After(c) ==> cmp(x) >= 0)
    && best == First(After(c)) && (best == 0 <==> After(c) == [])
  }

  lemma {:induction false} MonotoneSplit(cmp: nat -> int, b: seq<nat>, n: nat, a: seq<nat>)
    requires Monotone(cmp, b + [n] + a)
    ensures cmp(n) < 0 ==> forall x :: x in b ==> cmp(x) < 0
    ensures cmp(n) >= 0 ==> forall x :: x in a ==> cmp(x) >= 0
  {
    var s := b + [n] + a;
    assert s[|b|] == n;
    assert forall k :: 0 <= k < |b| ==> s[k] == b[k];
    forall x | x in a ensures cmp(n) >= 0 ==> cmp(x) >= 0 {
      var k :| 0 <= k < |a| && a[k] == x;
      assert s[|b| + 1 + k] == x;
    }
  }

  lemma {:induction false} DescendStep(cmp: nat -> int, c: Context, u: Tree, best: nat, t: Tree, side: Side)
    requires Descending(cmp, c, u, best, t) && u.Bin? && u.n != 0 && Monotone(cmp, InOrder(t))
    requires side <==> cmp(u.n) >= 0
    ensures Descending(cmp, DownContext(c, u, side), DownTree(u, side), if side then u.n else best, t)
  {
    var d := DownContext(c, u, side);
    var b, l, r, a := Before(c), InOrder(u.l), InOrder(u.r), After(c);
    assert u == Mk(u.n, u.red, side, DownTree(u, side), if side then u.r else u.l);
    ElementsUp(d, DownTree(u, side), u.red);
    assert InOrder(t) == (b + l) + [u.n] + (r + a) by { Reassoc(b, l, [u.n], r, a); }
    MonotoneSplit(cmp, b + l, u.n, r + a);
    hide Monotone, Elements, InOrder;
    if side {
      assert After(d) == [u.n] + r + a && Before(d) == b;
      assert forall x :: x in r ==> x in r + a;
    } else {
      assert Before(d) == b + l + [u.n] && After(d) == a;
      assert forall x :: x in l ==> x in b + l;
    }
  }

  /** The first element not before the range, or 0. */
  method FindFirst(root: RbRoot, cmp: nat -> int, ghost t: Tree) returns (best: nat, ghost i: nat)
    requires Holds(root.mem, root.node, Top, t) && Good(t) && !Red(t) && Monotone(cmp, InOrder(t))
    ensures i <= |InOrder(t)| && best == First(InOrder(t)[i..]) && (best == 0 <==> i == |InOrder(t)|)
    ensures forall k :: 0 <= k < i ==> cmp(InOrder(t)[k]) < 0
    ensures forall k :: i <= k < |InOrder(t)| ==> cmp(InOrder(t)[k]) >= 0
  {
    var n := root.node;
    best := 0;
    ghost var c, u := Top, t;
    Here(root.mem, root.node, c, u);
    assert Elements(Top, t) == InOrder(t);
    assert GoodHere(c, u) && Descending(cmp, c, u, best, t);
    hide Holds, GoodHere, Monotone, Descending, InOrder, Good, Red;
    while n != 0
      invariant Holds(root.mem, root.node, c, u) && GoodHere(c, u) && n == Link(u) && (n == 0 <==> u.Leaf?)
      invariant Descending(cmp, c, u, best, t)
      decreases u
    {
      var side := cmp(n) >= 0;
      DescendStep(cmp, c, u, best, t, side);
      if side { best := n; }
      n := DescendTo(root, cmp, n, side, c, u, t);
      Down(root.mem, root.node, c, u, side);
      c, u := DownContext(c, u, side), DownTree(u, side);
    }
    i := |Before(c)|;
    Found(cmp, c, best, t);
  }

  lemma {:induction false} Found(cmp: nat -> int, c: Context, best: nat, t: Tree)
    requires Descending(cmp, c, Leaf, best, t)
    ensures var s, i := InOrder(t), |Before(c)|;
            && i <= |s| && best == First(s[i..]) && (best == 0 <==> i == |s|)
            && (forall k :: 0 <= k < i ==> cmp(s[k]) < 0)
            && (forall k :: i <= k < |s| ==> cmp(s[k]) >= 0)
  {
  }

  method DescendTo(root: RbRoot, ghost cmp: nat -> int, n: nat, side: Side, ghost c: Context, ghost u: Tree,
                   ghost t: Tree)
    returns (x: nat)
    requires Holds(root.mem, root.node, c, u) && GoodHere(c, u) && u.Bin? && n == u.n
    ensures x == Link(DownTree(u, side)) && (x == 0 <==> DownTree(u, side).Leaf?)
  {
    Here(root.mem, root.node, c, u);
    Down(root.mem, root.node, c, u, side);
    Here(root.mem, root.node, DownContext(c, u, side), DownTree(u, side));
    x := Child(root.mem[n], side);
  }

  lemma {:induction false} PlaceOf(keys: Keys, s: seq<nat>, b: seq<nat>, n: nat, a: seq<nat>, i: nat)
    requires Sorted(keys, s) && s == b + [n] + a && i < |s| && s[i] == n
    ensures i == |b| && a == s[i + 1..]
  {
    assert s[|b|] == n;
  }

  /** The element after position `i`. */
  method NextAt(root: RbRoot, n: nat, ghost keys: Keys, ghost t: Tree, ghost i: nat) returns (x: nat)
    requires Holds(root.mem, root.node, Top, t) && Good(t) && !Red(t) && Sorted(keys, InOrder(t))
    requires i < |InOrder(t)| && InOrder(t)[i] == n
    ensures x == First(InOrder(t)[i + 1..]) && (x == 0 <==> i + 1 == |InOrder(t)|)
  {
    ghost var c, u := Locate(root.mem, root.node, Top, t, n);
    assert Elements(Top, t) == InOrder(t);
    assert Elements(c, u) == (Before(c) + InOrder(u.l)) + [n] + Following(c, u)
      by { Reassoc(Before(c), InOrder(u.l), [n], InOrder(u.r), After(c)); }
    PlaceOf(keys, InOrder(t), Before(c) + InOrder(u.l), n, Following(c, u), i);
    x := Next(root, n, c, u);
  }

  /** Visit the elements in range, in order. */
  method Scan(root: RbRoot, cmp: nat -> int, ghost keys: Keys, ghost t: Tree) returns (visited: seq<nat>)
    requires Holds(root.mem, root.node, Top, t) && Good(t) && !Red(t) && Sorted(keys, InOrder(t)) &&
             Monotone(cmp, InOrder(t))
    ensures exists i: nat, j: nat {:trigger InRange(cmp, InOrder(t), i, j)} ::
              InRange(cmp, InOrder(t), i, j) && visited == InOrder(t)[i..j]
  {
    ghost var s := InOrder(t);
    var n;
    ghost var i;
    n, i := FindFirst(root, cmp, t);
    visited := [];
    ghost var j := i;
    while n != 0
      invariant i <= j <= |s| && n == First(s[j..]) && (n == 0 <==> j == |s|)
      invariant forall k :: i <= k < j ==> cmp(s[k]) == 0
      invariant visited == s[i..j]
      decreases |s| - j
    {
      var next := NextAt(root, n, keys, t, j);
      if cmp(n) > 0 { break; }
      visited := visited + [n];
      n, j := next, j + 1;
    }
    assert InRange(cmp, s, i, j);
  }
}
