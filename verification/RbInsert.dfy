/**
  Insertion into a red-black tree: search for the place, link the node, repair the colors.
 */
module RbInsert {
  import opened RbTree

  // ------------------------------------------------------------ insertion

  /** A red node in place whose parent may be red too, and nothing else amiss. */
  ghost predicate RedHere(c: Context, t: Tree) {
    Red(t) && Good(t) && GoodAbove(c, BlackHeight(t))
  }

  function Depth(c: Context): nat {
    if c.Top? then 0 else 1 + Depth(c.up)
  }

  ghost predicate RedPair(c: Context, t: Tree) {
    RedHere(c, t) && c.In? && c.red
  }

  /** The two levels above a red parent. */
  lemma {:induction false} AboveTwo(c: Context, t: Tree)
    requires RedPair(c, t) && c.up.In?
    ensures Good(c.sib) && BlackHeight(c.sib) == BlackHeight(t) && !Red(c.sib) && !c.up.red
    ensures Good(c.up.sib) && BlackHeight(c.up.sib) == BlackHeight(t) && GoodAbove(c.up.up, BlackHeight(t) + 1)
  {
    assert GoodAbove(c.up, BlackHeight(t));
  }

  /** The red uncle turns black with the parent, the grandparent red. */
  function PushUp(c: Context, t: Tree): Tree
    requires c.In? && c.up.In? && c.up.sib.Bin?
  {
    Mk(c.up.n, true, c.up.side, Mk(c.n, false, c.side, t, c.sib), c.up.sib.(red := false))
  }

  lemma {:induction false} PushUpGood(c: Context, t: Tree)
    requires RedPair(c, t) && c.up.In? && Red(c.up.sib)
    ensures RedHere(c.up.up, PushUp(c, t)) && Elements(c.up.up, PushUp(c, t)) == Elements(c, t)
  {
    AboveTwo(c, t);
    hide GoodAbove, Elements;
    ElementsUp(c, t, false);
    var p := Mk(c.n, false, c.side, t, c.sib);
    ElementsUp(c.up, p, true);
    PaintGood(c.up.sib);
    MkGood(c.n, false, c.side, t, c.sib);
    MkGood(c.up.n, true, c.up.side, p, c.up.sib.(red := false));
  }

  /** The context after the rotation that ends the repair on the outer side. */
  function Outer(c: Context): Context
    requires c.In? && c.up.In?
  {
    In(c.n, false, c.side, Mk(c.up.n, true, c.side, c.sib, c.up.sib), c.up.up)
  }

  lemma {:induction false} OuterGood(c: Context, t: Tree)
    requires RedPair(c, t) && c.up.In? && !Red(c.up.sib)
    ensures RedHere(Outer(c), t)
  {
    AboveTwo(c, t);
    MkGood(c.up.n, true, c.side, c.sib, c.up.sib);
    hide Good, BlackHeight, Red, Mk;
  }

  lemma {:induction false} OuterElements(c: Context, t: Tree)
    requires c.In? && c.up.In? && c.side == c.up.side
    ensures Elements(Outer(c), t) == Elements(c, t)
  {
    var p := Mk(c.n, false, c.side, t, c.sib);
    var g := Mk(c.up.n, true, c.side, c.sib, c.up.sib);
    ElementsUp(c, t, false);
    ElementsUp(c.up, p, true);
    ElementsUp(Outer(c), t, false);
    MkSwap(c.up.n, true, c.side, p, c.up.sib);
    MkSwap(c.n, false, c.side, t, c.sib);
    InOrderRotate(c.up.n, c.n, true, false, true, false, !c.side, c.up.sib, c.sib, t);
    MkSwap(c.up.n, true, c.side, c.sib, c.up.sib);
    MkSwap(c.n, false, c.side, t, g);
    hide Mk, InOrder, Before, After;
  }

  /** After rotating a node on the inner side to the outer side. */
  function InnerContext(c: Context, t: Tree): Context
    requires c.In? && c.up.In? && t.Bin?
  {
    In(t.n, true, !c.side, if c.side then t.l else t.r, c.up)
  }

  function InnerTree(c: Context, t: Tree): Tree
    requires c.In? && t.Bin?
  {
    Mk(c.n, true, !c.side, c.sib, if c.side then t.r else t.l)
  }

  lemma {:induction false} InnerGood(c: Context, t: Tree)
    requires RedPair(c, t) && c.up.In?
    ensures RedPair(InnerContext(c, t), InnerTree(c, t))
    ensures Elements(InnerContext(c, t), InnerTree(c, t)) == Elements(c, t)
  {
    var a, b := if c.side then t.r else t.l, if c.side then t.l else t.r;
    MkGood(c.n, true, !c.side, c.sib, a);
    ElementsUp(c, t, true);
    ElementsUp(InnerContext(c, t), InnerTree(c, t), true);
    MkSwap(c.n, true, c.side, t, c.sib);
    InOrderRotate(c.n, t.n, true, true, true, true, !c.side, c.sib, a, b);
  }

  /** Red uncle: recolor the three nodes. */
  method RecolorUncle(root: RbRoot, uncle: nat, parent: nat, gparent: nat, ghost c: Context, ghost t: Tree)
    requires Holds(root.mem, root.node, c, t) && RedPair(c, t) && c.up.In? && Red(c.up.sib)
    requires uncle == c.up.sib.n && parent == c.n && gparent == c.up.n
    modifies root`mem
    ensures Holds(root.mem, root.node, c.up.up, PushUp(c, t)) && root.mem.Keys == old(root.mem.Keys)
  {
    ghost var g, up, s, u := c.up.n, c.up.up, c.up.side, c.up.sib;
    ghost var p0, p1 := Mk(c.n, true, c.side, t, c.sib), Mk(c.n, false, c.side, t, c.sib);
    ghost var u1 := u.(red := false);
    MkSwap(c.n, true, c.side, t, c.sib);
    MkSwap(g, false, s, p0, u);
    MkSwap(g, false, s, p0, u1);
    MkSwap(g, false, s, p1, u1);
    hide Mk, Holds, RedPair;
    Refocus(root.mem, root.node, c, t);
    Refocus(root.mem, root.node, c.up, p0);
    Refocus(root.mem, root.node, In(g, false, !s, p0, up), u);
    root.Paint(uncle, false, In(g, false, !s, p0, up), u);
    Refocus(root.mem, root.node, In(g, false, !s, p0, up), u1);
    Refocus(root.mem, root.node, In(g, false, s, u1, up), p0);
    root.Paint(parent, false, In(g, false, s, u1, up), p0);
    Refocus(root.mem, root.node, In(g, false, s, u1, up), p1);
    root.Paint(gparent, true, up, Mk(g, false, s, p1, u1));
  }

  /** Black uncle, node on the outer side: recolor parent and grandparent and rotate the latter down. */
  method RotateOuter(root: RbRoot, parent: nat, gparent: nat, side: Side, ghost c: Context, ghost t: Tree)
    requires Holds(root.mem, root.node, c, t) && RedPair(c, t) && c.up.In? && c.side == c.up.side == side
    requires parent == c.n && gparent == c.up.n
    modifies root
    ensures Holds(root.mem, root.node, Outer(c), t) && root.mem.Keys == old(root.mem.Keys)
  {
    ghost var g, up, u, b := c.up.n, c.up.up, c.up.sib, c.sib;
    ghost var p0, p1 := Mk(c.n, true, side, t, b), Mk(c.n, false, side, t, b);
    MkSwap(c.n, true, side, t, b);
    MkSwap(c.n, false, side, t, b);
    MkSwap(g, false, side, p1, u);
    MkSwap(g, true, side, p1, u);
    MkSwap(g, true, side, b, u);
    MkSwap(c.n, false, side, t, Mk(g, true, side, b, u));
    hide Mk, Holds, RedPair;
    Refocus(root.mem, root.node, c, t);
    root.Paint(parent, false, c.up, p0);
    Refocus(root.mem, root.node, c.up, p1);
    root.Paint(gparent, true, up, Mk(g, false, side, p1, u));
    root.Rotate(gparent, !side, up, true, false, u, b, t, c.n);
    Refocus(root.mem, root.node, Outer(c), t);
  }

  /** Node on the inner side: rotate it over its parent, which becomes the node to go on with. */
  method RotateInner(root: RbRoot, parent: nat, side: Side, ghost c: Context, ghost t: Tree)
    requires Holds(root.mem, root.node, c, t) && RedPair(c, t) && side == !c.side && parent == c.n
    modifies root
    ensures Holds(root.mem, root.node, InnerContext(c, t), InnerTree(c, t)) && root.mem.Keys == old(root.mem.Keys)
  {
    ghost var a, b := if c.side then t.r else t.l, if c.side then t.l else t.r;
    MkSwap(c.n, true, c.side, t, c.sib);
    assert t == Mk(t.n, true, side, a, b);
    hide Mk, Holds, RedPair;
    Refocus(root.mem, root.node, c, t);
    root.Rotate(parent, side, c.up, true, true, c.sib, a, b, t.n);
    Refocus(root.mem, root.node, InnerContext(c, t), InnerTree(c, t));
  }

  /** One turn of the repair after an insertion. */
  method InsertStep(root: RbRoot, n: nat, parent: nat, ghost c: Context, ghost t: Tree)
    returns (n': nat, ghost c': Context, ghost t': Tree)
    requires Holds(root.mem, root.node, c, t) && RedPair(c, t) && n == Link(t) && parent == c.n
    modifies root
    ensures Holds(root.mem, root.node, c', t') && RedHere(c', t') && n' == Link(t') &&
            root.mem.Keys == old(root.mem.Keys)
    ensures Elements(c', t') == Elements(c, t) && Depth(c') < Depth(c)
  {
    ghost var p0 := Mk(c.n, c.red, c.side, t, c.sib);
    Here(root.mem, root.node, c, t);
    Refocus(root.mem, root.node, c, t);
    Here(root.mem, root.node, c.up, p0);
    MkSwap(c.n, c.red, c.side, t, c.sib);
    hide Mk, Holds, RedHere, Elements;
    var gparent := root.mem[parent].parent;
    var side := parent == root.mem[gparent].left;
    var uncle := Child(root.mem[gparent], !side);
    assert side == c.up.side && uncle == Link(c.up.sib);
    if uncle != 0 && root.mem[uncle].red {
      RecolorUncle(root, uncle, parent, gparent, c, t);
      PushUpGood(c, t);
      n', c', t' := gparent, c.up.up, PushUp(c, t);
      MkSwap(c.up.n, true, c.up.side, Mk(c.n, false, c.side, t, c.sib), c.up.sib.(red := false));
    } else if n == Child(root.mem[parent], !side) {
      RotateInner(root, parent, side, c, t);
      InnerGood(c, t);
      c', t' := InnerContext(c, t), InnerTree(c, t);
      RotateOuter(root, n, gparent, side, c', t');
      OuterGood(c', t');
      OuterElements(c', t');
      MkSwap(c.n, true, !c.side, c.sib, if c.side then t.r else t.l);
      n', c' := parent, Outer(c');
    } else {
      RotateOuter(root, parent, gparent, side, c, t);
      OuterGood(c, t);
      OuterElements(c, t);
      n', c', t' := n, Outer(c), t;
    }
  }

  /** Repair the tree after linking red node `n`. */
  method InsertColor(root: RbRoot, n: nat, ghost c: Context, ghost t: Tree) returns (ghost whole: Tree)
    requires Holds(root.mem, root.node, c, t) && RedHere(c, t) && n == Link(t)
    modifies root
    ensures Holds(root.mem, root.node, Top, whole) && Good(whole) && !Red(whole) && root.mem.Keys == old(root.mem.Keys)
    ensures InOrder(whole) == Elements(c, t)
  {
    var x := n;
    ghost var c', t' := c, t;
    hide Mk, Elements, InOrder;
    Here(root.mem, root.node, c', t');
    while root.mem[x].parent != 0 && root.mem[root.mem[x].parent].red
      invariant Holds(root.mem, root.node, c', t') && RedHere(c', t') && x == Link(t') &&
                root.mem.Keys == old(root.mem.Keys)
      invariant x in root.mem && root.mem[x].parent == Parent(c') &&
                (c'.In? ==> c'.n in root.mem && root.mem[c'.n].red == c'.red && c'.n != 0)
      invariant Elements(c', t') == Elements(c, t)
      decreases Depth(c')
    {
      x, c', t' := InsertStep(root, x, root.mem[x].parent, c', t');
      Here(root.mem, root.node, c', t');
    }
    whole := Plug(c', t');
    PlugWhole(root.mem, root.node, c', t');
    PlugGood(c', t');
    root.Paint(root.node, false, Top, whole);
    PaintBlack(whole);
    whole := whole.(red := false);
  }

  // ------------------------------------------------------------ searching

  /** The keys an element stands for, both ends included.  Elements that overlap compare as equal. */
  datatype Range = Range(beg: int, end: int)

  type Keys = map<nat, Range>

  function Compare(a: Range, b: Range): int {
    if a.end < b.beg then -1 else if a.beg > b.end then 1 else 0
  }

  ghost predicate Less(keys: Keys, x: nat, y: nat) {
    x in keys && y in keys && keys[x].end < keys[y].beg
  }

  ghost predicate Sorted(keys: Keys, s: seq<nat>) {
    && (forall i :: 0 <= i < |s| ==> s[i] in keys && keys[s[i]].beg <= keys[s[i]].end)
    && (forall i, j :: 0 <= i < j < |s| ==> Less(keys, s[i], s[j]))
  }

  /** All of `b` below the element and all of `a` above it. */
  ghost predicate Between(keys: Keys, b: seq<nat>, e: nat, a: seq<nat>) {
    (forall x :: x in b ==> Less(keys, x, e)) && (forall x :: x in a ==> Less(keys, e, x))
  }

  lemma {:induction false} SortedSplit(keys: Keys, b: seq<nat>, n: nat, a: seq<nat>)
    requires Sorted(keys, b + [n] + a)
    ensures n in keys && keys[n].beg <= keys[n].end && forall x :: x in b ==> Less(keys, x, n)
    ensures forall x :: x in a ==> Less(keys, n, x)
  {
    var s := b + [n] + a;
    assert s[|b|] == n;
    forall x | x in b ensures Less(keys, x, n) {
      var i :| 0 <= i < |b| && b[i] == x;
      assert s[i] == x;
    }
    forall x | x in a ensures Less(keys, n, x) {
      var i :| 0 <= i < |a| && a[i] == x;
      assert s[|b| + 1 + i] == x;
    }
  }

  lemma {:induction false} SortedJoin(keys: Keys, b: seq<nat>, e: nat, a: seq<nat>)
    requires Sorted(keys, b + a) && Between(keys, b, e, a) && e in keys && keys[e].beg <= keys[e].end
    ensures Sorted(keys, b + [e] + a)
  {
    var s, s' := b + a, b + [e] + a;
    forall i | 0 <= i < |s'| ensures s'[i] in keys && keys[s'[i]].beg <= keys[s'[i]].end {
      assert i == |b| || s'[i] == s[if i < |b| then i else i - 1];
    }
    forall i, j | 0 <= i < j < |s'| ensures Less(keys, s'[i], s'[j]) {
      if i == |b| {
        assert s'[j] == a[j - |b| - 1];
      } else if j == |b| {
        assert s'[i] == b[i];
      } else {
        assert s'[i] == s[if i < |b| then i else i - 1] && s'[j] == s[if j < |b| then j else j - 1];
      }
    }
  }

  /** One step down to the given side. */
  function DownContext(c: Context, u: Tree, side: Side): Context
    requires u.Bin?
  {
    In(u.n, u.red, side, if side then u.r else u.l, c)
  }

  function DownTree(u: Tree, side: Side): Tree
    requires u.Bin?
  {
    if side then u.l else u.r
  }

  /** A good tree seen from inside. */
  ghost predicate GoodHere(c: Context, u: Tree) {
    Good(u) && GoodAbove(c, BlackHeight(u)) && (c.In? && c.red ==> !Red(u)) && (c.Top? ==> !Red(u))
  }

  lemma {:induction false} Down(m: Memory, root: nat, c: Context, u: Tree, side: Side)
    requires Holds(m, root, c, u) && GoodHere(c, u) && u.Bin?
    ensures Holds(m, root, DownContext(c, u, side), DownTree(u, side))
    ensures GoodHere(DownContext(c, u, side), DownTree(u, side))
    ensures Elements(DownContext(c, u, side), DownTree(u, side)) == Elements(c, u)
  {
    assert u == Mk(u.n, u.red, side, DownTree(u, side), if side then u.r else u.l);
    Refocus(m, root, DownContext(c, u, side), DownTree(u, side));
    ElementsUp(DownContext(c, u, side), DownTree(u, side), u.red);
  }

  /** Going down toward the element keeps it between what is passed on the left and on the right. */
  lemma {:induction false} DownBetween(keys: Keys, c: Context, u: Tree, e: nat, side: Side)
    requires u.Bin? && Sorted(keys, Elements(c, u)) && Between(keys, Before(c), e, After(c))
    requires if side then Less(keys, e, u.n) else Less(keys, u.n, e)
    ensures Between(keys, Before(DownContext(c, u, side)), e, After(DownContext(c, u, side)))
  {
    var l, r := InOrder(u.l), InOrder(u.r);
    assert Elements(c, u) == (Before(c) + l) + [u.n] + (r + After(c));
    SortedSplit(keys, Before(c) + l, u.n, r + After(c));
    if side {
      assert forall x :: x in r ==> x in r + After(c);
    } else {
      assert forall x :: x in l ==> x in Before(c) + l;
    }
  }

  /** Link the new node where the search ended. */
  method LinkNode(root: RbRoot, n: nat, parent: nat, side: Side, ghost c: Context)
    requires Holds(root.mem, root.node, c, Leaf) && n != 0 && n !in Above(c)
    requires parent == Parent(c) && (c.In? ==> side == c.side)
    modifies root
    ensures Holds(root.mem, root.node, c, Bin(n, true, Leaf, Leaf))
    ensures root.mem.Keys == old(root.mem.Keys) + {n}
  {
    ghost var m, r := root.mem, root.node;
    Here(m, r, c, Leaf);
    if c.In? { assert c.n in Above(c); }
    root.mem := root.mem[n := Cell(parent, true, 0, 0)];
    if parent != 0 { root.SetChild(parent, side, n); } else { root.node := n; }
    assert Agree(m, root.mem, Above(c) - {Parent(c)});
    RepAboveRelinked(m, root.mem, r, root.node, c, 0, n);
  }

  lemma {:induction false} NodesInOrder(t: Tree)
    ensures forall x :: x in Nodes(t) <==> x in InOrder(t)
  {
    if t.Bin? {
      NodesInOrder(t.l);
      NodesInOrder(t.r);
    }
  }

  lemma {:induction false} AboveElements(c: Context, u: Tree)
    ensures forall x :: x in Above(c) ==> x in Elements(c, u)
  {
    if c.In? {
      NodesInOrder(c.sib);
      AboveElements(c.up, Mk(c.n, c.red, c.side, u, c.sib));
      ElementsUp(c, u, c.red);
      var w := Mk(c.n, c.red, c.side, u, c.sib);
      assert c.n in InOrder(w) && forall x :: x in InOrder(c.sib) ==> x in InOrder(w);
      assert forall x :: x in InOrder(w) ==> x in Elements(c.up, w);
    }
  }

  method LinkAndColor(root: RbRoot, ghost keys: Keys, elm: nat, par: nat, side: Side, ghost c: Context, ghost t: Tree)
    returns (ghost whole: Tree)
    requires Holds(root.mem, root.node, c, Leaf) && GoodHere(c, Leaf) && elm != 0 && elm !in Above(c)
    requires par == Parent(c) && (c.In? ==> side == c.side) && Elements(c, Leaf) == InOrder(t)
    requires elm in keys && keys[elm].beg <= keys[elm].end
    requires Between(keys, Before(c), elm, After(c)) && Sorted(keys, InOrder(t))
    modifies root
    ensures Holds(root.mem, root.node, Top, whole) && Good(whole) && !Red(whole) && Sorted(keys, InOrder(whole))
    ensures forall x :: x in InOrder(t) ==> Less(keys, x, elm) || Less(keys, elm, x)
    ensures exists b, a {:trigger b + a} :: InOrder(t) == b + a && InOrder(whole) == b + [elm] + a
  {
    var b, a := Before(c), After(c);
    ghost var n := Bin(elm, true, Leaf, Leaf);
    LinkNode(root, elm, par, side, c);
    assert RedHere(c, n);
    assert InOrder(t) == b + a;
    assert Elements(c, n) == b + [elm] + a;
    SortedJoin(keys, b, elm, a);
    whole := InsertColor(root, elm, c, n);
  }

  /** The search stands at `u`; the element belongs between what lies on either side of it. */
  ghost predicate Searching(m: Memory, root: nat, keys: Keys, elm: nat, c: Context, u: Tree, t: Tree) {
    && Holds(m, root, c, u) && GoodHere(c, u)
    && Elements(c, u) == InOrder(t) && Between(keys, Before(c), elm, After(c))
  }

  lemma {:induction false} SearchHere(m: Memory, root: nat, keys: Keys, elm: nat, c: Context, u: Tree, t: Tree)
    requires Searching(m, root, keys, elm, c, u, t) && u.Bin? && Sorted(keys, InOrder(t))
    ensures u.n in keys && u.n in InOrder(t) && u.n in m
  {
  }

  lemma {:induction false} SearchDown(m: Memory, root: nat, keys: Keys, elm: nat, c: Context, u: Tree, t: Tree,
                                      side: Side)
    requires Searching(m, root, keys, elm, c, u, t) && u.Bin? && Sorted(keys, InOrder(t))
    requires if side then Less(keys, elm, u.n) else Less(keys, u.n, elm)
    ensures Searching(m, root, keys, elm, DownContext(c, u, side), DownTree(u, side), t)
    ensures u.n in m && Child(m[u.n], side) == Link(DownTree(u, side))
    ensures Link(DownTree(u, side)) == 0 <==> DownTree(u, side).Leaf?
  {
    Here(m, root, c, u);
    hide InOrder, Good, Red;
    Down(m, root, c, u, side);
    Here(m, root, DownContext(c, u, side), DownTree(u, side));
    DownBetween(keys, c, u, elm, side);
  }

  /** One comparison: the element, or one step down toward its place. */
  method SearchStep(root: RbRoot, keys: Keys, elm: nat, cur: nat, ghost c: Context, ghost u: Tree, ghost t: Tree)
    returns (hit: bool, side: Side, next: nat)
    requires Searching(root.mem, root.node, keys, elm, c, u, t) && u.Bin? && cur == u.n && Sorted(keys, InOrder(t))
    requires elm in keys && keys[elm].beg <= keys[elm].end
    ensures cur in keys && cur in InOrder(t)
    ensures hit ==> Compare(keys[elm], keys[cur]) == 0 && !Less(keys, cur, elm) && !Less(keys, elm, cur)
    ensures !hit ==>
              && Searching(root.mem, root.node, keys, elm, DownContext(c, u, side), DownTree(u, side), t)
              && next == Link(DownTree(u, side)) && (next == 0 <==> DownTree(u, side).Leaf?)
  {
    SearchHere(root.mem, root.node, keys, elm, c, u, t);
    hide Searching, Sorted, InOrder;
    var cmp := Compare(keys[elm], keys[cur]);
    hit, side, next := cmp == 0, cmp < 0, 0;
    if !hit {
      SearchDown(root.mem, root.node, keys, elm, c, u, t, side);
      next := Child(root.mem[cur], side);
    }
  }

  /** The descent that insertion and search share: an element that overlaps, or the place for a new one. */
  method Search(root: RbRoot, keys: Keys, elm: nat, ghost t: Tree)
    returns (cur: nat, par: nat, side: Side, ghost c: Context)
    requires Holds(root.mem, root.node, Top, t) && Good(t) && !Red(t) && Sorted(keys, InOrder(t))
    requires elm in keys && keys[elm].beg <= keys[elm].end
    ensures cur != 0 ==> cur in keys && cur in InOrder(t) && Compare(keys[elm], keys[cur]) == 0
    ensures cur != 0 ==> !Less(keys, cur, elm) && !Less(keys, elm, cur)
    ensures cur == 0 ==>
            Searching(root.mem, root.node, keys, elm, c, Leaf, t) && par == Parent(c) && (c.In? ==> side == c.side)
  {
    cur, par, side, c := root.node, 0, true, Top;
    ghost var u := t;
    hide Holds, Good, Red, InOrder, Searching, Sorted, Less, Compare;
    while cur != 0
      invariant Searching(root.mem, root.node, keys, elm, c, u, t) && cur == Link(u) && (cur == 0 <==> u.Leaf?)
      invariant par == Parent(c) && (c.In? ==> side == c.side)
      decreases u
    {
      var hit, to, next := SearchStep(root, keys, elm, cur, c, u, t);
      if hit { return; }
      par, side := cur, to;
      c, u := DownContext(c, u, to), DownTree(u, to);
      cur := next;
    }
  }

  lemma {:induction false} SearchedApart(m: Memory, root: nat, keys: Keys, elm: nat, c: Context, t: Tree)
    requires Searching(m, root, keys, elm, c, Leaf, t)
    ensures forall x :: x in InOrder(t) ==> Less(keys, x, elm) || Less(keys, elm, x)
  {
  }

  /** Insert an element, or return one that it collides with. */
  method Insert(root: RbRoot, keys: Keys, elm: nat, ghost t: Tree) returns (collision: nat, ghost whole: Tree)
    requires Holds(root.mem, root.node, Top, t) && Good(t) && !Red(t) && Sorted(keys, InOrder(t))
    requires elm in keys && keys[elm].beg <= keys[elm].end && elm != 0 && elm !in Nodes(t)
    modifies root
    ensures Holds(root.mem, root.node, Top, whole) && Good(whole) && !Red(whole) && Sorted(keys, InOrder(whole))
    ensures collision == 0 <==> forall x :: x in InOrder(t) ==> Less(keys, x, elm) || Less(keys, elm, x)
    ensures collision != 0 ==> collision in InOrder(t) && Compare(keys[elm], keys[collision]) == 0
    ensures collision != 0 ==> whole == t && root.mem == old(root.mem)
    ensures collision == 0 ==> exists b, a {:trigger b + a} :: InOrder(t) == b + a && InOrder(whole) == b + [elm] + a
  {
    var par, side;
    ghost var c;
    collision, par, side, c := Search(root, keys, elm, t);
    if collision != 0 { return collision, t; }
    NodesInOrder(t);
    AboveElements(c, Leaf);
    whole := LinkAndColor(root, keys, elm, par, side, c, t);
  }

  /** An element that overlaps the given range, if there is one. */
  method Find(root: RbRoot, keys: Keys, elm: nat, ghost t: Tree) returns (found: nat)
    requires Holds(root.mem, root.node, Top, t) && Good(t) && !Red(t) && Sorted(keys, InOrder(t))
    requires elm in keys && keys[elm].beg <= keys[elm].end
    ensures found == 0 <==> forall x :: x in InOrder(t) ==> Less(keys, x, elm) || Less(keys, elm, x)
    ensures found != 0 ==> found in InOrder(t) && Compare(keys[elm], keys[found]) == 0
  {
    var par, side;
    ghost var c;
    found, par, side, c := Search(root, keys, elm, t);
    if found == 0 { SearchedApart(root.mem, root.node, keys, elm, c, t); }
  }
}
