/**
  The radix tree of block references: a full node moves the elements of one aligned key range
  into a new indirect block, a sparse indirect block moves its elements back into its parent.
  A lookup must not notice.
 */
module RadixTree {
  import opened Prelude
  import opened BlockTable
  import opened ChainScan

  /** A node's element: a reference, with the elements below it if it is an indirect block. */
  datatype Tree = Tree(bref: Bref, kids: seq<Tree>)

  // ------------------------------------------------------ aligned ranges

  predicate Aligned(b: Bref) {
    b.key % Pow2(b.keybits) == 0
  }

  predicate Covers(b: Bref, k: nat) {
    b.key <= k < End(b)
  }

  predicate Within(a: Bref, b: Bref) {
    b.key <= a.key && End(a) <= End(b)
  }

  /** The test by which an element joins a new block: no differing bit above the block's radix. */
  predicate SamePrefix(a: nat, b: nat, keybits: nat) {
    a / Pow2(keybits) == b / Pow2(keybits)
  }

  lemma {:induction false} Pow2Divides(m: nat, n: nat)
    requires m <= n
    ensures Pow2(n) % Pow2(m) == 0 && Pow2(m) <= Pow2(n)
    decreases n - m
  {
    if m < n {
      Pow2Divides(m, n - 1);
      var q := Pow2(n - 1) / Pow2(m);
      assert Pow2(n) == 2 * Pow2(n - 1) == (2 * q) * Pow2(m);
      MultipleMod(2 * q, Pow2(m));
    }
  }

  lemma {:induction false} MultipleMod(q: nat, d: nat)
    requires d > 0
    ensures (q * d) % d == 0 && (q * d) / d == q
  {
    QuotientIs(q * d, d, q, 0);
  }

  lemma {:induction false} AlignedPrefix(b: Bref, k: nat)
    requires Aligned(b)
    ensures Covers(b, k) <==> SamePrefix(b.key, k, b.keybits)
  {
    var d := Pow2(b.keybits);
    hide Pow2;
    var p, q := b.key / d, k / d;
    assert p < q ==> (p + 1) * d <= q * d;
    assert q < p ==> (q + 1) * d <= p * d;
  }

  /** Equal prefixes stay equal when more low bits are ignored. */
  lemma {:induction false} PrefixWidens(a: nat, b: nat, m: nat, n: nat)
    requires SamePrefix(a, b, m) && m <= n
    ensures SamePrefix(a, b, n)
    decreases n - m
  {
    if m < n {
      PrefixWidens(a, b, m, n - 1);
      HalfPrefix(a, n);
      HalfPrefix(b, n);
    }
  }

  lemma {:induction false} HalfPrefix(a: nat, n: nat)
    requires n > 0
    ensures a / Pow2(n) == a / Pow2(n - 1) / 2
  {
    var d := Pow2(n - 1);
    assert Pow2(n) == 2 * d;
    hide Pow2;
    var q, p := a / d, a / (2 * d);
    assert a == p * (2 * d) + a % (2 * d);
    TwoHalves(a, d);
  }

  lemma {:induction false} TwoHalves(a: nat, d: nat)
    requires d > 0
    ensures a / (2 * d) == a / d / 2
  {
    var q := a / d;
    var p := q / 2;
    assert a == q * d + a % d;
    assert q == 2 * p + q % 2;
    assert q * d == 2 * p * d + (q % 2) * d;
    assert 0 <= (q % 2) * d + a % d < 2 * d;
    assert a == p * (2 * d) + ((q % 2) * d + a % d);
    QuotientIs(a, 2 * d, p, (q % 2) * d + a % d);
  }

  lemma {:induction false} SmallMultiple(x: int, d: nat)
    requires 0 - d < x * d < d
    ensures x == 0
  {
    assert x >= 1 ==> x * d >= d;
    assert x <= -1 ==> x * d <= 0 - d;
  }

  lemma {:induction false} QuotientIs(a: nat, d: nat, p: nat, r: nat)
    requires d > 0 && a == p * d + r && r < d
    ensures a / d == p && a % d == r
  {
    assert (a / d - p) * d == r - a % d;
    SmallMultiple(a / d - p, d);
  }

  /** Aligned ranges nest or are disjoint. */
  lemma {:induction false} Nested(a: Bref, b: Bref)
    requires Aligned(a) && Aligned(b) && a.keybits <= b.keybits
    ensures Within(a, b) || Disjoint(a, b)
    ensures Within(a, b) <==> SamePrefix(a.key, b.key, b.keybits)
  {
    hide Aligned, SamePrefix;
    AlignedPrefix(b, a.key);
    AlignedPrefix(b, End(a) - 1);
    AlignedPrefix(a, End(a) - 1);
    PrefixWidens(a.key, End(a) - 1, a.keybits, b.keybits);
    PrefixTrans(b.key, a.key, End(a) - 1, b.keybits);
    Pow2Divides(a.keybits, b.keybits);
    hide Pow2;
  }

  lemma {:induction false} PrefixTrans(a: nat, b: nat, c: nat, n: nat)
    requires SamePrefix(b, c, n)
    ensures SamePrefix(a, b, n) <==> SamePrefix(a, c, n)
    ensures SamePrefix(a, b, n) <==> SamePrefix(b, a, n)
  {
  }

  // ---------------------------------------------------------- lookups

  predicate IsBlock(t: Tree) {
    t.bref.btype.INDIRECT?
  }

  /** The references a walk down from these elements reaches. */
  ghost function Leaves(kids: seq<Tree>): set<Bref> {
    if kids == [] then {} else LeavesOf(kids[0]) + Leaves(kids[1..])
  }

  ghost function LeavesOf(t: Tree): set<Bref> {
    if IsBlock(t) then Leaves(t.kids) else {t.bref}
  }

  /** Elements in ascending order on ranges of their own; below a block only what lies in its range. */
  ghost predicate WellFormed(kids: seq<Tree>) {
    && (forall i, j :: 0 <= i < j < |kids| ==> Before(kids[i].bref, kids[j].bref))
    && (forall i :: 0 <= i < |kids| ==> Aligned(kids[i].bref) && Fits(kids[i].bref) && WellFormedTree(kids[i]))
  }

  ghost predicate WellFormedTree(t: Tree) {
    IsBlock(t) ==> WellFormed(t.kids) && forall b :: b in Leaves(t.kids) ==> Within(b, t.bref)
  }

  /** Single-key lookup: the element covering the key, and on down through indirect blocks. */
  function Lookup(kids: seq<Tree>, k: nat): Option<Bref> {
    if kids == [] then None
    else if Covers(kids[0].bref, k) then
      if IsBlock(kids[0]) then Lookup(kids[0].kids, k) else Some(kids[0].bref)
    else Lookup(kids[1..], k)
  }

  lemma {:induction false} LeavesMember(kids: seq<Tree>, b: Bref)
    ensures b in Leaves(kids) <==> exists i :: 0 <= i < |kids| && b in LeavesOf(kids[i])
    decreases |kids|
  {
    hide LeavesOf;
    if kids != [] {
      LeavesMember(kids[1..], b);
      if i :| 0 <= i < |kids| && b in LeavesOf(kids[i]) {
        if i > 0 { assert kids[1..][i - 1] == kids[i]; }
      }
    }
  }

  lemma {:induction false} LeafWithin(t: Tree, b: Bref)
    requires WellFormedTree(t) && b in LeavesOf(t)
    ensures Within(b, t.bref)
  {
  }

  /** A lookup finds exactly the reachable reference that covers the key. */
  lemma {:induction false} LookupFindsLeaf(kids: seq<Tree>, k: nat, b: Bref)
    requires WellFormed(kids)
    ensures Lookup(kids, k) == Some(b) <==> b in Leaves(kids) && Covers(b, k)
    decreases kids
  {
    if kids != [] {
      LookupFindsLeaf(kids[1..], k, b);
      if IsBlock(kids[0]) { LookupFindsLeaf(kids[0].kids, k, b); }
      if b in LeavesOf(kids[0]) { LeafWithin(kids[0], b); }
      if b in Leaves(kids[1..]) {
        LeavesMember(kids[1..], b);
        var i :| 0 <= i < |kids[1..]| && b in LeavesOf(kids[1..][i]);
        assert WellFormedTree(kids[1..][i]);
        LeafWithin(kids[i + 1], b);
      }
    }
  }

  /** Trees that reach the same references answer every lookup alike. */
  lemma {:induction false} SameLeavesSameLookup(a: seq<Tree>, b: seq<Tree>, k: nat)
    requires WellFormed(a) && WellFormed(b) && Leaves(a) == Leaves(b)
    ensures Lookup(a, k) == Lookup(b, k)
  {
    if Lookup(a, k).Some? { LookupFindsLeaf(a, k, Lookup(a, k).value); LookupFindsLeaf(b, k, Lookup(a, k).value); }
    if Lookup(b, k).Some? { LookupFindsLeaf(a, k, Lookup(b, k).value); LookupFindsLeaf(b, k, Lookup(b, k).value); }
  }

  // ------------------------------------------------- rebuilding a node

  ghost predicate InOrder(kids: seq<Tree>) {
    forall i, j :: 0 <= i < j < |kids| ==> Before(kids[i].bref, kids[j].bref)
  }

  ghost predicate Element(t: Tree) {
    Aligned(t.bref) && Fits(t.bref) && WellFormedTree(t)
  }

  lemma {:induction false} WellFormedParts(kids: seq<Tree>)
    ensures WellFormed(kids) <==> InOrder(kids) && forall t :: t in kids ==> Element(t)
  {
    hide Before, Aligned, Fits, WellFormedTree;
    if forall t :: t in kids ==> Element(t) {
      assert forall i :: 0 <= i < |kids| ==> kids[i] in kids && Element(kids[i]);
    }
  }

  /** Nodes with the same elements reach the same references. */
  lemma {:induction false} LeavesOfSameElements(a: seq<Tree>, b: seq<Tree>)
    requires forall t :: t in a ==> t in b
    ensures Leaves(a) <= Leaves(b)
  {
    hide LeavesOf;
    forall x | x in Leaves(a) ensures x in Leaves(b) {
      LeavesMember(a, x);
      LeavesMember(b, x);
      var i :| 0 <= i < |a| && x in LeavesOf(a[i]);
      assert a[i] in b;
    }
  }

  /** Elements that join the new block, and elements that stay. */
  function Select(kids: seq<Tree>, r: Bref, joining: bool): seq<Tree> {
    if kids == [] then []
    else
      var n := |kids| - 1;
      Select(kids[..n], r, joining)
      + if SamePrefix(r.key, kids[n].bref.key, r.keybits) == joining then [kids[n]] else []
  }

  lemma {:induction false} SelectMembers(kids: seq<Tree>, r: Bref, joining: bool)
    ensures forall t :: t in Select(kids, r, joining) <==>
            t in kids && SamePrefix(r.key, t.bref.key, r.keybits) == joining
    ensures |Select(kids, r, true)| + |Select(kids, r, false)| == |kids|
    decreases |kids|
  {
    hide SamePrefix;
    if kids != [] {
      var n := |kids| - 1;
      SelectMembers(kids[..n], r, joining);
      assert kids == kids[..n] + [kids[n]];
    }
  }

  lemma {:induction false} SelectOrdered(kids: seq<Tree>, r: Bref, joining: bool)
    requires InOrder(kids)
    ensures InOrder(Select(kids, r, joining))
    decreases |kids|
  {
    hide SamePrefix, Before;
    if kids != [] {
      var n := |kids| - 1;
      SelectOrdered(kids[..n], r, joining);
      SelectMembers(kids[..n], r, joining);
      forall t | t in Select(kids[..n], r, joining) ensures Before(t.bref, kids[n].bref) {
        var i :| 0 <= i < n && kids[..n][i] == t;
        assert kids[i] == t;
      }
    }
  }

  /** Insert an element by key. */
  function InsertTree(kids: seq<Tree>, t: Tree): (r: seq<Tree>)
    ensures |r| == |kids| + 1
    ensures forall u :: u in r <==> u in kids || u == t
  {
    if kids == [] then [t]
    else if t.bref.key < kids[0].bref.key then [t] + kids
    else
      var rest := InsertTree(kids[1..], t);
      assert kids == [kids[0]] + kids[1..];
      [kids[0]] + rest
  }

  /** Insertion keeps the order exactly if the new range meets no other. */
  lemma {:induction false} InsertOrdered(kids: seq<Tree>, t: Tree)
    requires InOrder(kids)
    ensures InOrder(InsertTree(kids, t)) <==> forall u :: u in kids ==> Disjoint(u.bref, t.bref)
    decreases |kids|
  {
    if kids == [] {
    } else if t.bref.key < kids[0].bref.key {
      FrontOrdered(t, kids);
      assert forall u :: u in kids ==> t.bref.key < u.bref.key;
    } else {
      var rest := InsertTree(kids[1..], t);
      InsertOrdered(kids[1..], t);
      assert kids == [kids[0]] + kids[1..];
      assert forall u :: u in kids[1..] ==> Before(kids[0].bref, u.bref);
      assert t in rest;
      FrontOrdered(kids[0], rest);
      hide InOrder;
    }
  }

  lemma {:induction false} FrontOrdered(t: Tree, rest: seq<Tree>)
    ensures InOrder([t] + rest) <==> InOrder(rest) && forall u :: u in rest ==> Before(t.bref, u.bref)
  {
    hide Before;
    var r := [t] + rest;
    assert forall j :: 0 <= j < |rest| ==> r[j + 1] == rest[j];
    if InOrder(r) {
      forall i, j | 0 <= i < j < |rest| ensures Before(rest[i].bref, rest[j].bref) {
        assert r[i + 1] == rest[i] && r[j + 1] == rest[j];
      }
      forall u | u in rest ensures Before(t.bref, u.bref) {
        var j :| 0 <= j < |rest| && rest[j] == u;
        assert r[j + 1] == u && r[0] == t;
      }
    }
  }

  // ------------------------------------------------------------- split

  /** Move what matches the range `r` into a new block for it. */
  function Split(kids: seq<Tree>, r: Bref): seq<Tree> {
    InsertTree(Select(kids, r, false), Tree(r, Select(kids, r, true)))
  }

  /** An element inside the chosen range anchors it: no element straddles it or contains it. */
  lemma {:induction false} NoStraddle(e: Bref, f: Bref, r: Bref)
    requires Aligned(e) && Aligned(r) && Within(f, r) && (e == f || Disjoint(e, f))
    ensures SamePrefix(r.key, e.key, r.keybits) ==> Within(e, r)
    ensures !SamePrefix(r.key, e.key, r.keybits) ==> Disjoint(e, r)
  {
    if e.keybits <= r.keybits {
      Nested(e, r);
      PrefixTrans(r.key, e.key, e.key, r.keybits);
    } else {
      Nested(r, e);
      AlignedPrefix(r, e.key);
    }
  }

  /** The elements stay ordered, within their blocks, and reachable. */
  lemma {:induction false} SplitKeeps(kids: seq<Tree>, r: Bref, f: Tree)
    requires WellFormed(kids) && Aligned(r) && Fits(r) && r.btype.INDIRECT?
    requires f in kids && Within(f.bref, r)
    ensures WellFormed(Split(kids, r)) && Leaves(Split(kids, r)) == Leaves(kids)
    ensures |Split(kids, r)| == |kids| - |Select(kids, r, true)| + 1
  {
    hide Aligned, Fits, SamePrefix, WellFormedTree;
    var inner, outer := Select(kids, r, true), Select(kids, r, false);
    var block := Tree(r, inner);
    WellFormedParts(kids);
    SelectMembers(kids, r, true);
    SelectMembers(kids, r, false);
    forall t | t in kids
      ensures SamePrefix(r.key, t.bref.key, r.keybits) ==> Within(t.bref, r)
      ensures !SamePrefix(r.key, t.bref.key, r.keybits) ==> Disjoint(t.bref, r)
    {
      NoStraddle(t.bref, f.bref, r);
    }
    SelectOrdered(kids, r, true);
    SelectOrdered(kids, r, false);
    InsertOrdered(outer, block);
    WellFormedParts(inner);
    BlockElement(block);
    WellFormedParts(Split(kids, r));
    SplitLeaves(kids, r);
  }

  lemma {:induction false} BlockElement(block: Tree)
    requires IsBlock(block) && WellFormed(block.kids) && forall t :: t in block.kids ==> Within(t.bref, block.bref)
    ensures WellFormedTree(block)
  {
    forall b | b in Leaves(block.kids) ensures Within(b, block.bref) {
      LeavesMember(block.kids, b);
      var i :| 0 <= i < |block.kids| && b in LeavesOf(block.kids[i]);
      LeafWithin(block.kids[i], b);
    }
  }

  lemma {:induction false} SplitLeaves(kids: seq<Tree>, r: Bref)
    requires r.btype.INDIRECT?
    ensures Leaves(Split(kids, r)) == Leaves(kids)
  {
    hide LeavesOf, Leaves;
    var inner, outer := Select(kids, r, true), Select(kids, r, false);
    var block := Tree(r, inner);
    assert LeavesOf(block) == Leaves(inner) by { BlockLeaves(block); }
    SelectMembers(kids, r, true);
    SelectMembers(kids, r, false);
    LeavesOfSameElements(inner, kids);
    forall x ensures x in Leaves(Split(kids, r)) <==> x in Leaves(kids) {
      LeavesByElement(Split(kids, r), x);
      LeavesByElement(kids, x);
      LeavesByElement(inner, x);
      assert block in Split(kids, r);
    }
  }

  lemma {:induction false} BlockLeaves(block: Tree)
    requires IsBlock(block)
    ensures LeavesOf(block) == Leaves(block.kids)
  {
  }

  lemma {:induction false} LeavesByElement(kids: seq<Tree>, x: Bref)
    ensures x in Leaves(kids) <==> exists t :: t in kids && x in LeavesOf(t)
  {
    hide LeavesOf;
    LeavesMember(kids, x);
    if t :| t in kids && x in LeavesOf(t) {
      var i :| 0 <= i < |kids| && kids[i] == t;
      assert x in LeavesOf(kids[i]);
    }
  }

  // ---------------------------------------------------------- collapse

  function InsertAll(kids: seq<Tree>, subs: seq<Tree>): (r: seq<Tree>)
    ensures |r| == |kids| + |subs|
    ensures forall u :: u in r <==> u in kids || u in subs
  {
    if subs == [] then kids
    else
      var n := |subs| - 1;
      assert subs == subs[..n] + [subs[n]];
      InsertTree(InsertAll(kids, subs[..n]), subs[n])
  }

  ghost predicate ClearOf(kids: seq<Tree>, subs: seq<Tree>) {
    forall t, u :: t in kids && u in subs ==> Disjoint(t.bref, u.bref)
  }

  lemma {:induction false} OrderedPrefix(subs: seq<Tree>, n: nat)
    requires InOrder(subs) && n + 1 == |subs|
    ensures InOrder(subs[..n]) && forall u :: u in subs[..n] ==> Before(u.bref, subs[n].bref)
  {
  }

  lemma {:induction false} InsertAllOrdered(kids: seq<Tree>, subs: seq<Tree>)
    requires InOrder(kids) && InOrder(subs)
    ensures InOrder(InsertAll(kids, subs)) <==> ClearOf(kids, subs)
    decreases |subs|
  {
    if subs != [] {
      var n := |subs| - 1;
      var so := InsertAll(kids, subs[..n]);
      assert subs == subs[..n] + [subs[n]];
      OrderedPrefix(subs, n);
      assert forall u :: u in subs[..n] ==> Disjoint(u.bref, subs[n].bref);
      hide Before, Disjoint, InOrder;
      InsertAllOrdered(kids, subs[..n]);
      if InOrder(so) {
        InsertOrdered(so, subs[n]);
      } else if InOrder(InsertTree(so, subs[n])) {
        InsertUnordered(so, subs[n]);
      }
    }
  }

  /** Inserting into elements that are out of order does not put them in order. */
  lemma {:induction false} InsertUnordered(kids: seq<Tree>, t: Tree)
    requires InOrder(InsertTree(kids, t))
    ensures InOrder(kids)
    decreases |kids|
  {
    hide Before;
    if kids == [] {
    } else if t.bref.key < kids[0].bref.key {
      FrontOrdered(t, kids);
    } else {
      FrontOrdered(kids[0], InsertTree(kids[1..], t));
      InsertUnordered(kids[1..], t);
      FrontOrdered(kids[0], kids[1..]);
      assert kids == [kids[0]] + kids[1..];
    }
  }

  /** Remove indirect block `i` and put its elements in its place. */
  function Collapse(kids: seq<Tree>, i: nat): seq<Tree>
    requires i < |kids|
  {
    InsertAll(kids[..i] + kids[i + 1..], kids[i].kids)
  }

  /** Whether the block's elements stay clear of its siblings. */
  ghost predicate Clear(kids: seq<Tree>, i: nat)
    requires i < |kids|
  {
    ClearOf(kids[..i] + kids[i + 1..], kids[i].kids)
  }

  /**
    Collapsing keeps the node well formed exactly if the block's elements stay clear of its
    siblings; what can be reached never changes.
   */
  lemma {:induction false} CollapseKeeps(kids: seq<Tree>, i: nat)
    requires WellFormed(kids) && i < |kids| && IsBlock(kids[i])
    ensures WellFormed(Collapse(kids, i)) <==> Clear(kids, i)
    ensures Leaves(Collapse(kids, i)) == Leaves(kids)
    ensures |Collapse(kids, i)| == |kids| + |kids[i].kids| - 1
  {
    hide Aligned, Fits, Before, LeavesOf, Leaves;
    var rest := kids[..i] + kids[i + 1..];
    assert kids == kids[..i] + [kids[i]] + kids[i + 1..];
    assert forall t :: t in kids <==> t in rest || t == kids[i];
    WellFormedParts(kids);
    WellFormedParts(kids[i].kids);
    assert InOrder(rest);
    InsertAllOrdered(rest, kids[i].kids);
    WellFormedParts(Collapse(kids, i));
    forall x ensures x in Leaves(Collapse(kids, i)) <==> x in Leaves(kids) {
      LeavesByElement(Collapse(kids, i), x);
      LeavesByElement(kids, x);
      LeavesByElement(kids[i].kids, x);
      BlockLeaves(kids[i]);
    }
  }

  /** Elements inside the block's own range are clear of its siblings. */
  lemma {:induction false} InsideIsClear(kids: seq<Tree>, i: nat)
    requires WellFormed(kids) && i < |kids| && forall u :: u in kids[i].kids ==> Within(u.bref, kids[i].bref)
    ensures Clear(kids, i)
  {
  }
}
