/**
  Restructuring the radix tree: choosing the range of a new indirect block, moving elements
  into it, and emptying a sparse block into its parent.
 */
module Indirect {
  import opened Prelude
  import opened BlockTable
  import opened ChainScan
  import opened RadixTree
  import opened DirectoryKey
  import opened FileKey

  // ------------------------------------------------- anywhere in a tree

  /** A path of indirect blocks from the inode's own node. */
  predicate IsPath(kids: seq<Tree>, path: seq<nat>)
    decreases |path|
  {
    path == [] || (path[0] < |kids| && IsBlock(kids[path[0]]) && IsPath(kids[path[0]].kids, path[1..]))
  }

  function NodeAt(kids: seq<Tree>, path: seq<nat>): seq<Tree>
    requires IsPath(kids, path)
    decreases |path|
  {
    if path == [] then kids else NodeAt(kids[path[0]].kids, path[1..])
  }

  function ReplaceAt(kids: seq<Tree>, path: seq<nat>, node: seq<Tree>): seq<Tree>
    requires IsPath(kids, path)
    decreases |path|
  {
    if path == [] then node
    else kids[path[0] := Tree(kids[path[0]].bref, ReplaceAt(kids[path[0]].kids, path[1..], node))]
  }

  lemma {:induction false} NodeAtWellFormed(kids: seq<Tree>, path: seq<nat>)
    requires WellFormed(kids) && IsPath(kids, path)
    ensures WellFormed(NodeAt(kids, path))
    decreases |path|
  {
    if path != [] {
      assert WellFormedTree(kids[path[0]]);
      NodeAtWellFormed(kids[path[0]].kids, path[1..]);
    }
  }

  /** A node may be exchanged for one that reaches the same references. */
  lemma {:induction false} ReplaceKeeps(kids: seq<Tree>, path: seq<nat>, node: seq<Tree>)
    requires WellFormed(kids) && IsPath(kids, path)
    requires WellFormed(node) && Leaves(node) == Leaves(NodeAt(kids, path))
    ensures WellFormed(ReplaceAt(kids, path, node)) && Leaves(ReplaceAt(kids, path, node)) == Leaves(kids)
    decreases |path|
  {
    hide Leaves, LeavesOf;
    if path != [] {
      var i := path[0];
      assert WellFormedTree(kids[i]);
      ReplaceKeeps(kids[i].kids, path[1..], node);
      var t := Tree(kids[i].bref, ReplaceAt(kids[i].kids, path[1..], node));
      BlockLeaves(t);
      BlockLeaves(kids[i]);
      assert WellFormedTree(t);
      SwapElement(kids, i, t);
    }
  }

  lemma {:induction false} SwapElement(kids: seq<Tree>, i: nat, t: Tree)
    requires i < |kids| && LeavesOf(t) == LeavesOf(kids[i])
    ensures Leaves(kids[i := t]) == Leaves(kids)
  {
    hide Leaves, LeavesOf;
    forall x ensures x in Leaves(kids[i := t]) <==> x in Leaves(kids) {
      LeavesMember(kids[i := t], x);
      LeavesMember(kids, x);
      if j :| 0 <= j < |kids| && x in LeavesOf(kids[j]) { assert x in LeavesOf(kids[i := t][j]); }
      var r := kids[i := t];
      if j :| 0 <= j < |r| && x in LeavesOf(r[j]) { assert x in LeavesOf(kids[j]); }
    }
  }

  /** Splitting any node below an inode changes no lookup from the inode. */
  lemma {:induction false} SplitPreservesLookup(root: seq<Tree>, path: seq<nat>, r: Bref, f: Tree, k: nat)
    requires WellFormed(root) && IsPath(root, path)
    requires Aligned(r) && Fits(r) && r.btype.INDIRECT? && f in NodeAt(root, path) && Within(f.bref, r)
    ensures WellFormed(ReplaceAt(root, path, Split(NodeAt(root, path), r)))
    ensures Lookup(ReplaceAt(root, path, Split(NodeAt(root, path), r)), k) == Lookup(root, k)
  {
    hide Lookup, Split, WellFormed, Leaves;
    var node := NodeAt(root, path);
    NodeAtWellFormed(root, path);
    SplitKeeps(node, r, f);
    ReplaceKeeps(root, path, Split(node, r));
    SameLeavesSameLookup(ReplaceAt(root, path, Split(node, r)), root, k);
  }

  /** Collapsing any block whose elements are clear of its siblings changes no lookup. */
  lemma {:induction false} CollapsePreservesLookup(root: seq<Tree>, path: seq<nat>, i: nat, k: nat)
    requires WellFormed(root) && IsPath(root, path) && i < |NodeAt(root, path)|
    requires IsBlock(NodeAt(root, path)[i]) && Clear(NodeAt(root, path), i)
    ensures WellFormed(ReplaceAt(root, path, Collapse(NodeAt(root, path), i)))
    ensures Lookup(ReplaceAt(root, path, Collapse(NodeAt(root, path), i)), k) == Lookup(root, k)
  {
    hide Lookup, Collapse, WellFormed, Leaves, Clear;
    var node := NodeAt(root, path);
    NodeAtWellFormed(root, path);
    CollapseKeeps(node, i);
    ReplaceKeeps(root, path, Collapse(node, i));
    SameLeavesSameLookup(ReplaceAt(root, path, Collapse(node, i)), root, k);
  }

  // ----------------------------------------------------------- one node

  class Node {
    const bref: Bref
    const count: nat
    var kids: seq<Tree>

    constructor (bref: Bref, count: nat)
      ensures this.bref == bref && this.count == count && kids == []
    {
      this.bref := bref;
      this.count := count;
      kids := [];
    }

    /** The first element not wholly before the key. */
    method Next(from: nat) returns (i: nat)
      ensures i <= |kids| && (i < |kids| ==> from < End(kids[i].bref))
      ensures forall j :: 0 <= j < i ==> End(kids[j].bref) <= from
    {
      i := 0;
      while i < |kids| && End(kids[i].bref) <= from
        invariant i <= |kids| && forall j :: 0 <= j < i ==> End(kids[j].bref) <= from
      {
        i := i + 1;
      }
    }

    /** Delete the element at `i` from the node. */
    method Remove(i: nat) returns (t: Tree)
      requires i < |kids|
      modifies this`kids
      ensures t == old(kids)[i] && kids == Without(old(kids), i)
    {
      t := kids[i];
      kids := Without(kids, i);
    }

    /**
      Move the elements of the new block's range into it, one by one in key order, then insert
      the block.
     */
    method CreateIndirect(ichain: Node)
      requires ichain != this && ichain.kids == []
      requires InOrder(kids) && AllFit(kids)
      modifies this`kids, ichain`kids
      ensures ichain.kids == Select(old(kids), ichain.bref, true)
      ensures kids == Split(old(kids), ichain.bref)
    {
      hide InOrder, AllFit, Select, InsertTree;
      MoveMatching(ichain);
      kids := InsertTree(kids, Tree(ichain.bref, ichain.kids));
    }

    method MoveMatching(ichain: Node)
      requires ichain != this && ichain.kids == []
      requires InOrder(kids) && AllFit(kids)
      modifies this`kids, ichain`kids
      ensures ichain.kids == Select(old(kids), ichain.bref, true)
      ensures kids == Select(old(kids), ichain.bref, false)
    {
      ghost var was, p := kids, 0;
      var keyBeg, done := 0, false;
      hide SamePrefix, Select, InOrder, Moved, AllFit, End, Word;
      while !done
        invariant p <= |was| && Moved(was, p, kids, ichain.kids, ichain.bref)
        invariant if done then p == |was| else Reached(was, p, keyBeg)
        decreases |was| - p, !done
      {
        done, keyBeg, p := MoveNext(ichain, keyBeg, was, p);
      }
      MovedAll(was, p, kids, ichain.kids, ichain.bref);
    }

    /** One turn of the scan: the next element joins the new block or stays. */
    method MoveNext(ichain: Node, keyBeg: nat, ghost was: seq<Tree>, ghost p: nat)
      returns (done: bool, keyNext: nat, ghost q: nat)
      requires ichain != this && InOrder(was) && AllFit(was) && Reached(was, p, keyBeg)
      requires Moved(was, p, kids, ichain.kids, ichain.bref)
      modifies this`kids, ichain`kids
      ensures p <= q <= |was| && Moved(was, q, kids, ichain.kids, ichain.bref)
      ensures if done then q == |was| else p < q && Reached(was, q, keyNext)
    {
      hide SamePrefix, Select, InOrder, Moved, AllFit, End, Word, Without;
      var i := Next(keyBeg);
      Resume(was, p, kids, ichain.kids, ichain.bref, keyBeg, i);
      if i == |kids| { return true, 0, p; }
      keyNext := Word(End(kids[i].bref));
      if SamePrefix(ichain.bref.key, kids[i].bref.key, ichain.bref.keybits) {
        var t := Remove(i);
        ichain.kids := ichain.kids + [t];
      }
      done, q := keyNext == 0, p + 1;
    }

    /**
      Split a full directory node: no lookup changes, a slot comes free, and the new block has
      room for what it takes.
     */
    method SplitDirectory(create: Bref, ncount: nat) returns (ichain: Node)
      requires WellFormed(kids) && |kids| == count >= 4 && count <= ncount <= 0x1_0000
      requires Aligned(create) && Fits(create) && create.keybits <= 63
      requires forall t :: t in kids ==> Candidate(t, create)
      modifies this`kids
      ensures fresh(ichain) && |ichain.kids| <= ichain.count == ncount && Pow2(ichain.bref.keybits) >= ncount
      ensures HalfChosen(old(kids), create.key, ichain.bref, ncount) && Aligned(ichain.bref)
      ensures |kids| < count && WellFormed(kids)
      ensures forall k :: Lookup(kids, k) == Lookup(old(kids), k)
      ensures kids == Split(old(kids), ichain.bref) && ichain.kids == Select(old(kids), ichain.bref, true)
    {
      var r := IndkeyDir(kids, create, ncount);
      ichain := new Node(r, ncount);
      ghost var was := kids;
      WellFormedParts(kids);
      hide WellFormed, Element, Lookup, Select, Split, SamePrefix, Aligned, Fits, Candidate, Leaves, Pow2,
           HalfChosen;
      SelectMembers(was, r, true);
      ghost var f := Select(was, r, true)[0];
      assert f in Select(was, r, true);
      SplitKeeps(was, r, f);
      DirectoryGainsSlot(was, r);
      CreateIndirect(ichain);
      forall k ensures Lookup(kids, k) == Lookup(was, k) { SameLeavesSameLookup(kids, was, k); }
    }

    /**
      Split a full file or freemap node: no lookup changes.  A slot comes free exactly if the
      range around the smallest element `f` has another element in it.
     */
    method SplitFile(create: nat, nradix: nat, ncount: nat) returns (ichain: Node, ghost f: nat)
      requires WellFormed(kids) && kids != [] && |kids| == count <= ncount
      requires forall t :: t in kids ==> t.bref.keybits <= 63
      requires forall f: nat :: Smallest(kids, f) ==> kids[f].bref.keybits + nradix <= 63
      modifies this`kids
      ensures fresh(ichain) && 1 <= |ichain.kids| <= ichain.count == ncount && WellFormed(kids)
      ensures Smallest(old(kids), f) && ichain.bref.keybits == old(kids)[f].bref.keybits + nradix
      ensures Within(old(kids)[f].bref, ichain.bref) && Aligned(ichain.bref)
      ensures |kids| <= count && (|kids| < count <==> Accompanied(old(kids), ichain.bref, f))
      ensures forall k :: Lookup(kids, k) == Lookup(old(kids), k)
      ensures kids == Split(old(kids), ichain.bref) && ichain.kids == Select(old(kids), ichain.bref, true)
    {
      WellFormedParts(kids);
      var r;
      r, f := IndkeyFile(kids, create, nradix);
      ichain := new Node(r, ncount);
      ghost var was := kids;
      assert kids[f] in kids;
      SplitFrees(was, r, f);
      SplitKeeps(was, r, was[f]);
      hide WellFormed, Element, Lookup, Select, Split, SamePrefix, Aligned, Fits, Leaves, Pow2, Accompanied;
      CreateIndirect(ichain);
      forall k ensures Lookup(kids, k) == Lookup(was, k) { SameLeavesSameLookup(kids, was, k); }
    }

    /**
      Collapse sparse indirect block `chain`, element `i` of this node, into the node if its
      elements fit and it is at most three quarters full; delete it if it is empty.
     */
    method Maintenance(chain: Node, i: nat) returns (gone: bool)
      requires chain != this && i < |kids| && kids[i] == Tree(chain.bref, chain.kids)
      requires InOrder(chain.kids) && AllFit(chain.kids)
      modifies this`kids, chain`kids
      ensures gone <==> |old(chain.kids)| == 0
                        || (|old(kids)| + |old(chain.kids)| - 1 <= count && |old(chain.kids)| <= chain.count * 3 / 4)
      ensures gone ==> kids == Collapse(old(kids), i) && chain.kids == []
      ensures !gone ==> kids == old(kids) && chain.kids == old(chain.kids)
    {
      if |chain.kids| == 0 {
        var t := Remove(i);
        return true;
      }
      if |kids| + |chain.kids| - 1 > count { return false; }
      if |chain.kids| > chain.count * 3 / 4 { return false; }
      ghost var sub, rest := chain.kids, Without(kids, i);
      var _ := Remove(i);
      TakeAll(chain);
      return true;
    }

    /** Move every element of the block here, in key order. */
    method TakeAll(chain: Node)
      requires chain != this && InOrder(chain.kids) && AllFit(chain.kids)
      modifies this`kids, chain`kids
      ensures kids == InsertAll(old(kids), old(chain.kids)) && chain.kids == []
    {
      ghost var rest, sub, p := kids, chain.kids, 0;
      var keyBeg, done := 0, false;
      assert sub[..0] == [] && sub[0..] == sub;
      hide InOrder, AllFit, End, Word;
      while !done
        invariant p <= |sub| && chain.kids == sub[p..] && kids == InsertAll(rest, sub[..p])
        invariant if done then p == |sub| else Reached(sub, p, keyBeg)
        decreases |sub| - p, !done
      {
        done, keyBeg, p := TakeNext(chain, keyBeg, rest, sub, p);
      }
      assert sub[..p] == sub;
    }

    method TakeNext(chain: Node, keyBeg: nat, ghost rest: seq<Tree>, ghost sub: seq<Tree>, ghost p: nat)
      returns (done: bool, keyNext: nat, ghost q: nat)
      requires chain != this && InOrder(sub) && AllFit(sub) && Reached(sub, p, keyBeg)
      requires chain.kids == sub[p..] && kids == InsertAll(rest, sub[..p])
      modifies this`kids, chain`kids
      ensures p <= q <= |sub| && chain.kids == sub[q..] && kids == InsertAll(rest, sub[..q])
      ensures if done then q == |sub| else p < q && Reached(sub, q, keyNext)
    {
      hide InOrder, AllFit, End, Word, InsertAll;
      var i := chain.Next(keyBeg);
      Resumed(rest, sub, p, keyBeg, i);
      if i == |chain.kids| { return true, 0, p; }
      keyNext := Word(End(chain.kids[i].bref));
      var t := chain.Remove(i);
      kids := InsertTree(kids, t);
      done, q := keyNext == 0, p + 1;
    }
  }

  lemma {:induction false} Resumed(rest: seq<Tree>, sub: seq<Tree>, p: nat, keyBeg: nat, i: nat)
    requires InOrder(sub) && AllFit(sub) && Reached(sub, p, keyBeg) && i <= |sub| - p
    requires i < |sub| - p ==> keyBeg < End(sub[p + i].bref)
    requires forall j :: 0 <= j < i ==> End(sub[p..][j].bref) <= keyBeg
    ensures i == |sub| - p ==> p == |sub|
    ensures i < |sub| - p ==>
              && i == 0 && Without(sub[p..], 0) == sub[p + 1..]
              && (Word(End(sub[p].bref)) == 0 || Word(End(sub[p].bref)) == End(sub[p].bref))
              && (Word(End(sub[p].bref)) == 0 ==> p + 1 == |sub|)
              && InsertAll(rest, sub[..p + 1]) == InsertTree(InsertAll(rest, sub[..p]), sub[p])
  {
    Position(sub, p, sub[p..], 0, keyBeg, i);
    hide InOrder;
    if p < |sub| {
      assert sub[..p + 1][..p] == sub[..p];
      assert sub[p] in sub;
      if End(sub[p].bref) == KEYS { LastElement(sub, p + 1); }
    }
  }

  /** The scan stands right behind the first `p` elements. */
  ghost predicate Reached(was: seq<Tree>, p: nat, keyBeg: nat) {
    p <= |was| && keyBeg == if p == 0 then 0 else End(was[p - 1].bref)
  }

  lemma {:induction false} MovedAll(was: seq<Tree>, p: nat, kids: seq<Tree>, moved: seq<Tree>, r: Bref)
    requires Moved(was, p, kids, moved, r) && p == |was|
    ensures kids == Select(was, r, false) && moved == Select(was, r, true)
  {
    assert was[..p] == was;
  }

  /** What the scan finds next, and what dealing with it means. */
  lemma {:induction false} Resume(was: seq<Tree>, p: nat, kids: seq<Tree>, moved: seq<Tree>, r: Bref, keyBeg: nat,
                                  i: nat)
    requires Moved(was, p, kids, moved, r) && InOrder(was) && AllFit(was)
    requires Reached(was, p, keyBeg)
    requires i <= |kids| && (i < |kids| ==> keyBeg < End(kids[i].bref))
    requires forall j :: 0 <= j < i ==> End(kids[j].bref) <= keyBeg
    ensures i == |kids| ==> p == |was|
    ensures i < |kids| ==>
              && p < |was| && kids[i] == was[p] && Fits(kids[i].bref)
              && (End(kids[i].bref) == KEYS ==> p + 1 == |was|)
              && (Word(End(kids[i].bref)) == 0 || Word(End(kids[i].bref)) == End(kids[i].bref) < KEYS)
              && (Word(End(kids[i].bref)) == 0 ==> p + 1 == |was|)
              && if SamePrefix(r.key, kids[i].bref.key, r.keybits)
                 then Moved(was, p + 1, Without(kids, i), moved + [kids[i]], r)
                 else Moved(was, p + 1, kids, moved, r)
  {
    hide SamePrefix, Select, Moved, Without;
    EarlierEnd(was, p, kids, moved, r);
    Position(was, p, kids, |Select(was[..p], r, false)|, keyBeg, i);
    hide InOrder;
    if p < |was| {
      MovedStep(was, p, kids, moved, r);
      assert was[p] in was;
      if End(was[p].bref) == KEYS { LastElement(was, p + 1); }
    }
  }

  /** A key as the machine holds it. */
  function Word(k: nat): nat {
    k % KEYS
  }

  function Without(kids: seq<Tree>, i: nat): seq<Tree>
    requires i < |kids|
  {
    kids[..i] + kids[i + 1..]
  }

  ghost predicate AllFit(kids: seq<Tree>) {
    forall t :: t in kids ==> Fits(t.bref)
  }

  /** The first `p` elements have been dealt with. */
  ghost predicate Moved(was: seq<Tree>, p: nat, kids: seq<Tree>, moved: seq<Tree>, r: Bref) {
    && p <= |was|
    && kids == Select(was[..p], r, false) + was[p..]
    && moved == Select(was[..p], r, true)
  }

  lemma {:induction false} MovedStep(was: seq<Tree>, p: nat, kids: seq<Tree>, moved: seq<Tree>, r: Bref)
    requires Moved(was, p, kids, moved, r) && p < |was|
    ensures var i := |Select(was[..p], r, false)|;
            && i < |kids| && kids[i] == was[p]
            && if SamePrefix(r.key, was[p].bref.key, r.keybits)
               then Moved(was, p + 1, Without(kids, i), moved + [kids[i]], r)
               else Moved(was, p + 1, kids, moved, r)
  {
    hide SamePrefix;
    assert was[..p + 1][..p] == was[..p];
  }

  lemma {:induction false} LastElement(was: seq<Tree>, p: nat)
    requires InOrder(was) && 0 < p <= |was| && AllFit(was) && End(was[p - 1].bref) == KEYS
    ensures p == |was|
  {
    assert was[p - 1] in was;
    var next := was[if p < |was| then p else p - 1];
    assert next in was;
  }

  lemma {:induction false} EarlierEnd(was: seq<Tree>, p: nat, kids: seq<Tree>, moved: seq<Tree>, r: Bref)
    requires InOrder(was) && Moved(was, p, kids, moved, r)
    ensures var kept := |Select(was[..p], r, false)|;
            && kept <= |kids| && kids[kept..] == was[p..]
            && forall j :: 0 <= j < kept ==> p > 0 && End(kids[j].bref) <= End(was[p - 1].bref)
  {
    SelectMembers(was[..p], r, false);
    var stay := Select(was[..p], r, false);
    forall j | 0 <= j < |stay| ensures p > 0 && End(kids[j].bref) <= End(was[p - 1].bref) {
      assert kids[j] == stay[j] && stay[j] in stay;
    }
  }

  /** The search resumes at the next element of the original node. */
  lemma {:induction false} Position(was: seq<Tree>, p: nat, kids: seq<Tree>, kept: nat, keyBeg: nat, i: nat)
    requires InOrder(was) && p <= |was| && kept <= |kids| && kids[kept..] == was[p..]
    requires forall j :: 0 <= j < kept ==> End(kids[j].bref) <= keyBeg
    requires keyBeg == if p == 0 then 0 else End(was[p - 1].bref)
    requires i <= |kids| && (i < |kids| ==> keyBeg < End(kids[i].bref))
    requires forall j :: 0 <= j < i ==> End(kids[j].bref) <= keyBeg
    ensures i == kept && (i < |kids| ==> p < |was| && kids[i] == was[p]) && (i == |kids| ==> p == |was|)
  {
  }

  const SET_COUNT: nat := 4         // slots of an inode, the smallest node
  const IND_COUNT_MIN: nat := 32    // slots of the smallest indirect block
  const IND_RADIX_NOM: nat := 14    // the size of a file's indirect blocks, 16384 bytes
  const BLOCKREF_RADIX: nat := 7    // a slot's size of 128 bytes

  /**
    A block may be wider than the block that holds it, since its range is widened to the
    number of its slots: here block [0, 64) holds block [0, 128), and key 100 lies beside it.
   */
  function WideBlock(): seq<Tree> {
    var leaf := Tree(Bref(DIRENT, 0, 0, 0, 0, 0, 0), []);
    var wide := Tree(Bref(INDIRECT, 0, 7, 0, 0, 0, 0), [leaf]);
    [Tree(Bref(INDIRECT, 0, 6, 0, 0, 0, 0), [wide]), Tree(Bref(DIRENT, 100, 0, 0, 0, 0, 0), [])]
  }

  /** Collapsing the holder then puts the wide block across a sibling, and maintenance does collapse it. */
  lemma {:induction false} WideBlockCollides()
    ensures var kids := WideBlock();
            && |kids| == 2 && IsBlock(kids[0]) && |kids[0].kids| == 1
            && |kids| + |kids[0].kids| - 1 <= SET_COUNT && |kids[0].kids| <= IND_COUNT_MIN * 3 / 4
            && WellFormed(kids) && !WellFormed(Collapse(kids, 0))
  {
    var kids := WideBlock();
    var block, other := kids[0], kids[1];
    var wide := block.kids[0];
    assert Pow2(6) == 64 && Pow2(7) == 128 && Pow2(0) == 1;
    hide Leaves, WellFormed, Pow2, Collapse;
    BlockLeaves(wide);
    assert WellFormed(kids) by { Pair(block, other); }
    assert (kids[..0] + kids[1..])[0] == other;
    assert !Clear(kids, 0) by { assert other in kids[..0] + kids[1..] && wide in kids[0].kids; }
    CollapseKeeps(kids, 0);
  }

  const GIGABYTE: nat := 0x4000_0000

  /** A full inode of a sparse file: four blocks of 64KB, each a gigabyte after the one before. */
  function SparseFile(): seq<Tree> {
    [SparseBlock(0), SparseBlock(1), SparseBlock(2), SparseBlock(3)]
  }

  function SparseBlock(i: nat): Tree {
    Tree(Bref(DATA, i * GIGABYTE, 16, 0, 0, 0, 0), [])
  }

  lemma {:induction false} SparseRadices()
    ensures Pow2(16) == 0x1_0000 && Pow2(23) == 0x80_0000
  {
    assert Pow2(4) == 16;
    Pow2Add(4, 4);
    Pow2Add(8, 8);
    Pow2Add(16, 4);
    assert Pow2(3) == 8;
    Pow2Add(20, 3);
  }

  lemma {:induction false} SparseElement(i: nat)
    requires i < SET_COUNT
    ensures Element(SparseBlock(i)) && Within(SparseBlock(0).bref, Bref(INDIRECT, 0, 23, 0, 0, 0, 0))
    ensures SamePrefix(0, SparseBlock(i).bref.key, 23) ==> i == 0
    ensures forall j: nat :: i < j < SET_COUNT ==> Before(SparseBlock(i).bref, SparseBlock(j).bref)
  {
    SparseRadices();
    hide Pow2;
    match i case 0 => case 1 => case 2 => case _ =>
  }

  lemma {:induction false} SparseWellFormed()
    ensures WellFormed(SparseFile()) && Smallest(SparseFile(), 0)
  {
    var kids := SparseFile();
    forall t | t in kids ensures Element(t) && exists i: nat :: i < SET_COUNT && t == SparseBlock(i) {
      var i: nat :| i < SET_COUNT && kids[i] == t;
      assert t == SparseBlock(i);
      SparseElement(i);
    }
    hide Element, Before;
    forall i: nat, j: nat | i < j < SET_COUNT ensures Before(kids[i].bref, kids[j].bref) {
      assert kids[i] == SparseBlock(i) && kids[j] == SparseBlock(j);
      SparseElement(i);
    }
    WellFormedParts(kids);
  }

  /** Its split gives the first block an indirect block of its own, and frees no slot. */
  lemma {:induction false} SparseSplitFreesNothing()
    ensures var kids, r := SparseFile(), Bref(INDIRECT, 0, 16 + IND_RADIX_NOM - BLOCKREF_RADIX, 0, 0, 0, 0);
            && |kids| == SET_COUNT && WellFormed(kids) && Smallest(kids, 0) && Within(kids[0].bref, r)
            && |Split(kids, r)| == |kids|
  {
    var kids, r := SparseFile(), Bref(INDIRECT, 0, 23, 0, 0, 0, 0);
    SparseWellFormed();
    assert Aligned(r) && Fits(r) by { SparseRadices(); }
    hide Pow2, Split, WellFormed, Element, Aligned, Fits, Within, SamePrefix, Before, Smallest, Accompanied;
    SparseElement(0);
    SplitFrees(kids, r, 0);
    FirstAlone();
  }

  lemma {:induction false} FirstAlone()
    ensures !Accompanied(SparseFile(), Bref(INDIRECT, 0, 23, 0, 0, 0, 0), 0)
  {
    hide Pow2, Element, Within, SamePrefix, Before;
    forall i: nat | i < SET_COUNT ensures SamePrefix(0, SparseBlock(i).bref.key, 23) ==> i == 0 { SparseElement(i); }
  }

  lemma {:induction false} Pair(a: Tree, b: Tree)
    requires Element(a) && Element(b) && Before(a.bref, b.bref)
    ensures WellFormed([a, b])
  {
  }
}
