/**
  The key range of a file's new indirect block, and of a freemap node's: the range of a fixed
  radix above the smallest element.
 */
module FileKey {
  import opened Prelude
  import opened BlockTable
  import opened RadixTree
  import opened DirectoryKey

  /** The element by which the range is chosen: least radix, and of these the least key. */
  ghost predicate Smallest(kids: seq<Tree>, i: nat) {
    i < |kids| && forall t :: t in kids ==>
      kids[i].bref.keybits < t.bref.keybits ||
        (kids[i].bref.keybits == t.bref.keybits && kids[i].bref.key <= t.bref.key)
  }

  /** Another element shares the range chosen for element `f`. */
  ghost predicate Accompanied(kids: seq<Tree>, r: Bref, f: nat)
    requires f < |kids|
  {
    exists t :: t in kids && t != kids[f] && SamePrefix(r.key, t.bref.key, r.keybits)
  }

  /** The split frees a slot exactly if the new block takes an element besides the one it was made for. */
  lemma {:induction false} SplitFrees(kids: seq<Tree>, r: Bref, f: nat)
    requires WellFormed(kids) && Aligned(r) && Fits(r) && r.btype.INDIRECT? && f < |kids|
    requires Within(kids[f].bref, r) && kids[f].bref.keybits <= r.keybits
    ensures |Select(kids, r, true)| >= 1 && |Split(kids, r)| <= |kids|
    ensures |Split(kids, r)| < |kids| <==> Accompanied(kids, r, f)
  {
    WellFormedParts(kids);
    assert kids[f] in kids;
    SplitKeeps(kids, r, kids[f]);
    SelectMembers(kids, r, true);
    SelectOrdered(kids, r, true);
    SharesPrefix(kids[f].bref, r);
    var inner := Select(kids, r, true);
    hide SamePrefix, WellFormed, Element, Split, Select, Aligned, Fits, Within;
    assert kids[f] in inner;
    if |inner| >= 2 {
      assert Before(inner[0].bref, inner[1].bref);
      assert inner[0] in inner && inner[1] in inner && inner[0] != inner[1];
    }
  }

  lemma {:induction false} SharesPrefix(f: Bref, r: Bref)
    requires Aligned(f) && Aligned(r) && Within(f, r) && f.keybits <= r.keybits
    ensures SamePrefix(r.key, f.key, r.keybits)
  {
    Nested(f, r);
    PrefixTrans(f.key, r.key, r.key, r.keybits);
  }

  lemma {:induction false} AboveElement(f: Bref, n: nat)
    requires Aligned(f) && Fits(f) && f.keybits <= n <= 63
    ensures var r := Bref(INDIRECT, DirectoryKey.Down(f.key, Pow2(n)), n, 0, 0, 0, 0);
            Aligned(r) && Fits(r) && Within(f, r)
  {
    var r := Bref(INDIRECT, DirectoryKey.Down(f.key, Pow2(n)), n, 0, 0, 0, 0);
    TopRange(f.key, n);
    MultipleMod(f.key / Pow2(n), Pow2(n));
    Nested(f, r);
  }

  /**
    The range for the new block: `nradix` above the smallest element, and around it whenever a
    64-bit key has room for a radix that large.
   */
  method IndkeyFile(kids: seq<Tree>, create: nat, nradix: nat) returns (r: Bref, ghost f: nat)
    requires kids != [] && forall t :: t in kids ==> Aligned(t.bref) && Fits(t.bref) && t.bref.keybits <= 63
    ensures Smallest(kids, f) && r.btype.INDIRECT? && r.keybits == kids[f].bref.keybits + nradix
    ensures r.keybits <= 63 ==> Aligned(r) && Fits(r) && Within(kids[f].bref, r)
  {
    var key, keybits := create, 64;
    f := 0;
    for j := 0 to |kids|
      invariant if j == 0 then keybits == 64 else f < j && keybits == kids[f].bref.keybits && key == kids[f].bref.key
      invariant j > 0 ==> Smallest(kids[..j], f)
    {
      assert kids[j] in kids && kids[..j + 1] == kids[..j] + [kids[j]];
      var bref := kids[j].bref;
      if keybits > bref.keybits || (keybits == bref.keybits && bref.key < key) {
        key, keybits, f := bref.key, bref.keybits, j;
      }
    }
    assert kids[..|kids|] == kids && kids[f] in kids;
    r := Bref(INDIRECT, DirectoryKey.Down(key, Pow2(keybits + nradix)), keybits + nradix, 0, 0, 0, 0);
    if keybits + nradix <= 63 { AboveElement(kids[f].bref, keybits + nradix); }
  }
}
