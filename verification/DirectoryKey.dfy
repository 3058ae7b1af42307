/**
  The key range of a directory's new indirect block: the smallest aligned range around all
  elements and the new key, halved, on the side that holds more elements.
 */
module DirectoryKey {
  import opened Prelude
  import opened BlockTable
  import opened RadixTree

  predicate Bit(k: nat, n: nat) {
    k / Pow2(n) % 2 == 1
  }

  lemma {:induction false} Pow2Add(a: nat, b: nat)
    ensures Pow2(a + b) == Pow2(a) * Pow2(b)
    decreases b
  {
    if b > 0 { Pow2Add(a, b - 1); }
  }

  lemma {:induction false} Pow2Word()
    ensures Pow2(16) == 0x1_0000 && Pow2(64) == KEYS
  {
    assert Pow2(8) == 256;
    Pow2Add(8, 8);
    Pow2Add(16, 16);
    Pow2Add(32, 32);
  }

  lemma {:induction false} WordPrefix(a: nat, b: nat)
    requires a < KEYS && b < KEYS
    ensures SamePrefix(a, b, 64)
  {
    Pow2Word();
    QuotientIs(a, KEYS, 0, a);
    QuotientIs(b, KEYS, 0, b);
  }

  /** Equal prefixes one bit up: the prefixes here agree exactly if the bit does. */
  lemma {:induction false} PrefixBit(a: nat, b: nat, n: nat)
    requires SamePrefix(a, b, n + 1)
    ensures SamePrefix(a, b, n) <==> (Bit(a, n) <==> Bit(b, n))
  {
    HalfPrefix(a, n + 1);
    HalfPrefix(b, n + 1);
  }

  /** Ranges of their own that share a prefix are both smaller than its range. */
  lemma {:induction false} PrefixExceeds(a: Bref, b: Bref, n: nat)
    requires Aligned(a) && Aligned(b) && Disjoint(a, b) && SamePrefix(a.key, b.key, n)
    ensures n > a.keybits && n > b.keybits
  {
    if n <= a.keybits {
      PrefixWidens(a.key, b.key, n, a.keybits);
      AlignedPrefix(a, b.key);
    }
    if n <= b.keybits {
      PrefixWidens(a.key, b.key, n, b.keybits);
      AlignedPrefix(b, a.key);
    }
  }

  /** How many elements have the bit as given. */
  function Tally(kids: seq<Tree>, n: nat, high: bool): nat {
    if kids == [] then 0
    else Tally(kids[..|kids| - 1], n, high) + if Bit(kids[|kids| - 1].bref.key, n) == high then 1 else 0
  }

  /** All elements in the range of `key` at radix `n`. */
  ghost predicate Around(kids: seq<Tree>, key: nat, n: nat) {
    forall t :: t in kids ==> SamePrefix(key, t.bref.key, n)
  }

  ghost predicate Exact(kids: seq<Tree>, n: nat, lo: nat, hi: nat) {
    lo == Tally(kids, n, false) && hi == Tally(kids, n, true)
  }

  lemma {:induction false} TallyAll(kids: seq<Tree>, n: nat)
    ensures Tally(kids, n, false) + Tally(kids, n, true) == |kids|
    decreases |kids|
  {
    hide Bit;
    if kids != [] { TallyAll(kids[..|kids| - 1], n); }
  }

  lemma {:induction false} TallyOneSide(kids: seq<Tree>, key: nat, n: nat)
    requires Around(kids, key, n)
    ensures Tally(kids, n, Bit(key, n)) == |kids| && Tally(kids, n, !Bit(key, n)) == 0
    decreases |kids|
  {
    hide SamePrefix;
    if kids != [] {
      var m := |kids| - 1;
      assert forall t :: t in kids[..m] ==> t in kids;
      TallyOneSide(kids[..m], key, n);
      assert Bit(kids[m].bref.key, n) == Bit(key, n) by {
        assert SamePrefix(key, kids[m].bref.key, n);
        SameBit(key, kids[m].bref.key, n);
      }
    }
  }

  lemma {:induction false} SameBit(a: nat, b: nat, n: nat)
    requires SamePrefix(a, b, n)
    ensures Bit(a, n) == Bit(b, n)
  {
  }

  /** Widening the range moves the tallies to the side the old range is on. */
  lemma {:induction false} Widen(kids: seq<Tree>, key: nat, m: nat, n: nat, lo: nat, hi: nat)
    requires Around(kids, key, m) && m <= n && lo + hi == |kids|
    ensures Exact(kids, n, if Bit(key, n) then 0 else lo + hi, if Bit(key, n) then lo + hi else 0)
    ensures Around(kids, key, n)
  {
    forall t | t in kids ensures SamePrefix(key, t.bref.key, n) { PrefixWidens(key, t.bref.key, m, n); }
    TallyOneSide(kids, key, n);
  }

  /** The elements of the chosen half are those the new block takes. */
  lemma {:induction false} TallySelects(kids: seq<Tree>, r: Bref)
    requires Around(kids, r.key, r.keybits + 1)
    ensures |Select(kids, r, true)| == Tally(kids, r.keybits, Bit(r.key, r.keybits))
    decreases |kids|
  {
    hide SamePrefix, Bit;
    if kids != [] {
      var m := |kids| - 1;
      assert forall t :: t in kids[..m] ==> t in kids;
      TallySelects(kids[..m], r);
      assert kids[m] in kids;
      PrefixBit(r.key, kids[m].bref.key, r.keybits);
    }
  }

  // ------------------------------------------------------- the algorithm

  /** What is known after scanning elements `s` for a new key range `create`. */
  ghost predicate Tallied(s: seq<Tree>, create: Bref, keybits: nat, lo: nat, hi: nat) {
    && lo + hi == |s|
    && if s == [] then keybits == create.keybits
       else && 1 <= keybits <= 64 && create.keybits < keybits
            && Around(s, create.key, keybits) && Exact(s, keybits - 1, lo, hi)
            && (forall t :: t in s ==> t.bref.keybits < keybits)
            && !Around(s, create.key, keybits - 1)
  }

  /** The radix at which the element and the key first share a range, at least that of either. */
  method Expand(key: nat, keybits: nat, bref: Bref) returns (n: nat)
    requires key < KEYS && bref.key < KEYS && keybits <= 64 && bref.keybits <= 64
    ensures keybits <= n <= 64 && bref.keybits <= n && SamePrefix(key, bref.key, n)
    ensures n == keybits || n == bref.keybits || !SamePrefix(key, bref.key, n - 1)
  {
    n := keybits;
    if n < bref.keybits { n := bref.keybits; }
    WordPrefix(key, bref.key);
    hide SamePrefix;
    while n < 64 && !SamePrefix(key, bref.key, n)
      invariant keybits <= n <= 64 && bref.keybits <= n
      invariant n == keybits || n == bref.keybits || !SamePrefix(key, bref.key, n - 1)
    {
      n := n + 1;
    }
  }

  ghost predicate Candidate(t: Tree, create: Bref) {
    && Aligned(t.bref) && Fits(t.bref) && t.bref.keybits <= 63 && Disjoint(create, t.bref)
  }

  /** Count one more element, after moving the tallies if the range grew. */
  method CountElement(ghost s: seq<Tree>, t: Tree, create: Bref, keybits0: nat, lo0: nat, hi0: nat)
    returns (keybits: nat, lo: nat, hi: nat)
    requires Tallied(s, create, keybits0, lo0, hi0) && Candidate(t, create)
    requires Aligned(create) && Fits(create) && create.keybits <= 63
    ensures Tallied(s + [t], create, keybits, lo, hi)
  {
    var key := create.key;
    keybits := Expand(key, keybits0, t.bref);
    lo, hi := lo0, hi0;
    PrefixExceeds(create, t.bref, keybits);
    hide SamePrefix, Bit, Aligned, Tally;
    if keybits0 != keybits {
      if s != [] { WidenTo(s, key, keybits0, keybits, lo, hi); }
      if Bit(key, keybits - 1) {
        hi, lo := hi + lo, 0;
      } else {
        lo, hi := lo + hi, 0;
      }
    }
    if Bit(t.bref.key, keybits - 1) { hi := hi + 1; } else { lo := lo + 1; }
    TallyMore(s, t, keybits - 1);
    StillTight(s, t, key, keybits0, keybits);
  }

  /** The range grows no more than the new element demands. */
  lemma {:induction false} StillTight(s: seq<Tree>, t: Tree, key: nat, m: nat, n: nat)
    requires 0 < n && if n == m && s != [] then !Around(s, key, n - 1) else !SamePrefix(key, t.bref.key, n - 1)
    ensures !Around(s + [t], key, n - 1)
  {
    hide SamePrefix;
    if n == m && s != [] {
      var u :| u in s && !SamePrefix(key, u.bref.key, n - 1);
      assert u in s + [t];
    } else {
      assert t in s + [t];
    }
  }

  lemma {:induction false} TallyMore(s: seq<Tree>, t: Tree, n: nat)
    ensures forall high :: Tally(s + [t], n, high) == Tally(s, n, high) + if Bit(t.bref.key, n) == high then 1 else 0
    ensures s == [] ==> forall high :: Tally(s, n, high) == 0
  {
  }

  lemma {:induction false} WidenTo(s: seq<Tree>, key: nat, m: nat, n: nat, lo: nat, hi: nat)
    requires Around(s, key, m) && m < n && lo + hi == |s|
    ensures Exact(s, n - 1, if Bit(key, n - 1) then 0 else lo + hi, if Bit(key, n - 1) then lo + hi else 0)
    ensures Around(s, key, n)
  {
    Widen(s, key, m, n - 1, lo, hi);
    Widen(s, key, m, n, lo, hi);
  }

  /** The least multiple of `d` in the same stretch of `d` keys. */
  function Down(k: nat, d: nat): (r: nat)
    requires d > 0
    ensures r <= k < r + d && r == k / d * d
  {
    assert k / d * d >= 0;
    k / d * d
  }

  /** Setting or clearing the bit that chooses the half, and dropping the bits below it. */
  function HalfKey(key: nat, n: nat, high: bool): nat {
    Down(key, Pow2(n + 1)) + if high then Pow2(n) else 0
  }

  lemma {:induction false} HalfKeyPrefix(key: nat, n: nat, high: bool)
    requires n <= 63 && key < KEYS
    ensures var h := HalfKey(key, n, high);
            && SamePrefix(key, h, n + 1) && Bit(h, n) == high
            && h % Pow2(n) == 0 && h + Pow2(n) <= KEYS
  {
    assert Pow2(n + 1) == 2 * Pow2(n);
    TopRange(key, n + 1);
    HalfArithmetic(key, Pow2(n), high);
  }

  lemma {:induction false} HalfArithmetic(key: nat, d: nat, high: bool)
    requires d > 0
    ensures var h := Down(key, 2 * d) + if high then d else 0;
            && key / (2 * d) == h / (2 * d) && (h / d % 2 == 1 <==> high) && h % d == 0
  {
    var q := key / (2 * d);
    var b := if high then 1 else 0;
    var h := Down(key, 2 * d) + b * d;
    assert Down(key, 2 * d) == q * (2 * d);
    QuotientIs(h, 2 * d, q, b * d);
    assert q * (2 * d) == 2 * q * d;
    assert h == (2 * q + b) * d;
    QuotientIs(h, d, 2 * q + b, 0);
  }

  lemma {:induction false} TopRange(key: nat, n: nat)
    requires n <= 64 && key < KEYS
    ensures Down(key, Pow2(n)) + Pow2(n) <= KEYS
  {
    Pow2Word();
    Pow2Add(n, 64 - n);
    TopArithmetic(key, Pow2(n), Pow2(64 - n));
  }

  lemma {:induction false} TopArithmetic(k: nat, d: nat, e: nat)
    requires d > 0 && k < d * e
    ensures Down(k, d) + d <= d * e
  {
    var q := k / d;
    assert q * d <= k;
    assert q >= e ==> q * d >= e * d;
    assert (q + 1) * d <= e * d;
  }

  /** Widen the half until it has a key for every slot of the new block; all elements then lie on one side. */
  method FillBlock(ghost kids: seq<Tree>, key: nat, keybits0: nat, lo0: nat, hi0: nat, ncount: nat)
    returns (keybits: nat, lo: nat, hi: nat)
    requires Around(kids, key, keybits0 + 1) && Exact(kids, keybits0, lo0, hi0) && lo0 + hi0 == |kids|
    requires keybits0 <= 63 && ncount <= 0x1_0000
    ensures keybits0 <= keybits <= 63 && Pow2(keybits) >= ncount
    ensures keybits == keybits0 || Pow2(keybits - 1) < ncount
    ensures Around(kids, key, keybits + 1) && Exact(kids, keybits, lo, hi) && lo + hi == |kids|
  {
    keybits, lo, hi := keybits0, lo0, hi0;
    hide Around, Exact, Bit;
    while Pow2(keybits) < ncount
      invariant keybits0 <= keybits <= 63 && (keybits == keybits0 || Pow2(keybits - 1) < ncount)
      invariant Around(kids, key, keybits + 1) && Exact(kids, keybits, lo, hi) && lo + hi == |kids|
      decreases 64 - keybits
    {
      SmallRadix(keybits);
      WidenTo(kids, key, keybits + 1, keybits + 2, lo, hi);
      keybits := keybits + 1;
      if Bit(key, keybits) {
        hi, lo := hi + lo, 0;
      } else {
        lo, hi := lo + hi, 0;
      }
    }
  }

  lemma {:induction false} SmallRadix(n: nat)
    requires Pow2(n) < 0x1_0000
    ensures n < 16
  {
    Pow2Word();
    if n >= 16 { Pow2Divides(16, n); }
  }

  /** A half of radix `n` has a key for every slot, and it and its other half have all elements. */
  ghost predicate Spans(kids: seq<Tree>, key: nat, n: nat, ncount: nat) {
    Pow2(n) >= ncount && Around(kids, key, n + 1)
  }

  /** The least such radix, and the half that holds more elements, the lower one on a tie. */
  ghost predicate HalfChosen(kids: seq<Tree>, key: nat, r: Bref, ncount: nat) {
    && Spans(kids, key, r.keybits, ncount) && (r.keybits == 0 || !Spans(kids, key, r.keybits - 1, ncount))
    && SamePrefix(key, r.key, r.keybits + 1)
    && (Bit(r.key, r.keybits) <==> Tally(kids, r.keybits, true) > Tally(kids, r.keybits, false))
  }

  /**
    The range for the new block of a node holding `kids` when `create` is to be inserted: it
    is aligned, no element straddles it, and at least half of the elements lie in it.  Its radix
    is the least for which it and its other half have all elements and the new key, and it has a
    key for every slot; it is the upper half exactly if more elements lie there.
   */
  method IndkeyDir(kids: seq<Tree>, create: Bref, ncount: nat) returns (r: Bref)
    requires kids != [] && forall t :: t in kids ==> Candidate(t, create)
    requires Aligned(create) && Fits(create) && create.keybits <= 63 && ncount <= 0x1_0000
    ensures r == Bref(INDIRECT, r.key, r.keybits, 0, 0, 0, 0) && Aligned(r) && Fits(r) && r.keybits <= 63
    ensures Pow2(r.keybits) >= ncount
    ensures HalfChosen(kids, create.key, r, ncount)
    ensures 2 * |Select(kids, r, true)| >= |kids|
    ensures forall t :: t in kids && SamePrefix(r.key, t.bref.key, r.keybits) ==> Within(t.bref, r)
    ensures Around(kids, r.key, r.keybits + 1)
  {
    var keybits, lo, hi := create.keybits, 0, 0;
    hide SamePrefix, Bit, Aligned, Tally, Fits, Disjoint;
    for i := 0 to |kids|
      invariant Tallied(kids[..i], create, keybits, lo, hi)
    {
      assert kids[..i + 1] == kids[..i] + [kids[i]];
      keybits, lo, hi := CountElement(kids[..i], kids[i], create, keybits, lo, hi);
    }
    assert kids[..|kids|] == kids;
    keybits := keybits - 1;
    keybits, lo, hi := FillBlock(kids, create.key, keybits, lo, hi, ncount);
    var key := HalfKey(create.key, keybits, hi > lo);
    r := Bref(INDIRECT, key, keybits, 0, 0, 0, 0);
    Chosen(kids, create, r, lo, hi);
  }

  lemma {:induction false} Chosen(kids: seq<Tree>, create: Bref, r: Bref, lo: nat, hi: nat)
    requires create.key < KEYS && r.keybits <= 63 && r.key == HalfKey(create.key, r.keybits, hi > lo)
    requires Around(kids, create.key, r.keybits + 1) && Exact(kids, r.keybits, lo, hi) && lo + hi == |kids|
    requires forall t :: t in kids ==> Candidate(t, create) && t.bref.keybits <= r.keybits
    ensures SamePrefix(create.key, r.key, r.keybits + 1)
    ensures Bit(r.key, r.keybits) <==> Tally(kids, r.keybits, true) > Tally(kids, r.keybits, false)
    ensures Aligned(r) && Fits(r) && 2 * |Select(kids, r, true)| >= |kids| && Around(kids, r.key, r.keybits + 1)
    ensures forall t :: t in kids && SamePrefix(r.key, t.bref.key, r.keybits) ==> Within(t.bref, r)
  {
    HalfKeyPrefix(create.key, r.keybits, hi > lo);
    hide Pow2, HalfKey;
    assert Around(kids, r.key, r.keybits + 1);
    TallySelects(kids, r);
    forall t | t in kids && SamePrefix(r.key, t.bref.key, r.keybits) ensures Within(t.bref, r) {
      Nested(t.bref, r);
    }
  }

  /** In a node of four or more elements the split leaves a slot free, whatever becomes of the new element. */
  lemma {:induction false} DirectoryGainsSlot(kids: seq<Tree>, r: Bref)
    requires |kids| >= 4 && 2 * |Select(kids, r, true)| >= |kids|
    ensures |Split(kids, r)| < |kids|
  {
    SelectMembers(kids, r, true);
  }
}
