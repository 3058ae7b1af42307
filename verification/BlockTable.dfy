/**
  A block table: an array of references to key ranges, sorted and disjoint, with empty slots
  anywhere.  The array is searched from a cached position, entries are inserted by shifting
  toward the nearest empty slot and deleted by zeroing.
 */
module BlockTable {
  import opened Prelude

  /** Keys are 64-bit words; a range may end at KEYS itself, which a word shows as 0. */
  const KEYS: nat := 0x1_0000_0000_0000_0000

  datatype BrefType = EMPTY | INODE | INDIRECT | DATA | DIRENT | OTHER

  /**
    The low six bits of the media offset are the radix of its size: 0 for no storage.  The counts
    are the embedded statistics.
   */
  datatype Bref =
    Bref(btype: BrefType, key: nat, keybits: nat, off: nat, check: int, dataCount: int, inodeCount: int)

  const ZEROED: Bref := Bref(EMPTY, 0, 0, 0, 0, 0, 0)

  /** One past the last key of the range, as a number. */
  function End(b: Bref): (e: nat)
    ensures e > b.key
  {
    b.key + Pow2(b.keybits)
  }

  /** The range stays inside the key space. */
  predicate Fits(b: Bref) {
    End(b) <= KEYS
  }

  predicate Before(a: Bref, b: Bref) {
    End(a) <= b.key
  }

  predicate Disjoint(a: Bref, b: Bref) {
    Before(a, b) || Before(b, a)
  }

  /** Whether the range meets the keys from `beg` to `end`, both included. */
  predicate Meets(b: Bref, beg: nat, end: nat) {
    beg < End(b) && b.key <= end
  }

  ghost predicate Has(b: Bref, k: nat) {
    b.key <= k < b.key + Pow2(b.keybits)
  }

  /** The test decides whether the two ranges of keys have a key in common. */
  lemma {:induction false} MeetsIs(b: Bref, beg: nat, end: nat)
    requires beg <= end
    ensures Meets(b, beg, end) <==> exists k: nat :: Has(b, k) && beg <= k <= end
  {
    if Meets(b, beg, end) {
      var k := if b.key < beg then beg else b.key;
      assert Has(b, k) && beg <= k <= end;
    }
  }

  // ------------------------------------------------- contents of a table

  predicate Ordered(s: seq<Bref>) {
    forall i, j :: 0 <= i < j < |s| && !s[i].btype.EMPTY? && !s[j].btype.EMPTY? ==> Before(s[i], s[j])
  }

  /** `zero` is exactly one past the last entry in use. */
  predicate EndsAt(s: seq<Bref>, zero: nat) {
    && zero <= |s|
    && (forall i :: zero <= i < |s| ==> s[i].btype.EMPTY?)
    && (zero > 0 ==> !s[zero - 1].btype.EMPTY?)
  }

  predicate Sound(s: seq<Bref>) {
    Ordered(s) && forall i :: 0 <= i < |s| && !s[i].btype.EMPTY? ==> Fits(s[i])
  }

  ghost function Entries(s: seq<Bref>): set<Bref> {
    set i | 0 <= i < |s| && !s[i].btype.EMPTY? :: s[i]
  }

  /** The entry a search from `beg` on must return: the first one not wholly before `beg`. */
  ghost predicate Nearest(s: seq<Bref>, beg: nat, i: nat) {
    && i <= |s|
    && (forall k :: 0 <= k < |s| && k < i && !s[k].btype.EMPTY? ==> End(s[k]) <= beg)
    && (i < |s| ==> !s[i].btype.EMPTY? && beg < End(s[i]))
  }

  /** There is one answer, whatever the search did to reach it. */
  lemma {:induction false} NearestUnique(s: seq<Bref>, beg: nat, i: nat, j: nat)
    requires Nearest(s, beg, i) && Nearest(s, beg, j)
    ensures i == j
  {
  }

  /** In terms of the entries: none at all, or the one with the least key among those that reach `beg`. */
  lemma {:induction false} NearestLeast(s: seq<Bref>, beg: nat, i: nat)
    requires Sound(s) && Nearest(s, beg, i)
    ensures i == |s| <==> forall e :: e in Entries(s) ==> End(e) <= beg
    ensures i < |s| ==> s[i] in Entries(s) && forall e :: e in Entries(s) && beg < End(e) && e != s[i] ==>
            Before(s[i], e)
  {
  }

  // ---------------------------------------------------------- statistics

  function Bytes(b: Bref): nat {
    if b.off % 64 == 0 then 0 else Pow2(b.off % 64)
  }

  /** What an entry adds to its parent's data count. */
  function DataOf(b: Bref): int {
    match b.btype
    case EMPTY => 0
    case INODE => Bytes(b) + b.dataCount
    case INDIRECT => Bytes(b) + b.dataCount
    case _ => Bytes(b)
  }

  function InodesOf(b: Bref): int {
    match b.btype case INODE => 1 + b.inodeCount case INDIRECT => b.inodeCount case _ => 0
  }

  /** Of an entry at block `k` with size radix `r`, each type's share in full. */
  lemma {:induction false} Shares(b: Bref, k: nat, r: nat)
    requires r < 64 && b.off == 64 * k + r
    ensures var size := if r == 0 then 0 else Pow2(r);
            && (b.btype.INODE? ==> DataOf(b) == size + b.dataCount && InodesOf(b) == b.inodeCount + 1)
            && (b.btype.INDIRECT? ==> DataOf(b) == size + b.dataCount && InodesOf(b) == b.inodeCount)
            && (b.btype.DATA? || b.btype.DIRENT? || b.btype.OTHER? ==> DataOf(b) == size && InodesOf(b) == 0)
            && (b.btype.EMPTY? ==> DataOf(b) == 0 && InodesOf(b) == 0)
    ensures Pow2(10) == 1024 && Pow2(16) == 65536
  {
    assert b.off % 64 == r;
  }

  function SumData(s: seq<Bref>): int {
    if s == [] then 0 else SumData(s[..|s| - 1]) + DataOf(s[|s| - 1])
  }

  function SumInodes(s: seq<Bref>): int {
    if s == [] then 0 else SumInodes(s[..|s| - 1]) + InodesOf(s[|s| - 1])
  }

  lemma {:induction false} SumConcat(a: seq<Bref>, b: seq<Bref>)
    ensures SumData(a + b) == SumData(a) + SumData(b) && SumInodes(a + b) == SumInodes(a) + SumInodes(b)
    decreases |b|
  {
    if b == [] {
      assert a + b == a;
    } else {
      var n := |b| - 1;
      assert (a + b)[..|a + b| - 1] == a + b[..n];
      SumConcat(a, b[..n]);
    }
  }

  // ----------------------------------------------------- edits of a table

  /** Slot `j` before position `i` is empty: shift the entries between them down and put `elm` last. */
  function ShiftDown(s: seq<Bref>, j: nat, i: nat, elm: Bref): (r: seq<Bref>)
    requires j < i <= |s|
    ensures |r| == |s|
  {
    s[..j] + s[j + 1..i] + [elm] + s[i..]
  }

  /** Slot `k` after position `i` is empty: shift the entries between them up and put `elm` first. */
  function ShiftUp(s: seq<Bref>, i: nat, k: nat, elm: Bref): (r: seq<Bref>)
    requires i < k < |s|
    ensures |r| == |s|
  {
    s[..i] + [elm] + s[i..k] + s[k + 1..]
  }

  /** Position `i` is where `elm` belongs, and it meets no entry. */
  ghost predicate Insertable(s: seq<Bref>, i: nat, elm: Bref) {
    && i <= |s| && !elm.btype.EMPTY? && Fits(elm)
    && (forall k :: 0 <= k < i && !s[k].btype.EMPTY? ==> Before(s[k], elm))
    && (forall k :: i <= k < |s| && !s[k].btype.EMPTY? ==> Before(elm, s[k]))
  }

  /** Slot `m` after shifting down. */
  function Down(s: seq<Bref>, j: nat, i: nat, elm: Bref, m: nat): Bref
    requires j < i <= |s| && m < |s|
  {
    if m < j || m >= i then s[m] else if m == i - 1 then elm else s[m + 1]
  }

  /** Slot `m` after shifting up. */
  function Up(s: seq<Bref>, i: nat, k: nat, elm: Bref, m: nat): Bref
    requires i < k < |s| && m < |s|
  {
    if m < i || m > k then s[m] else if m == i then elm else s[m - 1]
  }

  lemma {:induction false} DownIsShift(s: seq<Bref>, r: seq<Bref>, j: nat, i: nat, elm: Bref)
    requires j < i <= |s| == |r| && forall m :: 0 <= m < |r| ==> r[m] == Down(s, j, i, elm, m)
    ensures r == ShiftDown(s, j, i, elm)
  {
  }

  lemma {:induction false} UpIsShift(s: seq<Bref>, r: seq<Bref>, i: nat, k: nat, elm: Bref)
    requires i < k < |s| == |r| && forall m :: 0 <= m < |r| ==> r[m] == Up(s, i, k, elm, m)
    ensures r == ShiftUp(s, i, k, elm)
  {
  }

  lemma {:induction false} ShiftDownEnd(s: seq<Bref>, j: nat, i: nat, elm: Bref, zero: nat)
    requires EndsAt(s, zero) && j < i <= |s| && !elm.btype.EMPTY?
    requires if i < |s| then !s[i].btype.EMPTY? else zero == |s|
    ensures EndsAt(ShiftDown(s, j, i, elm), zero)
  {
  }

  lemma {:induction false} ShiftUpEnd(s: seq<Bref>, i: nat, k: nat, elm: Bref, zero: nat)
    requires EndsAt(s, zero) && i < k < |s| && !s[k - 1].btype.EMPTY? && s[k].btype.EMPTY?
    ensures EndsAt(ShiftUp(s, i, k, elm), if zero <= k then k + 1 else zero)
  {
  }

  lemma {:induction false} ShiftDownSound(s: seq<Bref>, j: nat, i: nat, elm: Bref)
    requires Sound(s) && Insertable(s, i, elm) && j < i && s[j].btype.EMPTY?
    ensures Sound(ShiftDown(s, j, i, elm))
  {
  }

  lemma {:induction false} ShiftDownEntries(s: seq<Bref>, j: nat, i: nat, elm: Bref)
    requires j < i <= |s| && s[j].btype.EMPTY? && !elm.btype.EMPTY?
    ensures Entries(ShiftDown(s, j, i, elm)) == Entries(s) + {elm}
  {
    var r := ShiftDown(s, j, i, elm);
    assert forall m :: 0 <= m < |s| ==> r[m] == Down(s, j, i, elm, m);
    assert r[i - 1] == elm;
    forall e | e in Entries(s) ensures e in Entries(r) {
      var k :| 0 <= k < |s| && !s[k].btype.EMPTY? && s[k] == e;
      assert r[if j < k < i then k - 1 else k] == e;
    }
  }

  lemma {:induction false} ShiftUpSound(s: seq<Bref>, i: nat, k: nat, elm: Bref)
    requires Sound(s) && Insertable(s, i, elm) && i < k < |s| && s[k].btype.EMPTY?
    ensures Sound(ShiftUp(s, i, k, elm)) && Entries(ShiftUp(s, i, k, elm)) == Entries(s) + {elm}
  {
    hide Before, Fits;
    var r := ShiftUp(s, i, k, elm);
    assert forall m :: 0 <= m < |s| ==> r[m] == if m < i || m > k then s[m] else if m == i then elm else s[m - 1];
    assert r[i] == elm;
    forall e | e in Entries(s) ensures e in Entries(r) {
      var m :| 0 <= m < |s| && !s[m].btype.EMPTY? && s[m] == e;
      assert r[if i <= m < k then m + 1 else m] == e;
    }
  }

  /** Fill empty slot `i` itself. */
  lemma {:induction false} FillSound(s: seq<Bref>, i: nat, elm: Bref)
    requires Sound(s) && Insertable(s, i, elm) && i < |s| && s[i].btype.EMPTY?
    ensures Sound(s[i := elm]) && Entries(s[i := elm]) == Entries(s) + {elm}
  {
    hide Before, Fits;
    var r := s[i := elm];
    assert r[i] == elm;
    forall e | e in Entries(s) ensures e in Entries(r) {
      var m :| 0 <= m < |s| && !s[m].btype.EMPTY? && s[m] == e;
      assert r[m] == e;
    }
  }

  lemma {:induction false} ZeroSound(s: seq<Bref>, i: nat)
    requires Sound(s) && i < |s| && !s[i].btype.EMPTY?
    ensures Sound(s[i := ZEROED]) && Entries(s[i := ZEROED]) == Entries(s) - {s[i]}
  {
    var r := s[i := ZEROED];
    hide Fits;
    forall e | e in Entries(s) && e != s[i] ensures e in Entries(r) {
      var m :| 0 <= m < |s| && !s[m].btype.EMPTY? && s[m] == e;
      assert r[m] == e;
    }
    forall e | e in Entries(r) ensures e in Entries(s) && e != s[i] {
      var m :| 0 <= m < |r| && !r[m].btype.EMPTY? && r[m] == e;
      assert m != i && s[m] == e;
    }
  }

  /** Replacing one slot changes the totals by the difference of the two. */
  lemma {:induction false} SumReplace(s: seq<Bref>, i: nat, v: Bref)
    requires i < |s|
    ensures SumData(s[i := v]) == SumData(s) - DataOf(s[i]) + DataOf(v)
    ensures SumInodes(s[i := v]) == SumInodes(s) - InodesOf(s[i]) + InodesOf(v)
  {
    hide DataOf, InodesOf;
    SumParts(s, i);
    SumParts(s[i := v], i);
    assert s[i := v][..i] == s[..i] && s[i := v][i + 1..] == s[i + 1..];
  }

  lemma {:induction false} SumParts(s: seq<Bref>, i: nat)
    requires i < |s|
    ensures SumData(s) == SumData(s[..i]) + DataOf(s[i]) + SumData(s[i + 1..])
    ensures SumInodes(s) == SumInodes(s[..i]) + InodesOf(s[i]) + SumInodes(s[i + 1..])
  {
    hide DataOf, InodesOf;
    assert s == s[..i + 1] + s[i + 1..];
    assert s[..i + 1][..i] == s[..i];
    SumConcat(s[..i + 1], s[i + 1..]);
  }

  lemma {:induction false} SumSlice(s: seq<Bref>, a: nat, b: nat)
    requires a <= b <= |s|
    ensures SumData(s[..b]) == SumData(s[..a]) + SumData(s[a..b])
    ensures SumInodes(s[..b]) == SumInodes(s[..a]) + SumInodes(s[a..b])
    ensures SumData(s[a..]) == SumData(s[a..b]) + SumData(s[b..])
    ensures SumInodes(s[a..]) == SumInodes(s[a..b]) + SumInodes(s[b..])
  {
    assert s[..b] == s[..a] + s[a..b];
    assert s[a..] == s[a..b] + s[b..];
    SumConcat(s[..a], s[a..b]);
    SumConcat(s[a..b], s[b..]);
  }

  lemma {:induction false} ShiftDownSums(s: seq<Bref>, j: nat, i: nat, elm: Bref)
    requires j < i <= |s| && s[j].btype.EMPTY?
    ensures SumData(ShiftDown(s, j, i, elm)) == SumData(s) + DataOf(elm)
    ensures SumInodes(ShiftDown(s, j, i, elm)) == SumInodes(s) + InodesOf(elm)
  {
    assert DataOf(s[j]) == 0 && InodesOf(s[j]) == 0;
    hide DataOf, InodesOf;
    SumParts(s, j);
    SumSlice(s, j + 1, i);
    SumConcat(s[..j] + s[j + 1..i] + [elm], s[i..]);
    SumConcat(s[..j] + s[j + 1..i], [elm]);
    SumConcat(s[..j], s[j + 1..i]);
  }

  lemma {:induction false} ShiftUpSums(s: seq<Bref>, i: nat, k: nat, elm: Bref)
    requires i < k < |s| && s[k].btype.EMPTY?
    ensures SumData(ShiftUp(s, i, k, elm)) == SumData(s) + DataOf(elm)
    ensures SumInodes(ShiftUp(s, i, k, elm)) == SumInodes(s) + InodesOf(elm)
  {
    assert DataOf(s[k]) == 0 && InodesOf(s[k]) == 0;
    hide DataOf, InodesOf;
    SumParts(s, k);
    SumSlice(s, i, k);
    SumConcat(s[..i] + [elm] + s[i..k], s[k + 1..]);
    SumConcat(s[..i] + [elm], s[i..k]);
    SumConcat(s[..i], [elm]);
  }

  /** A position that a search for `elm` returns is where it belongs exactly if it meets no entry. */
  lemma {:induction false} FoundPosition(s: seq<Bref>, elm: Bref, i: nat)
    requires Sound(s) && Nearest(s, elm.key, i) && !elm.btype.EMPTY? && Fits(elm)
    ensures Insertable(s, i, elm) <==> forall e :: e in Entries(s) ==> Disjoint(e, elm)
    ensures Insertable(s, i, elm) <==> !(i < |s| && (s[i].key < elm.key || End(elm) > s[i].key))
  {
    if i < |s| { assert s[i] in Entries(s); }
  }

  // ---------------------------------------------------------- the table

  /** The last key of a range in 64-bit arithmetic. */
  function LastWord(b: Bref): (r: nat)
    requires Fits(b)
    ensures r == End(b) - 1
  {
    (b.key + Pow2(b.keybits) - 1) % KEYS
  }

  /** The key behind a range in 64-bit arithmetic: 0 if the range ends the key space. */
  function EndWord(b: Bref): (r: nat)
    requires Fits(b)
    ensures r < KEYS && Limit(r) == End(b)
  {
    (b.key + Pow2(b.keybits)) % KEYS
  }

  datatype InsertResult = Inserted | Overlapping | NoRoom

  class Table {
    const base: array<Bref>
    var liveZero: nat
    var cacheIndex: int
    var dataCount: int
    var inodeCount: int

    ghost predicate Searchable()
      reads this, base
    {
      Sound(base[..]) && EndsAt(base[..], liveZero)
    }

    ghost predicate Valid()
      reads this, base
    {
      && Searchable()
      && dataCount == SumData(base[..]) && inodeCount == SumInodes(base[..])
    }

    /**
      Index of the entry nearest to `beg`, or the table's size.  The cached position may be
      anything: it decides only where the search begins.
     */
    method Find(beg: nat, keyNext: nat) returns (i: nat, next: nat)
      requires Searchable() && beg < KEYS && keyNext < KEYS
      modifies this`cacheIndex
      ensures Nearest(base[..], beg, i)
      ensures i == base.Length ==> next == keyNext
      ensures i < base.Length ==> next < KEYS && Limit(next) == Min(Limit(keyNext), End(base[i]))
    {
      var count := base.Length;
      next := keyNext;
      if count == 0 { return count, next; }
      i := Backward(beg);
      cacheIndex := i;
      hide Pow2, Ordered;
      while i < count
        invariant i <= count
        invariant forall k :: 0 <= k < i && !base[k].btype.EMPTY? ==> End(base[k]) <= beg
      {
        if !base[i].btype.EMPTY? {
          var scanEnd := LastWord(base[i]);
          if base[i].key > beg || scanEnd >= beg { break; }
        }
        if i >= liveZero { return count, next; }
        i := i + 1;
      }
      if i != count {
        cacheIndex := i;
        assert i < liveZero;
        var scanEnd := EndWord(base[i]);
        if scanEnd != 0 && (next > scanEnd || next == 0) { next := scanEnd; }
      }
    }

    /** From the cached position back to an entry at or before the key. */
    method Backward(beg: nat) returns (i: nat)
      requires Searchable() && base.Length > 0
      ensures i < base.Length
      ensures forall k :: 0 <= k < i && !base[k].btype.EMPTY? ==> End(base[k]) <= beg
    {
      i := if cacheIndex >= liveZero then if liveZero == 0 then 0 else liveZero - 1
           else if cacheIndex < 0 then 0 else cacheIndex;
      while i > 0 && (base[i].btype.EMPTY? || base[i].key > beg)
        invariant 0 <= i < base.Length
      {
        i := i - 1;
      }
      assert i > 0 ==> forall k :: 0 <= k < i && !base[..][k].btype.EMPTY? ==> Before(base[..][k], base[..][i]);
    }

    /** No entry reaches the key: it goes right behind the last one. */
    method Append(elm: Bref)
      requires Searchable() && liveZero < base.Length && Insertable(base[..], base.Length, elm)
      requires dataCount == SumData(base[..]) + DataOf(elm) && inodeCount == SumInodes(base[..]) + InodesOf(elm)
      modifies this`liveZero, base
      ensures Valid() && Entries(base[..]) == Entries(old(base[..])) + {elm}
    {
      var i := liveZero;
      FillSound(base[..], i, elm);
      SumReplace(base[..], i, elm);
      hide Ordered, Before, Fits, SumData, SumInodes, DataOf, InodesOf;
      liveZero := liveZero + 1;
      base[i] := elm;
      assert base[..] == old(base[..])[i := elm];
    }

    /** Look alternately below and above position `i` for an empty slot. */
    method InsertAt(i: nat, elm: Bref) returns (r: InsertResult)
      requires Searchable() && Insertable(base[..], i, elm)
      requires i < base.Length ==> !base[i].btype.EMPTY?
      requires i == base.Length ==> liveZero == base.Length
      requires dataCount == SumData(base[..]) + DataOf(elm) && inodeCount == SumInodes(base[..]) + InodesOf(elm)
      modifies this`liveZero, base
      ensures r == if exists k :: 0 <= k < base.Length && old(base[k]).btype.EMPTY? then Inserted else NoRoom
      ensures r.Inserted? ==> Valid() && Entries(base[..]) == Entries(old(base[..])) + {elm}
      ensures !r.Inserted? ==> base[..] == old(base[..])
    {
      var count := base.Length;
      var j: int, k: int := i, i;
      while j > 0 || k < count
        invariant j <= i <= k
        invariant forall m :: 0 <= m < count && (j <= m < i || i <= m <= k) ==> !base[m].btype.EMPTY?
        invariant base[..] == old(base[..]) && liveZero == old(liveZero)
        decreases (if j > 0 then j else 0) + (if k < count then count - k else 0)
      {
        j := j - 1;
        if j >= 0 && base[j].btype.EMPTY? {
          MoveDown(j, i, elm);
          return Inserted;
        }
        k := k + 1;
        if k < count && base[k].btype.EMPTY? {
          MoveUp(i, k, elm);
          return Inserted;
        }
      }
      return NoRoom;
    }

    method MoveDown(j: nat, i: nat, elm: Bref)
      requires Searchable() && Insertable(base[..], i, elm) && j < i && base[j].btype.EMPTY?
      requires i < base.Length ==> !base[i].btype.EMPTY?
      requires i == base.Length ==> liveZero == base.Length
      requires dataCount == SumData(base[..]) + DataOf(elm) && inodeCount == SumInodes(base[..]) + InodesOf(elm)
      modifies base
      ensures Valid() && Entries(base[..]) == Entries(old(base[..])) + {elm}
    {
      ghost var was := base[..];
      ShiftDownSound(was, j, i, elm);
      ShiftDownEntries(was, j, i, elm);
      ShiftDownSums(was, j, i, elm);
      ShiftDownEnd(was, j, i, elm, liveZero);
      hide Sound, EndsAt, SumData, SumInodes, DataOf, InodesOf, Entries, ShiftDown;
      SlideDown(j, i, elm);
      DownIsShift(was, base[..], j, i, elm);
    }

    method SlideDown(j: nat, i: nat, elm: Bref)
      requires j < i <= base.Length
      modifies base
      ensures forall m :: 0 <= m < base.Length ==> base[m] == Down(old(base[..]), j, i, elm, m)
    {
      forall m | j <= m < i - 1 { base[m] := base[m + 1]; }
      base[i - 1] := elm;
    }

    method SlideUp(i: nat, k: nat, elm: Bref)
      requires i < k < base.Length
      modifies base
      ensures forall m :: 0 <= m < base.Length ==> base[m] == Up(old(base[..]), i, k, elm, m)
    {
      forall m | i < m <= k { base[m] := base[m - 1]; }
      base[i] := elm;
    }

    method MoveUp(i: nat, k: nat, elm: Bref)
      requires Searchable() && Insertable(base[..], i, elm) && i < k < base.Length && base[k].btype.EMPTY?
      requires !base[i].btype.EMPTY?
      requires forall m :: i <= m < k ==> !base[m].btype.EMPTY?
      requires dataCount == SumData(base[..]) + DataOf(elm) && inodeCount == SumInodes(base[..]) + InodesOf(elm)
      modifies this`liveZero, base
      ensures Valid() && Entries(base[..]) == Entries(old(base[..])) + {elm}
    {
      ghost var was := base[..];
      ShiftUpSound(was, i, k, elm);
      ShiftUpSums(was, i, k, elm);
      ShiftUpEnd(was, i, k, elm, liveZero);
      hide Sound, EndsAt, SumData, SumInodes, DataOf, InodesOf, Entries, ShiftUp;
      SlideUp(i, k, elm);
      UpIsShift(was, base[..], i, k, elm);
      if liveZero <= k { liveZero := k + 1; }
    }

    /** Remove the entry with the element's key; its range may have changed if an update is pending. */
    method Delete(elm: Bref, updatePending: bool) returns (found: bool, obref: Bref)
      requires Valid() && Fits(elm)
      modifies this, base
      ensures found <==>
              exists e :: e in Entries(old(base[..])) && e.key == elm.key && (updatePending || e.keybits == elm.keybits)
      ensures found ==> obref in Entries(old(base[..])) && obref.key == elm.key
      ensures found ==> Valid() && Entries(base[..]) == Entries(old(base[..])) - {obref}
      ensures found ==> dataCount == old(dataCount) - DataOf(obref) && inodeCount == old(inodeCount) - InodesOf(obref)
      ensures !found ==> Valid() && base[..] == old(base[..])
    {
      var i, _ := Find(elm.key, 0);
      NearestLeast(base[..], elm.key, i);
      if i == base.Length || base[i].key != elm.key || (!updatePending && base[i].keybits != elm.keybits) {
        return false, ZEROED;
      }
      found, obref := true, base[i];
      ZeroSound(base[..], i);
      SumReplace(base[..], i, ZEROED);
      dataCount := dataCount - DataOf(base[i]);
      inodeCount := inodeCount - InodesOf(base[i]);
      ZeroSlot(i);
    }

    method ZeroSlot(i: nat)
      requires EndsAt(base[..], liveZero) && i < base.Length && !base[i].btype.EMPTY?
      modifies this`liveZero, base
      ensures base[..] == old(base[..])[i := ZEROED] && EndsAt(base[..], liveZero)
    {
      base[i] := ZEROED;
      if liveZero == i + 1 {
        var m: int := i - 1;
        while m >= 0 && base[m].btype.EMPTY?
          invariant -1 <= m < i
          invariant forall n :: m < n < base.Length ==> base[n].btype.EMPTY?
        {
          m := m - 1;
        }
        liveZero := m + 1;
      }
    }

    /** Put `elm` in place, shifting entries toward the nearest empty slot. */
    method Insert(elm: Bref) returns (r: InsertResult)
      requires Valid() && !elm.btype.EMPTY? && Fits(elm)
      modifies this, base
      ensures r.Overlapping? <==> exists e :: e in Entries(old(base[..])) && !Disjoint(e, elm)
      ensures r.NoRoom? <==> !r.Overlapping? && forall k :: 0 <= k < base.Length ==> !old(base[k]).btype.EMPTY?
      ensures r.Inserted? ==> Valid() && Entries(base[..]) == Entries(old(base[..])) + {elm}
      ensures r.Inserted? ==> dataCount == old(dataCount) + DataOf(elm) && inodeCount == old(inodeCount) + InodesOf(elm)
      ensures !r.Inserted? ==> base[..] == old(base[..])
    {
      var count := base.Length;
      var i, _ := Find(elm.key, 0);
      FoundPosition(base[..], elm, i);
      hide Sound, Ordered, Before, Fits, SumData, SumInodes, DataOf, InodesOf, Pow2, Insertable;
      dataCount := dataCount + DataOf(elm);
      inodeCount := inodeCount + InodesOf(elm);
      if i == count && liveZero < count {
        Append(elm);
        return Inserted;
      }
      var xkey := (elm.key + Pow2(elm.keybits) - 1) % KEYS;
      if i != count && (base[i].key < elm.key || xkey >= base[i].key) {
        return Overlapping;
      }
      r := InsertAt(i, elm);
    }
  }

  /** A next key of 0 stands for the end of the key space. */
  function Limit(next: nat): nat {
    if next == 0 then KEYS else next
  }

  function Min(a: nat, b: nat): nat {
    if a < b then a else b
  }
}
