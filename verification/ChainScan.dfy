/**
  The merged view of a parent: its block table together with the chains in memory, which take
  the place of table entries with the same key.
 */
module ChainScan {
  import opened Prelude
  import opened BlockTable

  /** Chains in memory occupy ranges of their own. */
  ghost predicate Tree(tree: seq<Bref>) {
    && (forall i :: 0 <= i < |tree| ==> Fits(tree[i]))
    && (forall i, j :: 0 <= i < j < |tree| ==> Disjoint(tree[i], tree[j]))
  }

  ghost function Chains(tree: seq<Bref>): set<Bref> {
    set i | 0 <= i < |tree| :: tree[i]
  }

  /** A chain was either loaded from the entry with its key, or shares no key with any entry. */
  ghost predicate Agree(s: seq<Bref>, tree: seq<Bref>) {
    forall i, j :: 0 <= i < |s| && 0 <= j < |tree| && !s[i].btype.EMPTY? ==>
      Disjoint(s[i], tree[j]) || (s[i].key == tree[j].key && s[i].keybits == tree[j].keybits)
  }

  ghost function View(s: seq<Bref>, tree: seq<Bref>): set<Bref> {
    Chains(tree) + set e | e in Entries(s) && forall c :: c in Chains(tree) ==> c.key != e.key
  }

  /** What a search of a set of ranges must find: the one with the least key that meets the keys. */
  ghost predicate Least(v: set<Bref>, beg: nat, end: nat, r: Option<Bref>) {
    match r
    case None => forall m :: m in v ==> !Meets(m, beg, end)
    case Some(b) => b in v && Meets(b, beg, end) && forall m :: m in v && Meets(m, beg, end) && m != b ==> Before(b, m)
  }

  /** The key to resume at: the end of what was found, or the bound if that comes first. */
  ghost predicate NextKey(next: nat, bound: nat, found: Option<Bref>) {
    && next < KEYS
    && match found
       case None => next == bound
       case Some(b) => Limit(next) == Min(Limit(bound), End(b))
  }

  /** One chain of the scan: the nearest so far, and the key up to which nothing else begins. */
  method Consider(ghost seen: set<Bref>, child: Bref, best0: Option<Bref>, next0: nat, beg: nat, end: nat,
                  ghost bound: nat)
    returns (best: Option<Bref>, next: nat)
    requires Least(seen, beg, end, best0) && Meets(child, beg, end) && Fits(child) &&
             (best0.Some? ==> Fits(best0.value))
    requires forall m :: m in seen ==> Disjoint(m, child)
    requires bound < KEYS && NextKey(next0, bound, best0)
    ensures Least(seen + {child}, beg, end, best)
    ensures best.Some? && NextKey(next, bound, best)
  {
    hide Pow2;
    best, next := best0, next0;
    if best.None? {
      best := Some(child);
    } else {
      assert !(best.value.key <= beg && child.key <= beg) && child.key != best.value.key;
      if child.key < best.value.key {
        if next > best.value.key || next == 0 { next := best.value.key; }
        best := Some(child);
      } else {
        if next > child.key || next == 0 { next := child.key; }
      }
    }
    var childNext := (child.key + Pow2(child.keybits)) % KEYS;
    if childNext != 0 && (next > childNext || next == 0) { next := childNext; }
  }

  class Parent {
    const table: Table
    var tree: seq<Bref>

    constructor (table: Table)
      requires table.Searchable()
      ensures this.table == table && tree == [] && Valid()
    {
      this.table := table;
      tree := [];
    }

    ghost predicate Valid()
      reads this, table, table.base
    {
      table.Searchable() && Tree(tree) && Agree(table.base[..], tree)
    }

    ghost function Merged(): set<Bref>
      reads this, table.base
    {
      View(table.base[..], tree)
    }

    /** Visit the chains that meet the range, in any order, and keep the nearest. */
    method ChainFind(keyNext: nat, beg: nat, end: nat) returns (best: Option<Bref>, next: nat)
      requires Tree(tree) && beg <= end < KEYS && keyNext < KEYS && beg < Limit(keyNext)
      ensures Least(Chains(tree), beg, end, best) && NextKey(next, keyNext, best)
    {
      best, next := None, keyNext;
      for c := 0 to |tree|
        invariant Least(Chains(tree[..c]), beg, end, best)
        invariant NextKey(next, keyNext, best)
      {
        var child := tree[c];
        assert forall m :: m in Chains(tree[..c]) ==> Disjoint(m, child);
        assert Chains(tree[..c + 1]) == Chains(tree[..c]) + {child};
        assert best.Some? ==> Fits(best.value);
        hide Chains, Tree, Pow2, Least;
        var childEnd := (child.key + Pow2(child.keybits) - 1) % KEYS;
        if childEnd < beg || child.key > end {
          continue;
        }
        best, next := Consider(Chains(tree[..c]), child, best, next, beg, end, keyNext);
      }
      assert tree[..|tree|] == tree;
    }

    /** The nearer of the table's and the chains' candidate; on equal keys the chain. */
    method CombinedFind(beg: nat, end: nat) returns (bref: Option<Bref>, inMemory: bool, next: nat)
      requires Valid() && beg <= end < KEYS
      modifies table`cacheIndex
      ensures Least(Merged(), beg, end, bref)
      ensures bref.Some? ==> next < KEYS && Limit(next) == Min(end + 1, End(bref.value))
      ensures bref.Some? ==> (inMemory <==> bref.value in Chains(tree))
    {
      var count := table.base.Length;
      var i, best;
      i, next := table.Find(beg, (end + 1) % KEYS);
      ghost var s := table.base[..];
      NearestLeast(s, beg, i);
      best, next := ChainFind(next, beg, end);
      if i == count && best.None? {
        Choose(s, tree, beg, end, i, best, None);
        return None, false, next;
      }
      if i == count {
        bref, inMemory := best, true;
      } else if best.None? {
        bref, inMemory := Some(table.base[i]), false;
      } else if (best.value.key <= beg && table.base[i].key <= beg) || best.value.key == table.base[i].key {
        bref, inMemory := best, true;
      } else if best.value.key < table.base[i].key {
        bref, inMemory := best, true;
      } else {
        bref, inMemory := Some(table.base[i]), false;
      }
      if bref.value.key > end { bref, inMemory := None, false; }
      Choose(s, tree, beg, end, i, best, bref);
    }

    /**
      Search again and again from the key returned: that lists exactly the elements that meet the
      keys asked for, once and in ascending order.
     */
    method Resumed(beg: nat, end: nat) returns (all: seq<Bref>)
      requires Valid() && beg <= end < KEYS
      modifies table`cacheIndex
      ensures forall i, j :: 0 <= i < j < |all| ==> Before(all[i], all[j])
      ensures Chains(all) == set m | m in Merged() && Meets(m, beg, end)
    {
      hide View, Agree, Tree, Sound;
      all := [];
      ViewFits(table.base[..], tree);
      ghost var v := Merged();
      var key, done := beg, false;
      while !done
        invariant Valid() && Merged() == v && (!done ==> beg <= key <= end)
        invariant forall i, j :: 0 <= i < j < |all| ==> Before(all[i], all[j])
        invariant forall m :: m in all ==> m in v && Meets(m, beg, end) && (!done ==> End(m) <= key)
        invariant !done ==> forall m, x :: m in all && x in v && Meets(x, key, end) ==> Before(m, x)
        invariant forall m :: m in v && Meets(m, beg, end) ==> m in all || (!done && Meets(m, key, end))
        decreases !done, KEYS - key
      {
        var bref, inMemory, next := CombinedFind(key, end);
        if bref.None? {
          done := true;
        } else {
          all := all + [bref.value];
          done := next == 0 || next > end;
          if !done { key := next; }
        }
      }
    }

    /** The next element after `bref`, or the first; none once the end of the key space is reached. */
    method Scan(first: bool, bref: Bref) returns (r: Option<Bref>)
      requires Valid() && (!first ==> Fits(bref))
      modifies table`cacheIndex
      ensures var from := if first then 0 else End(bref);
              match r
              case None => forall m :: m in Merged() ==> End(m) <= from
              case Some(b) =>
                && b in Merged() && from < End(b)
                && forall m :: m in Merged() && from < End(m) && m != b ==> Before(b, m)
    {
      var key := 0;
      ViewFits(table.base[..], tree);
      if !first {
        key := (bref.key + Pow2(bref.keybits)) % KEYS;
        if key == 0 { return None; }
      }
      hide Pow2, View;
      var inMemory, next;
      r, inMemory, next := CombinedFind(key, KEYS - 1);
    }

    /** A caller's loop over the scan lists the whole merged view, once and in ascending order. */
    method Enumerate() returns (all: seq<Bref>)
      requires Valid()
      modifies table`cacheIndex
      ensures forall i, j :: 0 <= i < j < |all| ==> Before(all[i], all[j])
      ensures Chains(all) == Merged()
    {
      hide View, Agree, Tree, Sound;
      all := [];
      ViewFits(table.base[..], tree);
      ghost var v := Merged();
      var r := Scan(true, ZEROED);
      while r.Some?
        invariant Valid() && Merged() == v
        invariant forall i, j :: 0 <= i < j < |all| ==> Before(all[i], all[j])
        invariant forall m :: m in all ==> m in v
        invariant r.Some? ==> r.value in v && forall m :: m in v && m !in all && m != r.value ==> Before(r.value, m)
        invariant r.Some? ==> forall m :: m in all ==> Before(m, r.value)
        invariant r.None? ==> forall m :: m in v ==> m in all
        decreases if r.Some? then KEYS - r.value.key else 0
      {
        var b := r.value;
        all := all + [b];
        r := Scan(false, b);
      }
    }
  }

  lemma {:induction false} ViewFits(s: seq<Bref>, tree: seq<Bref>)
    requires Sound(s) && Tree(tree)
    ensures forall m :: m in View(s, tree) ==> Fits(m)
  {
  }

  /** Choosing between the two candidates finds the least element of the merged view. */
  lemma {:induction false} Choose(s: seq<Bref>, tree: seq<Bref>, beg: nat, end: nat, i: nat,
                  best: Option<Bref>, r: Option<Bref>)
    requires Sound(s) && Tree(tree) && Agree(s, tree) && Nearest(s, beg, i) && Least(Chains(tree), beg, end, best)
    requires r == if i == |s| then best
                  else if best.None? then (if s[i].key > end then None else Some(s[i]))
                  else if best.value.key <= s[i].key then best
                  else Some(s[i])
    ensures Least(View(s, tree), beg, end, r)
    ensures r.Some? ==> (r == best <==> r.value in Chains(tree))
  {
  }
}
