/**
  Slot accounting of a parent: its live count is the table's entries plus the chains in memory
  that are not in the table yet, so that a slot is there when the flush enters one.
 */
module LiveCount {
  import opened Prelude
  import opened BlockTable

  /** Slots in use. */
  function Used(s: seq<Bref>): nat {
    if s == [] then 0 else Used(s[..|s| - 1]) + if s[|s| - 1].btype.EMPTY? then 0 else 1
  }

  lemma {:induction false} UsedBound(s: seq<Bref>)
    ensures Used(s) <= |s|
    ensures Used(s) == |s| <==> forall i :: 0 <= i < |s| ==> !s[i].btype.EMPTY?
  {
    if s != [] { UsedBound(s[..|s| - 1]); }
  }

  lemma {:induction false} OrderedPrefix(s: seq<Bref>, n: nat)
    requires Ordered(s) && n <= |s|
    ensures Ordered(s[..n])
  {
  }

  lemma {:induction false} LastEntry(s: seq<Bref>)
    requires Ordered(s) && s != []
    ensures var n := |s| - 1;
            if s[n].btype.EMPTY? then Entries(s) == Entries(s[..n])
            else Entries(s) == Entries(s[..n]) + {s[n]} && s[n] !in Entries(s[..n])
  {
  }

  /** Entries of an ordered table are all different. */
  lemma {:induction false} UsedIsEntries(s: seq<Bref>)
    requires Ordered(s)
    ensures Used(s) == |Entries(s)|
    decreases |s|
  {
    if s == [] {
      assert Entries(s) == {};
    } else {
      OrderedPrefix(s, |s| - 1);
      LastEntry(s);
      UsedIsEntries(s[..|s| - 1]);
      hide Entries, Ordered;
    }
  }

  /** A chain in memory: whether the table has an entry for it, and whether that entry is due for replacement. */
  datatype Chain = Chain(bref: Bref, mapped: bool, mapupd: bool)


  datatype CreateResult = Created | NodeFull

  /** What may happen to one parent, in any order. */
  datatype Step =
    | DoLoad(i: int)      // read entry `i`
    | DoCreate(b: Bref)
    | DoModify(b: Bref)
    | DoDelete(k: int)
    | DoDrop(k: int)
    | DoFlush(k: int)

  // ------------------------------------------------ chains and entries

  predicate SameRange(a: Bref, b: Bref) {
    a.key == b.key && a.keybits == b.keybits
  }

  /** Chains are filed under their keys and occupy ranges of their own. */
  ghost predicate Filed(chains: map<int, Chain>) {
    && (forall k :: k in chains ==> chains[k].bref.key == k && !chains[k].bref.btype.EMPTY? && Fits(chains[k].bref))
    && (forall j, k :: j in chains && k in chains && j != k ==> Disjoint(chains[j].bref, chains[k].bref))
  }

  ghost predicate HasKey(es: set<Bref>, k: int) {
    exists e :: e in es && e.key == k
  }

  /** The flags of a chain say what the table holds for it; other entries stay out of its range. */
  ghost predicate Agrees(es: set<Bref>, c: Chain) {
    && (c.mapped <==> HasKey(es, c.bref.key))
    && (c.mapupd ==> c.mapped)
    && (c.mapped && !c.mapupd ==> c.bref in es)
    && (forall e :: e in es ==> SameRange(e, c.bref) || Disjoint(e, c.bref))
  }

  ghost function Unmapped(chains: map<int, Chain>): set<int> {
    set k | k in chains && !chains[k].mapped
  }

  ghost predicate Counted(s: seq<Bref>, chains: map<int, Chain>, live: int) {
    && Filed(chains) && (forall k :: k in chains ==> Agrees(Entries(s), chains[k]))
    && live == Used(s) + |Unmapped(chains)|
  }

  /** A range stays clear of everything a parent has, in its table or in memory. */
  ghost predicate Free(es: set<Bref>, chains: map<int, Chain>, b: Bref) {
    && (forall e :: e in es ==> Disjoint(e, b))
    && (forall k :: k in chains ==> Disjoint(chains[k].bref, b))
  }

  /** The chain's flags and reference change, with the table or without it. */
  lemma {:induction false} Refiled(chains: map<int, Chain>, k: int, c: Chain)
    requires Filed(chains) && k in chains && SameRange(c.bref, chains[k].bref) && !c.bref.btype.EMPTY?
    ensures Filed(chains[k := c])
    ensures Unmapped(chains[k := c]) == if c.mapped then Unmapped(chains) - {k} else Unmapped(chains) + {k}
  {
  }

  lemma {:induction false} Taken(chains: map<int, Chain>, k: int)
    requires Filed(chains) && k in chains
    ensures Filed(chains - {k}) && Unmapped(chains - {k}) == Unmapped(chains) - {k}
  {
  }

  lemma {:induction false} Added(chains: map<int, Chain>, c: Chain)
    requires Filed(chains) && c.bref.key !in chains && !c.bref.btype.EMPTY? && Fits(c.bref)
    requires forall k :: k in chains ==> Disjoint(chains[k].bref, c.bref)
    ensures Filed(chains[c.bref.key := c])
    ensures Unmapped(chains[c.bref.key := c]) == if c.mapped then Unmapped(chains) else Unmapped(chains) + {c.bref.key}
  {
  }

  /** An entry that comes or goes in the range of one chain does not concern the others. */
  lemma {:induction false} OthersAgree(es: set<Bref>, es': set<Bref>, c: Chain, b: Bref)
    requires Agrees(es, c) && Disjoint(b, c.bref) && (es' == es + {b} || es' == es - {b})
    ensures Agrees(es', c)
  {
    assert b.key != c.bref.key;
    if es' == es + {b} {
      assert HasKey(es', c.bref.key) <==> HasKey(es, c.bref.key);
    } else if HasKey(es, c.bref.key) {
      var e :| e in es && e.key == c.bref.key;
      assert e in es';
    }
  }

  // ------------------------------------------------ elements of a parent

  /** A reference reduced to its range. */
  function Place(b: Bref): Bref {
    Bref(OTHER, b.key, b.keybits, 0, 0, 0, 0)
  }

  /** The ranges a parent has, in its table or in memory. */
  ghost function Places(es: set<Bref>, chains: map<int, Chain>): set<Bref> {
    (set e | e in es :: Place(e)) + (set k | k in chains :: Place(chains[k].bref))
  }

  /** The references a parent has: a chain's own is newer than its entry. */
  ghost function Refs(es: set<Bref>, chains: map<int, Chain>): set<Bref> {
    (set k | k in chains :: chains[k].bref) + (set e | e in es && e.key !in chains)
  }

  lemma {:induction false} OthersKeys(es: set<Bref>, chains: map<int, Chain>, b: Bref)
    requires Free(es, chains, b) && Filed(chains)
    ensures b.key !in chains && forall e :: e in es ==> e.key != b.key
  {
    assert b.key in chains ==> Disjoint(chains[b.key].bref, b);
    assert forall e :: e in es ==> Disjoint(e, b);
  }

  ghost predicate OneEach(es: set<Bref>) {
    forall e, f :: e in es && f in es && e.key == f.key ==> e == f
  }

  lemma {:induction false} RefsLoaded(es: set<Bref>, chains: map<int, Chain>, e: Bref)
    requires OneEach(es) && e in es && e.key !in chains
    ensures Refs(es, chains[e.key := Chain(e, true, false)]) == Refs(es, chains)
  {
    var cs := chains[e.key := Chain(e, true, false)];
    forall b ensures b in Refs(es, cs) <==> b in Refs(es, chains) {
      InRefs(es, cs, b);
      InRefs(es, chains, b);
      if k :| k in chains && chains[k].bref == b { assert cs[k].bref == b; }
    }
  }

  lemma {:induction false} InRefs(es: set<Bref>, chains: map<int, Chain>, b: Bref)
    ensures b in Refs(es, chains) <==>
              (b.key in chains && chains[b.key].bref == b) || (exists k :: k in chains && chains[k].bref == b) ||
              (b in es && b.key !in chains)
  {
  }

  /** A chain goes, and its entry with it. */
  lemma {:induction false} RefsDeleted(s: seq<Bref>, chains: map<int, Chain>, live: int, k: int, obref: Option<Bref>)
    requires Sound(s) && Counted(s, chains, live) && k in chains
    requires if chains[k].mapped then obref.Some? && obref.value in Entries(s) &&
             SameRange(obref.value, chains[k].bref) else obref.None?
    ensures Refs(if obref.Some? then Entries(s) - {obref.value} else Entries(s), chains - {k})
         == Refs(Entries(s), chains) - {chains[k].bref}
    ensures chains[k].bref in Refs(Entries(s), chains)
  {
    FlushedEntries(s, chains, live, k);
    var es, es' := Entries(s), if obref.Some? then Entries(s) - {obref.value} else Entries(s);
    assert forall e :: e in es' <==> e in es && e.key != k;
    forall b ensures b in Refs(es', chains - {k}) <==> b in Refs(es, chains) && b != chains[k].bref {
      InRefs(es, chains, b);
      InRefs(es', chains - {k}, b);
    }
  }

  /** A chain comes, and perhaps an older entry for it. */
  lemma {:induction false} RefsMore(es: set<Bref>, chains: map<int, Chain>, c: Chain, obref: Option<Bref>)
    requires c.bref.key !in chains && (obref.Some? ==> obref.value.key == c.bref.key)
    requires forall e :: e in es ==> e.key != c.bref.key
    ensures Refs(if obref.Some? then es + {obref.value} else es, chains[c.bref.key := c])
         == Refs(es, chains) + {c.bref}
  {
    var es', cs := if obref.Some? then es + {obref.value} else es, chains[c.bref.key := c];
    forall b ensures b in Refs(es', cs) <==> b in Refs(es, chains) || b == c.bref {
      InRefs(es, chains, b);
      InRefs(es', cs, b);
      if b == c.bref { assert cs[b.key].bref == b; }
      if k :| k in chains && chains[k].bref == b { assert cs[k].bref == b; }
    }
  }

  /** Of a parent's references exactly the block's is gone, and those below it are left. */
  ghost predicate Given(block: Bref, refs: set<Bref>, below: set<Bref>, left: set<Bref>) {
    exists b :: b in refs && Place(b) == block && left == refs - {b} + below
  }

  /** An element is an entry's range or a chain's. */
  lemma {:induction false} InPlaces(es: set<Bref>, chains: map<int, Chain>, m: Bref)
    requires Filed(chains)
    ensures m in Places(es, chains) <==>
              (exists e :: e in es && Place(e) == m) || (m.key in chains && Place(chains[m.key].bref) == m)
  {
  }

  lemma {:induction false} PlacesLoaded(es: set<Bref>, chains: map<int, Chain>, e: Bref, c: Chain)
    requires Filed(chains) && Filed(chains[e.key := c]) && e in es && e.key !in chains && SameRange(c.bref, e)
    ensures Places(es, chains[e.key := c]) == Places(es, chains)
  {
    assert Place(e) == Place(c.bref);
    forall m ensures m in Places(es, chains[e.key := c]) <==> m in Places(es, chains) {
      InPlaces(es, chains, m);
      InPlaces(es, chains[e.key := c], m);
    }
  }

  lemma {:induction false} PlacesMore(es: set<Bref>, chains: map<int, Chain>, c: Chain)
    requires Filed(chains) && Filed(chains[c.bref.key := c]) && c.bref.key !in chains
    ensures Places(es, chains[c.bref.key := c]) == Places(es, chains) + {Place(c.bref)}
  {
    forall m ensures m in Places(es, chains[c.bref.key := c]) <==> m in Places(es, chains) || m == Place(c.bref) {
      InPlaces(es, chains, m);
      InPlaces(es, chains[c.bref.key := c], m);
    }
  }

  lemma {:induction false} PlacesMapped(es: set<Bref>, chains: map<int, Chain>, k: int, c: Chain, e: Bref)
    requires Filed(chains) && Filed(chains[k := c]) && k in chains && SameRange(e, chains[k].bref) &&
             c.bref == chains[k].bref
    ensures Places(es + {e}, chains[k := c]) == Places(es, chains)
  {
    assert Place(e) == Place(c.bref);
    forall m ensures m in Places(es + {e}, chains[k := c]) <==> m in Places(es, chains) {
      InPlaces(es, chains, m);
      InPlaces(es + {e}, chains[k := c], m);
    }
  }

  lemma {:induction false} PlacesLess(es: set<Bref>, chains: map<int, Chain>, k: int, obref: Option<Bref>)
    requires Filed(chains) && Filed(chains - {k}) && k in chains && Agrees(es, chains[k])
    requires forall e, f :: e in es && f in es && e.key == f.key ==> e == f
    requires if chains[k].mapped then obref.Some? && obref.value in es && SameRange(obref.value, chains[k].bref)
             else obref.None?
    ensures Places(if obref.Some? then es - {obref.value}
            else es, chains - {k}) == Places(es, chains) - {Place(chains[k].bref)}
  {
    var es' := if obref.Some? then es - {obref.value} else es;
    forall m ensures m in Places(es', chains - {k}) <==> m in Places(es, chains) && m != Place(chains[k].bref) {
      InPlaces(es, chains, m);
      InPlaces(es', chains - {k}, m);
      hide Places;
      if e :| e in es && Place(e) == m { assert obref.None? || e != obref.value ==> e in es'; }
    }
  }

  lemma {:induction false} PlacesApart(s: seq<Bref>, chains: map<int, Chain>, live: int, m: Bref, n: Bref)
    requires Sound(s) && Counted(s, chains, live) && m in Places(Entries(s), chains) &&
             n in Places(Entries(s), chains) && m != n
    ensures Disjoint(m, n)
  {
    InPlaces(Entries(s), chains, m);
    InPlaces(Entries(s), chains, n);
    hide Places;
    if m.key in chains { assert Agrees(Entries(s), chains[m.key]); }
    if n.key in chains { assert Agrees(Entries(s), chains[n.key]); }
  }

  ghost function EntryKeys(es: set<Bref>): set<int> {
    set e | e in es :: e.key
  }

  lemma {:induction false} EntryKeysAre(es: set<Bref>, e: Bref)
    ensures forall k :: k in EntryKeys(es) <==> HasKey(es, k)
    ensures EntryKeys(es + {e}) == EntryKeys(es) + {e.key}
  {
  }

  lemma {:induction false} NoEntryKeys(s: seq<Bref>)
    requires s == []
    ensures EntryKeys(Entries(s)) == {}
  {
  }

  lemma {:induction false} TableKeys(s: seq<Bref>)
    requires Ordered(s)
    ensures |EntryKeys(Entries(s))| == Used(s)
    decreases |s|
  {
    hide EntryKeys, Entries, Ordered, HasKey;
    if s == [] {
      NoEntryKeys(s);
    } else {
      var n := |s| - 1;
      OrderedPrefix(s, n);
      LastEntry(s);
      TableKeys(s[..n]);
      EntryKeysAre(Entries(s[..n]), s[n]);
      if !s[n].btype.EMPTY? { KeysBelow(s); }
    }
  }

  lemma {:induction false} KeysBelow(s: seq<Bref>)
    requires Ordered(s) && s != [] && !s[|s| - 1].btype.EMPTY?
    ensures !HasKey(Entries(s[..|s| - 1]), s[|s| - 1].key)
  {
  }

  lemma {:induction false} MappedHasKey(s: seq<Bref>, chains: map<int, Chain>, live: int)
    requires Counted(s, chains, live)
    ensures forall k :: k in chains ==> (chains[k].mapped <==> HasKey(Entries(s), k))
  {
    forall k | k in chains ensures chains[k].mapped <==> HasKey(Entries(s), k) {
      assert Agrees(Entries(s), chains[k]);
      hide HasKey, Entries;
    }
  }

  /** The live count is the number of keys in the parent's merged view. */
  lemma {:induction false} LiveIsView(s: seq<Bref>, chains: map<int, Chain>, live: int)
    requires Sound(s) && Counted(s, chains, live)
    ensures live == |EntryKeys(Entries(s)) + chains.Keys|
  {
    TableKeys(s);
    UnmappedKeys(s, chains, live);
    assert EntryKeys(Entries(s)) + chains.Keys == EntryKeys(Entries(s)) + (chains.Keys - EntryKeys(Entries(s)));
  }

  lemma {:induction false} UnmappedKeys(s: seq<Bref>, chains: map<int, Chain>, live: int)
    requires Counted(s, chains, live)
    ensures Unmapped(chains) == chains.Keys - EntryKeys(Entries(s))
  {
    EntryKeysAre(Entries(s), ZEROED);
    MappedHasKey(s, chains, live);
    hide EntryKeys, Entries, Counted, HasKey;
    forall k ensures k in Unmapped(chains) <==> k in chains.Keys - EntryKeys(Entries(s)) { }
  }

  class Core {
    const table: Table
    var liveCount: int
    var chains: map<int, Chain>

    /** The live count is the table's entries plus the chains it does not have, and never beyond the slots. */
    ghost predicate Valid()
      reads this, table, table.base
    {
      table.Valid() && Counted(table.base[..], chains, liveCount) && liveCount <= table.base.Length
    }

    ghost function Contents(): set<Bref>
      reads table.base
    {
      Entries(table.base[..])
    }

    /** Count the entries of a table seen for the first time, from its end. */
    constructor (table: Table)
      requires table.Valid()
      ensures Valid() && this.table == table && chains == map[] && liveCount == |Contents()|
    {
      this.table := table;
      chains := map[];
      var count, n := table.base.Length, 0;
      assert table.base[..count] == table.base[..];
      while count > 0
        invariant 0 <= count <= table.base.Length && n == Used(table.base[..]) - Used(table.base[..count])
        decreases count
      {
        assert table.base[..count][..count - 1] == table.base[..count - 1];
        if !table.base[count - 1].btype.EMPTY? { n := n + 1; }
        count := count - 1;
      }
      liveCount := n;
      new;
      UsedBound(table.base[..]);
      UsedIsEntries(table.base[..]);
      assert Unmapped(chains) == {};
    }

    /** Insert the chain of an entry just read from the table: not LIVE, no slot changes hands. */
    method Load(e: Bref)
      requires Valid() && e in Contents() && e.key !in chains
      modifies this`chains
      ensures Valid() && chains == old(chains)[e.key := Chain(e, true, false)]
    {
      Loaded(table.base[..], chains, liveCount, e);
      chains := chains[e.key := Chain(e, true, false)];
    }

    /** Insert a new chain, LIVE: it takes a slot that must be free. */
    method InsertLive(b: Bref)
      requires Valid() && liveCount < table.base.Length && !b.btype.EMPTY? && Fits(b) && Free(Contents(), chains, b)
      modifies this`chains, this`liveCount
      ensures Valid() && liveCount == old(liveCount) + 1 && b.key !in old(chains)
      ensures chains == old(chains)[b.key := Chain(b, false, false)]
    {
      NewCounted(table.base[..], chains, liveCount, b);
      chains := chains[b.key := Chain(b, false, false)];
      liveCount := liveCount + 1;
    }

    /** The frontend modifies a chain: its entry, if there is one, is due for replacement. */
    method Modify(b: Bref)
      requires Valid() && b.key in chains && SameRange(b, chains[b.key].bref) && !b.btype.EMPTY?
      modifies this`chains
      ensures Valid() && chains == old(chains)[b.key := Chain(b, old(chains)[b.key].mapped, old(chains)[b.key].mapped)]
    {
      var c := chains[b.key];
      Modified(table.base[..], chains, liveCount, b);
      chains := chains[b.key := Chain(b, c.mapped, c.mapped)];
    }

    /** Create a chain under the parent, unless the parent needs an indirect block first. */
    method Create(b: Bref) returns (r: CreateResult)
      requires Valid() && !b.btype.EMPTY? && Fits(b) && Free(Contents(), chains, b)
      modifies this`chains, this`liveCount
      ensures Valid() && (r.NodeFull? <==> old(liveCount) == table.base.Length)
      ensures r.Created? ==> liveCount == old(liveCount) + 1 && chains == old(chains)[b.key := Chain(b, false, false)]
      ensures r.NodeFull? ==> liveCount == old(liveCount) && chains == old(chains)
    {
      if liveCount == table.base.Length { return NodeFull; }
      InsertLive(b);
      return Created;
    }

    /** The same, in terms of the elements. */
    method TryCreate(b: Bref) returns (r: CreateResult)
      requires Valid() && !b.btype.EMPTY? && Fits(b) && forall x :: x in Elements() ==> Disjoint(x, Place(b))
      modifies this`chains, this`liveCount
      ensures Valid() && (r.NodeFull? <==> old(liveCount) == table.base.Length)
      ensures liveCount == old(liveCount) + if r.Created? then 1 else 0
      ensures Elements() == old(Elements()) + if r.Created? then {Place(b)} else {}
      ensures References() == old(References()) + if r.Created? then {b} else {}
    {
      if liveCount == table.base.Length { return NodeFull; }
      Adopt(b);
      return Created;
    }

    /** Insert a chain whose range is clear of all elements: there is one element more. */
    method Adopt(b: Bref)
      requires Valid() && liveCount < table.base.Length && !b.btype.EMPTY? && Fits(b)
      requires forall x :: x in Elements() ==> Disjoint(x, Place(b))
      modifies this`chains, this`liveCount
      ensures Valid() && liveCount == old(liveCount) + 1
      ensures Elements() == old(Elements()) + {Place(b)} && References() == old(References()) + {b}
    {
      ClearOfElements(table.base[..], chains, Place(b));
      ghost var es, cs := Contents(), chains;
      InsertLive(b);
      PlacesMore(es, cs, Chain(b, false, false));
      OthersKeys(es, cs, b);
      RefsMore(es, cs, Chain(b, false, false), None);
    }

    /** Take the entry of a chain out of the table; the chain stays. */
    method Unmap(k: int) returns (obref: Bref)
      requires Valid() && k in chains && chains[k].mapped
      modifies this`chains, table, table.base
      ensures Valid() && chains == old(chains)[k := Chain(old(chains)[k].bref, false, false)]
      ensures obref in old(Contents()) && SameRange(obref, chains[k].bref) && Contents() == old(Contents()) - {obref}
      ensures !old(chains)[k].mapupd ==> obref == chains[k].bref
    {
      ghost var s := table.base[..];
      var c := chains[k];
      EntryOf(s, chains, liveCount, k);
      var found;
      found, obref := table.Delete(c.bref, c.mapupd);
      UnmappedCounted(s, table.base[..], chains, liveCount, k, obref);
      chains := chains[k := Chain(c.bref, false, false)];
    }

    /** Enter a reference to a chain that has no entry: there is a slot for it. */
    method Map(k: int, e: Bref) returns (r: InsertResult)
      requires Valid() && k in chains && !chains[k].mapped && SameRange(e, chains[k].bref) && !e.btype.EMPTY?
      modifies this`chains, table, table.base
      ensures Valid() && r == Inserted && Contents() == old(Contents()) + {e}
      ensures chains == old(chains)[k := Chain(old(chains)[k].bref, true, e != old(chains)[k].bref)]
    {
      ghost var s := table.base[..];
      UsedBound(s);
      NoEntryMeets(s, chains, liveCount, k, e);
      r := table.Insert(e);
      MappedCounted(s, table.base[..], chains, liveCount, k, e);
      chains := chains[k := Chain(chains[k].bref, true, e != chains[k].bref)];
    }

    /** Delete a chain: with its entry, or from memory only. */
    method Delete(k: int) returns (obref: Option<Bref>)
      requires Valid() && k in chains
      modifies this, table, table.base
      ensures Valid() && liveCount == old(liveCount) - 1 && chains == old(chains) - {k}
      ensures obref.Some? <==> old(chains)[k].mapped
      ensures obref.Some? ==> obref.value in old(Contents()) && SameRange(obref.value, old(chains)[k].bref)
                              && Contents() == old(Contents()) - {obref.value}
      ensures obref.None? ==> Contents() == old(Contents())
    {
      obref := None;
      if chains[k].mapped {
        var e := Unmap(k);
        obref := Some(e);
      }
      Dropped(table.base[..], chains, liveCount, k);
      chains := chains - {k};
      liveCount := liveCount - 1;
    }

    /** The last reference to a chain goes: only a chain without an entry gives its slot back. */
    method LastDrop(k: int)
      requires Valid() && k in chains
      modifies this`chains, this`liveCount
      ensures Valid() && chains == old(chains) - {k}
      ensures liveCount == if old(chains)[k].mapped then old(liveCount) else old(liveCount) - 1
    {
      Dropped(table.base[..], chains, liveCount, k);
      if !chains[k].mapped { liveCount := liveCount - 1; }
      chains := chains - {k};
    }

    /**
      The flush of a chain: take out its entry if that is due for replacement, then enter the
      chain's reference if the table has none.  There is always a slot.
     */
    method Flush(k: int) returns (r: InsertResult)
      requires Valid() && k in chains
      modifies this`chains, table, table.base
      ensures Valid() && r == Inserted
      ensures chains == old(chains)[k := Chain(old(chains)[k].bref, true, false)]
      ensures forall e: Bref :: e in Contents() <==> e == chains[k].bref || (e in old(Contents()) && e.key != k)
    {
      hide Counted, Entries, Disjoint, Fits, Sound;
      r := Inserted;
      FlushedEntries(table.base[..], chains, liveCount, k);
      InFile(table.base[..], chains, liveCount, k);
      if chains[k].mapupd { var _ := Unmap(k); }
      if !chains[k].mapped { r := Map(k, chains[k].bref); }
    }

    ghost function Elements(): set<Bref>
      reads this, table.base
    {
      Places(Contents(), chains)
    }

    /** The references this parent has, the newest of each element. */
    ghost function References(): set<Bref>
      reads this, table.base
    {
      Refs(Contents(), chains)
    }

    ghost function Now(): View
      reads this, table, table.base
    {
      View(table.base[..], chains, liveCount)
    }

    /** Have the element in memory. */
    method Fetch(ghost m: Bref, k: int)
      requires Valid() && m in Elements() && k == m.key
      modifies this`chains, table`cacheIndex
      ensures Valid() && k in chains && Place(chains[k].bref) == m && Elements() == old(Elements())
      ensures References() == old(References())
    {
      ElementHere(table.base[..], chains, liveCount, m);
      if k in chains { return; }
      var i, _ := table.Find(k, 0);
      FoundAt(table.base[..], k, i, m);
      ghost var cs := chains;
      Load(table.base[i]);
      FlushedEntries(table.base[..], chains, liveCount, k);
      RefsLoaded(Contents(), cs, table.base[i]);
      PlacesLoaded(Contents(), cs, table.base[i], chains[k]);
    }

    /** Attach a moved chain here, LIVE, and enter its old reference if it had an entry. */
    method Receive(b: Bref, obref: Option<Bref>)
      requires Valid() && liveCount < table.base.Length && !b.btype.EMPTY? && Fits(b) && Free(Contents(), chains, b)
      requires obref.Some? ==> SameRange(obref.value, b) && !obref.value.btype.EMPTY?
      modifies this, table, table.base
      ensures Valid() && liveCount == old(liveCount) + 1 && Elements() == old(Elements()) + {Place(b)}
      ensures b.key in chains && chains[b.key] == Chain(b, obref.Some?, obref.Some? && obref.value != b)
      ensures References() == old(References()) + {b}
      ensures Contents() == old(Contents()) + if obref.Some? then {obref.value} else {}
    {
      ghost var es0, cs0 := Contents(), chains;
      hide Refs, Places, Free, Disjoint, HasKey, Agrees;
      OthersKeys(es0, cs0, b);
      RefsMore(es0, cs0, Chain(b, obref.Some?, obref.Some? && obref.value != b), obref);
      ghost var es, cs := Contents(), chains;
      InsertLive(b);
      PlacesMore(es, cs, Chain(b, false, false));
      if obref.Some? {
        es, cs := Contents(), chains;
        var _ := Map(b.key, obref.value);
        PlacesMapped(es, cs, b.key, chains[b.key], obref.value);
        assert chains == cs0[b.key := chains[b.key]];
      }
    }

    /** Move one element to another parent, with its entry if it has one. */
    method MoveTo(ghost m: Bref, k: int, dest: Core)
      requires Valid() && dest.Valid() && Apart(dest) && m in Elements() && k == m.key
      requires dest.liveCount < dest.table.base.Length && forall x :: x in dest.Elements() ==> Disjoint(x, m)
      modifies this, table, table.base, dest, dest.table, dest.table.base
      ensures Valid() && dest.Valid()
      ensures liveCount == old(liveCount) - 1 && dest.liveCount == old(dest.liveCount) + 1
      ensures Elements() == old(Elements()) - {m} && dest.Elements() == old(dest.Elements()) + {m}
      ensures References() + dest.References() == old(References() + dest.References())
      ensures Contents() + dest.Contents() == old(Contents() + dest.Contents())
    {
      hide Counted, Places, Refs, Disjoint, Fits, SameRange, Entries, Sound, Free;
      ClearOfElements(dest.table.base[..], dest.chains, m);
      var b, obref := Remove(m, k);
      dest.Receive(b, obref);
    }

    /** Move the elements of a list to another parent, as long as it has slots for all of them. */
    method MoveAll(ms: seq<Bref>, dest: Core)
      requires Valid() && dest.Valid() && Apart(dest) && Distinct(ms) && (forall m :: m in ms ==> m in Elements())
      requires dest.liveCount + |ms| <= dest.table.base.Length
      requires forall x, m :: x in dest.Elements() && m in ms ==> Disjoint(x, m)
      modifies this, table, table.base, dest, dest.table, dest.table.base
      ensures Valid() && dest.Valid()
      ensures liveCount == old(liveCount) - |ms| && dest.liveCount == old(dest.liveCount) + |ms|
      ensures Elements() == old(Elements()) - Listed(ms) && dest.Elements() == old(dest.Elements()) + Listed(ms)
      ensures References() + dest.References() == old(References() + dest.References())
      ensures Contents() + dest.Contents() == old(Contents() + dest.Contents())
    {
      ghost var here, there := Elements(), dest.Elements();
      ElementsApart(table.base[..], chains, liveCount, ms);
      ListedNone(ms);
      var i := 0;
      while i < |ms|
        invariant 0 <= i <= |ms| && Valid() && dest.Valid() && Apart(dest)
        invariant Moving(ms, i, here, there, Elements(), dest.Elements())
        invariant liveCount == old(liveCount) - i && dest.liveCount == old(dest.liveCount) + i
        invariant References() + dest.References() == old(References() + dest.References())
        invariant Contents() + dest.Contents() == old(Contents() + dest.Contents())
      {
        MovingNext(ms, i, here, there, Elements(), dest.Elements());
        hide Moving;
        MoveTo(ms[i], ms[i].key, dest);
        i := i + 1;
      }
      assert ms[..i] == ms;
    }

    /**
      Split: move elements of this full parent into the new block `dest`, then insert the block.
      The slot that insertion needs is there.
     */
    method Split(ms: seq<Bref>, dest: Core, block: Bref)
      requires Valid() && dest.Valid() && Apart(dest) && Distinct(ms) && (forall m :: m in ms ==> m in Elements())
      requires dest.liveCount == 0 && dest.Elements() == {} && 0 < |ms| <= dest.table.base.Length
      requires !block.btype.EMPTY? && Fits(block) && forall x :: x in Elements() && x !in ms ==>
               Disjoint(x, Place(block))
      modifies this, table, table.base, dest, dest.table, dest.table.base
      ensures Valid() && dest.Valid() && liveCount == old(liveCount) - |ms| + 1 && dest.liveCount == |ms|
      ensures Elements() == old(Elements()) - Listed(ms) + {Place(block)} && dest.Elements() == Listed(ms)
      ensures References() + dest.References() == old(References() + dest.References()) + {block}
      ensures Contents() + dest.Contents() == old(Contents() + dest.Contents())
    {
      hide Counted, Places, Refs, Distinct, Fits, Entries, Disjoint;
      MoveAll(ms, dest);
      Adopt(block);
    }

    /**
      Create under a full parent: split it, then try again in the new block if the key falls into
      it and in the parent otherwise.  The parent is full again only if one element has moved.
     */
    method CreateSplitting(b: Bref, ms: seq<Bref>, dest: Core, block: Bref, inside: bool) returns (r: CreateResult)
      requires Valid() && liveCount == table.base.Length && dest.Valid() && Apart(dest)
      requires Distinct(ms) && (forall m :: m in ms ==> m in Elements())
      requires dest.liveCount == 0 && dest.Elements() == {} && 0 < |ms| <= dest.table.base.Length
      requires !block.btype.EMPTY? && Fits(block) && forall x :: x in Elements() && x !in ms ==>
               Disjoint(x, Place(block))
      requires !b.btype.EMPTY? && Fits(b) && forall x :: x in Elements() ==> Disjoint(x, Place(b))
      requires !inside ==> Disjoint(block, b)
      modifies this, table, table.base, dest, dest.table, dest.table.base
      ensures Valid() && dest.Valid()
      ensures r.NodeFull? <==> if inside then |ms| == dest.table.base.Length else |ms| == 1
      ensures liveCount == old(liveCount) - |ms| + 1 + (if r.Created? && !inside then 1 else 0)
      ensures dest.liveCount == |ms| + if r.Created? && inside then 1 else 0
      ensures Elements() == old(Elements()) - Listed(ms) + {Place(block)} +
              if r.Created? && !inside then {Place(b)} else {}
      ensures dest.Elements() == Listed(ms) + if r.Created? && inside then {Place(b)} else {}
      ensures References() + dest.References()
           == old(References() + dest.References()) + {block} + if r.Created? then {b} else {}
      ensures Contents() + dest.Contents() == old(Contents() + dest.Contents())
    {
      hide Counted, Places, Distinct, Listed, Fits, Refs;
      ghost var here := Elements();
      Split(ms, dest, block);
      SplitClear(here, ms, Place(block), Place(b), inside);
      if inside { r := dest.TryCreate(b); } else { r := TryCreate(b); }
    }

    /**
      Collapse: delete indirect block `k` from this parent and move the block's elements here, if
      the two together fit.  No slot is missing on the way.
     */
    method Collapse(block: Bref, sub: Core, ms: seq<Bref>) returns (gone: bool)
      requires Valid() && sub.Valid() && sub.Apart(this) && block in Elements()
      requires Distinct(ms) && Listed(ms) == sub.Elements() && |ms| == sub.liveCount
      requires forall x, m :: x in Elements() && x != block && m in ms ==> Disjoint(x, m)
      modifies this, table, table.base, sub, sub.table, sub.table.base
      ensures Valid() && sub.Valid()
      ensures gone <==> old(liveCount) + old(sub.liveCount) - 1 <= table.base.Length
                        && old(sub.liveCount) <= sub.table.base.Length * 3 / 4
      ensures gone ==>
              Elements() == old(Elements()) - {block} + Listed(ms) && sub.Elements() == {} && sub.liveCount == 0
      ensures gone ==> liveCount == old(liveCount) + old(sub.liveCount) - 1
      ensures gone ==> Given(block, old(References()), old(sub.References()), References() + sub.References())
      ensures gone ==> Contents() + sub.Contents() <= old(Contents() + sub.Contents())
      ensures !gone ==> Elements() == old(Elements()) && sub.Elements() == old(sub.Elements())
    {
      hide Counted, Places, Refs, Disjoint, Fits, SameRange, Distinct, Sound, Entries;
      if liveCount + sub.liveCount - 1 > table.base.Length || sub.liveCount > sub.table.base.Length * 3 / 4 {
        return false;
      }
      var _, _ := Remove(block, block.key);
      sub.MoveAll(ms, this);
      return true;
    }

    /** Delete one element: its chain, and its entry if it has one. */
    method Remove(ghost m: Bref, k: int) returns (b: Bref, obref: Option<Bref>)
      requires Valid() && m in Elements() && k == m.key
      modifies this, table, table.base
      ensures Valid() && liveCount == old(liveCount) - 1 && Elements() == old(Elements()) - {m}
      ensures Place(b) == m && Fits(b) && !b.btype.EMPTY?
      ensures b in old(References()) && References() == old(References()) - {b}
      ensures obref.Some? ==> obref.value in old(Contents()) && SameRange(obref.value, b) && !obref.value.btype.EMPTY?
      ensures obref.None? ==> forall e :: e in old(Contents()) ==> e.key != k
      ensures Contents() == old(Contents()) - if obref.Some? then {obref.value} else {}
    {
      Fetch(m, k);
      b := chains[k].bref;
      ghost var s, cs, live := table.base[..], chains, liveCount;
      InFile(s, cs, live, k);
      hide Counted, Places, Refs;
      obref := Delete(k);
      PlacesDeleted(s, cs, live, k, obref);
      RefsDeleted(s, cs, live, k, obref);
    }

    ghost predicate Apart(dest: Core) {
      this != dest && table != dest.table && table.base != dest.table.base
    }
  }

  lemma {:induction false} ElementHere(s: seq<Bref>, chains: map<int, Chain>, live: int, m: Bref)
    requires Sound(s) && Counted(s, chains, live) && m in Places(Entries(s), chains)
    ensures if m.key in chains then Place(chains[m.key].bref) == m
            else exists e :: e in Entries(s) && Place(e) == m
  {
    if m.key in chains {
      assert Agrees(Entries(s), chains[m.key]);
    }
  }

  lemma {:induction false} FoundAt(s: seq<Bref>, k: int, i: nat, m: Bref)
    requires Sound(s) && 0 <= k < KEYS && Nearest(s, k, i) && m.key == k
    requires exists e :: e in Entries(s) && Place(e) == m
    ensures i < |s| && s[i] in Entries(s) && Place(s[i]) == m
  {
    var e :| e in Entries(s) && Place(e) == m;
    NearestLeast(s, k, i);
  }

  ghost predicate Distinct(ms: seq<Bref>) {
    forall i, j :: 0 <= i < j < |ms| ==> ms[i] != ms[j]
  }

  ghost function Listed(ms: seq<Bref>): set<Bref> {
    set m | m in ms
  }

  /** The first `i` elements of the list have moved. */
  ghost predicate Moving(ms: seq<Bref>, i: nat, here: set<Bref>, there: set<Bref>, left: set<Bref>, moved: set<Bref>)
    requires i <= |ms|
  {
    && left == here - Listed(ms[..i]) && moved == there + Listed(ms[..i])
    && Distinct(ms) && (forall m :: m in ms ==> m in here)
    && (forall m, n :: m in ms && n in ms && m != n ==> Disjoint(m, n))
    && (forall x, m :: x in there && m in ms ==> Disjoint(x, m))
  }

  lemma {:induction false} MovingNext(ms: seq<Bref>, i: nat, here: set<Bref>, there: set<Bref>, left: set<Bref>,
                                      moved: set<Bref>)
    requires i < |ms| && Moving(ms, i, here, there, left, moved)
    ensures ms[i] in left && forall x :: x in moved ==> Disjoint(x, ms[i])
    ensures Moving(ms, i + 1, here, there, left - {ms[i]}, moved + {ms[i]})
  {
    ListedMore(ms, i);
    hide Disjoint, Listed, Distinct;
  }

  lemma {:induction false} SplitClear(here: set<Bref>, ms: seq<Bref>, block: Bref, b: Bref, inside: bool)
    requires (forall x :: x in here ==> Disjoint(x, b)) && (forall m :: m in ms ==> m in here) &&
             (!inside ==> Disjoint(block, b))
    ensures forall x :: x in (if inside then Listed(ms) else here - Listed(ms) + {block}) ==> Disjoint(x, b)
  {
  }

  lemma {:induction false} ListedNone(ms: seq<Bref>)
    ensures Listed(ms[..0]) == {}
  {
  }

  lemma {:induction false} ListedMore(ms: seq<Bref>, i: nat)
    requires i < |ms| && Distinct(ms)
    ensures Listed(ms[..i + 1]) == Listed(ms[..i]) + {ms[i]} && ms[i] !in Listed(ms[..i])
    ensures forall m :: m in Listed(ms[..i]) ==> m in ms && m != ms[i]
  {
    assert ms[..i + 1] == ms[..i] + [ms[i]];
  }

  lemma {:induction false} ElementsApart(s: seq<Bref>, chains: map<int, Chain>, live: int, ms: seq<Bref>)
    requires Sound(s) && Counted(s, chains, live) && forall m :: m in ms ==> m in Places(Entries(s), chains)
    ensures forall m, n :: m in ms && n in ms && m != n ==> Disjoint(m, n)
  {
    forall m, n | m in ms && n in ms && m != n ensures Disjoint(m, n) { PlacesApart(s, chains, live, m, n); }
  }

  lemma {:induction false} InFile(s: seq<Bref>, chains: map<int, Chain>, live: int, k: int)
    requires Sound(s) && Counted(s, chains, live) && k in chains
    ensures chains[k].bref.key == k && Fits(chains[k].bref) && !chains[k].bref.btype.EMPTY?
    ensures forall e :: e in Entries(s) ==> !e.btype.EMPTY?
  {
  }

  lemma {:induction false} PlacesDeleted(s: seq<Bref>, chains: map<int, Chain>, live: int, k: int, obref: Option<Bref>)
    requires Sound(s) && Counted(s, chains, live) && k in chains
    requires if chains[k].mapped then obref.Some? && obref.value in Entries(s) &&
             SameRange(obref.value, chains[k].bref) else obref.None?
    ensures Places(if obref.Some? then Entries(s) - {obref.value} else Entries(s), chains - {k})
         == Places(Entries(s), chains) - {Place(chains[k].bref)}
  {
    FlushedEntries(s, chains, live, k);
    Taken(chains, k);
    assert Agrees(Entries(s), chains[k]);
    PlacesLess(Entries(s), chains, k, obref);
  }

  lemma {:induction false} ClearOfElements(s: seq<Bref>, chains: map<int, Chain>, m: Bref)
    requires forall x :: x in Places(Entries(s), chains) ==> Disjoint(x, m)
    ensures forall b :: Place(b) == m ==> Free(Entries(s), chains, b)
  {
    forall b, e | Place(b) == m && e in Entries(s) ensures Disjoint(e, b) {
      assert Place(e) in Places(Entries(s), chains);
    }
    forall b, k | Place(b) == m && k in chains ensures Disjoint(chains[k].bref, b) {
      assert Place(chains[k].bref) in Places(Entries(s), chains);
    }
  }

  /** A parent as it stands between two steps. */
  datatype View = View(slots: seq<Bref>, chains: map<int, Chain>, live: int)

  ghost predicate Others(es: set<Bref>, es': set<Bref>, k: int, add: set<Bref>) {
    forall e :: e in es' <==> e in add || (e in es && e.key != k)
  }

  ghost predicate MayCreate(v: View, b: Bref) {
    !b.btype.EMPTY? && Fits(b) && Free(Entries(v.slots), v.chains, b) && v.live < |v.slots|
  }

  /** What each step does to a parent.  A step that is out of place does nothing. */
  ghost predicate Performs(step: Step, v: View, v': View) {
    var es, es', cs := Entries(v.slots), Entries(v'.slots), v.chains;
    match step
    case DoLoad(i) =>
      v' == if 0 <= i < |v.slots| && !v.slots[i].btype.EMPTY? && v.slots[i].key !in cs
            then v.(chains := cs[v.slots[i].key := Chain(v.slots[i], true, false)]) else v
    case DoCreate(b) =>
      v' == if MayCreate(v, b) then v.(chains := cs[b.key := Chain(b, false, false)], live := v.live + 1) else v
    case DoModify(b) =>
      v' == if b.key in cs && SameRange(b, cs[b.key].bref) && !b.btype.EMPTY?
            then v.(chains := cs[b.key := Chain(b, cs[b.key].mapped, cs[b.key].mapped)]) else v
    case DoDelete(k) =>
      if k in cs then v'.chains == cs - {k} && v'.live == v.live - 1 && Others(es, es', k, {}) else v' == v
    case DoDrop(k) =>
      v' == if k in cs then v.(chains := cs - {k}, live := if cs[k].mapped then v.live else v.live - 1) else v
    case DoFlush(k) =>
      if k in cs then v'.chains == cs[k := Chain(cs[k].bref, true, false)] && v'.live == v.live &&
                      Others(es, es', k, {cs[k].bref})
      else v' == v
  }

  /** These steps led from the first of the views to the last. */
  ghost predicate Performed(steps: seq<Step>, seen: seq<View>) {
    |seen| == |steps| + 1 && forall i :: 0 <= i < |steps| ==> Performs(steps[i], seen[i], seen[i + 1])
  }

  /** Any run of steps: the count stays exact and a flush never lacks a slot. */
  method Run(core: Core, steps: seq<Step>) returns (entered: seq<InsertResult>, ghost seen: seq<View>)
    requires core.Valid()
    modifies core, core.table, core.table.base
    ensures core.Valid() && forall r :: r in entered ==> r == Inserted
    ensures Performed(steps, seen) && seen[0] == old(core.Now()) && seen[|steps|] == core.Now()
  {
    entered, seen := [], [core.Now()];
    var i := 0;
    while i < |steps|
      invariant 0 <= i <= |steps| && core.Valid() && forall r :: r in entered ==> r == Inserted
      invariant Performed(steps[..i], seen) && seen[0] == old(core.Now()) && seen[i] == core.Now()
    {
      hide Performs, Counted;
      var made := Perform(core, steps[i]);
      entered, seen := entered + made, seen + [core.Now()];
      assert steps[..i + 1] == steps[..i] + [steps[i]];
      i := i + 1;
    }
    assert steps[..i] == steps;
  }

  /** One step, or none if it is out of place. */
  method Perform(core: Core, step: Step) returns (entered: seq<InsertResult>)
    requires core.Valid()
    modifies core, core.table, core.table.base
    ensures core.Valid() && forall r :: r in entered ==> r == Inserted
    ensures Performs(step, old(core.Now()), core.Now())
    ensures |entered| == if step.DoFlush? && step.k in old(core.chains) then 1 else 0
  {
    hide Disjoint, Fits, Places, Counted, Others;
    entered := [];
    match step
    case DoLoad(i) =>
      if 0 <= i < core.table.base.Length && !core.table.base[i].btype.EMPTY? && core.table.base[i].key !in core.chains {
        core.Load(core.table.base[i]);
      }
    case DoCreate(b) => TryFree(core, b);
    case DoModify(b) =>
      if b.key in core.chains && SameRange(b, core.chains[b.key].bref) && !b.btype.EMPTY? { core.Modify(b); }
    case DoDelete(k) =>
      if k in core.chains { DeleteAll(core, k); }
    case DoDrop(k) =>
      if k in core.chains { core.LastDrop(k); }
    case DoFlush(k) =>
      if k in core.chains {
        var r := FlushAll(core, k);
        entered := [r];
      }
  }

  /** Create a chain if its range is free and the parent is not full. */
  method TryFree(core: Core, b: Bref)
    requires core.Valid()
    modifies core`chains, core`liveCount
    ensures core.Valid() && Performs(DoCreate(b), old(core.Now()), core.Now())
  {
    hide Disjoint, Fits, Places, Counted;
    var clear := forall i :: 0 <= i < core.table.base.Length && !core.table.base[i].btype.EMPTY? ==>
      Disjoint(core.table.base[i], b);
    if !b.btype.EMPTY? && Fits(b) && clear && forall k :: k in core.chains ==> Disjoint(core.chains[k].bref, b) {
      var _ := core.Create(b);
    }
  }

  /** Delete a chain; no other entry goes. */
  method DeleteAll(core: Core, k: int)
    requires core.Valid() && k in core.chains
    modifies core, core.table, core.table.base
    ensures core.Valid() && Performs(DoDelete(k), old(core.Now()), core.Now())
  {
    hide Disjoint, Fits, Counted, Entries;
    FlushedEntries(core.table.base[..], core.chains, core.liveCount, k);
    var _ := core.Delete(k);
  }

  method FlushAll(core: Core, k: int) returns (r: InsertResult)
    requires core.Valid() && k in core.chains
    modifies core, core.table, core.table.base
    ensures core.Valid() && r == Inserted && Performs(DoFlush(k), old(core.Now()), core.Now())
  {
    hide Disjoint, Fits, Counted, Entries;
    assert core.Contents() == Entries(core.table.base[..]);
    r := core.Flush(k);
    assert core.Contents() == Entries(core.table.base[..]);
  }

  lemma {:induction false} Modified(s: seq<Bref>, chains: map<int, Chain>, live: int, b: Bref)
    requires Counted(s, chains, live) && b.key in chains && SameRange(b, chains[b.key].bref) && !b.btype.EMPTY?
    ensures Counted(s, chains[b.key := Chain(b, chains[b.key].mapped, chains[b.key].mapped)], live)
  {
    var c := Chain(b, chains[b.key].mapped, chains[b.key].mapped);
    Refiled(chains, b.key, c);
    assert Agrees(Entries(s), chains[b.key]);
    assert Unmapped(chains[b.key := c]) == Unmapped(chains);
  }

  /** The entry of a mapped chain has its range; it is the chain's reference unless it is due for replacement. */
  lemma {:induction false} EntryOf(s: seq<Bref>, chains: map<int, Chain>, live: int, k: int)
    requires Sound(s) && Counted(s, chains, live) && k in chains && chains[k].mapped
    ensures exists e :: e in Entries(s) && e.key == k && e.keybits == chains[k].bref.keybits
    ensures forall e :: e in Entries(s) && e.key == k ==>
              SameRange(e, chains[k].bref) && (!chains[k].mapupd ==> e == chains[k].bref)
  {
    assert Agrees(Entries(s), chains[k]);
    var e :| e in Entries(s) && e.key == k;
    assert SameRange(e, chains[k].bref);
  }

  lemma {:induction false} UnmappedCounted(s: seq<Bref>, s': seq<Bref>, chains: map<int, Chain>, live: int, k: int,
                                           e: Bref)
    requires Sound(s) && Sound(s') && Counted(s, chains, live) && k in chains && chains[k].mapped
    requires e in Entries(s) && SameRange(e, chains[k].bref) && Entries(s') == Entries(s) - {e}
    ensures Counted(s', chains[k := Chain(chains[k].bref, false, false)], live)
  {
    var c := Chain(chains[k].bref, false, false);
    Refiled(chains, k, c);
    Shrunk(s, s', e);
    assert Agrees(Entries(s), chains[k]);
    assert Agrees(Entries(s'), c);
    forall j | j in chains && j != k ensures Agrees(Entries(s'), chains[j]) {
      OthersAgree(Entries(s), Entries(s'), chains[j], e);
    }
  }

  lemma {:induction false} NoEntryMeets(s: seq<Bref>, chains: map<int, Chain>, live: int, k: int, e: Bref)
    requires Counted(s, chains, live) && k in chains && !chains[k].mapped && SameRange(e, chains[k].bref)
    ensures Fits(e) && |Unmapped(chains)| > 0 && forall f :: f in Entries(s) ==> Disjoint(f, e)
  {
    assert Agrees(Entries(s), chains[k]);
    assert k in Unmapped(chains);
  }

  lemma {:induction false} MappedCounted(s: seq<Bref>, s': seq<Bref>, chains: map<int, Chain>, live: int, k: int,
                                         e: Bref)
    requires Sound(s) && Sound(s') && Counted(s, chains, live) && k in chains && !chains[k].mapped
    requires SameRange(e, chains[k].bref) && !e.btype.EMPTY? && Entries(s') == Entries(s) + {e}
    ensures Counted(s', chains[k := Chain(chains[k].bref, true, e != chains[k].bref)], live)
  {
    var c := Chain(chains[k].bref, true, e != chains[k].bref);
    NoEntryMeets(s, chains, live, k, e);
    Refiled(chains, k, c);
    Grown(s, s', e);
    assert Agrees(Entries(s), chains[k]);
    assert Agrees(Entries(s'), c);
    forall j | j in chains && j != k ensures Agrees(Entries(s'), chains[j]) {
      OthersAgree(Entries(s), Entries(s'), chains[j], e);
    }
  }

  lemma {:induction false} Dropped(s: seq<Bref>, chains: map<int, Chain>, live: int, k: int)
    requires Counted(s, chains, live) && k in chains
    ensures Counted(s, chains - {k}, if chains[k].mapped then live else live - 1)
  {
    Taken(chains, k);
    assert chains[k].mapped ==> Unmapped(chains) - {k} == Unmapped(chains);
    assert !chains[k].mapped ==> k in Unmapped(chains);
  }

  /** In terms of keys: only the chain's own entry has its key. */
  lemma {:induction false} FlushedEntries(s: seq<Bref>, chains: map<int, Chain>, live: int, k: int)
    requires Sound(s) && Counted(s, chains, live) && k in chains
    ensures forall e :: e in Entries(s) && e.key == k ==>
            chains[k].mapped && (!chains[k].mapupd ==> e == chains[k].bref)
    ensures forall e, f :: e in Entries(s) && f in Entries(s) && e.key == f.key ==> e == f
    ensures chains[k].bref.key == k && (chains[k].mapupd ==> chains[k].mapped)
    ensures chains[k].mapped && !chains[k].mapupd ==> chains[k].bref in Entries(s)
  {
    assert Agrees(Entries(s), chains[k]);
    if chains[k].mapped { EntryOf(s, chains, live, k); }
  }

  lemma {:induction false} Loaded(s: seq<Bref>, chains: map<int, Chain>, live: int, e: Bref)
    requires Sound(s) && Counted(s, chains, live) && e in Entries(s) && e.key !in chains
    ensures Counted(s, chains[e.key := Chain(e, true, false)], live)
  {
    var c := Chain(e, true, false);
    forall k | k in chains ensures Disjoint(chains[k].bref, e) {
      assert Agrees(Entries(s), chains[k]);
    }
    Added(chains, c);
    assert Agrees(Entries(s), c);
  }

  lemma {:induction false} NewCounted(s: seq<Bref>, chains: map<int, Chain>, live: int, b: Bref)
    requires Counted(s, chains, live) && !b.btype.EMPTY? && Fits(b) && Free(Entries(s), chains, b)
    ensures b.key !in chains && Counted(s, chains[b.key := Chain(b, false, false)], live + 1)
  {
    Added(chains, Chain(b, false, false));
  }

  lemma {:induction false} Grown(s: seq<Bref>, s': seq<Bref>, elm: Bref)
    requires Sound(s) && Sound(s') && Entries(s') == Entries(s) + {elm}
    requires forall e :: e in Entries(s) ==> Disjoint(e, elm)
    ensures Used(s') == Used(s) + 1
  {
    UsedIsEntries(s);
    UsedIsEntries(s');
    assert elm !in Entries(s);
  }

  lemma {:induction false} Shrunk(s: seq<Bref>, s': seq<Bref>, elm: Bref)
    requires Sound(s) && Sound(s') && elm in Entries(s) && Entries(s') == Entries(s) - {elm}
    ensures Used(s') == Used(s) - 1
    ensures forall e, f :: e in Entries(s) && f in Entries(s) && e.key == f.key ==> e == f
  {
    UsedIsEntries(s);
    UsedIsEntries(s');
  }
}
