/**
  Several parents at once: chains move between them when a node splits or an indirect block is
  collapsed.  Which elements move is decided by the new block's range, as the split of the radix
  tree decides it.
 */
module LiveRun {
  import opened Prelude
  import opened BlockTable
  import opened LiveCount
  import RadixTree

  // ------------------------------------------------ listing the elements

  ghost function EntryPlaces(s: seq<Bref>): set<Bref> {
    set e | e in Entries(s) :: Place(e)
  }

  /** The first `i` slots have been listed. */
  ghost predicate ListedSlots(s: seq<Bref>, i: nat, ms: seq<Bref>) {
    i <= |s| && Distinct(ms) && |ms| == Used(s[..i]) && Listed(ms) == EntryPlaces(s[..i])
  }

  lemma {:induction false} ListSlot(s: seq<Bref>, i: nat, ms: seq<Bref>)
    requires Sound(s) && i < |s| && ListedSlots(s, i, ms)
    ensures ListedSlots(s, i + 1, if s[i].btype.EMPTY? then ms else ms + [Place(s[i])])
  {
    var t := s[..i + 1];
    assert t[..i] == s[..i];
    OrderedPrefix(s, i + 1);
    LastEntry(t);
    if !s[i].btype.EMPTY? {
      KeysBelow(t);
      assert Place(s[i]) !in EntryPlaces(s[..i]) by {
        forall e | e in Entries(s[..i]) ensures Place(e) != Place(s[i]) { assert HasKey(Entries(s[..i]), e.key); }
      }
      MoreDistinct(ms, Place(s[i]));
    }
  }

  lemma {:induction false} MoreDistinct(ms: seq<Bref>, m: Bref)
    requires Distinct(ms) && m !in Listed(ms)
    ensures Distinct(ms + [m]) && Listed(ms + [m]) == Listed(ms) + {m}
  {
  }

  /** Besides the slots, the chains without an entry have been listed, but those in `rest`. */
  ghost predicate ListedChains(s: seq<Bref>, chains: map<int, Chain>, rest: set<int>, ms: seq<Bref>) {
    && rest <= Unmapped(chains) && Distinct(ms) && |ms| == Used(s) + |Unmapped(chains)| - |rest|
    && Listed(ms) == EntryPlaces(s) + set k | k in Unmapped(chains) - rest :: Place(chains[k].bref)
  }

  lemma {:induction false} ListChain(s: seq<Bref>, chains: map<int, Chain>, live: int, rest: set<int>, ms: seq<Bref>,
                                     k: int)
    requires Counted(s, chains, live) && ListedChains(s, chains, rest, ms) && k in rest
    ensures k in chains && ListedChains(s, chains, rest - {k}, ms + [Place(chains[k].bref)])
  {
    var m := Place(chains[k].bref);
    assert !HasKey(Entries(s), k);
    MoreDistinct(ms, m);
  }

  lemma {:induction false} AllListed(s: seq<Bref>, chains: map<int, Chain>, live: int, ms: seq<Bref>)
    requires Counted(s, chains, live) && ListedChains(s, chains, {}, ms)
    ensures |ms| == live && Listed(ms) == Places(Entries(s), chains)
  {
    forall k | k in chains ensures Place(chains[k].bref) in Listed(ms) {
      if chains[k].mapped {
        var e :| e in Entries(s) && e.key == k;
        assert SameRange(e, chains[k].bref) || Disjoint(e, chains[k].bref);
        assert Place(e) == Place(chains[k].bref);
      }
    }
  }

  method Pick<T>(rest: set<T>) returns (k: T)
    requires rest != {}
    ensures k in rest
  {
    k :| k in rest;
  }

  /** All elements of a parent, from its slots and from memory. */
  method Elements(core: Core) returns (ms: seq<Bref>)
    requires core.Valid()
    ensures Distinct(ms) && Listed(ms) == core.Elements() && |ms| == core.liveCount
  {
    ghost var s := core.table.base[..];
    ms := [];
    var i := 0;
    assert s[..0] == [] && Entries([]) == {};
    while i < core.table.base.Length
      invariant ListedSlots(s, i, ms)
    {
      ListSlot(s, i, ms);
      if !core.table.base[i].btype.EMPTY? { ms := ms + [Place(core.table.base[i])]; }
      i := i + 1;
    }
    assert s[..i] == s;
    var rest := set k | k in core.chains && !core.chains[k].mapped;
    while rest != {}
      invariant ListedChains(s, core.chains, rest, ms)
      decreases |rest|
    {
      var k := Pick(rest);
      ListChain(s, core.chains, core.liveCount, rest, ms, k);
      ms, rest := ms + [Place(core.chains[k].bref)], rest - {k};
    }
    AllListed(s, core.chains, core.liveCount, ms);
  }

  /** The elements that join a new block, by the test of the split. */
  function Joining(ms: seq<Bref>, block: Bref): seq<Bref> {
    if ms == [] then []
    else
      var n := |ms| - 1;
      Joining(ms[..n], block) + if RadixTree.SamePrefix(block.key, ms[n].key, block.keybits) then [ms[n]] else []
  }

  lemma {:induction false} JoiningMembers(ms: seq<Bref>, block: Bref)
    requires Distinct(ms)
    ensures Distinct(Joining(ms, block)) && |Joining(ms, block)| <= |ms|
    ensures forall m :: m in Joining(ms, block) <==> m in ms && RadixTree.SamePrefix(block.key, m.key, block.keybits)
    decreases |ms|
  {
    if ms != [] {
      var n := |ms| - 1;
      JoiningMembers(ms[..n], block);
      assert ms == ms[..n] + [ms[n]];
      hide RadixTree.SamePrefix;
    }
  }

  /** A node's elements reduced to their ranges. */
  function Ranges(kids: seq<RadixTree.Tree>): seq<Bref> {
    if kids == [] then [] else Ranges(kids[..|kids| - 1]) + [Place(kids[|kids| - 1].bref)]
  }

  /** These are the elements that the split of the radix tree moves. */
  lemma {:induction false} JoiningIsSelect(kids: seq<RadixTree.Tree>, block: Bref)
    ensures Joining(Ranges(kids), block) == Ranges(RadixTree.Select(kids, block, true))
    decreases |kids|
  {
    if kids != [] {
      var n := |kids| - 1;
      JoiningIsSelect(kids[..n], block);
      RangesLast(RadixTree.Select(kids[..n], block, true), kids[n]);
      assert Ranges(kids)[..n] == Ranges(kids[..n]) by { RangesLength(kids[..n]); }
      RangesLength(kids);
      hide RadixTree.SamePrefix;
      var some := RadixTree.Select(kids[..n], block, true);
      assert Ranges(kids) == Ranges(kids[..n]) + [Place(kids[n].bref)];
      assert RadixTree.Select(kids, block, true)
          == if RadixTree.SamePrefix(block.key, kids[n].bref.key, block.keybits) then some + [kids[n]] else some;
    }
  }

  lemma {:induction false} RangesLast(kids: seq<RadixTree.Tree>, t: RadixTree.Tree)
    ensures Ranges(kids + [t]) == Ranges(kids) + [Place(t.bref)]
  {
    assert (kids + [t])[..|kids|] == kids;
  }

  lemma {:induction false} RangesLength(kids: seq<RadixTree.Tree>)
    ensures |Ranges(kids)| == |kids|
    decreases |kids|
  {
    if kids != [] { RangesLength(kids[..|kids| - 1]); }
  }

  // ----------------------------------------------------- runs of parents

  /** What may happen to parents, in any order. */
  datatype FamilyStep =
    | Of(p: nat, step: Step)                                    // to one of them
    | Shift(p: nat, q: nat, m: Bref)                            // move element `m`
    | SplitInto(p: nat, q: nat, block: Bref)                    // make `q` an indirect block of `p`
    | CreateInto(p: nat, q: nat, block: Bref, b: Bref)          // create under full parent `p`, splitting it
    | CollapseInto(p: nat, q: nat, block: Bref)                 // give up indirect block `q` of `p`

  ghost predicate Separate(cores: seq<Core>) {
    forall i, j :: 0 <= i < |cores| && 0 <= j < |cores| && i != j ==> cores[i].Apart(cores[j])
  }

  ghost function Objects(cores: seq<Core>): set<object> {
    (set i | 0 <= i < |cores| :: cores[i] as object) + (set i | 0 <= i < |cores| :: cores[i].table as object)
    + (set i | 0 <= i < |cores| :: cores[i].table.base as object)
  }

  ghost predicate Family(cores: seq<Core>)
    reads Objects(cores)
  {
    Separate(cores) && forall i :: 0 <= i < |cores| ==> cores[i].Valid()
  }

  predicate Two(cores: seq<Core>, p: nat, q: nat) {
    p < |cores| && q < |cores| && p != q
  }

  /** The elements that stay are clear of the new block. */
  predicate StayClear(ms: seq<Bref>, block: Bref) {
    forall i :: 0 <= i < |ms| && !RadixTree.SamePrefix(block.key, ms[i].key, block.keybits) ==>
      Disjoint(ms[i], Place(block))
  }

  lemma {:induction false} NoElements(core: Core)
    requires core.Valid() && core.liveCount == 0
    ensures core.Elements() == {}
  {
    var s := core.table.base[..];
    UsedIsEntries(s);
    assert Entries(s) == {} && Unmapped(core.chains) == {};
    assert forall k :: k in core.chains && !core.chains[k].mapped ==> k in Unmapped(core.chains);
    assert forall k :: k in core.chains ==> Agrees(Entries(s), core.chains[k]) && !core.chains[k].mapped;
  }

  /** Elements that move, and elements that stay. */
  ghost function Part(es: set<Bref>, block: Bref, joining: bool): set<Bref> {
    set m | m in es && RadixTree.SamePrefix(block.key, m.key, block.keybits) == joining
  }

  lemma {:induction false} DistinctCount(ms: seq<Bref>)
    requires Distinct(ms)
    ensures |Listed(ms)| == |ms|
    decreases |ms|
  {
    if ms != [] {
      var n := |ms| - 1;
      ListedMore(ms, n);
      assert ms[..n + 1] == ms && Distinct(ms[..n]);
      hide Listed, Distinct;
      DistinctCount(ms[..n]);
    } else {
      assert Listed(ms) == {};
    }
  }

  // ------------------------------------- what the steps do to two parents

  /** The elements of a parent, and its references. */
  ghost function All(v: View): set<Bref> {
    Places(Entries(v.slots), v.chains)
  }

  ghost function AllRefs(v: View): set<Bref> {
    Refs(Entries(v.slots), v.chains)
  }

  /** Two parents together have the references they had, and `more`, and the same entries. */
  ghost predicate Carried(v: View, w: View, v': View, w': View, more: set<Bref>) {
    && AllRefs(v') + AllRefs(w') == AllRefs(v) + AllRefs(w) + more
    && Entries(v'.slots) + Entries(w'.slots) == Entries(v.slots) + Entries(w.slots)
  }

  ghost predicate ClearOf(es: set<Bref>, m: Bref) {
    forall x :: x in es ==> Disjoint(x, m)
  }

  /** There is room for the element, and its range is free. */
  ghost predicate MayShift(v: View, w: View, m: Bref) {
    m in All(v) && w.live < |w.slots| && ClearOf(All(w), m)
  }

  ghost predicate Shifted(v: View, w: View, m: Bref, v': View, w': View) {
    All(v') == All(v) - {m} && All(w') == All(w) + {m} && Carried(v, w, v', w', {})
  }

  /** The new block is empty, has slots for what joins it, and is clear of what stays. */
  ghost predicate MaySplit(v: View, w: View, block: Bref) {
    && w.live == 0 && 0 < |Part(All(v), block, true)| <= |w.slots| && !block.btype.EMPTY? && Fits(block)
    && ClearOf(Part(All(v), block, false), Place(block))
  }

  ghost predicate SplitApart(v: View, w: View, block: Bref, v': View, w': View) {
    && All(v') == Part(All(v), block, false) + {Place(block)} && All(w') == Part(All(v), block, true)
    && Carried(v, w, v', w', {block})
  }

  ghost predicate MayCreateBelow(v: View, w: View, block: Bref, b: Bref) {
    && v.live == |v.slots| && MaySplit(v, w, block) && !b.btype.EMPTY? && Fits(b) && ClearOf(All(v), Place(b))
    && (RadixTree.SamePrefix(block.key, b.key, block.keybits) || Disjoint(block, b))
  }

  /** The second try finds no slot: all of a full node's elements joined a block of that size, or only one joined. */
  ghost predicate FullAgain(v: View, w: View, block: Bref, b: Bref) {
    |Part(All(v), block, true)| ==
    if RadixTree.SamePrefix(block.key, b.key, block.keybits) then |w.slots| else 1
  }

  /** The parent is split, and the chain is below the side that its key falls into, unless that is full. */
  ghost predicate CreatedBelow(v: View, w: View, block: Bref, b: Bref, v': View, w': View) {
    var inside := RadixTree.SamePrefix(block.key, b.key, block.keybits);
    var made := if FullAgain(v, w, block, b) then {} else {b};
    var place := if FullAgain(v, w, block, b) then {} else {Place(b)};
    && All(v') == Part(All(v), block, false) + {Place(block)} + (if inside then {} else place)
    && All(w') == Part(All(v), block, true) + (if inside then place else {})
    && Carried(v, w, v', w', {block} + made)
  }

  /** The block is an element, the two nodes fit together, and nothing else is in the way. */
  ghost predicate MayCollapse(v: View, w: View, block: Bref) {
    && block in All(v) && v.live + w.live - 1 <= |v.slots| && w.live <= |w.slots| * 3 / 4
    && forall x, m :: x in All(v) && x != block && m in All(w) ==> Disjoint(x, m)
  }

  ghost predicate Collapsed(v: View, w: View, block: Bref, v': View, w': View) {
    && All(v') == All(v) - {block} + All(w) && All(w') == {}
    && Given(block, AllRefs(v), AllRefs(w), AllRefs(v') + AllRefs(w'))
    && Entries(v'.slots) + Entries(w'.slots) <= Entries(v.slots) + Entries(w.slots)
  }

  /** What a step does to the two parents.  A step that is out of place does nothing. */
  ghost predicate PerformsTwo(step: FamilyStep, v: View, w: View, v': View, w': View) {
    match step
    case Shift(_, _, m) => if MayShift(v, w, m) then Shifted(v, w, m, v', w') else v' == v && w' == w
    case SplitInto(_, _, block) =>
      if MaySplit(v, w, block) then SplitApart(v, w, block, v', w') else v' == v && w' == w
    case CreateInto(_, _, block, b) =>
      if MayCreateBelow(v, w, block, b) then CreatedBelow(v, w, block, b, v', w') else v' == v && w' == w
    case CollapseInto(_, _, block) =>
      if MayCollapse(v, w, block) then Collapsed(v, w, block, v', w') else v' == v && w' == w
    case Of(_, _) => v' == v && w' == w
  }

  // ------------------------------------------------------------ the steps

  /** The tests made on the list of elements are those on the set. */
  lemma {:induction false} JoiningParts(ms: seq<Bref>, es: set<Bref>, block: Bref)
    requires Distinct(ms) && Listed(ms) == es
    ensures Distinct(Joining(ms, block)) && Listed(Joining(ms, block)) == Part(es, block, true)
    ensures forall m :: m in Joining(ms, block) ==> m in es
    ensures es - Listed(Joining(ms, block)) == Part(es, block, false)
    ensures |Joining(ms, block)| == |Part(es, block, true)|
    ensures StayClear(ms, block) <==> ClearOf(Part(es, block, false), Place(block))
  {
    JoiningMembers(ms, block);
    DistinctCount(Joining(ms, block));
    hide RadixTree.SamePrefix, Joining, Disjoint;
    forall x | x in es ensures exists i :: 0 <= i < |ms| && ms[i] == x { assert x in ms; }
    assert Listed(Joining(ms, block)) == Part(es, block, true);
    assert es - Listed(Joining(ms, block)) == Part(es, block, false);
  }

  lemma {:induction false} StayersClear(es: set<Bref>, ms: seq<Bref>, block: Bref)
    requires es - Listed(ms) == Part(es, block, false) && ClearOf(Part(es, block, false), Place(block))
    ensures forall x :: x in es && x !in ms ==> Disjoint(x, Place(block))
  {
    hide Part, Disjoint;
    forall x | x in es && x !in ms ensures Disjoint(x, Place(block)) { assert x in es - Listed(ms); }
  }

  /** Whether `q` may become an indirect block of `p`, and the elements that would join it. */
  method TrySplit(p: Core, q: Core, block: Bref) returns (may: bool, ms: seq<Bref>)
    requires p.Valid() && q.Valid()
    ensures may <==> MaySplit(p.Now(), q.Now(), block)
    ensures Distinct(ms) && (forall m :: m in ms ==> m in p.Elements())
    ensures Listed(ms) == Part(p.Elements(), block, true) && |ms| == |Part(p.Elements(), block, true)|
    ensures p.Elements() - Listed(ms) == Part(p.Elements(), block, false)
    ensures may ==> q.Elements() == {} && forall x :: x in p.Elements() && x !in ms ==> Disjoint(x, Place(block))
  {
    hide Joining, StayClear, Part, RadixTree.SamePrefix, Counted, Disjoint, Fits, Places, Refs, Sound;
    var all := Elements(p);
    ms := Joining(all, block);
    JoiningParts(all, p.Elements(), block);
    may := q.liveCount == 0 && 0 < |ms| <= q.table.base.Length && !block.btype.EMPTY? && Fits(block) &&
      StayClear(all, block);
    if may {
      NoElements(q);
      StayersClear(p.Elements(), ms, block);
    }
  }

  /**
    Make `q` an indirect block of `p`, if it is empty and has slots for what moves, and the range
    is clear of the rest.
   */
  method SplitParent(p: Core, q: Core, block: Bref) returns (done: bool)
    requires p.Valid() && q.Valid() && p.Apart(q)
    modifies p, p.table, p.table.base, q, q.table, q.table.base
    ensures p.Valid() && q.Valid() && (done <==> MaySplit(old(p.Now()), old(q.Now()), block))
    ensures done ==> SplitApart(old(p.Now()), old(q.Now()), block, p.Now(), q.Now())
    ensures !done ==> p.Now() == old(p.Now()) && q.Now() == old(q.Now())
  {
    hide Listed, Distinct, ClearOf, Part, Counted, Disjoint, Fits, Places, Refs, Sound;
    var ms;
    done, ms := TrySplit(p, q, block);
    if done { p.Split(ms, q, block); }
  }

  /** Whether `b` may be created below the full parent `p` by way of the new block `q`. */
  method TryBelow(p: Core, q: Core, block: Bref, b: Bref) returns (may: bool, ms: seq<Bref>)
    requires p.Valid() && q.Valid()
    ensures may <==> MayCreateBelow(p.Now(), q.Now(), block, b)
    ensures Distinct(ms) && (forall m :: m in ms ==> m in p.Elements())
    ensures Listed(ms) == Part(p.Elements(), block, true) && |ms| == |Part(p.Elements(), block, true)|
    ensures p.Elements() - Listed(ms) == Part(p.Elements(), block, false)
    ensures may ==> q.Elements() == {} && forall x :: x in p.Elements() && x !in ms ==> Disjoint(x, Place(block))
    ensures may ==> forall x :: x in p.Elements() ==> Disjoint(x, Place(b))
  {
    hide Listed, Distinct, Part, RadixTree.SamePrefix, Counted, Disjoint, Fits, Places, Refs, Sound;
    may, ms := TrySplit(p, q, block);
    var all := Elements(p);
    ListedClear(all, p.Elements(), Place(b));
    may := may && p.liveCount == p.table.base.Length && !b.btype.EMPTY? && Fits(b)
      && (RadixTree.SamePrefix(block.key, b.key, block.keybits) || Disjoint(block, b))
      && forall i :: 0 <= i < |all| ==> Disjoint(all[i], Place(b));
  }

  /** Create `b` below the full parent `p`: in the new block `q` if the key falls into its range. */
  method CreateBelow(p: Core, q: Core, block: Bref, b: Bref) returns (done: bool, r: CreateResult)
    requires p.Valid() && q.Valid() && p.Apart(q)
    modifies p, p.table, p.table.base, q, q.table, q.table.base
    ensures p.Valid() && q.Valid() && (done <==> MayCreateBelow(old(p.Now()), old(q.Now()), block, b))
    ensures done ==> CreatedBelow(old(p.Now()), old(q.Now()), block, b, p.Now(), q.Now())
    ensures done ==> (r.NodeFull? <==> FullAgain(old(p.Now()), old(q.Now()), block, b))
    ensures !done ==> r.NodeFull? && p.Now() == old(p.Now()) && q.Now() == old(q.Now())
  {
    hide Listed, Distinct, ClearOf, Part, RadixTree.SamePrefix, Counted, Disjoint, Fits, Places, Refs, Sound,
         CreatedBelow;
    r := NodeFull;
    var ms;
    done, ms := TryBelow(p, q, block, b);
    ghost var v, w := p.Now(), q.Now();
    if done {
      r := p.CreateSplitting(b, ms, q, block, RadixTree.SamePrefix(block.key, b.key, block.keybits));
      BelowCreated(v, w, block, b, p.Now(), q.Now(), ms, r.Created?);
    }
  }

  lemma {:induction false} BelowCreated(v: View, w: View, block: Bref, b: Bref, v': View, w': View, ms: seq<Bref>,
                                        made: bool)
    requires Listed(ms) == Part(All(v), block, true) && All(v) - Listed(ms) == Part(All(v), block, false)
    requires made == !FullAgain(v, w, block, b)
    requires var inside := RadixTree.SamePrefix(block.key, b.key, block.keybits);
             && All(v') == All(v) - Listed(ms) + {Place(block)} + (if made && !inside then {Place(b)} else {})
             && All(w') == Listed(ms) + (if made && inside then {Place(b)} else {})
    requires Carried(v, w, v', w', {block} + if made then {b} else {})
    ensures CreatedBelow(v, w, block, b, v', w')
  {
  }

  lemma {:induction false} ListedClear(ms: seq<Bref>, es: set<Bref>, m: Bref)
    requires Listed(ms) == es
    ensures (forall i :: 0 <= i < |ms| ==> Disjoint(ms[i], m)) <==> ClearOf(es, m)
  {
    hide Disjoint;
    forall x | x in es ensures exists i :: 0 <= i < |ms| && ms[i] == x { assert x in ms; }
    forall i | 0 <= i < |ms| ensures ms[i] in es { assert ms[i] in Listed(ms); }
  }

  /** Give up indirect block `q` of `p`, if its elements are clear of the block's siblings. */
  method CollapseParent(p: Core, q: Core, block: Bref) returns (gone: bool)
    requires p.Valid() && q.Valid() && q.Apart(p)
    modifies p, p.table, p.table.base, q, q.table, q.table.base
    ensures p.Valid() && q.Valid() && (gone <==> MayCollapse(old(p.Now()), old(q.Now()), block))
    ensures gone ==> Collapsed(old(p.Now()), old(q.Now()), block, p.Now(), q.Now())
    ensures !gone ==> p.Now() == old(p.Now()) && q.Now() == old(q.Now())
  {
    hide Counted, Disjoint, Places, Refs, Sound;
    var here := Elements(p);
    var ms := Elements(q);
    gone := block in here && forall i, j :: 0 <= i < |here| && 0 <= j < |ms| && here[i] != block ==>
      Disjoint(here[i], ms[j]);
    assert forall x :: x in p.Elements() <==> x in Listed(here);
    assert forall m :: m in q.Elements() <==> m in Listed(ms);
    gone := gone && p.liveCount + q.liveCount - 1 <= p.table.base.Length && q.liveCount <= q.table.base.Length * 3 / 4;
    if gone { gone := p.Collapse(block, q, ms); }
  }

  /** Move one element, if there is room and its range is free there. */
  method MoveElement(p: Core, q: Core, m: Bref) returns (done: bool)
    requires p.Valid() && q.Valid() && p.Apart(q)
    modifies p, p.table, p.table.base, q, q.table, q.table.base
    ensures p.Valid() && q.Valid() && (done <==> MayShift(old(p.Now()), old(q.Now()), m))
    ensures done ==> Shifted(old(p.Now()), old(q.Now()), m, p.Now(), q.Now())
    ensures !done ==> p.Now() == old(p.Now()) && q.Now() == old(q.Now())
  {
    hide Counted, Disjoint, Places, Refs, Sound;
    var here := Elements(p);
    var there := Elements(q);
    ListedClear(there, q.Elements(), m);
    assert m in here <==> m in Listed(here);
    done := m in here && q.liveCount < q.table.base.Length && forall i :: 0 <= i < |there| ==> Disjoint(there[i], m);
    if done { p.MoveTo(m, m.key, q); }
  }

  // ------------------------------------------------------------ any run

  ghost function Views(cores: seq<Core>): seq<View>
    reads Objects(cores)
  {
    seq(|cores|, i requires 0 <= i < |cores| reads Objects(cores) => cores[i].Now())
  }

  /** The parents the step is not about are left alone. */
  ghost predicate RestSame(vs: seq<View>, vs': seq<View>, p: nat, q: nat) {
    |vs'| == |vs| && forall i :: 0 <= i < |vs| && i != p && i != q ==> vs'[i] == vs[i]
  }

  ghost predicate PerformsFamily(step: FamilyStep, vs: seq<View>, vs': seq<View>) {
    var p, q := step.p, if step.Of? then step.p else step.q;
    if step.Of? && p < |vs| then RestSame(vs, vs', p, p) && Performs(step.step, vs[p], vs'[p])
    else if !step.Of? && p < |vs| && q < |vs| && p != q then
      RestSame(vs, vs', p, q) && PerformsTwo(step, vs[p], vs[q], vs'[p], vs'[q])
    else vs' == vs
  }

  method PerformTwo(p: Core, q: Core, step: FamilyStep)
    requires p.Valid() && q.Valid() && p.Apart(q)
    modifies p, p.table, p.table.base, q, q.table, q.table.base
    ensures p.Valid() && q.Valid() && PerformsTwo(step, old(p.Now()), old(q.Now()), p.Now(), q.Now())
  {
    hide Counted, Sound, Shifted, SplitApart, CreatedBelow, Collapsed;
    match step
    case Shift(_, _, m) => var _ := MoveElement(p, q, m);
    case SplitInto(_, _, block) => var _ := SplitParent(p, q, block);
    case CreateInto(_, _, block, b) => var _, _ := CreateBelow(p, q, block, b);
    case CollapseInto(_, _, block) => var _ := CollapseParent(p, q, block);
    case Of(_, _) =>
  }

  method PerformFamily(cores: seq<Core>, step: FamilyStep) returns (entered: seq<InsertResult>)
    requires Family(cores)
    modifies Objects(cores)
    ensures Family(cores) && forall r :: r in entered ==> r == Inserted
    ensures PerformsFamily(step, old(Views(cores)), Views(cores))
  {
    hide Counted, Sound, Performs, PerformsTwo;
    entered := [];
    var p, q := step.p, if step.Of? then step.p else step.q;
    if step.Of? && p < |cores| {
      entered := Perform(cores[p], step.step);
    } else if !step.Of? && Two(cores, p, q) {
      PerformTwo(cores[p], cores[q], step);
    } else {
      return;
    }
    forall j | 0 <= j < |cores| && j != p && j != q ensures cores[j].Valid() && cores[j].Now() == old(cores[j].Now()) {
      assert old(cores[j].Valid());
    }
  }

  /** These steps led from the first to the last. */
  ghost predicate Led(steps: seq<FamilyStep>, seen: seq<seq<View>>) {
    |seen| == |steps| + 1 && forall i :: 0 <= i < |steps| ==> PerformsFamily(steps[i], seen[i], seen[i + 1])
  }

  /**
    Any run of steps over any number of parents, those that are out of place being refused: all
    counts stay exact, and a flush never lacks a slot.
   */
  method RunFamily(cores: seq<Core>, steps: seq<FamilyStep>)
    returns (entered: seq<InsertResult>, ghost seen: seq<seq<View>>)
    requires Family(cores)
    modifies Objects(cores)
    ensures Family(cores) && forall r :: r in entered ==> r == Inserted
    ensures Led(steps, seen) && seen[0] == old(Views(cores)) && seen[|steps|] == Views(cores)
  {
    hide PerformsFamily, Counted, Sound;
    entered, seen := [], [Views(cores)];
    var i := 0;
    while i < |steps|
      invariant 0 <= i <= |steps| && Family(cores) && forall r :: r in entered ==> r == Inserted
      invariant Led(steps[..i], seen) && seen[0] == old(Views(cores)) && seen[i] == Views(cores)
    {
      var made := PerformFamily(cores, steps[i]);
      entered, seen := entered + made, seen + [Views(cores)];
      assert steps[..i + 1] == steps[..i] + [steps[i]];
      i := i + 1;
    }
    assert steps[..i] == steps;
  }

  // --------------------------------------------------- nothing gets lost

  /** Some parent has this reference. */
  ghost predicate Had(vs: seq<View>, b: Bref) {
    exists i :: 0 <= i < |vs| && b in AllRefs(vs[i])
  }

  /** The steps only move chains about, and give up no block with the range of `b`. */
  predicate OnlyMoves(steps: seq<FamilyStep>, b: Bref) {
    forall i :: 0 <= i < |steps| ==> !steps[i].Of? && (steps[i].CollapseInto? ==> steps[i].block != Place(b))
  }

  lemma {:induction false} StepHas(step: FamilyStep, vs: seq<View>, vs': seq<View>, b: Bref)
    requires PerformsFamily(step, vs, vs') && Had(vs, b)
    requires !step.Of? && (step.CollapseInto? ==> step.block != Place(b))
    ensures Had(vs', b)
  {
    hide AllRefs, All, Part, ClearOf, MaySplit, MayCreateBelow, MayCollapse, MayShift, FullAgain;
    var i :| 0 <= i < |vs| && b in AllRefs(vs[i]);
    if step.p < |vs| && step.q < |vs| && step.p != step.q {
      var v, w, v', w' := vs[step.p], vs[step.q], vs'[step.p], vs'[step.q];
      if i == step.p || i == step.q {
        assert b in AllRefs(v) + AllRefs(w);
        assert b in AllRefs(v') + AllRefs(w');
      } else {
        assert b in AllRefs(vs'[i]);
      }
    }
  }

  /** However chains move between parents, each reference stays in one of them. */
  lemma {:induction false} NothingLost(steps: seq<FamilyStep>, seen: seq<seq<View>>, b: Bref)
    requires Led(steps, seen) && Had(seen[0], b) && OnlyMoves(steps, b)
    ensures Had(seen[|steps|], b)
    decreases |steps|
  {
    if steps != [] {
      var n := |steps| - 1;
      assert Led(steps[..n], seen[..n + 1]);
      NothingLost(steps[..n], seen[..n + 1], b);
      StepHas(steps[n], seen[n], seen[n + 1], b);
    }
  }
}
