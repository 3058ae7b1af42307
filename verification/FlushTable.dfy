/**
  The two views of a block table: the flush of a tree works on a map from keys to references, the
  parent has an array of slots.  Entering a chain does the same to both.
 */
module FlushTable {
  import BlockTable
  import LiveCount
  import opened Flush

  /** What the flush of a tree keeps of a reference. */
  function View(b: BlockTable.Bref): Blockref {
    Blockref(b.key, b.off, b.check)
  }

  /** The map that stands for a set of entries. */
  ghost predicate Stands(t: Blockmap, es: set<BlockTable.Bref>) {
    && (forall k :: k in t <==> LiveCount.HasKey(es, k))
    && forall e :: e in es ==> e.key in t && t[e.key] == View(e)
  }

  /** There is one such map. */
  lemma {:induction false} StandsUnique(t: Blockmap, t': Blockmap, es: set<BlockTable.Bref>)
    requires Stands(t, es) && Stands(t', es)
    ensures t == t'
  {
    forall k | k in t || k in t' ensures k in t && k in t' && t'[k] == t[k] {
      assert LiveCount.HasKey(es, k);
    }
  }

  lemma {:induction false} EnteredStands(t: Blockmap, es: set<BlockTable.Bref>, es': set<BlockTable.Bref>,
                                         b: BlockTable.Bref)
    requires Stands(t, es) && forall e :: e in es' <==> e == b || (e in es && e.key != b.key)
    ensures Stands(t[b.key := View(b)], es')
  {
    var t' := t[b.key := View(b)];
    forall k ensures k in t' <==> LiveCount.HasKey(es', k) {
      if k == b.key {
        assert b in es';
      } else {
        assert LiveCount.HasKey(es', k) <==> LiveCount.HasKey(es, k);
      }
    }
  }

  /** A chain of the tree and the parent's record of it. */
  ghost predicate SameChain(c: Chain, d: LiveCount.Chain) {
    c.bref == View(d.bref) && c.mapped == d.mapped && c.mapupd == d.mapupd
  }

  /**
    Flush chain `k` of a parent with a real table: there is a slot, and the table then stands for
    the map that the flush of the tree leaves in the parent.
   */
  method EnterArray(core: LiveCount.Core, k: int, ghost m: Memory, ghost x: int, ghost p: int)
    returns (r: BlockTable.InsertResult)
    requires core.Valid() && k in core.chains && x in m && p in m && x != p
    requires Stands(m[p].table, core.Contents()) && SameChain(m[x], core.chains[k])
    modifies core`chains, core.table, core.table.base
    ensures core.Valid() && r == BlockTable.Inserted
    ensures Stands(WithEntry(m, x, p)[p].table, core.Contents())
    ensures core.chains.Keys == old(core.chains.Keys) && k in core.chains &&
            SameChain(WithEntry(m, x, p)[x], core.chains[k])
  {
    ghost var c, es := core.chains[k], core.Contents();
    LiveCount.FlushedEntries(core.table.base[..], core.chains, core.liveCount, k);
    r := core.Flush(k);
    EnteredStands(m[p].table, es, core.Contents(), c.bref);
    if c.mapped && !c.mapupd {
      assert m[p].table[k := View(c.bref)] == m[p].table;
    }
  }
}
