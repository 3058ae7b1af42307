/**
  Dependency groups of dirty inodes: inodes that must be flushed together share a depend
  structure, taken from one of them.
 */
module InodeDepend {

  /** An inode, and the depend structure embedded in it. */
  type Inode = int

  /** What is passed along the inodes of one request: nothing yet, only inodes being synced, or a group. */
  datatype DependRef = NULL | Synced | Group(d: Inode)

  ghost predicate NoDuplicates(s: seq<Inode>) {
    forall i, j :: 0 <= i < j < |s| ==> s[i] != s[j]
  }

  // ---------------------------------------------------------- connection

  type Edges = set<(Inode, Inode)>

  ghost predicate Adjacent(e: Edges, a: Inode, b: Inode) {
    (a, b) in e || (b, a) in e
  }

  ghost predicate Path(e: Edges, p: seq<Inode>) {
    p != [] && forall i :: 0 <= i < |p| - 1 ==> Adjacent(e, p[i], p[i + 1])
  }

  /** A chain of requested dependencies leads from one inode to the other. */
  ghost predicate Connected(e: Edges, a: Inode, b: Inode) {
    exists p :: Path(e, p) && p[0] == a && p[|p| - 1] == b
  }

  lemma {:induction false} ConnectedSelf(e: Edges, a: Inode)
    ensures Connected(e, a, a)
  {
    assert Path(e, [a]);
  }

  lemma {:induction false} ConnectedEdge(e: Edges, a: Inode, b: Inode)
    requires Adjacent(e, a, b)
    ensures Connected(e, a, b)
  {
    var p := [a, b];
    assert Path(e, p) && p[0] == a && p[|p| - 1] == b;
  }

  lemma {:induction false} ConnectedTrans(e: Edges, a: Inode, b: Inode, c: Inode)
    requires Connected(e, a, b) && Connected(e, b, c)
    ensures Connected(e, a, c)
  {
    var p :| Path(e, p) && p[0] == a && p[|p| - 1] == b;
    var q :| Path(e, q) && q[0] == b && q[|q| - 1] == c;
    var r := p + q[1..];
    assert forall i :: 0 <= i < |p| ==> r[i] == p[i];
    assert forall i :: |p| - 1 <= i < |r| ==> r[i] == q[i - (|p| - 1)];
    assert Path(e, r) && r[0] == a && r[|r| - 1] == c;
  }

  lemma {:induction false} ConnectedSym(e: Edges, a: Inode, b: Inode)
    requires Connected(e, a, b)
    ensures Connected(e, b, a)
  {
    var p :| Path(e, p) && p[0] == a && p[|p| - 1] == b;
    var r := seq(|p|, i requires 0 <= i < |p| => p[|p| - 1 - i]);
    forall i | 0 <= i < |r| - 1 ensures Adjacent(e, r[i], r[i + 1]) {
      var j := |p| - 2 - i;
      assert Adjacent(e, p[j], p[j + 1]);
    }
    assert Path(e, r) && r[0] == b && r[|r| - 1] == a;
  }

  lemma {:induction false} ConnectedMore(e: Edges, f: Edges, a: Inode, b: Inode)
    requires Connected(e, a, b) && e <= f
    ensures Connected(f, a, b)
  {
  }

  /** If the groups respect every edge, connected inodes are in one group. */
  lemma {:induction false} ConnectedSameGroup(e: Edges, depend: map<Inode, Inode>, p: seq<Inode>)
    requires Path(e, p) && forall a, b :: (a, b) in e ==> a in depend && b in depend && depend[a] == depend[b]
    requires p[0] in depend
    ensures p[|p| - 1] in depend && depend[p[|p| - 1]] == depend[p[0]]
    decreases |p|
  {
    if |p| > 1 {
      assert Adjacent(e, p[0], p[1]);
      var q := p[1..];
      forall i | 0 <= i < |q| - 1 ensures Adjacent(e, q[i], q[i + 1]) {
        var j := i + 1;
        assert Adjacent(e, p[j], p[j + 1]);
      }
      ConnectedSameGroup(e, depend, p[1..]);
    }
  }

  // -------------------------------------------------------------- groups

  /** Queue `d` holds the inodes of group `d`, its owner among them, each once. */
  ghost predicate Queue(depend: map<Inode, Inode>, d: Inode, q: seq<Inode>) {
    && d in depend && depend[d] == d && NoDuplicates(q)
    && forall x :: x in q <==> x in depend && depend[x] == d
  }

  ghost predicate Queues(depend: map<Inode, Inode>, sideq: map<Inode, seq<Inode>>) {
    && (forall d :: d in sideq ==> Queue(depend, d, sideq[d]))
    && (forall x :: x in depend ==> depend[x] in sideq)
  }

  ghost predicate Counts(sideq: map<Inode, seq<Inode>>, count: map<Inode, int>) {
    forall d :: d in sideq ==> d in count && count[d] == |sideq[d]|
  }

  ghost predicate Listed(sideq: map<Inode, seq<Inode>>, depq: seq<Inode>) {
    NoDuplicates(depq) && forall d :: d in depq <==> d in sideq
  }

  /** The queues say what the inodes say: who is in which group, how many, and whose structure it is. */
  ghost predicate Sound(depend: map<Inode, Inode>, sideq: map<Inode, seq<Inode>>, count: map<Inode, int>,
                        depq: seq<Inode>, sideqCount: int) {
    && Queues(depend, sideq) && Counts(sideq, count) && Listed(sideq, depq)
    && sideqCount == |depend|
  }

  /** Groups are exactly the connected components of the requests. */
  ghost predicate Components(depend: map<Inode, Inode>, e: Edges) {
    && (forall a, b :: (a, b) in e ==> a in depend && b in depend && depend[a] == depend[b])
    && (forall a, b :: a in depend && b in depend && depend[a] == depend[b] ==> Connected(e, a, b))
  }

  /** Two inodes share a group exactly if requests connect them. */
  lemma {:induction false} GroupsAreComponents(depend: map<Inode, Inode>, e: Edges, a: Inode, b: Inode)
    requires Components(depend, e) && a in depend && b in depend
    ensures depend[a] == depend[b] <==> Connected(e, a, b)
  {
    if Connected(e, a, b) {
      var p :| Path(e, p) && p[0] == a && p[|p| - 1] == b;
      ConnectedSameGroup(e, depend, p);
    }
  }

  /** All of group `t` moved to group `d`. */
  function Merged(depend: map<Inode, Inode>, t: Inode, d: Inode): map<Inode, Inode> {
    map x | x in depend :: if depend[x] == t then d else depend[x]
  }

  lemma {:induction false} MergeComponents(depend: map<Inode, Inode>, e: Edges, a: Inode, b: Inode)
    requires Components(depend, e) && a in depend && b in depend
    ensures Components(Merged(depend, depend[b], depend[a]), e + {(a, b)})
  {
    var f := e + {(a, b)};
    var depend' := Merged(depend, depend[b], depend[a]);
    hide Connected;
    ConnectedEdge(f, a, b);
    forall x, y | x in depend' && y in depend' && depend'[x] == depend'[y] ensures Connected(f, x, y) {
      if depend[x] == depend[y] {
        ConnectedMore(e, f, x, y);
      } else if depend[x] == depend[b] {
        ConnectedMore(e, f, x, b);
        ConnectedSym(f, a, b);
        ConnectedTrans(f, x, b, a);
        ConnectedMore(e, f, a, y);
        ConnectedTrans(f, x, a, y);
      } else {
        ConnectedMore(e, f, x, a);
        ConnectedTrans(f, x, a, b);
        ConnectedMore(e, f, b, y);
        ConnectedTrans(f, x, b, y);
      }
    }
  }

  /** A new inode of its own, or in the group of an inode it depends on. */
  lemma {:induction false} AloneComponents(depend: map<Inode, Inode>, e: Edges, x: Inode)
    requires Components(depend, e) && x !in depend && forall y :: y in depend ==> depend[y] != x
    ensures Components(depend[x := x], e)
  {
    hide Connected;
    ConnectedSelf(e, x);
  }

  lemma {:induction false} JoinComponents(depend: map<Inode, Inode>, e: Edges, a: Inode, x: Inode)
    requires Components(depend, e) && x !in depend && a in depend
    ensures Components(depend[x := depend[a]], e + {(a, x)})
  {
    var f := e + {(a, x)};
    var depend' := depend[x := depend[a]];
    hide Connected;
    ConnectedEdge(f, a, x);
    ConnectedSelf(f, x);
    forall y, z | y in depend' && z in depend' && depend'[y] == depend'[z] ensures Connected(f, y, z) {
      if y != x && z != x {
        ConnectedMore(e, f, y, z);
      } else if y != x {
        ConnectedMore(e, f, y, a);
        ConnectedTrans(f, y, a, x);
      } else if z != x {
        ConnectedMore(e, f, a, z);
        ConnectedSym(f, a, x);
        ConnectedTrans(f, x, a, z);
      }
    }
  }

  lemma {:induction false} MergeQueue(depend: map<Inode, Inode>, sideq: map<Inode, seq<Inode>>, t: Inode, d: Inode)
    requires Queues(depend, sideq) && t in sideq && d in sideq && t != d
    ensures Queue(Merged(depend, t, d), d, sideq[d] + sideq[t])
  {
    var s := sideq[d] + sideq[t];
    assert Queue(depend, d, sideq[d]) && Queue(depend, t, sideq[t]);
    forall i, j | 0 <= i < j < |s| ensures s[i] != s[j] {
      if i < |sideq[d]| <= j { assert s[i] in sideq[d] && s[j] in sideq[t]; }
    }
    assert forall x :: x in s <==> x in sideq[d] || x in sideq[t];
  }

  lemma {:induction false} MergeQueues(depend: map<Inode, Inode>, sideq: map<Inode, seq<Inode>>, t: Inode, d: Inode)
    requires Queues(depend, sideq) && t in sideq && d in sideq && t != d
    ensures Queues(Merged(depend, t, d), sideq[d := sideq[d] + sideq[t]] - {t})
  {
    MergeQueue(depend, sideq, t, d);
    var depend', sideq' := Merged(depend, t, d), sideq[d := sideq[d] + sideq[t]] - {t};
    forall e | e in sideq' && e != d ensures Queue(depend', e, sideq'[e]) {
      assert Queue(depend, e, sideq[e]);
    }
  }

  lemma {:induction false} SameSize(a: map<Inode, Inode>, b: map<Inode, Inode>)
    requires a.Keys == b.Keys
    ensures |a| == |b|
  {
  }

  lemma {:induction false} MergeSound(depend: map<Inode, Inode>, sideq: map<Inode, seq<Inode>>, count: map<Inode, int>,
                                      depq: seq<Inode>,
                                      depq': seq<Inode>, n: int, t: Inode, d: Inode)
    requires Sound(depend, sideq, count, depq, n) && t in sideq && d in sideq && t != d
    requires NoDuplicates(depq') && forall x :: x in depq' <==> x in depq && x != t
    ensures Sound(Merged(depend, t, d), sideq[d := sideq[d] + sideq[t]] - {t}, count[d := count[d] + count[t]][t := 0],
            depq', n)
  {
    MergeQueues(depend, sideq, t, d);
    MergeCounts(sideq, count, t, d);
    assert Merged(depend, t, d).Keys == depend.Keys;
    SameSize(Merged(depend, t, d), depend);
    hide Queues, Counts, NoDuplicates, Merged;
  }

  lemma {:induction false} MergeCounts(sideq: map<Inode, seq<Inode>>, count: map<Inode, int>, t: Inode, d: Inode)
    requires Counts(sideq, count) && t in sideq && d in sideq && t != d
    ensures Counts(sideq[d := sideq[d] + sideq[t]] - {t}, count[d := count[d] + count[t]][t := 0])
  {
  }

  /** The list without one element. */
  function Without(s: seq<Inode>, x: Inode): (r: seq<Inode>)
    ensures NoDuplicates(s) ==> NoDuplicates(r)
    ensures NoDuplicates(s) ==> forall y :: y in r <==> y in s && y != x
  {
    if s == [] then [] else if s[0] == x then s[1..] else
      var r := Without(s[1..], x);
      assert s == [s[0]] + s[1..];
      assert NoDuplicates(s) ==> NoDuplicates(s[1..]) && s[0] !in s[1..];
      [s[0]] + r
  }

  ghost predicate AllSound(depend: map<Inode, Inode>, sideq: map<Inode, seq<Inode>>, count: map<Inode, int>,
                           depq: seq<Inode>, n: int,
                           pass2: map<Inode, bool>, syncq: set<Inode>) {
    && Sound(depend, sideq, count, depq, n)
    && (forall d :: d in sideq ==> d in pass2)
    && (forall x :: x in syncq ==> x !in depend)
  }

  lemma {:induction false} AloneAll(depend: map<Inode, Inode>, sideq: map<Inode, seq<Inode>>, count: map<Inode, int>,
                                    depq: seq<Inode>, n: int,
                                    pass2: map<Inode, bool>, syncq: set<Inode>, x: Inode, due: bool)
    requires AllSound(depend, sideq, count, depq, n, pass2, syncq) && x !in depend && x !in syncq
    ensures AllSound(depend[x := x], sideq[x := [x]], count[x := 1], depq + [x], n + 1, pass2[x := due], syncq)
    ensures forall y :: y in depend ==> depend[y] != x
  {
  }

  lemma {:induction false} JoinAll(depend: map<Inode, Inode>, sideq: map<Inode, seq<Inode>>, count: map<Inode, int>,
                                   depq: seq<Inode>, n: int,
                                   pass2: map<Inode, bool>, syncq: set<Inode>, x: Inode, d: Inode)
    requires AllSound(depend, sideq, count, depq, n, pass2, syncq) && x !in depend && x !in syncq && d in sideq
    ensures d in count && d in pass2
    ensures AllSound(depend[x := d], sideq[d := sideq[d] + [x]], count[d := count[d] + 1], depq, n + 1, pass2, syncq)
  {
  }

  lemma {:induction false} MergeAll(depend: map<Inode, Inode>, sideq: map<Inode, seq<Inode>>, count: map<Inode, int>,
                                    depq: seq<Inode>, n: int,
                                    pass2: map<Inode, bool>, syncq: set<Inode>, t: Inode, d: Inode)
    requires AllSound(depend, sideq, count, depq, n, pass2, syncq) && t in sideq && d in sideq && t != d
    ensures d in count && t in count && d in pass2 && t in pass2 && Queues(depend, sideq)
    ensures AllSound(Merged(depend, t, d), sideq[d := sideq[d] + sideq[t]] - {t},
            count[d := count[d] + count[t]][t := 0],
                     Without(depq, t), n, pass2[d := pass2[d] || pass2[t]][t := false], syncq)
    ensures sideq[d := sideq[d] + sideq[t]][t := []] - {t} == sideq[d := sideq[d] + sideq[t]] - {t}
  {
    MergeSound(depend, sideq, count, depq, Without(depq, t), n, t, d);
    MergedKeys(depend, t, d);
    hide Sound, Merged;
  }

  lemma {:induction false} DueAll(depend: map<Inode, Inode>, sideq: map<Inode, seq<Inode>>, count: map<Inode, int>,
                                  depq: seq<Inode>, n: int,
                                  pass2: map<Inode, bool>, syncq: set<Inode>)
    requires AllSound(depend, sideq, count, depq, n, pass2, syncq)
    ensures forall d: Inode, b: bool {:trigger pass2[d := b]} :: AllSound(depend, sideq, count, depq, n, pass2[d := b],
            syncq)
    ensures forall d :: d in sideq ==> d in pass2
    ensures forall x :: x in depend ==> depend[x] in sideq
  {
  }

  /** Where an inode goes. */
  function Placed(depend: map<Inode, Inode>, ip: Inode, ref: DependRef): map<Inode, Inode> {
    if ip in depend then if ref.Group? then Merged(depend, depend[ip], ref.d) else depend
    else depend[ip := if ref.Group? then ref.d else ip]
  }

  /** Whether the group of the inode, or the one passed along, was already due for a second pass. */
  predicate Second(depend: map<Inode, Inode>, pass2: map<Inode, bool>, ip: Inode, ref: DependRef) {
    || (ref.Group? && ref.d in pass2 && pass2[ref.d])
    || (ip in depend && depend[ip] in pass2 && pass2[depend[ip]])
  }

  lemma {:induction false} MergedKeys(depend: map<Inode, Inode>, t: Inode, d: Inode)
    ensures Merged(depend, t, d).Keys == depend.Keys
  {
  }

  lemma {:induction false} MergedAt(depend: map<Inode, Inode>, ip: Inode, d: Inode)
    requires ip in depend
    ensures ip in Merged(depend, depend[ip], d) && Merged(depend, depend[ip], d)[ip] == d
    ensures Merged(depend, depend[ip], depend[ip]) == depend
  {
  }

  lemma {:induction false} SameGroup(depend: map<Inode, Inode>, ip: Inode, ref: DependRef)
    requires ip in depend && (ref.Group? ==> ref.d == depend[ip])
    ensures Placed(depend, ip, ref) == depend
  {
  }

  /** The dependencies that a request on several inodes declares. */
  function EdgesOf(ips: seq<Inode>): Edges {
    set i | 1 <= i < |ips| :: (ips[0], ips[i])
  }

  function Members(ips: seq<Inode>): set<Inode> {
    set ip | ip in ips
  }

  lemma {:induction false} PlacedKeys(depend: map<Inode, Inode>, ip: Inode, ref: DependRef)
    ensures Placed(depend, ip, ref).Keys == depend.Keys + {ip}
  {
  }

  lemma {:induction false} FirstEdges(ips: seq<Inode>, e: Edges)
    requires ips != []
    ensures e + EdgesOf(ips[..1]) == e && Members(ips[..1]) == {ips[0]}
  {
  }

  lemma {:induction false} EdgesStep(ips: seq<Inode>, e: Edges, i: nat)
    requires 1 <= i < |ips|
    ensures e + EdgesOf(ips[..i + 1]) == e + EdgesOf(ips[..i]) + {(ips[0], ips[i])}
    ensures Members(ips[..i + 1]) == Members(ips[..i]) + {ips[i]}
  {
  }

  lemma {:induction false} FirstPlaced(depend: map<Inode, Inode>, e: Edges, x: Inode)
    requires Components(depend, e) && (x !in depend ==> forall y :: y in depend ==> depend[y] != x)
    ensures Components(Placed(depend, x, NULL), e)
  {
    if x !in depend { AloneComponents(depend, e, x); }
  }

  lemma {:induction false} NextPlaced(depend: map<Inode, Inode>, e: Edges, a: Inode, x: Inode, d: Inode)
    requires Components(depend, e) && a in depend && depend[a] == d
    ensures Components(Placed(depend, x, Group(d)), e + {(a, x)})
    ensures a in Placed(depend, x, Group(d)) && Placed(depend, x, Group(d))[a] == d
  {
    if x in depend { MergeComponents(depend, e, a, x); } else { JoinComponents(depend, e, a, x); }
  }

  lemma {:induction false} SameAsFirst(depend: map<Inode, Inode>, e: Edges, ips: seq<Inode>)
    requires Components(depend, e + EdgesOf(ips)) && ips != [] && ips[0] in depend
    ensures forall ip :: ip in ips ==> ip in depend && depend[ip] == depend[ips[0]]
  {
    var f := e + EdgesOf(ips);
    var a := ips[0];
    forall i | 0 < i < |ips| ensures ips[i] in depend && depend[ips[i]] == depend[a] {
      var x := ips[i];
      assert (a, x) in EdgesOf(ips);
      assert (a, x) in f;
      assert x in depend && depend[x] == depend[a];
    }
  }

  class Pfs {
    var depend: map<Inode, Inode>          // of the inodes on a side queue: whose structure they share
    var sideq: map<Inode, seq<Inode>>      // of the structures in use: their inodes
    var count: map<Inode, int>
    var pass2: map<Inode, bool>
    var depq: seq<Inode>
    var sideqCount: int
    var syncq: set<Inode>                // inodes staged by the syncer
    var syncPass2: set<Inode>
    var rescan: bool

    constructor ()
      ensures Valid() && depend == map[] && Components(depend, {}) && syncq == {}
    {
      depend, sideq, count, pass2, depq, sideqCount := map[], map[], map[], map[], [], 0;
      syncq, syncPass2, rescan := {}, {}, false;
    }

    ghost predicate Valid()
      reads this
    {
      AllSound(depend, sideq, count, depq, sideqCount, pass2, syncq)
    }

    /**
      Put an inode in the group passed along, or in its own, or merge its group into the one
      passed along; an inode being synced stays where it is and marks the group for a second pass.
     */
    method SetDepend(ip: Inode, ref: DependRef) returns (r: DependRef)
      requires Valid() && (ref.Group? ==> ref.d in sideq)
      modifies this
      ensures Valid() && syncq == old(syncq) && syncPass2 == old(syncPass2)
      ensures ip in syncq ==> depend == old(depend) && r == (if ref.Group? then ref else Synced)
      ensures ip in syncq && ref.Group? ==> pass2 == old(pass2)[ref.d := true] && rescan
      ensures ip !in syncq ==>
                && r.Group? && r.d in sideq && ip in depend && depend[ip] == r.d
                && depend == Placed(old(depend), ip, ref)
                && r.d in pass2
                && pass2[r.d] == (ref.Synced? || ip in syncPass2 || Second(old(depend), old(pass2), ip, ref))
                && (pass2[r.d] ==> rescan)
    {
      hide AllSound, Merged;
      DueAll(depend, sideq, count, depq, sideqCount, pass2, syncq);
      if ip in depend { MergedAt(depend, ip, if ref.Group? then ref.d else depend[ip]); }
      if ip in syncq {
        if !ref.Group? { return Synced; }
        pass2 := pass2[ref.d := true];
        rescan := true;
        return ref;
      }
      var d;
      if ip in depend {
        if ref.Group? && ref.d != depend[ip] {
          d := ref.d;
          MergeInto(depend[ip], d);
        } else {
          d := depend[ip];
          SameGroup(depend, ip, ref);
          if ref.Synced? { pass2 := pass2[d := true]; }
        }
      } else {
        d := AddInode(ip, ref);
      }
      DueAll(depend, sideq, count, depq, sideqCount, pass2, syncq);
      if ip in syncPass2 { pass2 := pass2[d := true]; }
      if pass2[d] { rescan := true; }
      r := Group(d);
    }

    /** Merge group `t`, which is not `d`, into group `d`. */
    method MergeInto(t: Inode, d: Inode)
      requires Valid() && t in sideq && d in sideq && t != d
      modifies this
      ensures Valid() && depend == Merged(old(depend), t, d) && d in sideq && d in pass2
      ensures d in old(pass2) && t in old(pass2) && pass2[d] == (old(pass2)[d] || old(pass2)[t])
      ensures syncq == old(syncq) && syncPass2 == old(syncPass2) && rescan == old(rescan)
    {
      MergeAll(depend, sideq, count, depq, sideqCount, pass2, syncq, t, d);
      hide *;
      MoveAll(t, d);
      Retire(t, d);
    }

    /** Group `d` takes the tallies of group `t`, whose structure is free again. */
    method Retire(t: Inode, d: Inode)
      requires d in count && t in count && d in pass2 && t in pass2
      modifies this`count, this`pass2, this`depq, this`sideq
      ensures count == old(count)[d := old(count)[d] + old(count)[t]][t := 0]
      ensures pass2 == old(pass2)[d := old(pass2)[d] || old(pass2)[t]][t := false]
      ensures depq == Without(old(depq), t) && sideq == old(sideq) - {t}
    {
      count := count[d := count[d] + count[t]];
      pass2 := pass2[d := pass2[d] || pass2[t]];
      depq := Without(depq, t);
      count := count[t := 0];
      pass2 := pass2[t := false];
      sideq := sideq - {t};
    }

    /** An inode that is in no group yet. */
    method AddInode(ip: Inode, ref: DependRef) returns (d: Inode)
      requires Valid() && ip !in depend && ip !in syncq && (ref.Group? ==> ref.d in sideq)
      modifies this
      ensures Valid() && depend == old(depend)[ip := d] && d == (if ref.Group? then ref.d else ip) && d in sideq &&
              d in pass2
      ensures ref.Group? ==> d in old(pass2)
      ensures pass2[d] == if ref.Group? then old(pass2)[d] else ref.Synced?
      ensures syncq == old(syncq) && syncPass2 == old(syncPass2) && rescan == old(rescan)
    {
      if ref.Group? {
        d := ref.d;
        JoinAll(depend, sideq, count, depq, sideqCount, pass2, syncq, ip, d);
        hide AllSound;
        sideq := sideq[d := sideq[d] + [ip]];
        count := count[d := count[d] + 1];
      } else {
        d := ip;
        AloneAll(depend, sideq, count, depq, sideqCount, pass2, syncq, ip, ref.Synced?);
        hide AllSound;
        depq := depq + [d];
        pass2 := pass2[d := ref.Synced?];
        sideq := sideq[d := [ip]];
        count := count[d := 1];
      }
      depend := depend[ip := d];
      sideqCount := sideqCount + 1;
    }

    /** Lock several inodes, or declare them dependent: none of them is being synced. */
    method Request(ips: seq<Inode>, ghost e: Edges)
      requires Valid() && Components(depend, e) && ips != [] && forall ip :: ip in ips ==> ip !in syncq
      modifies this
      ensures Valid() && Components(depend, e + EdgesOf(ips)) && syncq == old(syncq)
      ensures depend.Keys == old(depend.Keys) + Members(ips)
      ensures forall ip :: ip in ips ==> ip in depend && depend[ip] == depend[ips[0]]
    {
      var first := ips[0];
      assert first in ips && first !in syncq;
      ghost var keys := old(depend.Keys);
      ghost var staged := syncq;
      var ref := RequestFirst(ips, e);
      hide AllSound, Components, Requested, EdgesOf, Members;
      RequestRest(ips, e, keys, ref);
    }

    method RequestRest(ips: seq<Inode>, ghost e: Edges, ghost keys: set<Inode>, ref0: DependRef)
      requires Valid() && ips != [] && Requested(ips, 1, e, keys, ref0) && forall ip :: ip in ips ==> ip !in syncq
      modifies this
      ensures Valid() && syncq == old(syncq) && Components(depend, e + EdgesOf(ips)) &&
              depend.Keys == keys + Members(ips)
      ensures forall ip :: ip in ips ==> ip in depend && depend[ip] == depend[ips[0]]
    {
      var ref, i := ref0, 1;
      hide AllSound, Components, Requested, EdgesOf, Members;
      while i < |ips|
        invariant 1 <= i <= |ips| && Valid() && syncq == old(syncq) && Requested(ips, i, e, keys, ref)
      {
        var ip := ips[i];
        assert ip in ips && ip !in syncq;
        ref := RequestNext(ips, i, e, keys, ref);
        i := i + 1;
      }
      AllRequested(ips, e, keys, ref);
    }

    lemma {:induction false} AllRequested(ips: seq<Inode>, e: Edges, keys: set<Inode>, ref: DependRef)
      requires ips != [] && Requested(ips, |ips|, e, keys, ref)
      ensures Components(depend, e + EdgesOf(ips)) && depend.Keys == keys + Members(ips)
      ensures forall ip :: ip in ips ==> ip in depend && depend[ip] == depend[ips[0]]
    {
      assert ips[..|ips|] == ips;
      SameAsFirst(depend, e, ips);
    }

    method RequestFirst(ips: seq<Inode>, ghost e: Edges) returns (r: DependRef)
      requires Valid() && Components(depend, e) && ips != [] && ips[0] !in syncq
      modifies this
      ensures Valid() && syncq == old(syncq) && Requested(ips, 1, e, old(depend.Keys), r)
    {
      if ips[0] !in depend { AloneAll(depend, sideq, count, depq, sideqCount, pass2, syncq, ips[0], false); }
      FirstPlaced(depend, e, ips[0]);
      FirstEdges(ips, e);
      PlacedKeys(depend, ips[0], NULL);
      hide AllSound, Components, Placed, EdgesOf, Members;
      r := SetDepend(ips[0], NULL);
    }

    /** The first `i` inodes of the request are in one group. */
    ghost predicate Requested(ips: seq<Inode>, i: nat, e: Edges, keys: set<Inode>, ref: DependRef)
      requires 1 <= i <= |ips|
      reads this
    {
      && ips[0] in depend && ref == Group(depend[ips[0]]) && ref.d in sideq
      && Components(depend, e + EdgesOf(ips[..i])) && depend.Keys == keys + Members(ips[..i])
    }

    method RequestNext(ips: seq<Inode>, i: nat, ghost e: Edges, ghost keys: set<Inode>, ref: DependRef)
      returns (r: DependRef)
      requires Valid() && 1 <= i < |ips| && Requested(ips, i, e, keys, ref) && ips[i] !in syncq
      modifies this
      ensures Valid() && syncq == old(syncq) && Requested(ips, i + 1, e, keys, r)
    {
      NextPlaced(depend, e + EdgesOf(ips[..i]), ips[0], ips[i], ref.d);
      EdgesStep(ips, e, i);
      PlacedKeys(depend, ips[i], ref);
      hide AllSound, Components, Placed, EdgesOf, Members;
      r := SetDepend(ips[i], ref);
    }

    /** Mark an inode dirty on its own. */
    method DelayedSideq(ip: Inode, ghost e: Edges)
      requires Valid() && Components(depend, e)
      modifies this
      ensures Valid() && Components(depend, e) && syncq == old(syncq)
      ensures depend.Keys == old(depend.Keys) + if ip in syncq then {} else {ip}
    {
      if ip !in syncq && ip !in depend {
        AloneAll(depend, sideq, count, depq, sideqCount, pass2, syncq, ip, false);
        AloneComponents(depend, e, ip);
        hide AllSound, Components;
        var _ := SetDepend(ip, NULL);
      }
    }

    /** Move every inode of group `t` to group `d`, one at a time. */
    method MoveAll(t: Inode, d: Inode)
      requires Queues(depend, sideq) && t in sideq && d in sideq && t != d
      modifies this`sideq, this`depend
      ensures sideq == old(sideq)[d := old(sideq)[d] + old(sideq)[t]][t := []]
      ensures depend == Merged(old(depend), t, d)
    {
      ghost var k := 0;
      ghost var q0, depend0 := sideq, depend;
      assert Queue(depend, t, sideq[t]);
      hide Queues, Queue;
      while sideq[t] != []
        invariant Moving(q0, depend0, sideq, depend, t, d, k)
        decreases |q0[t]| - k
      {
        MoveFirst(t, d, q0, depend0, k);
        k := k + 1;
      }
      MovingDone(q0, depend0, sideq, depend, t, d, k);
    }

    method MoveFirst(t: Inode, d: Inode, ghost q0: map<Inode, seq<Inode>>, ghost depend0: map<Inode, Inode>,
                     ghost k: nat)
      requires t in q0 && d in q0 && Moving(q0, depend0, sideq, depend, t, d, k) && sideq[t] != []
      modifies this`sideq, this`depend
      ensures k < |q0[t]| && Moving(q0, depend0, sideq, depend, t, d, k + 1)
    {
      MovingStep(q0, depend0, sideq, depend, t, d, k);
      var ip := sideq[t][0];
      hide Moving;
      sideq := sideq[t := sideq[t][1..]];
      sideq := sideq[d := sideq[d] + [ip]];
      depend := depend[ip := d];
    }
  }

  /** The first `k` inodes of group `t` have moved. */
  ghost predicate Moving(q0: map<Inode, seq<Inode>>, depend0: map<Inode, Inode>, q: map<Inode, seq<Inode>>,
                         depend: map<Inode, Inode>, t: Inode, d: Inode, k: nat)
    requires t in q0 && d in q0
  {
    && k <= |q0[t]| && t != d && q.Keys == q0.Keys && depend.Keys == depend0.Keys
    && q[t] == q0[t][k..] && q[d] == q0[d] + q0[t][..k]
    && (forall e :: e in q && e != t && e != d ==> q[e] == q0[e])
    && (forall x :: x in q0[t] <==> x in depend0 && depend0[x] == t)
    && (forall x :: x in depend ==> depend[x] == if x in q0[t][..k] then d else depend0[x])
  }

  lemma {:induction false} MovingStep(q0: map<Inode, seq<Inode>>, depend0: map<Inode, Inode>,
                                      q: map<Inode, seq<Inode>>, depend: map<Inode, Inode>, t: Inode, d: Inode, k: nat)
    requires t in q0 && d in q0 && Moving(q0, depend0, q, depend, t, d, k) && q[t] != []
    ensures var q' := q[t := q[t][1..]];
            var ip := q[t][0];
            && d in q' && k < |q0[t]|
            && Moving(q0, depend0, q'[d := q'[d] + [ip]], depend[ip := d], t, d, k + 1)
  {
  }

  lemma {:induction false} MovingDone(q0: map<Inode, seq<Inode>>, depend0: map<Inode, Inode>,
                                      q: map<Inode, seq<Inode>>, depend: map<Inode, Inode>, t: Inode, d: Inode, k: nat)
    requires t in q0 && d in q0 && Moving(q0, depend0, q, depend, t, d, k) && q[t] == []
    ensures q == q0[d := q0[d] + q0[t]][t := []] && depend == Merged(depend0, t, d)
  {
    assert |q0[t][k..]| == |q0[t]| - k;
    assert q0[t][..k] == q0[t];
    MovedQueues(q0, q, t, d);
    MovedDepend(q0, depend0, depend, t, d);
  }

  lemma {:induction false} MovedQueues(q0: map<Inode, seq<Inode>>, q: map<Inode, seq<Inode>>, t: Inode, d: Inode)
    requires t in q0 && d in q0 && t != d && q.Keys == q0.Keys && q[t] == [] && q[d] == q0[d] + q0[t]
    requires forall e :: e in q && e != t && e != d ==> q[e] == q0[e]
    ensures q == q0[d := q0[d] + q0[t]][t := []]
  {
    var r := q0[d := q0[d] + q0[t]][t := []];
    assert r.Keys == q0.Keys;
    assert forall e :: e in q ==> q[e] == r[e];
  }

  lemma {:induction false} MovedDepend(q0: map<Inode, seq<Inode>>, depend0: map<Inode, Inode>,
                                       depend: map<Inode, Inode>, t: Inode, d: Inode)
    requires t in q0 && depend.Keys == depend0.Keys
    requires forall x :: x in q0[t] <==> x in depend0 && depend0[x] == t
    requires forall x :: x in depend ==> depend[x] == if x in q0[t] then d else depend0[x]
    ensures depend == Merged(depend0, t, d)
  {
    var m := Merged(depend0, t, d);
    forall x | x in depend ensures depend[x] == m[x] {
      assert x in q0[t] <==> depend0[x] == t;
    }
    assert depend.Keys == m.Keys;
  }
}
