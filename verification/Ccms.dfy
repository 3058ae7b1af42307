/**
  The upgradeable recursive lock as a state machine over any number of threads.  Each section
  under the spin lock is one step.  A signed count stands for all holders: positive for shared
  ones, negative for the depth of the exclusive one.
 */
module Ccms {

  datatype Want = Nothing | WantShared | WantExclusive | WantUpgrade

  /** What a thread holds, what it waits for, and whether it sleeps. */
  datatype Thread = Thread(shared: nat, excl: nat, upgraded: bool, want: Want, asleep: bool)

  datatype Owner = Nobody | Td(t: nat)

  datatype Lock = Lock(count: int, upgrade: int, blocked: bool, td: Owner, threads: seq<Thread>)

  datatype Step =
    | Acquire(t: nat, exclusive: bool)
    | TryAcquire(t: nat, exclusive: bool)
    | Upgrade(t: nat)
    | Retry(t: nat)              // the loop around the sleep
    | Wake(t: nat)               // the sleep's time limit
    | Release(t: nat)
    | ReleaseUpgraded(t: nat)
    | Downgrade(t: nat)

  /** Whether the sleeping condition of a request holds. */
  predicate Held(s: Lock, want: Want) {
    match want
    case Nothing => false
    case WantShared => s.count < 0 || s.upgrade != 0
    case WantExclusive => s.count != 0 || s.upgrade != 0
    case WantUpgrade => s.count != 0
  }

  function Put(s: Lock, t: nat, x: Thread): Lock
    requires t < |s.threads|
  {
    s.(threads := s.threads[t := x])
  }

  /** Grant what the thread wants, or put it to sleep. */
  function Evaluate(s: Lock, t: nat): Lock
    requires t < |s.threads|
  {
    var x := s.threads[t];
    if Held(s, x.want) then Put(s, t, x.(asleep := true)).(blocked := true)
    else match x.want
      case Nothing => s
      case WantShared => Put(s, t, x.(shared := x.shared + 1, want := Nothing)).(count := s.count + 1)
      case WantExclusive => Put(s, t, x.(excl := 1, want := Nothing)).(count := -1, td := Td(t))
      case WantUpgrade => Put(s, t, x.(excl := 1, upgraded := true, want := Nothing)).(count := -1, td := Td(t))
  }

  /** Clear the blocked flag and wake every sleeper. */
  function Wakeup(s: Lock): Lock {
    s.(blocked := false, threads := AllAwake(s.threads))
  }

  function AllAwake(ts: seq<Thread>): (r: seq<Thread>)
    ensures |r| == |ts| && forall i :: 0 <= i < |ts| ==> r[i] == ts[i].(asleep := false)
  {
    if ts == [] then [] else AllAwake(ts[..|ts| - 1]) + [ts[|ts| - 1].(asleep := false)]
  }

  function WakeIf(s: Lock, c: bool): Lock {
    if c then Wakeup(s) else s
  }

  /** A running thread that follows the rules: it releases what it holds in the order it took it. */
  predicate Enabled(s: Lock, step: Step) {
    && step.t < |s.threads|
    && var x := s.threads[step.t];
       match step
       case Acquire(_, _) => x.want.Nothing?
       case TryAcquire(_, _) => x.want.Nothing?
       case Upgrade(_) => x.want.Nothing? && (x.shared > 0 || x.excl > 0)
       case Retry(_) => !x.want.Nothing? && !x.asleep
       case Wake(_) => x.asleep
       case Release(_) => x.want.Nothing? && (x.shared > 0 || x.excl > 1 || (x.excl == 1 && !x.upgraded))
       case ReleaseUpgraded(_) => x.want.Nothing? && x.excl == 1 && x.upgraded
       case Downgrade(_) => x.want.Nothing? && x.excl == 1 && x.upgraded
  }

  function Apply(s: Lock, step: Step): Lock
    requires Enabled(s, step)
  {
    var t := step.t;
    var x := s.threads[t];
    match step
    case Acquire(_, exclusive) =>
      if s.count < 0 && s.td == Td(t) then Put(s, t, x.(excl := x.excl + 1)).(count := s.count - 1)
      else Evaluate(Put(s, t, x.(want := if exclusive then WantExclusive else WantShared)), t)
    case TryAcquire(_, exclusive) =>
      var want := if exclusive then WantExclusive else WantShared;
      if s.count < 0 && s.td == Td(t) then Put(s, t, x.(excl := x.excl + 1)).(count := s.count - 1)
      else if Held(s, want) then s
      else Evaluate(Put(s, t, x.(want := want)), t)
    case Upgrade(_) =>
      if s.count < 0 then s
      else
        var y := x.(shared := if x.shared > 0 then x.shared - 1 else 0, want := WantUpgrade);
        Evaluate(Put(s, t, y).(upgrade := s.upgrade + 1, count := s.count - 1), t)
    case Retry(_) => Evaluate(s, t)
    case Wake(_) => Put(s, t, x.(asleep := false))
    case Release(_) =>
      if s.count < -1 then Put(s, t, x.(excl := if x.excl > 0 then x.excl - 1 else 0)).(count := s.count + 1)
      else if s.count < 0 then WakeIf(Put(s, t, x.(excl := 0)).(count := 0, td := Nobody), s.blocked)
      else
        var n := s.count - 1;
        WakeIf(Put(s, t, x.(shared := if x.shared > 0 then x.shared - 1 else 0)).(count := n), n == 0 && s.blocked)
    case ReleaseUpgraded(_) =>
      WakeIf(Put(s, t, x.(excl := 0, upgraded := false)).(upgrade := s.upgrade - 1, count := 0, td := Nobody),
        s.blocked)
    case Downgrade(_) =>
      WakeIf(Put(s, t, x.(excl := 0, upgraded := false, shared := 1)).(upgrade := s.upgrade - 1, count := 1,
        td := Nobody), s.blocked)
  }

  // ---------------------------------------------------------- invariant

  function TotalShared(ts: seq<Thread>): nat {
    if ts == [] then 0 else TotalShared(ts[..|ts| - 1]) + ts[|ts| - 1].shared
  }

  function IsUpgrader(x: Thread): bool {
    x.upgraded || x.want.WantUpgrade?
  }

  function Upgraders(ts: seq<Thread>): nat {
    if ts == [] then 0 else Upgraders(ts[..|ts| - 1]) + if IsUpgrader(ts[|ts| - 1]) then 1 else 0
  }

  lemma {:induction false} TotalsPut(ts: seq<Thread>, t: nat, x: Thread)
    requires t < |ts|
    ensures TotalShared(ts[t := x]) == TotalShared(ts) - ts[t].shared + x.shared
    ensures Upgraders(ts[t := x]) == Upgraders(ts) - (if IsUpgrader(ts[t]) then 1 else 0) +
            (if IsUpgrader(x) then 1 else 0)
    decreases |ts|
  {
    var n := |ts| - 1;
    if t == n {
      assert ts[t := x][..n] == ts[..n];
    } else {
      assert ts[t := x][..n] == ts[..n][t := x];
      TotalsPut(ts[..n], t, x);
    }
  }

  lemma {:induction false} TotalsAwake(ts: seq<Thread>)
    ensures TotalShared(AllAwake(ts)) == TotalShared(ts) && Upgraders(AllAwake(ts)) == Upgraders(ts)
  {
    if ts != [] {
      var n := |ts| - 1;
      TotalsAwake(ts[..n]);
      assert AllAwake(ts)[..n] == AllAwake(ts[..n]);
    }
  }

  lemma {:induction false} SharedBound(ts: seq<Thread>, t: nat)
    requires t < |ts|
    ensures ts[t].shared <= TotalShared(ts) && (IsUpgrader(ts[t]) ==> Upgraders(ts) > 0)
  {
    if t < |ts| - 1 {
      assert ts[..|ts| - 1][t] == ts[t];
      SharedBound(ts[..|ts| - 1], t);
    }
  }

  lemma {:induction false} SomeUpgrader(ts: seq<Thread>) returns (t: nat)
    requires Upgraders(ts) > 0
    ensures t < |ts| && IsUpgrader(ts[t])
  {
    var n := |ts| - 1;
    if IsUpgrader(ts[n]) { t := n; } else { t := SomeUpgrader(ts[..n]); }
  }

  /** The count says exactly who holds what. */
  ghost predicate Encodes(s: Lock) {
    && s.upgrade == Upgraders(s.threads)
    && TotalShared(s.threads) == (if s.count > 0 then s.count else 0)
    && (s.count < 0 ==> s.td.Td? && s.td.t < |s.threads| && s.threads[s.td.t].excl == -s.count)
    && (s.count >= 0 ==> s.td == Nobody)
    && forall i :: 0 <= i < |s.threads| && (s.count >= 0 || i != s.td.t) ==> s.threads[i].excl == 0
  }

  /** A waiting thread holds nothing exclusively, and an upgraded one does. */
  ghost predicate Conforms(s: Lock) {
    forall i :: 0 <= i < |s.threads| ==>
      && (s.threads[i].upgraded ==> s.threads[i].excl > 0)
      && (!s.threads[i].want.Nothing? ==> s.threads[i].excl == 0)
      && (s.threads[i].asleep ==> !s.threads[i].want.Nothing?)
  }

  /** Nobody sleeps but with the blocked flag set and a reason. */
  ghost predicate SleepsForReason(s: Lock) {
    forall i :: 0 <= i < |s.threads| && s.threads[i].asleep ==> s.blocked && Held(s, s.threads[i].want)
  }

  ghost predicate Inv(s: Lock) {
    Encodes(s) && Conforms(s) && SleepsForReason(s)
  }

  /** No thread holds or wants anything. */
  predicate Initial(s: Lock) {
    && s.count == 0 && s.upgrade == 0 && !s.blocked && s.td == Nobody
    && forall i :: 0 <= i < |s.threads| ==> s.threads[i] == Thread(0, 0, false, Nothing, false)
  }

  lemma {:induction false} InitialTotals(ts: seq<Thread>)
    requires forall i :: 0 <= i < |ts| ==> ts[i] == Thread(0, 0, false, Nothing, false)
    ensures TotalShared(ts) == 0 && Upgraders(ts) == 0
  {
    if ts != [] { InitialTotals(ts[..|ts| - 1]); }
  }

  lemma {:induction false} EvaluateKeeps(s: Lock, t: nat)
    requires Inv(s) && t < |s.threads| && !s.threads[t].want.Nothing? && !s.threads[t].asleep
    ensures Inv(Evaluate(s, t))
  {
    var s' := Evaluate(s, t);
    TotalsPut(s.threads, t, s'.threads[t]);
  }

  lemma {:induction false} WantKeeps(s: Lock, t: nat, want: Want)
    requires Inv(s) && t < |s.threads| && s.threads[t].want.Nothing? && s.threads[t].excl == 0
    requires want.WantShared? || want.WantExclusive?
    ensures Inv(Put(s, t, s.threads[t].(want := want)))
  {
    TotalsPut(s.threads, t, s.threads[t].(want := want));
  }

  lemma {:induction false} RecurseKeeps(s: Lock, t: nat)
    requires Inv(s) && t < |s.threads| && s.count < 0 && s.td == Td(t)
    ensures Inv(Put(s, t, s.threads[t].(excl := s.threads[t].excl + 1)).(count := s.count - 1))
  {
    TotalsPut(s.threads, t, s.threads[t].(excl := s.threads[t].excl + 1));
  }

  /** Who holds the lock exclusively is its owner, and an owner shares with nobody. */
  lemma {:induction false} HolderIs(s: Lock, t: nat)
    requires Encodes(s) && t < |s.threads|
    ensures s.threads[t].excl > 0 <==> s.count < 0 && s.td == Td(t)
    ensures s.threads[t].excl > 0 ==> s.threads[t].excl == -s.count
    ensures s.threads[t].shared > 0 ==> s.count >= s.threads[t].shared
  {
    SharedBound(s.threads, t);
  }

  lemma {:induction false} UpgradeKeeps(s: Lock, t: nat)
    requires Inv(s) && Enabled(s, Upgrade(t))
    ensures Inv(Apply(s, Upgrade(t)))
  {
    hide TotalShared, Upgraders;
    HolderIs(s, t);
    if s.count >= 0 {
      var x := s.threads[t];
      var s' := Apply(s, Upgrade(t));
      var y := x.(shared := x.shared - 1, want := WantUpgrade);
      TotalsPut(s.threads, t, y);
      TotalsPut(s.threads[t := y], t, s'.threads[t]);
      assert s'.threads == s.threads[t := s'.threads[t]];
    }
  }

  lemma {:induction false} WakeupKeeps(s: Lock)
    requires Encodes(s) && Conforms(s)
    ensures Inv(Wakeup(s))
  {
    TotalsAwake(s.threads);
    hide TotalShared, Upgraders, Held;
  }

  lemma {:induction false} WakeKeeps(s: Lock, t: nat)
    requires Inv(s) && Enabled(s, Wake(t))
    ensures Inv(Apply(s, Wake(t)))
  {
    TotalsPut(s.threads, t, s.threads[t].(asleep := false));
  }

  lemma {:induction false} UnrecurseKeeps(s: Lock, t: nat)
    requires Inv(s) && Enabled(s, Release(t)) && s.count < -1
    ensures Inv(Apply(s, Release(t)))
  {
    HolderIs(s, t);
    TotalsPut(s.threads, t, s.threads[t].(excl := s.threads[t].excl - 1));
  }

  lemma {:induction false} LastExclusiveKeeps(s: Lock, t: nat)
    requires Inv(s) && Enabled(s, Release(t)) && s.count == -1
    ensures Inv(Apply(s, Release(t)))
  {
    HolderIs(s, t);
    var x := s.threads[t];
    TotalsPut(s.threads, t, x.(excl := 0));
    var u := Put(s, t, x.(excl := 0)).(count := 0, td := Nobody);
    assert Encodes(u) && Conforms(u);
    ReleasedSettles(s, u);
  }

  lemma {:induction false} SharedReleaseKeeps(s: Lock, t: nat)
    requires Inv(s) && Enabled(s, Release(t)) && s.count >= 0
    ensures Inv(Apply(s, Release(t)))
  {
    HolderIs(s, t);
    var x := s.threads[t];
    TotalsPut(s.threads, t, x.(shared := x.shared - 1));
    var u := Put(s, t, x.(shared := x.shared - 1)).(count := s.count - 1);
    assert Encodes(u) && Conforms(u);
    if u.count == 0 {
      ReleasedSettles(s, u);
    } else {
      assert SleepsForReason(u);
    }
  }

  lemma {:induction false} ReleasedSettles(s: Lock, u: Lock)
    requires SleepsForReason(s) && Encodes(u) && Conforms(u) && u.blocked == s.blocked && |u.threads| == |s.threads|
    requires forall i :: 0 <= i < |s.threads| ==> u.threads[i].asleep == s.threads[i].asleep
    ensures Inv(WakeIf(u, s.blocked))
  {
    if s.blocked { WakeupKeeps(u); }
  }

  lemma {:induction false} UpgradedKeeps(s: Lock, step: Step)
    requires Inv(s) && Enabled(s, step) && (step.ReleaseUpgraded? || step.Downgrade?)
    ensures Inv(Apply(s, step))
  {
    var t := step.t;
    HolderIs(s, t);
    SharedBound(s.threads, t);
    var x := s.threads[t];
    var y := if step.Downgrade? then x.(excl := 0, upgraded := false, shared := 1)
      else x.(excl := 0, upgraded := false);
    TotalsPut(s.threads, t, y);
    var u := Put(s, t, y).(upgrade := s.upgrade - 1, count := if step.Downgrade? then 1 else 0, td := Nobody);
    assert Encodes(u) && Conforms(u);
    ReleasedSettles(s, u);
  }

  lemma {:induction false} AcquireKeeps(s: Lock, step: Step)
    requires Inv(s) && Enabled(s, step) && (step.Acquire? || step.TryAcquire?)
    ensures Inv(Apply(s, step))
  {
    HolderIs(s, step.t);
    var want := if step.exclusive then WantExclusive else WantShared;
    if s.count < 0 && s.td == Td(step.t) {
      RecurseKeeps(s, step.t);
    } else if step.Acquire? || !Held(s, want) {
      WantKeeps(s, step.t, want);
      EvaluateKeeps(Put(s, step.t, s.threads[step.t].(want := want)), step.t);
    }
  }

  lemma {:induction false} StepKeeps(s: Lock, step: Step)
    requires Inv(s) && Enabled(s, step)
    ensures Inv(Apply(s, step))
  {
    match step
    case Acquire(_, _) => AcquireKeeps(s, step);
    case TryAcquire(_, _) => AcquireKeeps(s, step);
    case Upgrade(t) => UpgradeKeeps(s, t);
    case Retry(t) => EvaluateKeeps(s, t);
    case Wake(t) => WakeKeeps(s, t);
    case Release(t) =>
      if s.count < -1 { UnrecurseKeeps(s, t); } else if s.count < 0 { LastExclusiveKeeps(s, t); }
        else { SharedReleaseKeeps(s, t); }
    case _ => UpgradedKeeps(s, step);
  }

  // ------------------------------------------ what each operation gives

  ghost predicate NoneExclusive(s: Lock) {
    forall i :: 0 <= i < |s.threads| ==> s.threads[i].excl == 0
  }

  ghost predicate NoneShared(s: Lock) {
    forall i :: 0 <= i < |s.threads| ==> s.threads[i].shared == 0
  }

  ghost predicate NoneUpgrading(s: Lock) {
    forall i :: 0 <= i < |s.threads| ==> !s.threads[i].upgraded && !s.threads[i].want.WantUpgrade?
  }

  lemma {:induction false} TotalsZero(ts: seq<Thread>)
    ensures TotalShared(ts) == 0 <==> forall i :: 0 <= i < |ts| ==> ts[i].shared == 0
    ensures Upgraders(ts) == 0 <==> forall i :: 0 <= i < |ts| ==> !ts[i].upgraded && !ts[i].want.WantUpgrade?
  {
    if ts != [] {
      var n := |ts| - 1;
      TotalsZero(ts[..n]);
      assert forall i :: 0 <= i < n ==> ts[..n][i] == ts[i];
    }
  }

  /** When a request may be granted, in terms of what the threads hold and do. */
  ghost predicate May(s: Lock, want: Want) {
    match want
    case Nothing => true
    case WantShared => NoneExclusive(s) && NoneUpgrading(s)
    case WantExclusive => NoneExclusive(s) && NoneShared(s) && NoneUpgrading(s)
    case WantUpgrade => NoneExclusive(s) && NoneShared(s)
  }

  /** The test on the counts decides that. */
  lemma {:induction false} HeldMeans(s: Lock, want: Want)
    requires Inv(s)
    ensures Held(s, want) <==> !May(s, want)
  {
    TotalsZero(s.threads);
  }

  /** Only thread `t` has changed. */
  ghost predicate OnlyThread(s: Lock, s': Lock, t: nat) {
    |s'.threads| == |s.threads| && forall i :: 0 <= i < |s.threads| && i != t ==> s'.threads[i] == s.threads[i]
  }

  /** What a thread has when its request has been granted. */
  function Granted(x: Thread, want: Want): Thread {
    match want
    case Nothing => x
    case WantShared => x.(shared := x.shared + 1, want := Nothing)
    case WantExclusive => x.(excl := 1, want := Nothing)
    case WantUpgrade => x.(excl := 1, upgraded := true, want := Nothing)
  }

  /** A thread that waits gets what it wants as soon as it may, and sleeps otherwise. */
  lemma {:induction false} RetryGives(s: Lock, t: nat)
    requires Inv(s) && Enabled(s, Retry(t))
    ensures var s', x := Apply(s, Retry(t)), s.threads[t];
            && OnlyThread(s, s', t)
            && (if May(s, x.want) then s'.threads[t] == Granted(x, x.want)
                else s'.threads[t] == x.(asleep := true) && s'.blocked)
  {
    HeldMeans(s, s.threads[t].want);
  }

  /**
    A request for the lock: the owner recurses; another thread gets a shared hold at once exactly
    if nobody holds exclusively or upgrades, an exclusive one exactly if nobody holds anything or
    upgrades; else it sleeps, or is refused if it does not want to wait.
   */
  lemma {:induction false} AcquireGives(s: Lock, step: Step)
    requires Inv(s) && Enabled(s, step) && (step.Acquire? || step.TryAcquire?)
    ensures var s', x, want := Apply(s, step), s.threads[step.t], if step.exclusive then WantExclusive else WantShared;
            && OnlyThread(s, s', step.t)
            && (if x.excl > 0 then s'.threads[step.t] == x.(excl := x.excl + 1)
                else if May(s, want) then s'.threads[step.t] == Granted(x, want)
                else if step.Acquire? then s'.threads[step.t] == x.(want := want, asleep := true) && s'.blocked
                else s' == s)
  {
    HolderIs(s, step.t);
    var want := if step.exclusive then WantExclusive else WantShared;
    HeldMeans(s, want);
  }

  /** An upgrade is granted at once exactly if the asker's one shared hold is the only one. */
  lemma {:induction false} UpgradeGives(s: Lock, t: nat)
    requires Inv(s) && Enabled(s, Upgrade(t))
    ensures var s', x := Apply(s, Upgrade(t)), s.threads[t];
            && OnlyThread(s, s', t)
            && (if x.excl > 0 then s' == s
                else if x.shared == 1 && forall i :: 0 <= i < |s.threads| && i != t ==> s.threads[i].shared == 0 then
                  s'.threads[t] == Granted(x.(shared := 0), WantUpgrade)
                else s'.threads[t] == x.(shared := x.shared - 1, want := WantUpgrade, asleep := true) && s'.blocked)
  {
    HolderIs(s, t);
    if s.count >= 0 {
      var x := s.threads[t];
      var y := x.(shared := x.shared - 1, want := WantUpgrade);
      TotalsPut(s.threads, t, y);
      var ts := s.threads[t := y];
      TotalsZero(ts);
      assert ts[t] == y && forall i :: 0 <= i < |ts| && i != t ==> ts[i] == s.threads[i];
    }
  }

  /** What a thread has after it has given something back. */
  function GivenBack(x: Thread, step: Step): Thread {
    match step
    case Release(_) => if x.excl > 0 then x.(excl := x.excl - 1)
      else x.(shared := if x.shared > 0 then x.shared - 1 else 0)
    case ReleaseUpgraded(_) => x.(excl := 0, upgraded := false)
    case Downgrade(_) => x.(excl := 0, upgraded := false, shared := 1)
    case _ => x
  }

  /** Releasing gives back one hold, the last exclusive or shared one waking all sleepers; so does a downgrade. */
  lemma {:induction false} ReleaseGives(s: Lock, step: Step)
    requires Inv(s) && Enabled(s, step) && (step.Release? || step.ReleaseUpgraded? || step.Downgrade?)
    ensures var s', x := Apply(s, step), s.threads[step.t];
            var y := GivenBack(x, step);
            var last := y.excl == 0 && (x.excl > 0 || s'.count == 0);
            && |s'.threads| == |s.threads|
            && s'.threads[step.t] == y
            && (if last then !s'.blocked && forall i :: 0 <= i < |s.threads| && i != step.t ==>
               s'.threads[i] == s.threads[i].(asleep := false)
                else OnlyThread(s, s', step.t) && s'.blocked == s.blocked)
  {
    HolderIs(s, step.t);
    assert forall i :: 0 <= i < |s.threads| && s.threads[i].asleep ==> s.blocked;
  }

  // -------------------------------------------------------- over all runs

  predicate Possible(s: Lock, steps: seq<Step>)
    decreases |steps|
  {
    steps == [] || (Enabled(s, steps[0]) && Possible(Apply(s, steps[0]), steps[1..]))
  }

  function Run(s: Lock, steps: seq<Step>): Lock
    requires Possible(s, steps)
    decreases |steps|
  {
    if steps == [] then s else Run(Apply(s, steps[0]), steps[1..])
  }

  lemma {:induction false} RunKeeps(s: Lock, steps: seq<Step>)
    requires Inv(s) && Possible(s, steps)
    ensures Inv(Run(s, steps))
    decreases |steps|
  {
    hide Inv, Enabled, Apply;
    if steps != [] {
      StepKeeps(s, steps[0]);
      RunKeeps(Apply(s, steps[0]), steps[1..]);
    }
  }

  lemma {:induction false} Reachable(s: Lock, steps: seq<Step>)
    requires Initial(s) && Possible(s, steps)
    ensures Inv(Run(s, steps))
  {
    InitialTotals(s.threads);
    RunKeeps(s, steps);
  }

  /** Whoever holds the lock exclusively holds it alone, and the count is the depth or the number of holds. */
  lemma {:induction false} Exclusion(s: Lock, steps: seq<Step>, i: nat, j: nat)
    requires Initial(s) && Possible(s, steps)
    requires i < |s.threads| && j < |s.threads| && i < |Run(s, steps).threads| && j < |Run(s, steps).threads|
    requires Run(s, steps).threads[i].excl > 0
    ensures var e := Run(s, steps);
            && e.count + e.threads[i].excl == 0 && e.td == Td(i) && e.threads[j].shared == 0
            && (i != j ==> e.threads[j].excl == 0)
  {
    Reachable(s, steps);
    var e := Run(s, steps);
    HolderIs(e, i);
    HolderIs(e, j);
  }

  /** At every step an upgrade is pending or held. */
  predicate Pending(s: Lock, steps: seq<Step>)
    requires Possible(s, steps)
    decreases |steps|
  {
    steps == [] || (s.upgrade > 0 && Pending(Apply(s, steps[0]), steps[1..]))
  }

  /** A thread that neither upgrades nor owns the lock. */
  predicate Outsider(s: Lock, i: nat) {
    i < |s.threads| && !IsUpgrader(s.threads[i]) && s.td != Td(i)
  }

  /** A thread in the new state is still an outsider and holds no more. */
  ghost predicate GainsNothing(s: Lock, s': Lock, i: nat)
    requires i < |s.threads|
  {
    && Outsider(s', i) && |s'.threads| == |s.threads|
    && s'.threads[i].shared <= s.threads[i].shared && s'.threads[i].excl <= s.threads[i].excl
  }

  lemma {:induction false} OutsiderWaits(s: Lock, t: nat, i: nat)
    requires Outsider(s, i) && t < |s.threads| && s.upgrade > 0
    ensures GainsNothing(s, Evaluate(s, t), i)
  {
  }

  lemma {:induction false} OutsiderStep(s: Lock, step: Step, i: nat)
    requires Outsider(s, i) && Enabled(s, step) && s.upgrade > 0 && step != Upgrade(i)
    ensures GainsNothing(s, Apply(s, step), i)
  {
    var t := step.t;
    var x := s.threads[t];
    OutsiderWaits(s, t, i);
    match step
    case Acquire(_, exclusive) => OutsiderWaits(Put(s, t, x.(want := if exclusive then WantExclusive else WantShared)),
      t, i);
    case TryAcquire(_, exclusive) => OutsiderWaits(Put(s, t,
      x.(want := if exclusive then WantExclusive else WantShared)), t, i);
    case Upgrade(_) =>
      var y := x.(shared := if x.shared > 0 then x.shared - 1 else 0, want := WantUpgrade);
      OutsiderWaits(Put(s, t, y).(upgrade := s.upgrade + 1, count := s.count - 1), t, i);
    case _ =>
      hide Evaluate;
  }

  /**
    For as long as an upgrade is pending or held, a thread that does not ask for one itself and
    does not own the lock gains nothing, whatever the threads do.
   */
  lemma {:induction false} UpgradeFirst(s: Lock, steps: seq<Step>, i: nat)
    requires Possible(s, steps) && Pending(s, steps) && Outsider(s, i) && Upgrade(i) !in steps
    ensures var e := Run(s, steps);
            && Outsider(e, i) && |e.threads| == |s.threads|
            && e.threads[i].shared <= s.threads[i].shared && e.threads[i].excl <= s.threads[i].excl
    decreases |steps|
  {
    hide Enabled, Apply, IsUpgrader;
    if steps != [] {
      OutsiderStep(s, steps[0], i);
      UpgradeFirst(Apply(s, steps[0]), steps[1..], i);
    } else {
      assert Run(s, steps) == s;
    }
  }

  /** No wakeup is lost: if the lock is free and somebody sleeps, an awake upgrader will get it. */
  lemma {:induction false} NoLostWakeup(s: Lock, steps: seq<Step>, i: nat) returns (u: nat)
    requires Initial(s) && Possible(s, steps) && i < |Run(s, steps).threads|
    requires Run(s, steps).count == 0 && Run(s, steps).threads[i].asleep
    ensures var e := Run(s, steps);
            && u < |e.threads| && Enabled(e, Retry(u))
            && Apply(e, Retry(u)).count == -1 && Apply(e, Retry(u)).td == Td(u)
  {
    Reachable(s, steps);
    var e := Run(s, steps);
    assert Held(e, e.threads[i].want);
    u := SomeUpgrader(e.threads);
    HolderIs(e, u);
  }
}
