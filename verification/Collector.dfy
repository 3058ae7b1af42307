/**
  The two-stage garbage collector as a protocol.  Allocation, dereferencing and
  deduplication run concurrently with collection passes; a pass works on the block
  references of the last full flush and moves an unreferenced block 11 -> 10, and only in a
  later pass 10 -> 00.  Passes exclude each other and each begins after a flush.
 */
module Collector {
  import opened FreemapSegment

  /**
    What a pass makes of a block that its topology scan found (`marked`, in-memory 11) or
    did not find (in-memory 00).
   */
  function Merge(l: BlockState, marked: bool): BlockState {
    if marked then Allocated
    else match l
      case Allocated => Staged
      case Staged => Free
      case _ => l
  }

  /**
    Position of the collector.  `held` is the topology written by the last flush.  While a flush
    runs: `stale` are the deduplicating writes that were under way when it began; `due` the blocks
    it must write, those in the topology since it began or put there by one of these writes;
    `ever` the blocks in the topology at any time during it.
   */
  datatype Phase =
    | Idle
    | Flushing(stale: set<nat>, due: set<nat>, ever: set<nat>)
    | Flushed(held: set<nat>)
    | Passing(held: set<nat>, synced: set<nat>)

  /**
    `live`: blocks the current topology references.  `bits`: blocks with a dedup_alloc bit
    set.  `pending`: deduplicating writes that have found a block to share and not yet put
    it into the topology.
   */
  datatype State = State(
    media: seq<BlockState>,
    live: set<nat>,
    bits: set<nat>,
    pending: map<nat, nat>,
    phase: Phase)

  datatype Step =
    | AllocBlock(b: nat, data: bool)     // from a free block
    | AllocFragment(b: nat, data: bool)  // behind the linear iterator of a used block
    | Dereference(b: nat)                // the last reference goes away
    | DropBits(b: nat)                   // the device buffer with the bits is discarded
    | DedupLookup(op: nat, b: nat)
    | DedupCommit(op: nat)
    | DedupAbandon(op: nat)
    | BeginFlush
    | EndFlush(held: set<nat>)
    | Snapshot
    | SyncBlock(b: nat)
    | EndPass

  /** The block whose bits a deduplicating write sets: the position within 16, not 32, blocks. */
  function Recovered(b: nat): (r: nat)
    ensures r <= b
  {
    b - b % BLOCKS_PER_ELEMENT + b % 16
  }

  /**
    What a flush writes of a topology that changes under it is anything from the blocks that
    were there throughout to those that were there at some time.  A deduplicating write looks up
    its block and puts it into the topology under one lock on the parent chain, which the flush
    takes as well; a write under way when the flush begins is therefore over, and seen by the
    flush, before the flush ends.
   */
  predicate Enabled(s: State, step: Step) {
    match step
    case AllocBlock(b, _) => b < |s.media| && s.media[b] == Free
    case AllocFragment(b, _) => b < |s.media|
    case Dereference(b) => b in s.live
    case DropBits(b) => true
    case DedupLookup(op, b) => op !in s.pending && b in s.bits
    case DedupCommit(op) => op in s.pending && s.pending[op] < |s.media|
    case DedupAbandon(op) => op in s.pending
    case BeginFlush => s.phase.Idle? || s.phase.Flushed?
    case EndFlush(held) => s.phase.Flushing? && s.phase.stale !! s.pending.Keys && s.phase.due <= held <= s.phase.ever
    case Snapshot => s.phase.Flushed?
    case SyncBlock(b) => s.phase.Passing? && b < |s.media| && b !in s.phase.synced
    case EndPass => s.phase.Passing?
  }

  function Apply(s: State, step: Step): State
    requires Enabled(s, step)
  {
    match step
    case AllocBlock(b, data) => Allocate(s, b, data)
    case AllocFragment(b, data) => Allocate(s, b, data)
    case Dereference(b) => s.(live := s.live - {b}, phase := Gone(s.phase, b))
    case DropBits(b) => s.(bits := s.bits - {b})
    case DedupLookup(op, b) => s.(pending := s.pending[op := b])
    case DedupCommit(op) =>
      var b := s.pending[op];
      s.(media := s.media[Recovered(b) := Allocated], live := s.live + {b}, pending := s.pending - {op},
         phase := Joined(s.phase, b, s.phase.Flushing? && op in s.phase.stale))
    case DedupAbandon(op) => s.(pending := s.pending - {op})
    case BeginFlush => s.(phase := Flushing(s.pending.Keys, s.live, s.live))
    case EndFlush(held) => s.(phase := Flushed(held))
    case Snapshot => s.(phase := Passing(s.phase.held, {}))
    case SyncBlock(b) =>
      var to := Merge(s.media[b], b in s.phase.held);
      s.(media := s.media[b := to],
         bits := if s.media[b] == Allocated && to == Staged then s.bits - {b} else s.bits,
         phase := Passing(s.phase.held, s.phase.synced + {b}))
    case EndPass => s.(phase := Idle)
  }

  function Allocate(s: State, b: nat, data: bool): State
    requires b < |s.media|
  {
    s.(media := s.media[b := Allocated], live := s.live + {b}, bits := if data then s.bits + {b} else s.bits,
       phase := Joined(s.phase, b, false))
  }

  /** A block enters the topology while a flush may be running. */
  function Joined(p: Phase, b: nat, stale: bool): Phase {
    if p.Flushing? then p.(due := if stale then p.due + {b} else p.due, ever := p.ever + {b}) else p
  }

  function Gone(p: Phase, b: nat): Phase {
    if p.Flushing? then p.(due := p.due - {b}) else p
  }

  // ------------------------------------------------------------- runs

  predicate Possible(s: State, steps: seq<Step>)
    decreases |steps|
  {
    steps == [] || (Enabled(s, steps[0]) && Possible(Apply(s, steps[0]), steps[1..]))
  }

  function Run(s: State, steps: seq<Step>): State
    requires Possible(s, steps)
    decreases |steps|
  {
    if steps == [] then s else Run(Apply(s, steps[0]), steps[1..])
  }

  /** A mounted volume before its first pass: everything referenced is marked in some way. */
  ghost predicate Mounted(s: State) {
    && s.phase == Idle && s.bits == {} && s.pending == map[]
    && forall b :: b in s.live ==> b < |s.media| && s.media[b] != Free
  }

  // -------------------------------------------------------- invariant

  ghost predicate Is(s: State, b: nat, v: BlockState) {
    b < |s.media| && s.media[b] == v
  }

  ghost predicate InUse(s: State, b: nat) {
    b < |s.media| && s.media[b] != Free
  }

  /** No block that the topology references, or is about to reference, is free. */
  ghost predicate Safe(s: State) {
    && (forall b :: b in s.live ==> InUse(s, b))
    && (forall b :: b in s.bits ==> Is(s, b, Allocated))
    && (forall op :: op in s.pending ==> InUse(s, s.pending[op]))
  }

  /** What the phase still protects: a reference newer than the flush is fully marked until its block is synced. */
  ghost predicate Protected(s: State) {
    match s.phase
    case Idle => true
    case Flushing(stale, due, ever) =>
      && (forall b :: b in ever ==> InUse(s, b))
      && (forall b :: b in s.live && b !in due ==> Is(s, b, Allocated))
      && (forall op :: op in s.pending && op !in stale ==> Is(s, s.pending[op], Allocated))
    case Flushed(held) =>
      && (forall b :: b in held ==> InUse(s, b))
      && (forall b :: b in s.live && b !in held ==> Is(s, b, Allocated))
      && (forall op :: op in s.pending ==> Is(s, s.pending[op], Allocated))
    case Passing(held, synced) =>
      && (forall b :: b in held ==> InUse(s, b))
      && (forall b :: b in s.live && b !in held && b !in synced ==> Is(s, b, Allocated))
      && (forall op :: op in s.pending && s.pending[op] !in held && s.pending[op] !in synced ==>
         Is(s, s.pending[op], Allocated))
  }

  lemma {:induction false} MarkKeeps(s: State, step: Step)
    requires Safe(s) && Protected(s) && Enabled(s, step)
    requires step.AllocBlock? || step.AllocFragment?
    ensures Safe(Apply(s, step)) && Protected(Apply(s, step))
  {
  }

  /** Wherever the recovery mark lands, it only adds full marks. */
  lemma {:induction false} CommitKeeps(s: State, step: Step)
    requires Safe(s) && Protected(s) && Enabled(s, step) && step.DedupCommit?
    ensures Safe(Apply(s, step)) && Protected(Apply(s, step))
  {
    hide Recovered;
  }

  lemma {:induction false} SyncKeeps(s: State, step: Step)
    requires Safe(s) && Protected(s) && Enabled(s, step) && step.SyncBlock?
    ensures Safe(Apply(s, step)) && Protected(Apply(s, step))
  {
  }

  lemma {:induction false} ReferenceKeeps(s: State, step: Step)
    requires Safe(s) && Protected(s) && Enabled(s, step)
    requires step.Dereference? || step.DropBits? || step.DedupLookup? || step.DedupAbandon?
    ensures Safe(Apply(s, step)) && Protected(Apply(s, step))
  {
  }

  lemma {:induction false} PhaseKeeps(s: State, step: Step)
    requires Safe(s) && Protected(s) && Enabled(s, step)
    requires step.BeginFlush? || step.EndFlush? || step.Snapshot? || step.EndPass?
    ensures Safe(Apply(s, step)) && Protected(Apply(s, step))
  {
  }

  lemma {:induction false} StepKeeps(s: State, step: Step)
    requires Safe(s) && Protected(s) && Enabled(s, step)
    ensures Safe(Apply(s, step)) && Protected(Apply(s, step))
  {
    hide *;
    match step
    case AllocBlock(_, _) => MarkKeeps(s, step);
    case AllocFragment(_, _) => MarkKeeps(s, step);
    case DedupCommit(_) => CommitKeeps(s, step);
    case SyncBlock(_) => SyncKeeps(s, step);
    case Dereference(_) => ReferenceKeeps(s, step);
    case DropBits(_) => ReferenceKeeps(s, step);
    case DedupLookup(_, _) => ReferenceKeeps(s, step);
    case DedupAbandon(_) => ReferenceKeeps(s, step);
    case _ => PhaseKeeps(s, step);
  }

  lemma {:induction false} RunKeeps(s: State, steps: seq<Step>)
    requires Safe(s) && Protected(s) && Possible(s, steps)
    ensures Safe(Run(s, steps)) && Protected(Run(s, steps))
    decreases |steps|
  {
    hide Enabled, Apply, Safe, Protected;
    if steps != [] {
      StepKeeps(s, steps[0]);
      RunKeeps(Apply(s, steps[0]), steps[1..]);
    }
  }

  /** What is referenced: nothing is but what was, without the block dereferenced, and what a step brings in. */
  lemma {:induction false} References(s: State, step: Step, b: nat)
    requires Enabled(s, step)
    ensures b in Apply(s, step).live <==>
              || step == AllocBlock(b, true) || step == AllocBlock(b, false)
              || step == AllocFragment(b, true) || step == AllocFragment(b, false)
              || (step.DedupCommit? && s.pending[step.op] == b)
              || (b in s.live && step != Dereference(b))
  {
    hide Recovered, Merge;
  }

  // ----------------------------------------- what a flush may have written

  /** The blocks referenced at some time during these steps, and those referenced all the time. */
  ghost function LiveSome(s: State, steps: seq<Step>): set<nat>
    requires Possible(s, steps)
    decreases |steps|
  {
    s.live + if steps == [] then {} else LiveSome(Apply(s, steps[0]), steps[1..])
  }

  ghost function LiveAll(s: State, steps: seq<Step>): set<nat>
    requires Possible(s, steps)
    decreases |steps|
  {
    if steps == [] then s.live else s.live * LiveAll(Apply(s, steps[0]), steps[1..])
  }

  /** What a step adds that was under way when the flush began. */
  ghost function Late(s: State, step: Step): set<nat>
    requires Enabled(s, step)
  {
    if s.phase.Flushing? && step.DedupCommit? && step.op in s.phase.stale then {s.pending[step.op]} else {}
  }

  ghost function AllLate(s: State, steps: seq<Step>): set<nat>
    requires Possible(s, steps)
    decreases |steps|
  {
    if steps == [] then {} else Late(s, steps[0]) + AllLate(Apply(s, steps[0]), steps[1..])
  }

  /** While a flush runs, `ever` is what has been referenced since, and `due` lies between. */
  lemma {:induction false} FlushBrackets(s: State, steps: seq<Step>)
    requires s.phase.Flushing? && Possible(s, steps) && s.phase.due <= s.live <= s.phase.ever
    requires forall i :: 0 <= i < |steps| ==> !steps[i].EndFlush?
    ensures var s' := Run(s, steps);
            && s'.phase.Flushing? && s'.phase.stale == s.phase.stale
            && s'.phase.ever == s.phase.ever + LiveSome(s, steps)
            && s.phase.due * LiveAll(s, steps) <= s'.phase.due <= s.phase.due + AllLate(s, steps)
            && s'.phase.due <= s'.live <= s'.phase.ever
    decreases |steps|
  {
    if steps != [] {
      OneBracket(s, steps[0]);
      hide Apply, Enabled;
      FlushBrackets(Apply(s, steps[0]), steps[1..]);
    }
  }

  lemma {:induction false} OneBracket(s: State, step: Step)
    requires s.phase.Flushing? && Enabled(s, step) && s.phase.due <= s.live <= s.phase.ever && !step.EndFlush?
    ensures var s' := Apply(s, step);
            && s'.phase.Flushing? && s'.phase.stale == s.phase.stale && s'.phase.ever == s.phase.ever + s'.live
            && s.phase.due * s'.live <= s'.phase.due <= s'.live && s'.phase.due <= s.phase.due + Late(s, step)
  {
    hide Recovered;
  }

  /** A flush may end with anything between, as soon as the writes under way when it began are over. */
  lemma {:induction false} FlushAdmits(s: State, steps: seq<Step>, held: set<nat>)
    requires Enabled(s, BeginFlush) && Possible(Apply(s, BeginFlush), steps)
    requires forall i :: 0 <= i < |steps| ==> !steps[i].EndFlush?
    requires var s0 := Apply(s, BeginFlush); s.pending.Keys !! Run(s0, steps).pending.Keys
    ensures var s0 := Apply(s, BeginFlush);
            && Enabled(Run(s0, steps), EndFlush(Run(s0, steps).live))
            && (Enabled(Run(s0, steps), EndFlush(held)) ==> LiveAll(s0, steps) <= held <= LiveSome(s0, steps))
  {
    var s0 := Apply(s, BeginFlush);
    FlushBrackets(s0, steps);
    AllIsStart(s0, steps);
  }

  lemma {:induction false} AllIsStart(s: State, steps: seq<Step>)
    requires Possible(s, steps)
    ensures LiveAll(s, steps) <= s.live <= LiveSome(s, steps)
  {
  }

  // ------------------------------------------------------ main results

  /** Over every run, no referenced block is free and a set dedup bit means 11. */
  lemma {:induction false} TwoStageSafety(s: State, steps: seq<Step>)
    requires Mounted(s) && Possible(s, steps)
    ensures Safe(Run(s, steps))
  {
    RunKeeps(s, steps);
  }

  /**
    A block handed out as free is in nobody's hands: not in the topology, not about to be
    shared, and not part of the snapshot that a pass is still reading.
   */
  lemma {:induction false} FreshAllocation(s: State, steps: seq<Step>, b: nat, data: bool)
    requires Mounted(s) && Possible(s, steps)
    requires Enabled(Run(s, steps), AllocBlock(b, data))
    ensures b !in Run(s, steps).live && b !in Run(s, steps).bits
    ensures forall op :: op in Run(s, steps).pending ==> Run(s, steps).pending[op] != b
    ensures Run(s, steps).phase.Passing? ==> b !in Run(s, steps).phase.held
  {
    RunKeeps(s, steps);
  }

  /** The assertion that a block going 10 -> 00 has no dedup bit set never fires. */
  lemma {:induction false} DedupAssertHolds(s: State, steps: seq<Step>, b: nat)
    requires Mounted(s) && Possible(s, steps)
    requires Enabled(Run(s, steps), SyncBlock(b))
    ensures Apply(Run(s, steps), SyncBlock(b)).media[b] == Free ==> b !in Run(s, steps).bits
  {
    RunKeeps(s, steps);
  }

  // -------------------------------------------------------- reclaiming

  /** A step that gives block `b` a new owner or a full mark. */
  predicate Takes(s: State, step: Step, b: nat)
    requires Enabled(s, step)
  {
    match step
    case AllocBlock(c, _) => c == b
    case AllocFragment(c, _) => c == b
    case DedupLookup(_, c) => c == b
    case DedupCommit(op) => s.pending[op] == b || Recovered(s.pending[op]) == b
    case _ => false
  }

  predicate LeftAlone(s: State, steps: seq<Step>, b: nat)
    requires Possible(s, steps)
    decreases |steps|
  {
    steps == [] || (!Takes(s, steps[0], b) && LeftAlone(Apply(s, steps[0]), steps[1..], b))
  }

  /** How many passes of the run have synchronized block `b`. */
  function Syncs(steps: seq<Step>, b: nat): nat {
    if steps == [] then 0 else (if steps[0] == SyncBlock(b) then 1 else 0) + Syncs(steps[1..], b)
  }

  ghost predicate Garbage(s: State, b: nat) {
    && b < |s.media| && b !in s.live && s.media[b] != Reserved
    && match s.phase
       case Flushing(_, _, ever) => b !in ever
       case Flushed(held) => b !in held
       case Passing(held, _) => b !in held
       case _ => true
  }

  /** Collection steps before a block is free again. */
  function Stage(v: BlockState): nat {
    match v case Allocated => 2 case Staged => 1 case _ => 0
  }

  lemma {:induction false} GarbageStep(s: State, step: Step, b: nat)
    requires Garbage(s, b) && Enabled(s, step) && !Takes(s, step, b)
    ensures Garbage(Apply(s, step), b)
    ensures Stage(Apply(s, step).media[b]) ==
              if step == SyncBlock(b) && s.media[b] != Free then Stage(s.media[b]) - 1 else Stage(s.media[b])
  {
  }

  /** Garbage nobody takes is free after exactly as many synchronizations as it has stages: at most two. */
  lemma {:induction false} Reclaimed(s: State, steps: seq<Step>, b: nat)
    requires Garbage(s, b) && Possible(s, steps) && LeftAlone(s, steps, b)
    ensures b < |Run(s, steps).media|
    ensures Run(s, steps).media[b] == Free <==> Stage(s.media[b]) <= Syncs(steps, b)
    decreases |steps|
  {
    hide Enabled, Takes, Apply;
    if steps != [] {
      GarbageStep(s, steps[0], b);
      Reclaimed(Apply(s, steps[0]), steps[1..], b);
    }
  }
}
