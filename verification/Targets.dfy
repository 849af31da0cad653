/** The target over whole runs: a function of the blocks while nothing retargets twice, and bounded by
    the number of retargets in any run. */
module Targets {
  import opened Types
  import opened Replay
  import opened Chain
  import opened Ledger
  import opened Node
  import opened Difficulty
  import Panics

  // ---------- every run ----------

  /** How many retargets the targets of the ledger and of the file have been through. */
  datatype Counts = Counts(ledger: nat, file: nat)

  /** The retarget of a synchronisation or a load changes the target. */
  ghost predicate Adjusts(s: State) {
    AtRetarget(s.blocks) && !RetargetPanics(s)
  }

  ghost predicate ReceiveAdjusts(s: State, b: Block) {
    AtRetarget(s.blocks + [b]) && Submitted(s, b).outcome == Pass
  }

  ghost function One(counts: bool): nat {
    if counts then 1 else 0
  }

  ghost function CountStep(n: Node, step: Step, c: Counts): Counts {
    match step
    case Receive(b) => c.(ledger := c.ledger + One(ReceiveAdjusts(n.ledger, b)))
    case SyncRetarget => c.(ledger := c.ledger + One(Adjusts(n.ledger)))
    case Save => c.(file := c.ledger)
    case Restart => c.(ledger := if n.file.None? then 0 else c.file + One(Adjusts(n.file.value)))
    case _ => c
  }

  /** A saved target keeps its count; a load continues from it, a fresh ledger from zero. */
  ghost function Retargets(steps: seq<Step>): Counts {
    if steps == [] then Counts(0, 0)
    else CountStep(Run(steps[..|steps| - 1]), steps[|steps| - 1], Retargets(steps[..|steps| - 1]))
  }

  ghost predicate CountsBound(n: Node, c: Counts) {
    && WithinRetargets(n.ledger.target, c.ledger)
    && (n.file.Some? ==> WithinRetargets(n.file.value.target, c.file))
  }

  lemma ReceiveBounded(s: State, b: Block, k: nat)
    requires Tracked(s) && WithinRetargets(s.target, k)
    ensures WithinRetargets(Submitted(s, b).state.target, k + One(ReceiveAdjusts(s, b)))
  {
    Panics.FaultsIffRetargetPanics(s, b);
    if CheckBlock(s.blocks, Plain(s.utxos), b) == Pass {
      PushedWhenChecked(s, b);
      CheckedIsAccepted(s, b);
      ChainTimeOrdered(s.blocks + [b]);
      if AtRetarget(s.blocks + [b]) && !Faults(s, b) {
        OneMoreRetarget(s.blocks + [b], s.target, k);
      }
    }
  }

  lemma RetargetBounded(s: State, k: nat)
    requires Tracked(s) && WithinRetargets(s.target, k)
    ensures WithinRetargets(Retargeted(s).state.target, k + One(Adjusts(s)))
  {
    ChainTimeOrdered(s.blocks);
    if Adjusts(s) {
      OneMoreRetarget(s.blocks, s.target, k);
    }
  }

  lemma LoadBounded(file: State, k: nat)
    requires Tracked(file) && WithinRetargets(file.target, k)
    ensures WithinRetargets(RebuiltAndRetargeted(file).state.target, k + One(Adjusts(file)))
  {
    RetargetBounded(file, k);
  }

  lemma CountStepBounds(n: Node, step: Step, c: Counts)
    requires AllTracked(n) && CountsBound(n, c)
    ensures CountsBound(Execute(n, step), CountStep(n, step, c))
  {
    match step
    case Receive(b) =>
      ReceiveBounded(n.ledger, b, c.ledger);
    case SyncRetarget =>
      RetargetBounded(n.ledger, c.ledger);
    case Restart =>
      if n.file.Some? {
        LoadBounded(n.file.value, c.file);
      }
    case _ =>
  }

  /** In every run, panics, restarts and synchronisations included: after k retargets the target is at
      least MIN_TARGET over 4^k, rounded down, and never above MIN_TARGET. */
  lemma {:induction false} TargetBounds(steps: seq<Step>)
    ensures CountsBound(Run(steps), Retargets(steps))
    decreases |steps|
  {
    if steps != [] {
      var before := steps[..|steps| - 1];
      TargetBounds(before);
      EveryRunTracked(before);
      CountStepBounds(Run(before), steps[|steps| - 1], Retargets(before));
    }
  }

  /** So no target is zero before its 120th retarget. */
  lemma ZeroTakes120Retargets(steps: seq<Step>)
    ensures Run(steps).ledger.target == 0 ==> Retargets(steps).ledger >= 120
    ensures Run(steps).file.Some? && Run(steps).file.value.target == 0 ==> Retargets(steps).file >= 120
  {
    TargetBounds(steps);
    if Retargets(steps).ledger < 120 {
      PositiveFor119Retargets(Retargets(steps).ledger);
    }
    if Retargets(steps).file < 120 {
      PositiveFor119Retargets(Retargets(steps).file);
    }
  }

  // ---------- runs without a restart or a second retarget ----------

  ghost predicate NeverResynced(steps: seq<Step>) {
    forall i :: 0 <= i < |steps| ==> !steps[i].SyncRetarget? && !steps[i].Restart?
  }

  ghost predicate OnSchedule(s: State, k: nat) {
    ChainTarget(s.blocks) == Some(s.target) && k == |s.blocks| / DIFFICULTY_UPDATE_INTERVAL
  }

  lemma ReceiveOnSchedule(s: State, b: Block, k: nat)
    requires Tracked(s) && !Faults(s, b) && OnSchedule(s, k)
    ensures OnSchedule(Submitted(s, b).state, k + One(ReceiveAdjusts(s, b)))
  {
    Panics.FaultsIffRetargetPanics(s, b);
    FaultsMeans(s, b);
    if CheckBlock(s.blocks, Plain(s.utxos), b) == Pass {
      PushedWhenChecked(s, b);
      InitLastSnoc(s.blocks, b);
      RetargetCount(s.blocks + [b]);
    }
  }

  lemma StepOnSchedule(n: Node, step: Step, c: Counts)
    requires Tracked(n.ledger) && OnSchedule(n.ledger, c.ledger)
    requires !step.SyncRetarget? && !step.Restart? && (step.Receive? ==> !Faults(n.ledger, step.block))
    ensures OnSchedule(Execute(n, step).ledger, CountStep(n, step, c).ledger)
  {
    if step.Receive? {
      ReceiveOnSchedule(n.ledger, step.block, c.ledger);
    }
  }

  /** Without a restart or a synchronisation's retarget, and while no block faults, the target is a
      function of the blocks, there is one retarget for every interval, and none before height 6000
      leaves zero. */
  lemma {:induction false} TargetOfChain(steps: seq<Step>)
    requires NoBlockFaults(steps) && NeverResynced(steps)
    ensures OnSchedule(Run(steps).ledger, Retargets(steps).ledger)
    ensures Run(steps).ledger.target == 0 ==> |Run(steps).ledger.blocks| >= 6000
    decreases |steps|
  {
    if steps != [] {
      var before := steps[..|steps| - 1];
      TargetOfChain(before);
      EveryRunTracked(before);
      StepOnSchedule(Run(before), steps[|steps| - 1], Retargets(before));
    }
    ZeroTakes120Retargets(steps);
  }
}
