/** What a node that saves its ledger and starts again on the file finds. */
module Resuming {
  import opened Types
  import opened Replay
  import opened Chain
  import opened Ledger
  import opened Node
  import opened Difficulty

  /** A load leaves the saved blocks and their unspent outputs, unmarked, and away from the multiples of
      50 blocks the saved target. */
  lemma LoadKeepsTarget(s: State)
    requires Tracked(s) && (s.blocks == [] || |s.blocks| % 50 != 0)
    ensures var r := RebuiltAndRetargeted(s);
            && r.outcome == Pass && r.state == s.(utxos := r.state.utxos)
            && Plain(r.state.utxos) == Unspent(s.blocks) && r.state.utxos == Unmarked(r.state.utxos)
  {
    LoadedTracked(s);
    RetargetKeeps(s.blocks, s.target);
  }

  /** `k` whole seconds lie between the first and the last of the newest 50 blocks. */
  ghost predicate Measured(chain: seq<Block>, k: nat) {
    && chain != [] && |chain| % 50 == 0
    && k * 1_000_000_000
         <= chain[|chain| - 1].header.timestamp - chain[|chain| - 50].header.timestamp
         < (k + 1) * 1_000_000_000
  }

  /** `candidate` is the target times `k` over 500, rounded down. */
  ghost predicate Candidate(target: nat, k: nat, candidate: nat) {
    500 * candidate <= target * k < 500 * candidate + 500
  }

  /** At a multiple of 50 blocks a load sets the target once more: to the saved one times the seconds the
      newest 50 blocks took over 500, within a quarter, four times it and the easiest; or it panics. */
  lemma LoadRetargets(s: State, k: nat, candidate: nat)
    requires Tracked(s) && Measured(s.blocks, k) && Candidate(s.target, k, candidate)
    ensures var r := RebuiltAndRetargeted(s);
            && r.state == s.(utxos := r.state.utxos, target := r.state.target)
            && Plain(r.state.utxos) == Unspent(s.blocks) && r.state.utxos == Unmarked(r.state.utxos)
            && if candidate > U256_MAX then r.outcome == Fail(RetargetFault) && r.state.target == s.target
               else
                 && r.outcome == Pass
                 && r.state.target == if candidate < s.target / 4 then s.target / 4
                                      else if candidate > 4 * s.target && 4 * s.target <= MIN_TARGET
                                      then 4 * s.target
                                      else if candidate > MIN_TARGET then MIN_TARGET
                                      else candidate
  {
    LoadedTracked(s);
    RetargetMeasures(s.blocks, s.target, k, candidate);
  }

  /** The ledger of a node that saves and starts again. */
  function Resumed(n: Node): State {
    Execute(Execute(n, Save), Restart).ledger
  }

  lemma ResumedBlocks(n: Node)
    requires Steady(n.ledger)
    ensures var s, after := n.ledger, Resumed(n);
            && after == State(s.blocks, Unmarked(s.utxos), after.target, [])
            && after.target == RebuiltAndRetargeted(s.(mempool := [])).state.target
  {
    var saved := n.ledger.(mempool := []);
    RebuildIsReplay(saved.utxos, saved.blocks);
    LoadedTracked(saved);
  }

  /** The target is one that another retarget over `k` seconds leaves alone. */
  predicate FixedBy(target: nat, k: nat) {
    target == 0 || (k >= 500 && (target == MIN_TARGET || target * (k - 500) < 500))
  }

  lemma FixedByMeans(target: nat, k: nat, candidate: nat)
    requires target <= MIN_TARGET && Candidate(target, k, candidate)
    ensures candidate == target <==> target == 0 || (k >= 500 && target * (k - 500) < 500)
    ensures target == MIN_TARGET ==> (candidate >= MIN_TARGET <==> k >= 500)
  {
    if k >= 500 {
      assert target * k == 500 * target + target * (k - 500);
      assert target * (k - 500) >= 0;
    } else {
      assert target * k == 500 * target - target * (500 - k);
      assert target > 0 ==> target * (500 - k) > 0;
    }
  }

  /** Saving and starting again drops the pool and the marks.  It keeps everything else exactly if the
      chain is not at a multiple of 50 blocks, or its newest 50 leave the target alone or make the start
      panic: at those heights the target is adjusted for the same blocks a second time. */
  lemma ResumesIff(n: Node, k: nat, candidate: nat)
    requires Steady(n.ledger)
    requires var s := n.ledger;
             s.blocks != [] && |s.blocks| % 50 == 0 ==> Measured(s.blocks, k) && Candidate(s.target, k, candidate)
    ensures var s := n.ledger;
            Resumed(n) == State(s.blocks, Unmarked(s.utxos), s.target, []) <==>
              s.blocks == [] || |s.blocks| % 50 != 0 || candidate > U256_MAX || FixedBy(s.target, k)
  {
    var saved := n.ledger.(mempool := []);
    ResumedBlocks(n);
    if saved.blocks == [] || |saved.blocks| % 50 != 0 {
      LoadKeepsTarget(saved);
    } else {
      LoadRetargets(saved, k, candidate);
      FixedByMeans(saved.target, k, candidate);
    }
  }
}
