/** The difficulty target: 256-bit clamped rescaling every `DIFFICULTY_UPDATE_INTERVAL` blocks. */
module Difficulty {
  import opened Types
  import opened Arithmetic

  const U256_MAX: nat := 0xFFFF_FFFF_FFFF_FFFF_FFFF_FFFF_FFFF_FFFF_FFFF_FFFF_FFFF_FFFF_FFFF_FFFF_FFFF_FFFF

  /** The easiest target: 240 one bits. */
  const MIN_TARGET: nat := 0xFFFF_FFFF_FFFF_FFFF_FFFF_FFFF_FFFF_FFFF_FFFF_FFFF_FFFF_FFFF_FFFF_FFFF_FFFF

  /** The seconds the interval's blocks should take. */
  const TARGET_SECONDS: nat := 500

  /** The old target scaled by the time the interval took, at most fourfold either way and never
      above `MIN_TARGET`.  `None` is the panic on an intermediate value outside 256 bits. */
  function Rescaled(target: nat, seconds: int): Option<nat> {
    if target * seconds < 0 then None
    else
      var candidate: nat := Quotient(target * seconds, TARGET_SECONDS);
      if candidate > U256_MAX then None
      else if candidate < target / 4 then Some(Min(target / 4, MIN_TARGET))
      else if 4 * target > U256_MAX then None
      else if candidate > 4 * target then Some(Min(4 * target, MIN_TARGET))
      else Some(Min(candidate, MIN_TARGET))
  }

  function Min(a: nat, b: nat): nat {
    if a <= b then a else b
  }

  /** Whole seconds of a duration in nanoseconds, truncated toward zero. */
  function WholeSeconds(nanos: int): int {
    if nanos >= 0 then nanos / NANOS_PER_SECOND else -((-nanos) / NANOS_PER_SECOND)
  }

  /** The seconds between the first and the last of the newest interval's blocks. */
  function IntervalSeconds(chain: seq<Block>): int
    requires |chain| >= DIFFICULTY_UPDATE_INTERVAL
  {
    WholeSeconds(chain[|chain| - 1].header.timestamp - chain[|chain| - DIFFICULTY_UPDATE_INTERVAL].header.timestamp)
  }

  predicate AtRetarget(chain: seq<Block>) {
    chain != [] && |chain| % DIFFICULTY_UPDATE_INTERVAL == 0
  }

  function Retarget(chain: seq<Block>, target: nat): Option<nat> {
    if AtRetarget(chain) then Rescaled(target, IntervalSeconds(chain)) else Some(target)
  }

  /** The target times the seconds over the ideal seconds, rounded down. */
  function Scaled(target: nat, seconds: nat): nat {
    Quotient(target * seconds, TARGET_SECONDS)
  }

  // ---------- bounds of one retarget ----------

  /** For a legal target and a non-negative interval, the retarget is the floor of the scaled target
      clamped between a quarter and four times the old one and capped; the only panic is a scaled
      target outside 256 bits. */
  lemma RescaledBounds(target: nat, seconds: nat)
    requires target <= MIN_TARGET
    ensures var candidate := Scaled(target, seconds);
            && (Rescaled(target, seconds) == None <==> candidate > U256_MAX)
            && (Rescaled(target, seconds).Some? ==>
                  var next := Rescaled(target, seconds).value;
                  && target / 4 <= next <= Min(4 * target, MIN_TARGET)
                  && (target / 4 <= candidate <= Min(4 * target, MIN_TARGET) ==> next == candidate)
                  && (candidate < target / 4 ==> next == target / 4)
                  && (candidate > Min(4 * target, MIN_TARGET) ==> next == Min(4 * target, MIN_TARGET)))
  {
    assert target * seconds >= 0;
  }

  lemma ProductMonotone(a: nat, b: nat, c: nat, d: nat)
    requires a <= b && c <= d
    ensures a * c <= b * d
  {
    assert a * c <= b * c <= b * d;
  }

  /** No interval of up to 32,768,000 seconds makes a legal target overflow ... */
  lemma NoFaultWithinBound(target: nat, seconds: nat)
    requires target <= MIN_TARGET && seconds <= 32_768_000
    ensures Rescaled(target, seconds).Some?
  {
    ProductMonotone(target, MIN_TARGET, seconds, 32_768_000);
    QuotientMonotone(target * seconds, MIN_TARGET * 32_768_000, 500);
    QuotientUnique(MIN_TARGET * 32_768_000, 500, MIN_TARGET * 65_536);
    RescaledBounds(target, seconds);
  }

  /** ... and one second more does, at the easiest target. */
  lemma FaultBoundIsTight()
    ensures Rescaled(MIN_TARGET, 32_768_001) == None
  {
    QuotientMonotone((U256_MAX + 1) * 500, MIN_TARGET * 32_768_001, 500);
    QuotientUnique((U256_MAX + 1) * 500, 500, U256_MAX + 1);
    RescaledBounds(MIN_TARGET, 32_768_001);
  }

  // ---------- which interval, and by how much ----------

  /** Chains of multiples of 50 blocks that end with the same 50 retarget alike. */
  lemma RetargetIsLocal(a: seq<Block>, b: seq<Block>, target: nat)
    requires |a| >= 50 && |b| >= 50 && a[|a| - 50..] == b[|b| - 50..]
    requires |a| % 50 == 0 && |b| % 50 == 0
    ensures Retarget(a, target) == Retarget(b, target)
  {
    assert a[|a| - 1] == a[|a| - 50..][49] && a[|a| - 50] == a[|a| - 50..][0];
    assert b[|b| - 1] == b[|b| - 50..][49] && b[|b| - 50] == b[|b| - 50..][0];
  }

  /** The target a retarget sets: the old one times the whole seconds `k` between the first and the last
      of the newest 50 blocks over 500, rounded down, but no less than a quarter and no more than four
      times the old one, and no more than the easiest; and it panics where the product over 500 leaves
      256 bits. */
  lemma RetargetMeasures(chain: seq<Block>, target: nat, k: nat, candidate: nat)
    requires chain != [] && |chain| % 50 == 0 && target <= MIN_TARGET
    requires k * 1_000_000_000
               <= chain[|chain| - 1].header.timestamp - chain[|chain| - 50].header.timestamp
               < (k + 1) * 1_000_000_000
    requires 500 * candidate <= target * k < 500 * candidate + 500
    ensures Retarget(chain, target)
         == if candidate > U256_MAX then None
            else Some(if candidate < target / 4 then target / 4
                      else if candidate > 4 * target && 4 * target <= MIN_TARGET then 4 * target
                      else if candidate > MIN_TARGET then MIN_TARGET
                      else candidate)
  {
    assert IntervalSeconds(chain) == k;
    assert target * k >= 0;
    QuotientUnique(target * k, 500, candidate);
  }

  /** Off the multiples of 50, and on the empty chain, the target stays. */
  lemma RetargetKeeps(chain: seq<Block>, target: nat)
    requires chain == [] || |chain| % 50 != 0
    ensures Retarget(chain, target) == Some(target)
  {
  }

  /** Blocks stamped evenly, `step` seconds apart. */
  ghost predicate Evenly(chain: seq<Block>, step: nat) {
    forall i {:trigger chain[i]} :: 0 <= i < |chain| ==>
      chain[i].header.timestamp == chain[0].header.timestamp + i * step * 1_000_000_000
  }

  /** For evenly stamped blocks the factor is 49 steps over 500 seconds, however long the chain is: the
      49 gaps between 50 blocks are measured against the time of 50, so blocks exactly ten seconds apart
      make every retarget lower the target by two percent. */
  lemma EvenChainRetargets(chain: seq<Block>, target: nat, step: nat, candidate: nat)
    requires chain != [] && |chain| % 50 == 0 && Evenly(chain, step) && target <= MIN_TARGET
    requires 500 * candidate <= target * (49 * step) < 500 * candidate + 500
    requires target / 4 <= candidate <= 4 * target && candidate <= MIN_TARGET
    ensures Retarget(chain, target) == Some(candidate)
    ensures step == 10 ==> 500 * candidate <= 490 * target < 500 * candidate + 500
  {
    var n := |chain|;
    assert chain[n - 1].header.timestamp == chain[0].header.timestamp + (n - 1) * step * 1_000_000_000;
    assert chain[n - 50].header.timestamp == chain[0].header.timestamp + (n - 50) * step * 1_000_000_000;
    assert (n - 1) * step == (n - 50) * step + 49 * step;
    RetargetMeasures(chain, target, 49 * step, candidate);
  }

  // ---------- bounds over a chain ----------

  /** The target after the chain's own retargets, starting from the easiest; `None` after a panic. */
  function ChainTarget(chain: seq<Block>): Option<nat> {
    if chain == [] then Some(MIN_TARGET)
    else
      match ChainTarget(chain[..|chain| - 1])
      case None => None
      case Some(t) => Retarget(chain, t)
  }

  ghost predicate TimeOrdered(chain: seq<Block>) {
    forall i, j :: 0 <= i < j < |chain| ==> chain[i].header.timestamp < chain[j].header.timestamp
  }

  lemma IntervalNonNegative(chain: seq<Block>)
    requires TimeOrdered(chain) && |chain| >= DIFFICULTY_UPDATE_INTERVAL
    ensures IntervalSeconds(chain) >= 0
  {
  }

  /** A retarget panics exactly at a retarget height whose scaled target leaves 256 bits. */
  lemma RetargetPanicsExactly(chain: seq<Block>, target: nat)
    requires TimeOrdered(chain) && target <= MIN_TARGET
    ensures Retarget(chain, target) == None <==>
              AtRetarget(chain) && IntervalSeconds(chain) >= 0 && Scaled(target, IntervalSeconds(chain)) > U256_MAX
  {
    if AtRetarget(chain) {
      IntervalNonNegative(chain);
      RescaledBounds(target, IntervalSeconds(chain));
    }
  }

  /** All blocks are stamped within one window of 32,768,000 seconds. */
  ghost predicate StampedWithin(chain: seq<Block>, from: Timestamp) {
    forall b :: b in chain ==> from <= b.header.timestamp <= from + 32_768_000 * NANOS_PER_SECOND
  }

  lemma IntervalBound(chain: seq<Block>, from: Timestamp)
    requires TimeOrdered(chain) && StampedWithin(chain, from) && |chain| >= DIFFICULTY_UPDATE_INTERVAL
    ensures 0 <= IntervalSeconds(chain) <= 32_768_000
  {
    assert chain[|chain| - 1] in chain && chain[|chain| - DIFFICULTY_UPDATE_INTERVAL] in chain;
  }

  /** Within such a window no retarget panics. */
  lemma RetargetWithin(chain: seq<Block>, target: nat, from: Timestamp)
    requires TimeOrdered(chain) && StampedWithin(chain, from) && target <= MIN_TARGET
    ensures Retarget(chain, target).Some?
  {
    if AtRetarget(chain) {
      IntervalBound(chain, from);
      NoFaultWithinBound(target, IntervalSeconds(chain));
    }
  }

  lemma {:induction false} ShiftCompose(x: nat, a: nat, b: nat)
    ensures ShiftRight(x, a + b) == ShiftRight(ShiftRight(x, a), b)
  {
    if a > 0 {
      ShiftCompose(x / 2, a - 1, b);
    }
  }

  lemma {:induction false} ShiftMonotone(x: nat, y: nat, e: nat)
    requires x <= y
    ensures ShiftRight(x, e) <= ShiftRight(y, e)
  {
    if e > 0 {
      ShiftMonotone(x / 2, y / 2, e - 1);
    }
  }

  /** What `k` retargets leave of the easiest target at least, and of any target at most. */
  predicate WithinRetargets(target: nat, k: nat) {
    ShiftRight(MIN_TARGET, 2 * k) <= target <= MIN_TARGET
  }

  /** One retarget costs at most a factor of four, rounded down. */
  lemma OneMoreRetarget(chain: seq<Block>, target: nat, k: nat)
    requires TimeOrdered(chain) && AtRetarget(chain)
    requires WithinRetargets(target, k) && Retarget(chain, target).Some?
    ensures WithinRetargets(Retarget(chain, target).value, k + 1)
  {
    IntervalNonNegative(chain);
    RescaledBounds(target, IntervalSeconds(chain));
    ShiftCompose(MIN_TARGET, 2 * k, 2);
    ShiftMonotone(ShiftRight(MIN_TARGET, 2 * k), target, 2);
    ShiftTwice(target);
  }

  lemma ShiftTwice(x: nat)
    ensures ShiftRight(x, 2) == x / 4
  {
    assert ShiftRight(x, 2) == ShiftRight(x / 2, 1) == x / 2 / 2;
  }

  /** After k retargets the target is at least MIN_TARGET over 4^k, rounded down, and never above
      MIN_TARGET. */
  lemma {:induction false} ChainTargetBounds(chain: seq<Block>)
    requires TimeOrdered(chain)
    requires ChainTarget(chain).Some?
    ensures WithinRetargets(ChainTarget(chain).value, |chain| / DIFFICULTY_UPDATE_INTERVAL)
    decreases |chain|
  {
    if chain != [] {
      var before := chain[..|chain| - 1];
      ChainTargetBounds(before);
      RetargetCount(chain);
      if AtRetarget(chain) {
        OneMoreRetarget(chain, ChainTarget(before).value, |before| / DIFFICULTY_UPDATE_INTERVAL);
      }
    }
  }

  lemma RetargetCount(chain: seq<Block>)
    requires chain != []
    ensures |chain| / DIFFICULTY_UPDATE_INTERVAL
         == (|chain| - 1) / DIFFICULTY_UPDATE_INTERVAL + (if AtRetarget(chain) then 1 else 0)
  {
  }

  /** MIN_TARGET over 4^119 is still positive, so the first 119 retargets never reach zero. */
  lemma PositiveFor119Retargets(k: nat)
    requires k <= 119
    ensures ShiftRight(MIN_TARGET, 2 * k) > 0
  {
    ShiftIsQuotient(MIN_TARGET, 2 * k);
    Pow2Monotone(2 * k, 238);
    Pow2At238();
    QuotientPositive(MIN_TARGET, Pow2(2 * k));
  }

  lemma Pow2At238()
    ensures Pow2(238) <= MIN_TARGET
  {
    Pow2At128();
    Pow2Add(128, 64);
    Pow2Add(192, 46);
  }

  lemma Pow2At128()
    ensures Pow2(46) == 0x4000_0000_0000
    ensures Pow2(64) == 0x1_0000_0000_0000_0000
    ensures Pow2(128) == 0x1_0000_0000_0000_0000_0000_0000_0000_0000
  {
    Pow2Values();
    Pow2Add(32, 8);
    Pow2Add(40, 6);
    Pow2Add(3, 3);
    Pow2Add(32, 32);
    Pow2Add(64, 64);
  }
}
