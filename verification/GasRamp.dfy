/**
The gas-limit ramp of the pre-run builder: empty blocks are built until the head's gas limit
reaches a target or a block budget is spent.

The limits themselves come from the filler client, so they are a parameter here. Two kinds of filler
matter: one that follows the protocol rule (a child's limit lies strictly within 1/1024 of its
parent's, EIP-1559 `validate_block`), and one that raises the limit as fast as that rule allows.
*/
module GasRamp {
  import opened Wrappers

  const DEFAULT_GAS_LIMIT: nat := 1_000_000_000_000
  const DEFAULT_GAS_BUMP_MAX_BLOCKS: int := 20_000
  const SNAPSHOT_GAS_LIMIT: nat := 30_000_000

  // Why no block comes of an attempt: buildBlock failed, or the context was cancelled before.
  datatype Stop = BuildError | ContextDone

  // What the k-th block built on a head with a given limit gets as its own limit.
  type Filler = (nat, nat) -> Result<nat, Stop>

  datatype BumpError = HeadUnknown | Cancelled | BuildFailed(block: nat) | BelowTarget(gasLimit: nat, built: nat)

  // The head's gas limit after k blocks, None once a build has failed.
  function LimitAfter(filler: Filler, start: nat, k: nat): Option<nat> {
    if k == 0 then Some(start)
    else
      match LimitAfter(filler, start, k - 1)
      case None => None
      case Some(parent) => if filler(k - 1, parent).Success? then Some(filler(k - 1, parent).value) else None
  }

  ghost predicate BelowTargetThrough(filler: Filler, start: nat, target: nat, k: int) {
    forall j: nat :: j <= k ==> LimitAfter(filler, start, j).Some? && LimitAfter(filler, start, j).value < target
  }

  ghost predicate StopsAt(filler: Filler, start: nat, target: nat, built: nat, why: Stop) {
    BelowTargetThrough(filler, start, target, built) && filler(built, LimitAfter(filler, start, built).value) == Failure(why)
  }

  // The whole outcome of a bump: which block stopped it and why. The cases exclude each other,
  // so `built` and `error` are determined by the filler, the target and the budget.
  ghost predicate IsBump(filler: Filler, start: nat, target: nat, maxBlocks: int, built: nat, error: Option<BumpError>) {
    match error
    case None =>
      && (built == 0 || built <= maxBlocks)
      && BelowTargetThrough(filler, start, target, built - 1)
      && LimitAfter(filler, start, built).Some?
      && LimitAfter(filler, start, built).value >= target
    case Some(BuildFailed(block)) =>
      && block == built + 1 <= maxBlocks
      && StopsAt(filler, start, target, built, BuildError)
    case Some(Cancelled) =>
      && built < maxBlocks
      && StopsAt(filler, start, target, built, ContextDone)
    case Some(HeadUnknown) => false
    case Some(BelowTarget(gasLimit, blocks)) =>
      && blocks == built == (if maxBlocks < 0 then 0 else maxBlocks)
      && BelowTargetThrough(filler, start, target, built)
      && LimitAfter(filler, start, built) == Some(gasLimit)
  }

  class EngineClient {
    const filler: Filler
    var headGasLimit: nat
    var blocks: nat

    constructor (filler: Filler, headGasLimit: nat)
      ensures this.filler == filler && this.headGasLimit == headGasLimit && blocks == 0
    {
      this.filler := filler;
      this.headGasLimit := headGasLimit;
      this.blocks := 0;
    }

    method BuildBlock() returns (gasLimit: Result<nat, Stop>)
      modifies this
      ensures gasLimit == filler(old(blocks), old(headGasLimit))
      ensures gasLimit.Success? ==> headGasLimit == gasLimit.value && blocks == old(blocks) + 1
      ensures gasLimit.Failure? ==> headGasLimit == old(headGasLimit) && blocks == old(blocks)
    {
      gasLimit := filler(blocks, headGasLimit);
      if gasLimit.Success? {
        headGasLimit := gasLimit.value;
        blocks := blocks + 1;
      }
    }

    // Builds blocks until the head's limit reaches target or maxBlocks were built.
    // headKnown says whether the query of the head works.
    method BumpGasLimit(target: nat, maxBlocks: int, headKnown: bool) returns (built: nat, error: Option<BumpError>)
      requires blocks == 0
      modifies this
      ensures !headKnown ==> built == 0 && error == Some(HeadUnknown)
      ensures headKnown ==> IsBump(filler, old(headGasLimit), target, maxBlocks, built, error)
      ensures blocks == built && Some(headGasLimit) == LimitAfter(filler, old(headGasLimit), built)
    {
      built := 0;
      if !headKnown {
        return 0, Some(HeadUnknown);
      }
      var gasLimit := headGasLimit;
      if gasLimit >= target {
        return 0, None;
      }
      while built < maxBlocks
        invariant built == 0 || built <= maxBlocks
        invariant blocks == built && gasLimit == headGasLimit
        invariant LimitAfter(filler, old(headGasLimit), built) == Some(gasLimit)
        invariant BelowTargetThrough(filler, old(headGasLimit), target, built)
      {
        var gl := BuildBlock();
        if gl.Failure? {
          return built, Some(if gl.error == ContextDone then Cancelled else BuildFailed(built + 1));
        }
        built := built + 1;
        gasLimit := gl.value;
        if gasLimit >= target {
          break;
        }
      }
      if gasLimit < target {
        return built, Some(BelowTarget(gasLimit, built));
      }
      return built, None;
    }
  }

  // ----- The protocol's bound on one block -----

  predicate LegalChild(parent: nat, child: nat) {
    && parent - parent / 1024 < child < parent + parent / 1024
    && child >= 5000
  }

  // The largest legal child limit, clipped at the filler's own target.
  function MaxRaise(parent: nat, target: nat): nat {
    var most := parent + parent / 1024 - 1;
    if most < 0 then 0 else if most < target then most else target
  }

  function MaxRateFiller(target: nat): Filler {
    (k, parent) => Success(MaxRaise(parent, target))
  }

  // MaxRaise is what the rule allows and no more.
  lemma MaxRaiseIsMost(parent: nat, target: nat)
    requires 5000 <= parent < target
    ensures LegalChild(parent, MaxRaise(parent, target))
    ensures forall child: nat :: LegalChild(parent, child) && child <= target ==> child <= MaxRaise(parent, target)
  {
  }

  // ----- Growth of 1025/1024 to the n-th -----

  // 1025/1024 exactly
  const RATE: real := 1.0009765625

  ghost function Growth(n: nat): real {
    if n == 0 then 1.0 else 1.0009765625 * Growth(n - 1)
  }

  lemma {:induction false} GrowthAdd(m: nat, n: nat)
    ensures Growth(m + n) == Growth(m) * Growth(n)
  {
    if m > 0 {
      GrowthAdd(m - 1, n);
      assert Growth(m + n) == RATE * (Growth(m - 1) * Growth(n)) == (RATE * Growth(m - 1)) * Growth(n);
    }
  }

  ghost predicate GrowthWithin(n: nat, low: real, high: real) {
    0.0 < low <= Growth(n) <= high
  }

  lemma MulBounds(a: real, x: real, b: real, c: real, y: real, d: real)
    requires 0.0 < a <= x <= b && 0.0 < c <= y <= d
    ensures a * c <= x * y <= b * d
  {
    assert a * c <= x * c <= x * y;
    assert x * y <= b * y <= b * d;
  }

  lemma ScaleByRate(x: real, y: real)
    requires x <= y
    ensures RATE * x <= RATE * y
  {
  }

  lemma Reassociate(growth: real, base: real)
    ensures RATE * (growth * base) == (1.0009765625 * growth) * base
  {
  }

  lemma GrowthDouble(n: nat, low: real, high: real, low': real, high': real)
    requires GrowthWithin(n, low, high)
    requires 0.0 < low' <= low * low && high * high <= high'
    ensures GrowthWithin(2 * n, low', high')
  {
    GrowthAdd(n, n);
    MulBounds(low, Growth(n), high, low, Growth(n), high);
  }

  lemma GrowthNext(n: nat, low: real, high: real, low': real, high': real)
    requires GrowthWithin(n, low, high)
    requires 0.0 < low' <= RATE * low && RATE * high <= high'
    ensures GrowthWithin(n + 1, low', high')
  {
  }

  // Growth brackets by repeated squaring, enough digits to separate 10,669 blocks from 10,670.
  lemma GrowthOver41()
    ensures GrowthWithin(41, 1.040831072, 1.040831112)
  {
    assert GrowthWithin(1, RATE, RATE) by { assert Growth(1) == RATE * Growth(0); }
    GrowthDouble(1, RATE, RATE, 1.001954078, 1.001954079);
    GrowthDouble(2, 1.001954078, 1.001954079, 1.003911974, 1.003911977);
    GrowthNext(4, 1.003911974, 1.003911977, 1.004892356, 1.004892360);
    GrowthDouble(5, 1.004892356, 1.004892360, 1.009808647, 1.009808656);
    GrowthDouble(10, 1.009808647, 1.009808656, 1.019713503, 1.019713522);
    GrowthDouble(20, 1.019713503, 1.019713522, 1.039815628, 1.039815667);
    GrowthNext(40, 1.039815628, 1.039815667, 1.040831072, 1.040831112);
  }

  lemma GrowthOver333()
    ensures GrowthWithin(333, 1.384081079, 1.384081516)
  {
    GrowthOver41();
    GrowthDouble(41, 1.040831072, 1.040831112, 1.083329320, 1.083329404);
    GrowthNext(82, 1.083329320, 1.083329404, 1.084387258, 1.084387343);
    GrowthDouble(83, 1.084387258, 1.084387343, 1.175895725, 1.175895910);
    GrowthDouble(166, 1.175895725, 1.175895910, 1.382730756, 1.382731192);
    GrowthNext(332, 1.382730756, 1.382731192, 1.384081079, 1.384081516);
  }

  lemma GrowthOverAnEighth()
    ensures GrowthWithin(1333, 3.673415340, 3.673419983)
  {
    GrowthOver333();
    GrowthDouble(333, 1.384081079, 1.384081516, 1.915680433, 1.915681643);
    GrowthDouble(666, 1.915680433, 1.915681643, 3.669831521, 3.669836158);
    GrowthNext(1332, 3.669831521, 3.669836158, 3.673415340, 3.673419983);
  }

  lemma GrowthOverTheRamp()
    ensures GrowthWithin(10669, 33318.0, 33318.5)
    ensures GrowthWithin(10670, 33350.5, 33351.5)
  {
    GrowthOverAnEighth();
    GrowthDouble(1333, 3.673415340, 3.673419983, 13.493980260, 13.494014372);
    GrowthNext(2666, 13.493980260, 13.494014372, 13.507157975, 13.507192121);
    GrowthDouble(2667, 13.507157975, 13.507192121, 182.443316561, 182.444238994);
    GrowthDouble(5334, 182.443316561, 182.444238994, 33285.563757777, 33285.900342100);
    GrowthNext(10668, 33285.563757777, 33285.900342100, 33318.069191134, 33318.406104153);
    GrowthNext(10669, 33318.0, 33318.5, 33350.5, 33351.5);
  }

  // ----- The fastest filler reaches the target well inside the default block cap -----

  // Above the constant 2048 the floor and the minus one of the rule are absorbed, so the excess over
  // 2048 grows by the full rate every block.
  lemma RaiseGrowsExcess(parent: nat, clip: nat)
    requires 2048 <= parent
    ensures MaxRaise(parent, clip) == clip || (MaxRaise(parent, clip) - 2048) as real >= RATE * (parent - 2048) as real
  {
    var most := parent + parent / 1024 - 1;
    assert 1024 * (most - 2048) >= 1025 * (parent - 2048);
    assert 1024.0 * (most - 2048) as real >= 1025.0 * (parent - 2048) as real;
  }

  // How far the fastest filler is after k blocks: at its own clip, or ahead of the growth curve.
  ghost predicate OnOrAheadOfCurve(limit: nat, clip: nat, growth: real, start: nat) {
    2048 <= limit <= clip && (limit == clip || (limit - 2048) as real >= growth * (start - 2048) as real)
  }

  lemma MaxRateStep(parent: nat, clip: nat, growth: real, start: nat)
    requires OnOrAheadOfCurve(parent, clip, growth, start)
    ensures OnOrAheadOfCurve(MaxRaise(parent, clip), clip, 1.0009765625 * growth, start)
  {
    if parent != clip {
      var excess := (start - 2048) as real;
      RaiseGrowsExcess(parent, clip);
      ScaleByRate(growth * excess, (parent - 2048) as real);
      Reassociate(growth, excess);
    }
  }

  lemma {:induction false} MaxRateLimit(start: nat, clip: nat, k: nat)
    requires 2048 <= start <= clip
    ensures LimitAfter(MaxRateFiller(clip), start, k).Some?
    ensures OnOrAheadOfCurve(LimitAfter(MaxRateFiller(clip), start, k).value, clip, Growth(k), start)
  {
    if k > 0 {
      MaxRateLimit(start, clip, k - 1);
      MaxRateStep(LimitAfter(MaxRateFiller(clip), start, k - 1).value, clip, Growth(k - 1), start);
    }
  }

  lemma ProductAtLeast(growth: real, excess: real)
    requires growth >= 33350.5 && excess >= 29_997_952.0
    ensures growth * excess >= 1_000_400_000_000.0
  {
    assert growth * excess >= 33350.5 * excess;
  }

  lemma FarAlongIsEnough(limit: nat, clip: nat, growth: real, start: nat, target: nat)
    requires OnOrAheadOfCurve(limit, clip, growth, start) && growth >= 33350.5
    requires SNAPSHOT_GAS_LIMIT <= start && target <= DEFAULT_GAS_LIMIT && target <= clip
    ensures limit >= target
  {
    ProductAtLeast(growth, (start - 2048) as real);
  }

  lemma ReachedOnceBlocksSuffice(start: nat, target: nat, clip: nat, n: nat)
    requires SNAPSHOT_GAS_LIMIT <= start <= clip && target <= DEFAULT_GAS_LIMIT && target <= clip
    requires 10_670 <= n
    ensures LimitAfter(MaxRateFiller(clip), start, n).Some?
    ensures LimitAfter(MaxRateFiller(clip), start, n).value >= target
  {
    MaxRateLimit(start, clip, n);
    GrowthOverTheRamp();
    GrowthMonotone(10_670, n);
    FarAlongIsEnough(LimitAfter(MaxRateFiller(clip), start, n).value, clip, Growth(n), start, target);
  }

  // Any target up to the default is reached within 10,670 blocks from any head of at least 30M, so
  // neither the cap of 20,000 nor any cap of at least 10,670 ever trips.
  lemma DefaultCapNeverTrips(start: nat, target: nat, clip: nat, maxBlocks: int, built: nat, error: Option<BumpError>)
    requires SNAPSHOT_GAS_LIMIT <= start && target <= DEFAULT_GAS_LIMIT && target <= clip
    requires 10_670 <= maxBlocks
    requires IsBump(MaxRateFiller(clip), start, target, maxBlocks, built, error)
    ensures error == None && built <= 10_670
  {
    assert LimitAfter(MaxRateFiller(clip), start, 0) == Some(start);
    if start <= clip {
      match error
      case None =>
        if built > 10_670 { ReachedOnceBlocksSuffice(start, target, clip, built - 1); }
      case Some(BuildFailed(block)) => MaxRateLimit(start, clip, block);
      case Some(BelowTarget(gasLimit, blocks)) => ReachedOnceBlocksSuffice(start, target, clip, built);
    }
  }

  // ----- No filler within the rule is faster -----

  ghost predicate LegalChain(limits: seq<nat>) {
    forall i :: 0 <= i < |limits| - 1 ==> LegalChild(limits[i], limits[i + 1])
  }

  lemma {:induction false} LegalChainBound(limits: seq<nat>, i: nat)
    requires LegalChain(limits) && i < |limits|
    ensures limits[i] as real <= Growth(i) * limits[0] as real
  {
    if i > 0 {
      LegalChainBound(limits, i - 1);
      var parent := limits[i - 1];
      assert LegalChild(parent, limits[i - 1 + 1]);
      assert 1024 * limits[i] <= 1025 * parent;
      assert 1024.0 * limits[i] as real <= 1025.0 * parent as real;
      ScaleByRate(parent as real, Growth(i - 1) * limits[0] as real);
      Reassociate(Growth(i - 1), limits[0] as real);
    }
  }

  lemma {:induction false} GrowthMonotone(m: nat, n: nat)
    requires m <= n
    ensures 1.0 <= Growth(m) <= Growth(n)
    decreases n
  {
    if m < n {
      GrowthMonotone(m, n - 1);
    } else if m > 0 {
      GrowthMonotone(m - 1, m - 1);
    }
  }

  // From 30M every chain of legal blocks needs at least 10,670 of them to reach 1 TGas.
  lemma NoLegalChainIsFaster(limits: seq<nat>)
    requires |limits| > 0 && limits[0] == SNAPSHOT_GAS_LIMIT && LegalChain(limits)
    requires limits[|limits| - 1] >= DEFAULT_GAS_LIMIT
    ensures |limits| - 1 >= 10_670
  {
    var n := |limits| - 1;
    LegalChainBound(limits, n);
    if n < 10_670 {
      GrowthOverTheRamp();
      GrowthMonotone(n, 10_669);
      assert false;
    }
  }

  // Both bounds meet: from 30M to 1 TGas the fastest filler takes exactly 10,670 blocks.
  lemma RampFromSnapshotIsExact(built: nat, error: Option<BumpError>)
    requires IsBump(MaxRateFiller(DEFAULT_GAS_LIMIT), SNAPSHOT_GAS_LIMIT, DEFAULT_GAS_LIMIT,
                    DEFAULT_GAS_BUMP_MAX_BLOCKS, built, error)
    ensures error == None && built == 10_670
  {
    var filler := MaxRateFiller(DEFAULT_GAS_LIMIT);
    DefaultCapNeverTrips(SNAPSHOT_GAS_LIMIT, DEFAULT_GAS_LIMIT, DEFAULT_GAS_LIMIT, DEFAULT_GAS_BUMP_MAX_BLOCKS, built, error);
    var limits := RampLimits(built, error);
    NoLegalChainIsFaster(limits);
  }

  ghost function LimitsThrough(filler: Filler, start: nat, k: nat): (limits: seq<nat>)
    requires forall j: nat :: j <= k ==> LimitAfter(filler, start, j).Some?
    ensures |limits| == k + 1
    ensures forall j: nat :: j <= k ==> limits[j] == LimitAfter(filler, start, j).value
  {
    seq(k + 1, j requires 0 <= j <= k => LimitAfter(filler, start, j).value)
  }

  lemma RampLimits(built: nat, error: Option<BumpError>) returns (limits: seq<nat>)
    requires IsBump(MaxRateFiller(DEFAULT_GAS_LIMIT), SNAPSHOT_GAS_LIMIT, DEFAULT_GAS_LIMIT,
                    DEFAULT_GAS_BUMP_MAX_BLOCKS, built, error)
    requires error == None
    ensures |limits| == built + 1 && limits[0] == SNAPSHOT_GAS_LIMIT && LegalChain(limits)
    ensures limits[built] >= DEFAULT_GAS_LIMIT
  {
    var filler := MaxRateFiller(DEFAULT_GAS_LIMIT);
    forall j: nat ensures LimitAfter(filler, SNAPSHOT_GAS_LIMIT, j).Some? {
      MaxRateLimit(SNAPSHOT_GAS_LIMIT, DEFAULT_GAS_LIMIT, j);
    }
    limits := LimitsThrough(filler, SNAPSHOT_GAS_LIMIT, built);
    forall i | 0 <= i < built ensures LegalChild(limits[i], limits[i + 1]) {
      MaxRateLimit(SNAPSHOT_GAS_LIMIT, DEFAULT_GAS_LIMIT, i);
      GrowthMonotone(0, i);
      var parent := limits[i];
      assert parent < DEFAULT_GAS_LIMIT;
      assert (parent - 2048) as real >= Growth(i) * 29_997_952.0 >= 29_997_952.0;
      MaxRaiseIsMost(parent, DEFAULT_GAS_LIMIT);
    }
  }
}
