/** Request timing: round schedules, the horizon of a whole request, and the policy builder. */
module RequestPolicy {
  import opened Prelude
  import opened Arithmetic

  const MAX_REPLAY_COUNT: nat := 65_535

  datatype ConfigurationError = InvalidRequestPolicy | RequestPolicyExceedsApiKey | InvalidDuration

  datatype ScheduleKind = Fixed | Linear | Exponential

  datatype Schedule = Schedule(kind: ScheduleKind, initialUnits: u32, maxUnits: u32, growth: u32)
  {
    predicate WellFormed() {
      && 0 < initialUnits <= maxUnits
      && match kind
         case Fixed => maxUnits == initialUnits && growth == 0
         case Linear => growth > 0
         case Exponential => growth >= 2
    }

    /** The schedule over unbounded integers, before the cap. */
    function Uncapped(round: nat): nat {
      match kind
      case Fixed => initialUnits
      case Linear => initialUnits + round * growth
      case Exponential => initialUnits * Power(growth, round)
    }

    /** B(round): the uncapped sequence cut off at the maximum. */
    function Units(round: nat): (units: nat)
      requires WellFormed()
      ensures 1 <= units <= maxUnits
    {
      UncappedPositive(this, round);
      if Uncapped(round) <= maxUnits then Uncapped(round) else maxUnits
    }
  }

  datatype RequestPolicy = RequestPolicy(
    unitMs: u64,
    replayCount: u32,
    replayGap: Schedule,
    finalReceiveUnits: u32,
    completionDelivery: bool)

  function Power(base: nat, e: nat): nat {
    if e == 0 then 1 else Power(base, e - 1) * base
  }

  lemma {:induction false} UncappedPositive(s: Schedule, round: nat)
    requires s.WellFormed()
    ensures s.Uncapped(round) >= 1
  {
    if s.kind.Exponential? {
      PowerPositive(s.growth, round);
      MulMono(1, s.initialUnits, Power(s.growth, round));
    }
  }

  lemma {:induction false} PowerPositive(base: nat, e: nat)
    requires base >= 1
    ensures Power(base, e) >= 1
  {
    if e > 0 {
      PowerPositive(base, e - 1);
      MulMono(1, Power(base, e - 1), base);
    }
  }

  lemma {:induction false} UncappedMonotone(s: Schedule, a: nat, b: nat)
    requires s.WellFormed() && a <= b
    ensures s.Uncapped(a) <= s.Uncapped(b)
    decreases b
  {
    if a < b {
      UncappedMonotone(s, a, b - 1);
      match s.kind
      case Fixed =>
      case Linear => MulMono(b - 1, b, s.growth);
      case Exponential =>
        var p := Power(s.growth, b - 1);
        MulMono(1, s.growth, p);
        MulMono(p, p * s.growth, s.initialUnits);
    }
  }

  /** A schedule round by round: it starts with its initial length, and each round is the one before it, lengthened
      by a step or by a factor, up to the maximum. */
  lemma NextUnits(s: Schedule, round: nat)
    requires s.WellFormed()
    ensures s.Units(0) == s.initialUnits
    ensures s.kind.Fixed? ==> s.Units(round + 1) == s.Units(round)
    ensures s.kind.Linear? ==> s.Units(round + 1) == Min(s.maxUnits, s.Units(round) + s.growth)
    ensures s.kind.Exponential? ==> s.Units(round + 1) == Min(s.maxUnits, s.Units(round) * s.growth)
  {
    UncappedPositive(s, round);
    match s.kind
    case Fixed =>
    case Linear =>
      Distribute(round, 1, s.growth);
    case Exponential =>
      NextPower(s, round);
      MulMono(1, s.growth, s.maxUnits);
      MulMono(1, s.growth, s.Uncapped(round));
  }

  /** Rounds never get shorter. */
  lemma UnitsMonotone(s: Schedule, a: nat, b: nat)
    requires s.WellFormed() && a <= b
    ensures s.Units(a) <= s.Units(b)
  {
    UncappedMonotone(s, a, b);
  }

  /** The cap test by division decides whether one more product stays within the cap. */
  lemma DivisionTest(value: nat, max: nat, growth: nat)
    requires growth > 0
    ensures value > max / growth <==> value * growth > max
  {
    DivMod(max, growth);
    if value > max / growth {
      MulMono(max / growth + 1, value, growth);
      Distribute(max / growth, 1, growth);
    } else {
      MulMono(value, max / growth, growth);
    }
  }

  lemma DoublingGrows(value: nat, growth: nat)
    requires value >= 1 && growth >= 2
    ensures value * growth > value
  {
    MulMono(2, growth, value);
  }

  /** The overflow-avoiding computation: every intermediate value is a `u32`, yet the result is the
      capped sequence over unbounded integers. */
  method ComputeUnits(s: Schedule, round: u32) returns (r: Result<u32, ConfigurationError>)
    ensures r == if s.WellFormed() then Ok(s.Units(round)) else Err(InvalidRequestPolicy)
  {
    if s.initialUnits == 0 || s.maxUnits < s.initialUnits {
      return Err(InvalidRequestPolicy);
    }
    match s.kind
    case Fixed =>
      if s.maxUnits != s.initialUnits || s.growth != 0 {
        return Err(InvalidRequestPolicy);
      }
      r := Ok(s.initialUnits);
    case Linear =>
      if s.growth == 0 {
        return Err(InvalidRequestPolicy);
      }
      var room: u32 := s.maxUnits - s.initialUnits;
      DivisionTest(round, room, s.growth);
      if round > room / s.growth {
        r := Ok(s.maxUnits);
      } else {
        var units: u32 := s.initialUnits + round * s.growth;
        r := Ok(units);
      }
    case Exponential =>
      if s.growth < 2 {
        return Err(InvalidRequestPolicy);
      }
      var value: u32 := s.initialUnits;
      for k := 0 to round
        invariant value == s.Uncapped(k) && 1 <= value <= s.maxUnits
      {
        DivisionTest(value, s.maxUnits, s.growth);
        DoublingGrows(value, s.growth);
        NextPower(s, k);
        if value >= s.maxUnits || value > s.maxUnits / s.growth {
          UncappedMonotone(s, k + 1, round);
          return Ok(s.maxUnits);
        }
        value := value * s.growth;
      }
      r := Ok(Min(value, s.maxUnits));
  }

  lemma NextPower(s: Schedule, k: nat)
    requires s.kind.Exponential?
    ensures s.Uncapped(k + 1) == s.Uncapped(k) * s.growth
  {
    MulAssoc(s.initialUnits, Power(s.growth, k), s.growth);
  }

  // ---------------------------------------------------------------- the horizon

  /** The units allotted to transmission rounds 0 .. rounds - 1. */
  function RoundUnits(s: Schedule, rounds: nat): (units: nat)
    requires s.WellFormed()
    ensures rounds <= units <= rounds * s.maxUnits
  {
    if rounds == 0 then 0
    else
      Distribute(rounds - 1, 1, s.maxUnits);
      RoundUnits(s, rounds - 1) + s.Units(rounds - 1)
  }

  function HorizonUnits(p: RequestPolicy): (units: nat)
    requires p.replayGap.WellFormed()
    ensures units >= 1
  {
    RoundUnits(p.replayGap, p.replayCount + 1) + p.finalReceiveUnits
  }

  /** H = U * (B(0) + ... + B(N) + F), over unbounded integers, checked against the limits. */
  function HorizonOf(p: RequestPolicy, dedupTtlMsMax: u32): Result<u32, ConfigurationError> {
    if p.unitMs == 0 || p.replayCount > MAX_REPLAY_COUNT || dedupTtlMsMax == 0 then Err(InvalidRequestPolicy)
    else if !p.replayGap.WellFormed() then Err(InvalidRequestPolicy)
    else
      var horizon := HorizonUnits(p) * p.unitMs;
      if horizon > U32_MAX then Err(InvalidRequestPolicy)
      else if horizon > dedupTtlMsMax then Err(RequestPolicyExceedsApiKey)
      else NonNegative(HorizonUnits(p), p.unitMs); Ok(horizon)
  }

  lemma NonNegative(a: nat, b: nat)
    ensures a * b >= 0
  {}

  function CheckedMul(a: u64, b: u64): Option<u64> {
    NonNegative(a, b);
    if a * b <= U64_MAX then Some(a * b) else None
  }

  /** A policy is accepted exactly when it is well formed and its horizon is at most the limit, the limit itself
      included; a horizon that the wire cannot carry makes the policy invalid at every limit. */
  lemma HorizonAccepted(p: RequestPolicy, limit: u32)
    ensures var valid := p.unitMs > 0 && p.replayCount <= 65_535 && limit > 0 && p.replayGap.WellFormed();
      && (HorizonOf(p, limit).Ok? <==> valid && HorizonUnits(p) * p.unitMs <= limit)
      && (HorizonOf(p, limit).Ok? ==> HorizonOf(p, limit).value == HorizonUnits(p) * p.unitMs)
      && (HorizonOf(p, limit) == Err(RequestPolicyExceedsApiKey)
          <==> valid && limit < HorizonUnits(p) * p.unitMs <= 0xFFFF_FFFF)
      && (HorizonOf(p, limit) == Err(InvalidRequestPolicy)
          <==> valid ==> HorizonUnits(p) * p.unitMs > 0xFFFF_FFFF)
  {
    hide HorizonUnits, Schedule.WellFormed;
  }

  /** The sum of a fixed schedule. */
  lemma {:induction false} FixedSum(s: Schedule, rounds: nat)
    requires s.WellFormed() && s.kind.Fixed?
    ensures RoundUnits(s, rounds) == rounds * s.initialUnits
  {
    if rounds > 0 {
      FixedSum(s, rounds - 1);
      Distribute(rounds - 1, 1, s.initialUnits);
    }
  }

  /** The arithmetic series of a linear schedule that stays below its maximum. */
  lemma {:induction false} LinearSum(s: Schedule, rounds: nat)
    requires s.WellFormed() && s.kind.Linear? && (rounds > 0 ==> s.initialUnits + (rounds - 1) * s.growth <= s.maxUnits)
    ensures 2 * RoundUnits(s, rounds) == 2 * (rounds * s.initialUnits) + rounds * (rounds - 1) * s.growth
  {
    if rounds > 0 {
      var n := rounds - 1;
      var g := s.growth;
      Distribute(n, -1, g);
      LinearSum(s, n);
      hide RoundUnits;
      Distribute(n, 1, s.initialUnits);
      Series(n, g);
      assert RoundUnits(s, rounds) == RoundUnits(s, n) + s.Units(n) by { RoundUnitsNext(s, n); }
      assert s.Units(n) == s.initialUnits + n * g;
    }
  }

  lemma RoundUnitsNext(s: Schedule, n: nat)
    requires s.WellFormed()
    ensures RoundUnits(s, n + 1) == RoundUnits(s, n) + s.Units(n)
  {}

  lemma Series(n: nat, g: int)
    ensures (n + 1) * n * g == n * (n - 1) * g + 2 * (n * g)
  {
    assert (n + 1) * n == n * (n - 1) + 2 * n;
    Distribute(n * (n - 1), 2 * n, g);
  }

  lemma GeometricStep(sum: int, last: int, initial: int, g: int)
    requires (g - 1) * sum == last - initial
    ensures (g - 1) * (sum + last) == last * g - initial
  {
    Distribute(sum, last, g - 1);
    Distribute(g, 1, last);
  }

  /** The geometric series of an exponential schedule that stays below its maximum. */
  lemma {:induction false} ExponentialSum(s: Schedule, rounds: nat)
    requires s.WellFormed() && s.kind.Exponential?
    requires rounds > 0 ==> s.Uncapped(rounds - 1) <= s.maxUnits
    ensures (s.growth - 1) * RoundUnits(s, rounds) == s.initialUnits * Power(s.growth, rounds) - s.initialUnits
  {
    assert s.Uncapped(rounds) == s.initialUnits * Power(s.growth, rounds);
    hide Power;
    if rounds == 0 {
      assert RoundUnits(s, 0) == 0 && Power(s.growth, 0) == 1 by { PowerZero(s.growth); }
    } else {
      var n := rounds - 1;
      UncappedMonotone(s, if n > 0 then n - 1 else 0, n);
      ExponentialSum(s, n);
      RoundUnitsNext(s, n);
      NextPower(s, n);
      assert s.Units(n) == s.Uncapped(n) == s.initialUnits * Power(s.growth, n);
      hide RoundUnits, Schedule.Uncapped, Schedule.Units, Schedule.WellFormed;
      GeometricStep(RoundUnits(s, n), s.Units(n), s.initialUnits, s.growth);
    }
  }

  lemma PowerZero(base: nat)
    ensures Power(base, 0) == 1
  {}

  method ComputeHorizonMs(p: RequestPolicy, dedupTtlMsMax: u32) returns (r: Result<u32, ConfigurationError>)
    ensures r == HorizonOf(p, dedupTtlMsMax)
  {
    if p.unitMs == 0 || p.replayCount > MAX_REPLAY_COUNT || dedupTtlMsMax == 0 {
      return Err(InvalidRequestPolicy);
    }
    var totalUnits: u64 := p.finalReceiveUnits;
    for round := 0 to p.replayCount + 1
      invariant round > 0 ==> p.replayGap.WellFormed()
      invariant round == 0 ==> totalUnits == p.finalReceiveUnits
      invariant round > 0 ==> totalUnits == RoundUnits(p.replayGap, round) + p.finalReceiveUnits
    {
      var units := ComputeUnits(p.replayGap, round);
      if units.Err? {
        return Err(units.error);
      }
      MulMono(round + 1, MAX_REPLAY_COUNT + 1, p.replayGap.maxUnits);
      assert RoundUnits(p.replayGap, round + 1) <= (MAX_REPLAY_COUNT + 1) * p.replayGap.maxUnits;
      var sum := CheckedAdd(totalUnits, units.value);
      assert sum.Some?;  // 65536 rounds of u32 units and the final units always fit in a u64
      totalUnits := sum.value;
    }
    var product := CheckedMul(totalUnits, p.unitMs);
    if product == None {
      return Err(InvalidRequestPolicy);
    }
    var horizon := product.value;
    if totalUnits == 0 || horizon > U32_MAX {
      return Err(InvalidRequestPolicy);
    }
    if horizon > dedupTtlMsMax {
      return Err(RequestPolicyExceedsApiKey);
    }
    r := Ok(horizon);
  }

  /** Acceptance at one limit gives the same horizon at every larger limit. */
  lemma HorizonAtLargerLimit(p: RequestPolicy, small: u32, large: u32)
    requires small <= large && HorizonOf(p, small).Ok?
    ensures HorizonOf(p, large) == HorizonOf(p, small)
    ensures HorizonOf(p, small).value <= small
  {}

  lemma {:induction false} RoundUnitsSplit(s: Schedule, round: nat, rounds: nat)
    requires s.WellFormed() && round < rounds
    ensures RoundUnits(s, round) + s.Units(round) <= RoundUnits(s, rounds)
    decreases rounds
  {
    if round < rounds - 1 {
      RoundUnitsSplit(s, round, rounds - 1);
    }
  }

  /** A receive window in milliseconds, as the request loop computes it. */
  function SaturatingMul(a: u64, b: u64): u64 {
    NonNegative(a, b);
    if a * b <= U64_MAX then a * b else U64_MAX
  }

  function Window(p: RequestPolicy, round: nat): nat
    requires p.replayGap.WellFormed()
  {
    SaturatingMul(p.replayGap.Units(round), p.unitMs)
  }

  function FinalWindow(p: RequestPolicy): nat {
    SaturatingMul(p.finalReceiveUnits, p.unitMs)
  }

  /** The windows of rounds 0 .. rounds - 1. */
  function RoundWindows(p: RequestPolicy, rounds: nat): nat
    requires p.replayGap.WellFormed()
  {
    if rounds == 0 then 0 else RoundWindows(p, rounds - 1) + Window(p, rounds - 1)
  }

  /** Under an accepted policy no window saturates. */
  lemma WindowExact(p: RequestPolicy, limit: u32, round: nat)
    requires HorizonOf(p, limit).Ok? && round <= p.replayCount
    ensures Window(p, round) == p.replayGap.Units(round) * p.unitMs
    ensures FinalWindow(p) == p.finalReceiveUnits * p.unitMs
    ensures FinalWindow(p) <= U32_MAX && Window(p, round) <= U32_MAX
  {
    RoundUnitsSplit(p.replayGap, round, p.replayCount + 1);
    MulMono(p.replayGap.Units(round), HorizonUnits(p), p.unitMs);
    MulMono(p.finalReceiveUnits, HorizonUnits(p), p.unitMs);
  }

  lemma {:induction false} RoundWindowsExact(p: RequestPolicy, limit: u32, rounds: nat)
    requires HorizonOf(p, limit).Ok? && rounds <= p.replayCount + 1
    ensures RoundWindows(p, rounds) == RoundUnits(p.replayGap, rounds) * p.unitMs
  {
    if rounds > 0 {
      RoundWindowsExact(p, limit, rounds - 1);
      WindowExact(p, limit, rounds - 1);
      hide HorizonOf, Window;
      Distribute(RoundUnits(p.replayGap, rounds - 1), p.replayGap.Units(rounds - 1), p.unitMs);
    }
  }

  /** The receive windows of a whole silent request add up to exactly the horizon. */
  lemma WindowsSumToHorizon(p: RequestPolicy, limit: u32)
    requires HorizonOf(p, limit).Ok?
    ensures RoundWindows(p, p.replayCount + 1) + FinalWindow(p) == HorizonOf(p, limit).value
  {
    RoundWindowsExact(p, limit, p.replayCount + 1);
    WindowExact(p, limit, 0);
    hide RoundUnits, RoundWindows, FinalWindow;
    Distribute(RoundUnits(p.replayGap, p.replayCount + 1), p.finalReceiveUnits, p.unitMs);
  }

  lemma WindowPositive(p: RequestPolicy, limit: u32, round: nat)
    requires HorizonOf(p, limit).Ok? && round <= p.replayCount
    ensures Window(p, round) >= 1
    ensures FinalWindow(p) >= 1 <==> p.finalReceiveUnits > 0
  {
    WindowExact(p, limit, round);
    assert p.unitMs >= 1;
    hide HorizonOf, Window, FinalWindow, HorizonUnits;
    PositiveProduct(p.replayGap.Units(round), p.unitMs);
    PositiveProduct(p.finalReceiveUnits, p.unitMs);
  }

  lemma PositiveProduct(a: nat, b: nat)
    requires b >= 1
    ensures a * b >= 1 <==> a >= 1
  {
    if a >= 1 {
      MulMono(1, a, b);
    }
  }

  lemma {:induction false} RoundWindowsGrow(p: RequestPolicy, limit: u32, a: nat, b: nat)
    requires HorizonOf(p, limit).Ok? && a <= b <= p.replayCount + 1
    ensures RoundWindows(p, a) + (b - a) <= RoundWindows(p, b)
    decreases b
  {
    if a < b {
      RoundWindowsGrow(p, limit, a, b - 1);
      WindowPositive(p, limit, b - 1);
      hide HorizonOf, Window;
    }
  }

  /** The first window is the whole horizon exactly for a policy without replays and receive-only phase. */
  lemma FirstWindowBelowHorizon(p: RequestPolicy, limit: u32)
    requires HorizonOf(p, limit).Ok?
    ensures RoundWindows(p, 1) <= HorizonOf(p, limit).value
    ensures RoundWindows(p, 1) < HorizonOf(p, limit).value <==> p.replayCount > 0 || p.finalReceiveUnits > 0
  {
    WindowsSumToHorizon(p, limit);
    RoundWindowsGrow(p, limit, 1, p.replayCount + 1);
    WindowPositive(p, limit, 0);
    hide HorizonOf, RoundWindows, FinalWindow, Window;
  }

  /** The policy that a builder starts from. */
  const DEFAULT_POLICY: RequestPolicy := RequestPolicy(20, 1, Schedule(Fixed, 1, 1, 0), 1, true)

  /** The default policy takes 60 ms: a key with that lifetime accepts it, and one with less does not. */
  lemma DefaultHorizon(limit: u32)
    requires limit > 0
    ensures HorizonOf(DEFAULT_POLICY, limit) == if limit >= 60 then Ok(60) else Err(RequestPolicyExceedsApiKey)
  {
    assert RoundUnits(DEFAULT_POLICY.replayGap, 0) == 0;
    assert RoundUnits(DEFAULT_POLICY.replayGap, 1) == 1;
  }

  // ---------------------------------------------------------------- the builder

  /** A duration as whole seconds and a sub-second part below one billion nanoseconds. */
  datatype Duration = Duration(secs: u64, nanos: nat)
  {
    predicate Valid() { nanos < 1_000_000_000 }

    function Nanoseconds(): nat { secs * 1_000_000_000 + nanos }

    function Millis(): nat { secs * 1000 + nanos / 1_000_000 }
  }

  datatype Builder = Builder(
    unit: Duration,
    replayCount: u32,
    replayGap: Schedule,
    finalReceiveUnits: u32,
    completionDelivery: bool)

  method Build(b: Builder) returns (r: Result<RequestPolicy, ConfigurationError>)
    requires b.unit.Valid()
    ensures r.Ok? ==>
      && b.unit.Nanoseconds() == r.value.unitMs * 1_000_000
      && r.value == RequestPolicy(b.unit.Millis(), b.replayCount, b.replayGap, b.finalReceiveUnits, b.completionDelivery)
      && HorizonOf(r.value, U32_MAX).Ok?
    ensures r == Err(InvalidDuration) <==>
      b.unit.Nanoseconds() == 0 || b.unit.Nanoseconds() % 1_000_000 != 0 || b.unit.Millis() > U64_MAX
    ensures r.Err? && r.error != InvalidDuration ==>
      b.unit.Millis() <= U64_MAX
      && HorizonOf(RequestPolicy(b.unit.Millis(), b.replayCount, b.replayGap, b.finalReceiveUnits, b.completionDelivery),
                   U32_MAX) == Err(r.error)
  {
    var millis := b.unit.Millis();
    if (b.unit.secs == 0 && b.unit.nanos == 0) || b.unit.nanos % 1_000_000 != 0 || millis > U64_MAX {
      return Err(InvalidDuration);
    }
    var policy := RequestPolicy(millis, b.replayCount, b.replayGap, b.finalReceiveUnits, b.completionDelivery);
    var horizon := ComputeHorizonMs(policy, U32_MAX);
    match horizon
    case Err(e) => r := Err(e);
    case Ok(_) => r := Ok(policy);
  }
}
