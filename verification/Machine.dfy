/**
 * The leftover round on machine integers: sums of rates and the rate to be
 * rescaled pass through `unsigned long`, and the rescaled rate is converted from
 * floating point to `long`, which is undefined for values out of range. Nothing
 * else of the round is unsigned and can be negative.
 */
module Machine {
  import opened Arithmetic
  import opened Leftover
  import opened Decimal

  const UNSIGNED_RANGE := 0x1_0000_0000_0000_0000
  const HALF := 0x4000_0000_0000_0000

  function ToUnsigned(x: int): int {
    x % UNSIGNED_RANGE
  }

  /** No quantity of the round overflows a signed word, even added to another one. */
  ghost predicate Held(limit: int, asks: seq<Ask>, changed: bool)
    requires Observed(asks)
  {
    && 0 <= limit <= HALF
    && Sum(Kept(limit, asks, changed)) <= HALF
    && -HALF <= Sum(Updated(limit, asks, changed)) <= HALF
    && forall i | 0 <= i < |asks| :: -HALF <= Computed(limit, asks)[i] <= HALF
  }

  /** The comparison of the unsigned sum of both sides with the limit. */
  predicate Exceeds(limit: int, kept: int, updated: int) {
    limit < ToUnsigned(ToUnsigned(kept) + ToUnsigned(updated))
  }

  predicate MachineRescales(limit: int, asks: seq<Ask>, changed: bool)
    requires Observed(asks)
  {
    LowUsage(limit, asks) && Exceeds(limit, Sum(Kept(limit, asks, changed)), Sum(Updated(limit, asks, changed)))
  }

  /** A rate scaled by allowed / updated; a division by zero leaves it alone, as in the exact round. */
  function Scaled(rate: int, allowed: int, updated: int): int {
    if 0 < ToUnsigned(updated) then ToUnsigned(rate) * allowed / ToUnsigned(updated) else ToUnsigned(rate)
  }

  /** The value of job `i` that is converted to a signed word. */
  function Unconverted(limit: int, asks: seq<Ask>, changed: bool, i: nat): int
    requires Observed(asks) && i < |asks|
  {
    var rate := Computed(limit, asks)[i];
    if MaintainsAll(limit, asks, changed)[i] then asks[i].previous
    else if MachineRescales(limit, asks, changed) then
      Scaled(rate, limit - Sum(Kept(limit, asks, changed)), Sum(Updated(limit, asks, changed)))
    else ToUnsigned(rate)
  }

  /** The conversion to a signed word: undefined out of range. */
  function Signed(x: int): Option<int> {
    if -(HALF + HALF) <= x < HALF + HALF then Some(x) else None
  }

  /** The rate enforced for job `i`; None where the source leaves it undefined. */
  function MachineAt(limit: int, asks: seq<Ask>, changed: bool, i: nat): Option<int>
    requires Observed(asks) && i < |asks|
  {
    Signed(Unconverted(limit, asks, changed, i))
  }

  /** The machine enforces defined rates for all jobs, and these. */
  ghost predicate Defines(limit: int, asks: seq<Ask>, changed: bool, rates: seq<int>)
    requires Observed(asks)
  {
    |rates| == |asks| && forall i | 0 <= i < |asks| :: MachineAt(limit, asks, changed, i) == Some(rates[i])
  }

  // ------------------------------------------------------------------
  // Which computed rates are negative
  // ------------------------------------------------------------------

  /** Exactly the jobs with a negative demand that the second phase does not make up for. */
  lemma NegativeExactly(limit: int, asks: seq<Ask>, i: nat)
    requires Observed(asks) && 0 <= limit && i < |asks|
    ensures TotalUsage(asks) > 0
    ensures var demand := asks[i].demand;
      Computed(limit, asks)[i] < 0
      <==> demand < 0 && demand + asks[i].usage * Remaining(limit, asks) / TotalUsage(asks) < 0
  {
    var first := FirstPhase(limit, asks)[i];
    UsageIsPositive(asks);
    NeverOverdrawn(limit, asks);
    FirstPhaseGuarantee(limit, asks, i);
    ShareFits(limit, |asks|);
    SharePositive(asks[i].usage, Remaining(limit, asks), TotalUsage(asks));
    if asks[i].demand < 0 {
      assert first == asks[i].demand;
    } else {
      WantNotNegative(asks[i]);
    }
    hide FirstPhase, TotalUsage, Wanted;
  }

  lemma WantNotNegative(ask: Ask)
    requires 1 <= ask.usage && 0 <= ask.demand
    ensures 0 <= Wanted(ask)
  {
  }

  /** A job whose demand was never set ends at -1 exactly when its part of what is left rounds down to nothing. */
  lemma UnsetExactly(limit: int, asks: seq<Ask>, i: nat)
    requires Observed(asks) && 0 <= limit && i < |asks| && asks[i].demand == -1
    ensures Computed(limit, asks)[i] < 0 <==> asks[i].usage * Remaining(limit, asks) < TotalUsage(asks)
    ensures Computed(limit, asks)[i] < 0 ==> Computed(limit, asks)[i] == -1
  {
    NegativeExactly(limit, asks, i);
    UsageIsPositive(asks);
    NeverOverdrawn(limit, asks);
    UnsetRate(limit, asks, i);
    var amount, total := asks[i].usage * Remaining(limit, asks), TotalUsage(asks);
    DivBounds(amount, total);
    SharePositive(asks[i].usage, Remaining(limit, asks), total);
    MulMonotone(0, asks[i].usage, Remaining(limit, asks));
    if amount < total {
      DivUnique(amount, total, 0);
    } else {
      DivMonotone(total, amount, total);
    }
    hide Computed, TotalUsage, Remaining;
  }

  lemma UnsetRate(limit: int, asks: seq<Ask>, i: nat)
    requires Observed(asks) && 0 <= limit && i < |asks| && asks[i].demand == -1 && 0 < TotalUsage(asks)
    ensures Computed(limit, asks)[i] == -1 + asks[i].usage * Remaining(limit, asks) / TotalUsage(asks)
  {
    FirstPhaseGuarantee(limit, asks, i);
    ShareFits(limit, |asks|);
    NeverOverdrawn(limit, asks);
    assert FirstPhase(limit, asks)[i] == -1;
    if Remaining(limit, asks) == 0 {
      assert asks[i].usage * 0 / TotalUsage(asks) == 0;
    }
    hide FirstPhase, TotalUsage;
  }

  /** A negative rate is never close enough to be maintained; maintained rates are positive. */
  lemma OnlyPositiveMaintained(limit: int, asks: seq<Ask>, changed: bool)
    requires Observed(asks)
    ensures forall i | 0 <= i < |asks| && MaintainsAll(limit, asks, changed)[i] ::
      0 < Computed(limit, asks)[i] && 0 < asks[i].previous
    ensures 0 <= Sum(Kept(limit, asks, changed))
  {
    hide Computed, LowUsage;
    SumMonotone(seq(|asks|, _ => 0), Kept(limit, asks, changed));
    SumZero(seq(|asks|, _ => 0));
  }

  // ------------------------------------------------------------------
  // When the machine computes the exact round
  // ------------------------------------------------------------------

  lemma UnsignedIs(x: int)
    requires -HALF <= x <= HALF + HALF
    ensures ToUnsigned(x) == if 0 <= x then x else x + UNSIGNED_RANGE
  {
  }

  /** Without a negative computed rate every value to be converted is the exact rate. */
  lemma UnconvertedIsExact(limit: int, asks: seq<Ask>, changed: bool)
    requires Observed(asks) && Held(limit, asks, changed)
    requires forall i | 0 <= i < |asks| :: 0 <= Computed(limit, asks)[i]
    ensures forall i | 0 <= i < |asks| :: Unconverted(limit, asks, changed, i) == EnforcedAt(limit, asks, changed, i)
  {
    var kept, updated := Sum(Kept(limit, asks, changed)), Sum(Updated(limit, asks, changed));
    OnlyPositiveMaintained(limit, asks, changed);
    hide Computed, MaintainsAll, Kept, Updated, LowUsage, Sum;
    SumMonotone(seq(|asks|, _ => 0), Updated(limit, asks, changed));
    SumZero(seq(|asks|, _ => 0));
    UnsignedIs(kept);
    UnsignedIs(updated);
    UnsignedIs(kept + updated);
    hide ToUnsigned;
    forall i | 0 <= i < |asks|
      ensures Unconverted(limit, asks, changed, i) == EnforcedAt(limit, asks, changed, i)
    {
      UnsignedIs(Computed(limit, asks)[i]);
    }
  }

  /** A rescaled rate lies between zero and what the maintained rates leave. */
  lemma RescaledBetween(rate: int, allowed: int, updated: int)
    requires 0 <= rate <= updated && 0 < updated
    ensures var r := Rescaled(rate, allowed, updated); if 0 <= allowed then 0 <= r <= allowed else allowed <= r <= 0
  {
    MulMonotone(rate, updated, Abs(allowed));
    MulMonotone(0, rate, Abs(allowed));
    DivUnique(updated * allowed, updated, allowed);
    DivUnique(0, updated, 0);
    if 0 <= allowed {
      DivMonotone(rate * allowed, updated * allowed, updated);
      DivMonotone(0, rate * allowed, updated);
    } else {
      assert updated * allowed <= rate * allowed <= 0;
      DivMonotone(updated * allowed, rate * allowed, updated);
      DivMonotone(rate * allowed, 0, updated);
    }
  }

  /** Exact rates fit a signed word. */
  lemma ExactIsSigned(limit: int, asks: seq<Ask>, changed: bool, i: nat)
    requires Observed(asks) && Held(limit, asks, changed) && i < |asks|
    requires forall k | 0 <= k < |asks| :: 0 <= Computed(limit, asks)[k]
    ensures -HALF <= EnforcedAt(limit, asks, changed, i) <= HALF
  {
    var kept, updated := Kept(limit, asks, changed), Updated(limit, asks, changed);
    OnlyPositiveMaintained(limit, asks, changed);
    hide Computed, MaintainsAll, Kept, Updated, LowUsage, Sum, Rescaled;
    assert forall k | 0 <= k < |asks| :: 0 <= kept[k] && 0 <= updated[k];
    EntryBelowSum(kept, i);
    EntryBelowSum(updated, i);
    if !MaintainsAll(limit, asks, changed)[i] && 0 < Sum(updated) {
      RescaledBetween(Computed(limit, asks)[i], limit - Sum(kept), Sum(updated));
    } else {
      NothingToShare(Computed(limit, asks)[i], limit - Sum(kept), Sum(updated));
    }
  }

  lemma NothingToShare(rate: int, allowed: int, updated: int)
    ensures updated <= 0 ==> Rescaled(rate, allowed, updated) == rate
  {
  }

  /** The round without a negative computed rate is the exact round, for all jobs. */
  lemma MachineIsExact(limit: int, asks: seq<Ask>, changed: bool)
    requires Observed(asks) && Held(limit, asks, changed)
    requires forall i | 0 <= i < |asks| :: 0 <= Computed(limit, asks)[i]
    ensures Defines(limit, asks, changed, Enforced(limit, asks, changed))
  {
    UnconvertedIsExact(limit, asks, changed);
    forall i | 0 <= i < |asks|
      ensures MachineAt(limit, asks, changed, i) == Some(Enforced(limit, asks, changed)[i])
    {
      ExactIsSigned(limit, asks, changed, i);
      hide EnforcedAt, Unconverted;
    }
  }

  /** What happens to the computed rate -1, exactly and on the machine. */
  lemma UnsetDiffers(limit: int, kept: int, updated: int, low: bool)
    requires 0 <= limit <= HALF && 0 <= kept <= HALF && -HALF <= updated <= HALF
    requires updated < 0 && low ==> -updated < limit
    ensures
      var exact := if low && limit < kept + updated then Rescaled(-1, limit - kept, updated) else -1;
      var machine := if low && Exceeds(limit, kept, updated) then Scaled(-1, limit - kept, updated) else ToUnsigned(-1);
      exact == machine <==> low && limit == kept && 0 < updated
  {
    UnsignedIs(kept);
    UnsignedIs(updated);
    UnsignedIs(-1);
    UnsignedIs(kept + updated);
    if updated > 0 {
      UnsetAbove(limit - kept, updated);
    } else if updated < 0 && low && Exceeds(limit, kept, updated) {
      UnsetBelow(limit, kept, updated);
    }
  }

  lemma UnsetAbove(allowed: int, updated: int)
    requires 0 < updated <= HALF
    ensures Rescaled(-1, allowed, updated) == Scaled(-1, allowed, updated) <==> allowed == 0
  {
    UnsignedIs(updated);
    UnsignedIs(-1);
    var u := UNSIGNED_RANGE - 1;
    if allowed > 0 {
      NegativeQuotient(-allowed, updated);
      SharePositive(u, allowed, updated);
    } else if allowed < 0 {
      SharePositive(1, -allowed, updated);
      NegativeQuotient(u * allowed, updated);
    }
  }

  lemma UnsetBelow(limit: int, kept: int, updated: int)
    requires 0 <= limit <= HALF && 0 <= kept <= HALF && -HALF <= updated < 0 && -updated < limit
    requires Exceeds(limit, kept, updated)
    ensures Scaled(-1, limit - kept, updated) != -1
  {
    UnsignedIs(kept);
    UnsignedIs(updated);
    UnsignedIs(-1);
    UnsignedIs(kept + updated);
    var u, total, allowed := UNSIGNED_RANGE - 1, updated + UNSIGNED_RANGE, limit - kept;
    if allowed >= 0 {
      SharePositive(u, allowed, total);
    } else {
      assert allowed <= -2;
      MulMonotone(total, u, -allowed);
      assert u * allowed <= total * allowed;
      DivMonotone(u * allowed, total * allowed, total);
      DivUnique(total * allowed, total, allowed);
    }
  }

  /** With demands of at least -1 no rate is computed below -1. */
  lemma ComputedAtLeast(limit: int, asks: seq<Ask>, i: nat)
    requires Observed(asks) && 0 <= limit && i < |asks| && -1 <= asks[i].demand
    ensures -1 <= Computed(limit, asks)[i]
  {
    if Computed(limit, asks)[i] < 0 {
      NegativeExactly(limit, asks, i);
      UnsetExactly(limit, asks, i);
    }
  }

  /** Under low usage the rates to be updated cannot take more than the limit below zero. */
  lemma UpdatedBelow(limit: int, asks: seq<Ask>, changed: bool)
    requires Observed(asks) && 0 <= limit && LowUsage(limit, asks)
    requires forall i | 0 <= i < |asks| :: -1 <= asks[i].demand
    ensures -Sum(Updated(limit, asks, changed)) < limit
  {
    var floor := seq(|asks|, _ => 0);
    forall i | 0 <= i < |asks|
      ensures -1 <= Updated(limit, asks, changed)[i]
    {
      ComputedAtLeast(limit, asks, i);
    }
    UsageIsPositive(asks);
    hide Computed, MaintainsAll, Updated, TotalUsage, Sum;
    SumShift(floor, -1);
    SumZero(floor);
    SumMonotone(Shift(floor, -1), Updated(limit, asks, changed));
  }

  /** The computed rate -1 is enforced as the exact round does only if nothing is left to enforce. */
  lemma NegativeDiffers(limit: int, asks: seq<Ask>, changed: bool, i: nat)
    requires Observed(asks) && Held(limit, asks, changed)
    requires forall k | 0 <= k < |asks| :: -1 <= asks[k].demand
    requires i < |asks| && Computed(limit, asks)[i] < 0
    ensures Unconverted(limit, asks, changed, i) == EnforcedAt(limit, asks, changed, i) <==> NothingAllowed(limit, asks, changed)
  {
    var kept, updated := Sum(Kept(limit, asks, changed)), Sum(Updated(limit, asks, changed));
    ComputedAtLeast(limit, asks, i);
    OnlyPositiveMaintained(limit, asks, changed);
    if updated < 0 && LowUsage(limit, asks) {
      UpdatedBelow(limit, asks, changed);
    }
    UnsetDiffers(limit, kept, updated, LowUsage(limit, asks));
    hide Computed, MaintainsAll, Kept, Updated, LowUsage, Sum, ToUnsigned;
  }

  /** The maintained rates take the whole limit, and some other rate is to be scaled to nothing. */
  ghost predicate NothingAllowed(limit: int, asks: seq<Ask>, changed: bool)
    requires Observed(asks)
  {
    LowUsage(limit, asks) && Sum(Kept(limit, asks, changed)) == limit && 0 < Sum(Updated(limit, asks, changed))
  }

  lemma NothingScaled(limit: int, updated: int, rate: int)
    requires 0 <= limit <= HALF && 0 < updated <= HALF
    ensures Exceeds(limit, limit, updated)
    ensures Scaled(rate, 0, updated) == 0 == Rescaled(rate, 0, updated)
  {
    UnsignedIs(limit);
    UnsignedIs(updated);
    UnsignedIs(limit + updated);
    NothingOf(rate, updated);
    NothingOf(ToUnsigned(rate), updated);
  }

  lemma NothingAllowedIsExact(limit: int, asks: seq<Ask>, changed: bool)
    requires Observed(asks) && Held(limit, asks, changed) && NothingAllowed(limit, asks, changed)
    ensures Defines(limit, asks, changed, Enforced(limit, asks, changed))
  {
    OnlyPositiveMaintained(limit, asks, changed);
    hide Computed, MaintainsAll, Kept, Updated, LowUsage, Sum, Scaled, Rescaled, Exceeds;
    forall i | 0 <= i < |asks|
      ensures MachineAt(limit, asks, changed, i) == Some(EnforcedAt(limit, asks, changed, i))
    {
      var kept := Kept(limit, asks, changed);
      assert forall k | 0 <= k < |asks| :: 0 <= kept[k];
      EntryBelowSum(kept, i);
      NothingScaled(limit, Sum(Updated(limit, asks, changed)), Computed(limit, asks)[i]);
    }
  }

  /**
   * Exactly when the machine enforces the exact rates, all of them defined: when no rate
   * is computed below zero, or the maintained rates leave nothing to scale. By
   * `UnsetExactly`, a rate is below zero when a demand was never set and the
   * job's part of what the first phase leaves rounds down to nothing.
   */
  lemma MachineExactly(limit: int, asks: seq<Ask>, changed: bool)
    requires Observed(asks) && Held(limit, asks, changed)
    requires forall i | 0 <= i < |asks| :: -1 <= asks[i].demand
    ensures Defines(limit, asks, changed, Enforced(limit, asks, changed))
       <==> (forall i | 0 <= i < |asks| :: 0 <= Computed(limit, asks)[i]) || NothingAllowed(limit, asks, changed)
  {
    if NothingAllowed(limit, asks, changed) {
      NothingAllowedIsExact(limit, asks, changed);
    } else if forall i | 0 <= i < |asks| :: 0 <= Computed(limit, asks)[i] {
      MachineIsExact(limit, asks, changed);
    } else {
      var i :| 0 <= i < |asks| && Computed(limit, asks)[i] < 0;
      NegativeDiffers(limit, asks, changed, i);
      assert MachineAt(limit, asks, changed, i) != Some(Enforced(limit, asks, changed)[i]);
    }
  }

  /**
   * What becomes of a rate computed as -1: as a machine word it is 2^64 - 1. If the
   * round rescales, it is given that many times what is allowed, divided by the
   * updated rates, where this fits into a signed word; otherwise it is undefined.
   */
  lemma MinusOneWraps(limit: int, asks: seq<Ask>, changed: bool, i: nat)
    requires Observed(asks) && i < |asks| && Computed(limit, asks)[i] == -1
    requires Sum(Kept(limit, asks, changed)) <= HALF && 0 < Sum(Updated(limit, asks, changed)) <= HALF
    ensures var allowed, updated := limit - Sum(Kept(limit, asks, changed)), Sum(Updated(limit, asks, changed));
      var wrapped := 0xFFFF_FFFF_FFFF_FFFF * allowed / updated;
      MachineAt(limit, asks, changed, i)
      == if 20 * Sum(Usages(asks)) < 19 * limit && allowed < updated
            && -0x8000_0000_0000_0000 <= wrapped < 0x8000_0000_0000_0000
         then Some(wrapped) else None
  {
    OnlyPositiveMaintained(limit, asks, changed);
    assert ToUnsigned(-1) == 0xFFFF_FFFF_FFFF_FFFF;
    UnsignedIs(Sum(Kept(limit, asks, changed)));
    UnsignedIs(Sum(Updated(limit, asks, changed)));
    UnsignedIs(Sum(Kept(limit, asks, changed)) + Sum(Updated(limit, asks, changed)));
    assert !MaintainsAll(limit, asks, changed)[i];
    hide Computed, Kept, Updated, Sum, Usages, ToUnsigned, MaintainsAll;
  }

  // ------------------------------------------------------------------
  // A round that leaves every bound
  // ------------------------------------------------------------------

  /** Two jobs with demands 10 and 900, and the same two jobs beside one whose demand was never set. */
  const BEFORE_JOINING := [Ask(10, 40, 0), Ask(900, 900, 0)]
  const AFTER_JOINING := [Ask(10, 40, 13), Ask(900, 900, 986), Ask(-1, 1, 0)]

  lemma RoundBeforeJoining()
    ensures Observed(BEFORE_JOINING) && Enforced(1000, BEFORE_JOINING, false) == [13, 986]
  {
    var a, b := Ask(10, 40, 0), Ask(900, 900, 0);
    assert [a, b][1..] == [b];
    assert FirstPhase(990, [b]) == [900];
    assert FirstPhase(1000, [a, b]) == [10, 900];
    assert Sum([10, 900]) == 910;
    assert Usages([a, b]) == [40, 900];
    assert Sum([40, 900]) == 940;
    assert Computed(1000, [a, b]) == [13, 986];
    assert Kept(1000, [a, b], false) == [0, 0] && Updated(1000, [a, b], false) == [13, 986];
    assert Sum([0, 0]) == 0 && Sum([13, 986]) == 999;
  }

  lemma ComputedAfterJoining()
    ensures Observed(AFTER_JOINING) && Computed(1000, AFTER_JOINING) == [31, 969, -1]
    ensures TotalUsage(AFTER_JOINING) == 941
  {
    FirstOfThree(1000, Ask(10, 40, 13), Ask(900, 900, 986), Ask(-1, 1, 0), 10, 495, -1);
    assert Computed(1000, AFTER_JOINING) == [31, 969, -1];
  }

  /** The third job is given more than a million times the limit. */
  lemma RoundAfterJoining()
    ensures Observed(AFTER_JOINING)
    ensures var rate := MachineAt(1000, AFTER_JOINING, false, 2); rate.Some? && 1_000_000 * 1000 < rate.value
  {
    ComputedAfterJoining();
    hide Computed;
    assert Kept(1000, AFTER_JOINING, false) == [0, 986, 0];
    SumThree(0, 986, 0);
    assert Updated(1000, AFTER_JOINING, false) == [31, 0, -1];
    SumThree(31, 0, -1);
    hide Kept, Updated, Sum, TotalUsage, MaintainsAll;
    assert Unconverted(1000, AFTER_JOINING, false, 2) == Scaled(-1, 14, 30);
  }
}
