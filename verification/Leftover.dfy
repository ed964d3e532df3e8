/**
 * The DYNAMIC_LEFTOVER allocator on the vector of jobs, in the order in which
 * the core controller visits them. Percentages are exact fractions.
 */
module Leftover {
  import opened Arithmetic

  /** What the controller knows of a job: its demand, observed usage and enforced rate. */
  datatype Ask = Ask(demand: int, usage: int, previous: int)

  predicate Observed(asks: seq<Ask>) {
    forall i | 0 <= i < |asks| :: 1 <= asks[i].usage
  }

  predicate Demanding(asks: seq<Ask>) {
    forall i | 0 <= i < |asks| :: 1 <= asks[i].demand
  }

  // ------------------------------------------------------------------
  // Phase one: demand, usage and fair share
  // ------------------------------------------------------------------

  function FairShare(left: int, jobs: nat): int
    requires 0 < jobs
  {
    TruncDiv(left, jobs)
  }

  /**
   * A job using at most 95% of its demand gets its usage plus a quarter of the
   * unused demand; any other job gets its demand. The fair share caps both.
   */
  function Grant(left: int, jobs: nat, ask: Ask): int
    requires 0 < jobs
  {
    var fair := FairShare(left, jobs);
    if 20 * ask.usage <= 19 * ask.demand then
      if 4 * ask.usage + (ask.demand - ask.usage) < 4 * fair
      then TruncDiv(4 * ask.usage + (ask.demand - ask.usage), 4)
      else fair
    else
      if ask.demand < fair then ask.demand else fair
  }

  function FirstPhase(left: int, asks: seq<Ask>): (rates: seq<int>)
    ensures |rates| == |asks|
    decreases |asks|
  {
    if asks == [] then []
    else
      var r := Grant(left, |asks|, asks[0]);
      [r] + FirstPhase(left - r, asks[1..])
  }

  function Remaining(limit: int, asks: seq<Ask>): int {
    limit - Sum(FirstPhase(limit, asks))
  }

  function Usages(asks: seq<Ask>): (r: seq<int>)
    ensures |r| == |asks|
    ensures forall i | 0 <= i < |r| :: r[i] == asks[i].usage
  {
    seq(|asks|, i requires 0 <= i < |asks| => asks[i].usage)
  }

  function TotalUsage(asks: seq<Ask>): int {
    Sum(Usages(asks))
  }

  lemma {:induction false} UsageIsPositive(asks: seq<Ask>)
    requires Observed(asks)
    ensures |asks| <= TotalUsage(asks)
  {
    if asks == [] {
    } else {
      assert Usages(asks)[1..] == Usages(asks[1..]);
      UsageIsPositive(asks[1..]);
    }
  }

  // ------------------------------------------------------------------
  // Phase two: what is left goes out in proportion to usage
  // ------------------------------------------------------------------

  function Computed(limit: int, asks: seq<Ask>): (rates: seq<int>)
    requires Observed(asks)
    ensures |rates| == |asks|
  {
    UsageIsPositive(asks);
    var first := FirstPhase(limit, asks);
    if asks != [] && 0 < Remaining(limit, asks)
    then Plus(first, Split(Usages(asks), Remaining(limit, asks), TotalUsage(asks)))
    else first
  }

  /** Serving one job never lowers the fair share of the others, and never overdraws. */
  lemma ServeOne(left: int, asks: seq<Ask>)
    requires asks != [] && 0 <= left
    ensures
      var r := Grant(left, |asks|, asks[0]);
      && r <= FairShare(left, |asks|)
      && 0 <= left - r
      && (|asks| > 1 ==> FairShare(left, |asks|) <= FairShare(left - r, |asks| - 1))
      && (|asks| <= left ==> 1 <= FairShare(left, |asks|) && |asks| - 1 <= left - r)
  {
    ShareFits(left, |asks|);
    if |asks| > 1 {
      ShareGrows(left, |asks|, Grant(left, |asks|, asks[0]));
    }
    if |asks| <= left {
      ShareLeavesOne(left, |asks|);
    }
  }

  /** What a job is served for: usage plus a quarter of the unused demand, or the demand of a busy job. */
  function Wanted(ask: Ask): int {
    if 20 * ask.usage <= 19 * ask.demand then ask.usage + (ask.demand - ask.usage) / 4 else ask.demand
  }

  /** The nested comparisons of the first phase choose the smaller of want and fair share. */
  lemma GrantIsWantedOrFair(left: int, jobs: nat, ask: Ask)
    requires 0 < jobs && 1 <= ask.usage
    ensures Grant(left, jobs, ask) == Min(Wanted(ask), FairShare(left, jobs))
    ensures ask.usage <= ask.demand ==> ask.usage <= Wanted(ask) <= ask.demand
  {
  }

  /** In any order of jobs, each one gets what it wants or at least the initial equal share. */
  lemma {:induction false} FirstPhaseGuarantee(left: int, asks: seq<Ask>, k: nat)
    requires k < |asks| && 0 <= left && Observed(asks)
    ensures Min(Wanted(asks[k]), left / |asks|) <= FirstPhase(left, asks)[k] <= Wanted(asks[k])
    decreases |asks|
  {
    ServeOne(left, asks);
    GrantIsWantedOrFair(left, |asks|, asks[0]);
    if k == 0 {
    } else {
      FirstPhaseGuarantee(left - Grant(left, |asks|, asks[0]), asks[1..], k - 1);
    }
  }

  /** A job that stays within its demand is computed at least its usage, or the equal share of the limit. */
  lemma UsageIsServed(limit: int, asks: seq<Ask>, k: nat)
    requires k < |asks| && 0 <= limit && Observed(asks) && asks[k].usage <= asks[k].demand
    ensures Min(asks[k].usage, limit / |asks|) <= Computed(limit, asks)[k]
  {
    FirstPhaseGuarantee(limit, asks, k);
    GrantIsWantedOrFair(limit, |asks|, asks[k]);
    UsageIsPositive(asks);
    if 0 < Remaining(limit, asks) {
      SharePositive(asks[k].usage, Remaining(limit, asks), TotalUsage(asks));
    }
  }

  lemma {:induction false} NeverOverdrawn(limit: int, asks: seq<Ask>)
    requires 0 <= limit
    ensures 0 <= Remaining(limit, asks)
    decreases |asks|
  {
    if asks == [] {
    } else {
      ServeOne(limit, asks);
      NeverOverdrawn(limit - Grant(limit, |asks|, asks[0]), asks[1..]);
    }
  }

  /** Each job is computed at least one operation. */
  lemma {:induction false} FirstPhasePositive(limit: int, asks: seq<Ask>)
    requires |asks| <= limit && Observed(asks) && Demanding(asks)
    ensures forall i | 0 <= i < |asks| :: 1 <= FirstPhase(limit, asks)[i]
    decreases |asks|
  {
    if asks == [] {
    } else {
      ServeOne(limit, asks);
      FirstPhasePositive(limit - Grant(limit, |asks|, asks[0]), asks[1..]);
    }
  }

  predicate Positive(rates: seq<int>) {
    forall i | 0 <= i < |rates| :: 1 <= rates[i]
  }

  lemma ComputedPositive(limit: int, asks: seq<Ask>)
    requires |asks| <= limit && Observed(asks) && Demanding(asks)
    ensures Positive(Computed(limit, asks))
  {
    FirstPhasePositive(limit, asks);
    UsageIsPositive(asks);
    forall i | 0 <= i < |asks|
      ensures 1 <= Computed(limit, asks)[i]
    {
      if 0 < Remaining(limit, asks) {
        SharePositive(asks[i].usage, Remaining(limit, asks), TotalUsage(asks));
      }
    }
  }

  lemma SharePositive(u: int, amount: int, total: int)
    requires 0 <= u && 0 <= amount && 0 < total
    ensures 0 <= u * amount / total
  {
    MulMonotone(0, u, amount);
    DivMonotone(0, u * amount, total);
  }

  /**
   * What the first loop gives job `k`: the equal share of what the jobs before it
   * left, or what it wants if that is less. A job using at most 95% of its demand
   * wants its usage and a quarter of the rest, any other job its demand.
   */
  lemma {:induction false} FirstPhaseAt(limit: int, asks: seq<Ask>, k: nat)
    requires k < |asks| && Observed(asks)
    ensures var fair := TruncDiv(limit - Sum(FirstPhase(limit, asks)[..k]), |asks| - k);
      var usage, demand := asks[k].usage, asks[k].demand;
      var want := if 20 * usage <= 19 * demand then usage + (demand - usage) / 4 else demand;
      FirstPhase(limit, asks)[k] == if want < fair then want else fair
    decreases |asks|
  {
    var rates, r := FirstPhase(limit, asks), Grant(limit, |asks|, asks[0]);
    GrantIsWantedOrFair(limit, |asks|, asks[0]);
    hide Grant;
    if k == 0 {
      assert rates[..0] == [];
    } else {
      assert rates[..k] == [r] + rates[1..][..k - 1];
      FirstPhaseAt(limit - r, asks[1..], k - 1);
    }
  }

  /** The second loop adds to job `k` the part of what is left that its usage has in the total, rounded down. */
  lemma ComputedAt(limit: int, asks: seq<Ask>, k: nat)
    requires k < |asks| && Observed(asks)
    ensures 0 < Sum(Usages(asks))
    ensures var first := FirstPhase(limit, asks);
      var left := limit - Sum(first);
      Computed(limit, asks)[k] == first[k] + if 0 < left then asks[k].usage * left / Sum(Usages(asks)) else 0
  {
    UsageIsPositive(asks);
    hide FirstPhase, Sum;
  }

  /** Two-phase conservation, for all demands: rounding loses less than one operation a job. */
  lemma Conservation(limit: int, asks: seq<Ask>)
    requires 0 <= limit && asks != [] && Observed(asks)
    ensures limit - (|asks| - 1) <= Sum(Computed(limit, asks)) <= limit
  {
    NeverOverdrawn(limit, asks);
    UsageIsPositive(asks);
    if 0 < Remaining(limit, asks) {
      SplitConserves(Usages(asks), Remaining(limit, asks));
      SumPlus(FirstPhase(limit, asks), Split(Usages(asks), Remaining(limit, asks), TotalUsage(asks)));
    }
  }

  // ------------------------------------------------------------------
  // Hysteresis and rescaling
  // ------------------------------------------------------------------

  /** The stages use less than 95% of the limit. */
  predicate LowUsage(limit: int, asks: seq<Ask>) {
    20 * TotalUsage(asks) < 19 * limit
  }

  /** The enforced rate is close enough to the computed one to be left alone. */
  predicate Maintains(rate: int, previous: int, changed: bool, low: bool) {
    var difference := Abs(rate - previous);
    !changed && (100 * difference < rate || (low && 20 * difference < rate))
  }

  function MaintainsAll(limit: int, asks: seq<Ask>, changed: bool): (r: seq<bool>)
    requires Observed(asks)
    ensures |r| == |asks|
    ensures forall i | 0 <= i < |r| ::
      r[i] == Maintains(Computed(limit, asks)[i], asks[i].previous, changed, LowUsage(limit, asks))
  {
    seq(|asks|, i requires 0 <= i < |asks| =>
      Maintains(Computed(limit, asks)[i], asks[i].previous, changed, LowUsage(limit, asks)))
  }

  /** Previous rates of the maintained jobs, zero elsewhere. */
  function Kept(limit: int, asks: seq<Ask>, changed: bool): (r: seq<int>)
    requires Observed(asks)
    ensures |r| == |asks|
    ensures forall i | 0 <= i < |r| ::
      r[i] == if MaintainsAll(limit, asks, changed)[i] then asks[i].previous else 0
  {
    var m := MaintainsAll(limit, asks, changed);
    seq(|asks|, i requires 0 <= i < |asks| => if m[i] then asks[i].previous else 0)
  }

  /** Computed rates of the jobs to be updated, zero elsewhere. */
  function Updated(limit: int, asks: seq<Ask>, changed: bool): (r: seq<int>)
    requires Observed(asks)
    ensures |r| == |asks|
    ensures forall i | 0 <= i < |r| ::
      r[i] == if MaintainsAll(limit, asks, changed)[i] then 0 else Computed(limit, asks)[i]
  {
    var m := MaintainsAll(limit, asks, changed);
    var c := Computed(limit, asks);
    seq(|asks|, i requires 0 <= i < |asks| => if m[i] then 0 else c[i])
  }

  /** The round must shrink the updated rates to fit beside the maintained ones. */
  predicate Rescales(limit: int, asks: seq<Ask>, changed: bool)
    requires Observed(asks)
  {
    && LowUsage(limit, asks)
    && limit < Sum(Kept(limit, asks, changed)) + Sum(Updated(limit, asks, changed))
  }

  /** A computed rate scaled by allowed / updated, rounded down. */
  function Rescaled(rate: int, allowed: int, updated: int): int {
    if 0 < updated then rate * allowed / updated else rate
  }

  /** Rate enforced for job `i` once the round is over. */
  function EnforcedAt(limit: int, asks: seq<Ask>, changed: bool, i: nat): int
    requires Observed(asks) && i < |asks|
  {
    if MaintainsAll(limit, asks, changed)[i] then asks[i].previous
    else if Rescales(limit, asks, changed) then
      Rescaled(Computed(limit, asks)[i], limit - Sum(Kept(limit, asks, changed)), Sum(Updated(limit, asks, changed)))
    else Computed(limit, asks)[i]
  }

  function Enforced(limit: int, asks: seq<Ask>, changed: bool): (r: seq<int>)
    requires Observed(asks)
    ensures |r| == |asks|
    ensures forall i | 0 <= i < |r| :: r[i] == EnforcedAt(limit, asks, changed, i)
  {
    seq(|asks|, i requires 0 <= i < |asks| => EnforcedAt(limit, asks, changed, i))
  }

  function Previous(asks: seq<Ask>): (r: seq<int>)
    ensures |r| == |asks|
    ensures forall i | 0 <= i < |r| :: r[i] == asks[i].previous
  {
    seq(|asks|, i requires 0 <= i < |asks| => asks[i].previous)
  }

  function Clip(s: seq<int>): (r: seq<int>)
    ensures |r| == |s|
    ensures forall i | 0 <= i < |s| :: r[i] == Max(0, s[i])
  {
    seq(|s|, i requires 0 <= i < |s| => Max(0, s[i]))
  }

  /** Nothing at all, or less than 101% of the limit. */
  predicate BelowSlack(limit: int, total: int) {
    total == 0 || 100 * total < 101 * limit
  }

  /** A rate is not negative, or negative by less than 1% of the limit. */
  predicate AboveFloor(limit: int, rate: int) {
    0 <= rate || -limit < 100 * rate
  }

  /** Below 101% of the limit, counting positive rates only. */
  predicate WithinSlack(limit: int, rates: seq<int>) {
    BelowSlack(limit, Sum(Clip(rates)))
  }

  /** Some job is updated. */
  ghost predicate Updates(limit: int, asks: seq<Ask>, changed: bool)
    requires Observed(asks)
  {
    exists i | 0 <= i < |asks| :: !MaintainsAll(limit, asks, changed)[i]
  }

  /** Only positive previous rates are ever maintained. */
  lemma KeptIsSmall(limit: int, asks: seq<Ask>, changed: bool)
    requires Observed(asks) && Positive(Computed(limit, asks))
    ensures forall i | 0 <= i < |asks| :: 0 <= Kept(limit, asks, changed)[i] <= Max(0, asks[i].previous)
    ensures Sum(Kept(limit, asks, changed)) <= Sum(Clip(Previous(asks)))
  {
    SumMonotone(Kept(limit, asks, changed), Clip(Previous(asks)));
  }

  lemma EntryBelowSum(s: seq<int>, i: nat)
    requires i < |s| && forall k | 0 <= k < |s| :: 0 <= s[k]
    ensures s[i] <= Sum(s)
  {
    var zeros := seq(|s|, k => if k == i then s[i] else 0);
    SumMonotone(zeros, s);
    SumSingle(zeros, i);
  }

  lemma {:induction false} SumSingle(s: seq<int>, i: nat)
    requires i < |s| && forall k | 0 <= k < |s| :: k != i ==> s[k] == 0
    ensures Sum(s) == s[i]
  {
    if i == 0 {
      SumZero(s[1..]);
    } else {
      SumSingle(s[1..], i - 1);
    }
  }

  lemma UpdatedIsPositive(limit: int, asks: seq<Ask>, changed: bool)
    requires Observed(asks) && Positive(Computed(limit, asks))
    ensures if Updates(limit, asks, changed)
            then 1 <= Sum(Updated(limit, asks, changed))
            else Sum(Updated(limit, asks, changed)) == 0
  {
    var updated := Updated(limit, asks, changed);
    if Updates(limit, asks, changed) {
      var i :| 0 <= i < |asks| && !MaintainsAll(limit, asks, changed)[i];
      EntryBelowSum(updated, i);
    } else {
      SumZero(updated);
    }
  }

  /** A rescaled round is the maintained rates plus a proportional split of what they allow. */
  lemma RescaledRound(limit: int, asks: seq<Ask>, changed: bool)
    requires Observed(asks) && Rescales(limit, asks, changed)
    requires 0 < Sum(Updated(limit, asks, changed))
    ensures
      var kept := Kept(limit, asks, changed);
      var updated := Updated(limit, asks, changed);
      Enforced(limit, asks, changed) == Plus(kept, Split(updated, limit - Sum(kept), Sum(updated)))
  {
    var allowed, total := limit - Sum(Kept(limit, asks, changed)), Sum(Updated(limit, asks, changed));
    NothingOf(allowed, total);
    hide Sum, Kept, Updated, Observed, MaintainsAll, Computed;
    forall i | 0 <= i < |asks|
      ensures EnforcedAt(limit, asks, changed, i)
           == Kept(limit, asks, changed)[i] + Updated(limit, asks, changed)[i] * allowed / total
    {
    }
  }

  lemma NothingOf(amount: int, total: int)
    requires 0 < total
    ensures 0 * amount / total == 0
  {
  }

  /** Rescaling fills the limit: it is not exceeded, and missed by less than one operation a job. */
  lemma RescaledTotal(limit: int, asks: seq<Ask>, changed: bool)
    requires Observed(asks) && Rescales(limit, asks, changed)
    requires 0 < Sum(Updated(limit, asks, changed))
    ensures limit - |asks| < Sum(Enforced(limit, asks, changed)) <= limit
  {
    var kept := Kept(limit, asks, changed);
    var updated := Updated(limit, asks, changed);
    RescaledRound(limit, asks, changed);
    SplitConserves(updated, limit - Sum(kept));
    SumPlus(kept, Split(updated, limit - Sum(kept), Sum(updated)));
  }

  lemma PlainRound(limit: int, asks: seq<Ask>, changed: bool)
    requires Observed(asks) && !Rescales(limit, asks, changed)
    ensures Enforced(limit, asks, changed) == Plus(Kept(limit, asks, changed), Updated(limit, asks, changed))
    ensures Sum(Enforced(limit, asks, changed)) == Sum(Kept(limit, asks, changed)) + Sum(Updated(limit, asks, changed))
  {
    SumPlus(Kept(limit, asks, changed), Updated(limit, asks, changed));
  }

  /** Sign of a rescaled rate: the sign of what the maintained rates allow. */
  lemma RescaledSign(rate: int, allowed: int, updated: int)
    requires 1 <= rate <= updated
    ensures 0 <= Rescaled(rate, allowed, updated) <==> 0 <= allowed
  {
    DivBounds(rate * allowed, updated);
    if 0 <= allowed {
      SharePositive(rate, allowed, updated);
    } else {
      MulMonotone(rate * allowed / updated, -1, updated) by { NegativeProduct(rate, allowed); NegativeQuotient(rate * allowed, updated); }
    }
  }

  lemma NegativeProduct(a: int, b: int)
    requires 0 < a && b < 0
    ensures a * b < 0
  {
  }

  lemma NegativeQuotient(a: int, b: int)
    requires a < 0 && 0 < b
    ensures a / b < 0
  {
    DivBounds(a, b);
    if 0 <= a / b {
      MulMonotone(0, a / b, b);
    }
  }

  /** A rescaled rate has the sign of what the maintained rates leave. */
  lemma RescaledSignAt(limit: int, asks: seq<Ask>, changed: bool, i: nat)
    requires Observed(asks) && Positive(Computed(limit, asks)) && Rescales(limit, asks, changed)
    requires i < |asks| && !MaintainsAll(limit, asks, changed)[i]
    ensures 0 <= EnforcedAt(limit, asks, changed, i) <==> Sum(Kept(limit, asks, changed)) <= limit
  {
    var updated := Updated(limit, asks, changed);
    hide Sum, Kept, Computed, Rescaled, MaintainsAll, Updated, Observed;
    assert forall k | 0 <= k < |asks| :: 0 <= updated[k];
    EntryBelowSum(updated, i);
    RescaledSign(Computed(limit, asks)[i], limit - Sum(Kept(limit, asks, changed)), Sum(updated));
  }

  /**
   * Exactly when a round enforces no negative rate: not when stages use little,
   * the maintained rates alone exceed the limit and some job is updated.
   */
  lemma NonNegativeExactly(limit: int, asks: seq<Ask>, changed: bool)
    requires Observed(asks) && Positive(Computed(limit, asks))
    ensures (forall i | 0 <= i < |asks| :: 0 <= Enforced(limit, asks, changed)[i])
       <==> !(LowUsage(limit, asks) && limit < Sum(Kept(limit, asks, changed)) && Updates(limit, asks, changed))
  {
    var kept := Kept(limit, asks, changed);
    UpdatedIsPositive(limit, asks, changed);
    hide Sum, Kept, Updated, MaintainsAll, Computed;
    forall i | 0 <= i < |asks| && !MaintainsAll(limit, asks, changed)[i] && Rescales(limit, asks, changed)
      ensures 0 <= Enforced(limit, asks, changed)[i] <==> Sum(kept) <= limit
    {
      RescaledSignAt(limit, asks, changed, i);
    }
  }

  // ------------------------------------------------------------------
  // The hysteresis in numbers
  // ------------------------------------------------------------------

  lemma MaintainedExactly(limit: int, asks: seq<Ask>, changed: bool, i: nat)
    requires Observed(asks) && i < |asks|
    ensures var rate := Computed(limit, asks)[i]; var off := Abs(rate - asks[i].previous);
      MaintainsAll(limit, asks, changed)[i]
      <==> !changed && (100 * off < rate || (20 * Sum(Usages(asks)) < 19 * limit && 20 * off < rate))
  {
    hide Computed, Sum, Usages;
  }

  /** The rates kept, and the computed rates of the other jobs. */
  lemma SplitUp(limit: int, asks: seq<Ask>, changed: bool, near: seq<bool>, kept: seq<int>, updated: seq<int>)
    requires Observed(asks) && |near| == |kept| == |updated| == |asks|
    requires forall i | 0 <= i < |asks| :: near[i] == MaintainsAll(limit, asks, changed)[i]
    requires forall i | 0 <= i < |asks| :: kept[i] == if near[i] then asks[i].previous else 0
    requires forall i | 0 <= i < |asks| :: updated[i] == if near[i] then 0 else Computed(limit, asks)[i]
    ensures kept == Kept(limit, asks, changed) && updated == Updated(limit, asks, changed)
  {
    hide Computed, MaintainsAll;
  }

  /**
   * The last loop, job by job: unless something changed, an enforced rate within
   * 1% of the computed one is kept, and within 5% of it if the stages use less
   * than 95% of the limit. `kept` are the rates kept, `updated` the computed rates
   * of the other jobs. Those are scaled to what is left of the limit if usage is
   * that low and they would not fit beside the rates kept.
   */
  lemma EnforcedExactly(limit: int, asks: seq<Ask>, changed: bool, near: seq<bool>, kept: seq<int>, updated: seq<int>, i: nat)
    requires Observed(asks) && |near| == |kept| == |updated| == |asks| && i < |asks|
    requires forall k | 0 <= k < |asks| :: var rate := Computed(limit, asks)[k]; var off := Abs(rate - asks[k].previous);
      near[k] <==> !changed && (100 * off < rate || (20 * Sum(Usages(asks)) < 19 * limit && 20 * off < rate))
    requires forall k | 0 <= k < |asks| :: kept[k] == if near[k] then asks[k].previous else 0
    requires forall k | 0 <= k < |asks| :: updated[k] == if near[k] then 0 else Computed(limit, asks)[k]
    ensures var rate := Computed(limit, asks)[i];
      Enforced(limit, asks, changed)[i]
      == if near[i] then asks[i].previous
         else if 20 * Sum(Usages(asks)) < 19 * limit && limit < Sum(kept) + Sum(updated) && 0 < Sum(updated)
         then rate * (limit - Sum(kept)) / Sum(updated)
         else rate
  {
    hide Computed, MaintainsAll, Sum, Usages, TotalUsage, Kept, Updated;
    forall k | 0 <= k < |asks|
      ensures near[k] == MaintainsAll(limit, asks, changed)[k]
    {
      MaintainedExactly(limit, asks, changed, k);
    }
    SplitUp(limit, asks, changed, near, kept, updated);
    EnforcedUnfolds(limit, asks, changed, i);
  }

  lemma EnforcedUnfolds(limit: int, asks: seq<Ask>, changed: bool, i: nat)
    requires Observed(asks) && i < |asks|
    ensures var rate, kept, updated := Computed(limit, asks)[i], Kept(limit, asks, changed), Updated(limit, asks, changed);
      Enforced(limit, asks, changed)[i]
      == if MaintainsAll(limit, asks, changed)[i] then asks[i].previous
         else if 20 * Sum(Usages(asks)) < 19 * limit && limit < Sum(kept) + Sum(updated) && 0 < Sum(updated)
         then rate * (limit - Sum(kept)) / Sum(updated)
         else rate
  {
    assert Enforced(limit, asks, changed)[i] == EnforcedAt(limit, asks, changed, i);
    hide Computed, MaintainsAll, Sum, Usages, Kept, Updated;
  }

  /**
   * A round that does not rescale enforces the computed rate, or keeps one within
   * 1% of it, or within 5% if the stages use less than 95% of the limit. A rate
   * that close is kept whenever nothing changed, in any round.
   */
  lemma EnforcedIsNear(limit: int, asks: seq<Ask>, changed: bool, i: nat)
    requires Observed(asks) && i < |asks|
    ensures var rate, before, enforced := Computed(limit, asks)[i], asks[i].previous, Enforced(limit, asks, changed)[i];
      var off := Abs(rate - before);
      && (!Rescales(limit, asks, changed) ==>
            enforced == rate
            || (!changed && enforced == before && 100 * off < rate)
            || (!changed && enforced == before && 20 * Sum(Usages(asks)) < 19 * limit && 20 * off < rate))
      && (!changed && 100 * off < rate ==> enforced == before)
      && (!changed && 20 * Sum(Usages(asks)) < 19 * limit && 20 * off < rate ==> enforced == before)
  {
    assert Enforced(limit, asks, changed)[i] == EnforcedAt(limit, asks, changed, i);
    hide Computed, Sum, Usages, Kept, Updated;
  }

  /** The first phase of three jobs, one after the other. */
  lemma FirstOfThree(limit: int, a: Ask, b: Ask, c: Ask, x: int, y: int, z: int)
    requires x == Grant(limit, 3, a) && y == Grant(limit - x, 2, b) && z == Grant(limit - x - y, 1, c)
    ensures FirstPhase(limit, [a, b, c]) == [x, y, z]
    ensures Remaining(limit, [a, b, c]) == limit - x - y - z
    ensures Usages([a, b, c]) == [a.usage, b.usage, c.usage]
    ensures TotalUsage([a, b, c]) == a.usage + b.usage + c.usage
  {
    assert [a, b, c][1..] == [b, c] && [b, c][1..] == [c];
    assert FirstPhase(limit - x - y, [c]) == [z];
    assert FirstPhase(limit - x, [b, c]) == [y, z];
    SumThree(x, y, z);
    SumThree(a.usage, b.usage, c.usage);
  }

  lemma SumThree(a: int, b: int, c: int)
    ensures Sum([a, b, c]) == a + b + c
  {
    assert [a, b, c] == [a] + [b] + [c];
    SumAppend([a] + [b], [c]);
    SumAppend([a], [b]);
  }

  /** The jobs of a run in which a rate becomes negative, as the core controller sees them in three rounds. */
  const FIRST_ROUND := [Ask(507, 279, 0), Ask(2, 261, 0), Ask(821, 645, 0)]
  const SECOND_ROUND := [Ask(507, 475, 333), Ask(2, 29, 2), Ask(821, 597, 665)]
  const THIRD_ROUND := [Ask(507, 280, 338), Ask(2, 1, 2), Ask(821, 607, 665)]

  /** The first rates are far from nothing: every one is enforced. */
  lemma FirstRound()
    ensures Observed(FIRST_ROUND) && Enforced(1000, FIRST_ROUND, false) == [333, 2, 665]
  {
    FirstOfThree(1000, Ask(507, 279, 0), Ask(2, 261, 0), Ask(821, 645, 0), 333, 2, 665);
    assert Computed(1000, FIRST_ROUND) == [333, 2, 665];
  }

  /** High usage: the largest job keeps a rate slightly above its computed one, and 1005 are enforced. */
  lemma SecondRound()
    ensures Observed(SECOND_ROUND) && Enforced(1000, SECOND_ROUND, false) == [338, 2, 665]
  {
    FirstOfThree(1000, Ask(507, 475, 333), Ask(2, 29, 2), Ask(821, 597, 665), 333, 2, 653);
    assert Computed(1000, SECOND_ROUND) == [338, 2, 659];
  }

  lemma ThirdComputed()
    ensures Observed(THIRD_ROUND) && Computed(1000, THIRD_ROUND) == [334, 1, 664] && TotalUsage(THIRD_ROUND) == 888
  {
    FirstOfThree(1000, Ask(507, 280, 338), Ask(2, 1, 2), Ask(821, 607, 665), 333, 1, 660);
    assert Computed(1000, THIRD_ROUND) == [334, 1, 664];
  }

  /** Low usage: the maintained 1003 alone exceed the limit, and the job to be updated is given -3. */
  lemma ThirdRound()
    ensures Observed(THIRD_ROUND) && Enforced(1000, THIRD_ROUND, false) == [338, -3, 665]
  {
    ThirdComputed();
    hide Computed;
    assert Kept(1000, THIRD_ROUND, false) == [338, 0, 665];
    SumThree(338, 0, 665);
    assert Updated(1000, THIRD_ROUND, false) == [0, 1, 0];
    SumThree(0, 1, 0);
  }

  /**
   * Rescaling repairs the hysteresis: if the positive rates are within the limit,
   * a round with low usage leaves non-negative rates within the limit, even when
   * it starts from negative ones.
   */
  lemma RescalingRepairs(limit: int, asks: seq<Ask>, changed: bool)
    requires Observed(asks) && Positive(Computed(limit, asks)) && LowUsage(limit, asks)
    requires Sum(Clip(Previous(asks))) <= limit
    ensures forall i | 0 <= i < |asks| :: 0 <= Enforced(limit, asks, changed)[i]
    ensures Sum(Enforced(limit, asks, changed)) <= limit
  {
    KeptIsSmall(limit, asks, changed);
    NonNegativeExactly(limit, asks, changed);
    UpdatedIsPositive(limit, asks, changed);
    if Rescales(limit, asks, changed) {
      RescaledTotal(limit, asks, changed);
    } else {
      PlainRound(limit, asks, changed);
    }
  }

  /** A round that does not rescale maintains a job within 1% of its computed rate, or sets that rate. */
  lemma ClippedNear(limit: int, asks: seq<Ask>, changed: bool, i: nat)
    requires i < |asks| && Observed(asks) && Positive(Computed(limit, asks)) && !LowUsage(limit, asks)
    ensures 100 * Clip(Enforced(limit, asks, changed))[i] + 1 <= 101 * Computed(limit, asks)[i]
  {
    assert Enforced(limit, asks, changed)[i] == EnforcedAt(limit, asks, changed, i);
    hide Enforced, Computed;
  }

  lemma HighUsageRound(limit: int, asks: seq<Ask>, changed: bool)
    requires 0 <= limit && asks != [] && Observed(asks) && Positive(Computed(limit, asks))
    requires !LowUsage(limit, asks)
    ensures WithinSlack(limit, Enforced(limit, asks, changed))
  {
    var rates := Computed(limit, asks);
    var clipped := Clip(Enforced(limit, asks, changed));
    Conservation(limit, asks);
    forall i | 0 <= i < |asks|
      ensures 100 * clipped[i] + 1 <= 101 * rates[i]
    {
      ClippedNear(limit, asks, changed, i);
    }
    hide Sum, Computed, Enforced, Clip, Observed, Positive, LowUsage;
    SumScale(clipped, 100);
    SumScale(rates, 101);
    SumShift(Scale(clipped, 100), 1);
    SumMonotone(Shift(Scale(clipped, 100), 1), Scale(rates, 101));
  }

  lemma LowUsageRound(limit: int, asks: seq<Ask>, changed: bool)
    requires Observed(asks) && Positive(Computed(limit, asks))
    requires LowUsage(limit, asks) && 0 <= limit
    requires WithinSlack(limit, Previous(asks))
    ensures WithinSlack(limit, Enforced(limit, asks, changed))
  {
    var kept := Kept(limit, asks, changed);
    var enforced := Enforced(limit, asks, changed);
    KeptIsSmall(limit, asks, changed);
    UpdatedIsPositive(limit, asks, changed);
    if !Rescales(limit, asks, changed) {
      PlainRound(limit, asks, changed);
      assert Clip(enforced) == enforced;
    } else if !Updates(limit, asks, changed) {
      assert Clip(enforced) == kept;
    } else {
      RescaledTotal(limit, asks, changed);
      forall i | 0 <= i < |asks| && !MaintainsAll(limit, asks, changed)[i]
        ensures 0 <= enforced[i] <==> Sum(kept) <= limit
      {
        RescaledSignAt(limit, asks, changed, i);
      }
      if 0 <= limit - Sum(kept) {
        assert Clip(enforced) == enforced;
      } else {
        assert Clip(enforced) == kept;
      }
    }
  }

  // ------------------------------------------------------------------
  // How much a round enforces at least
  // ------------------------------------------------------------------

  /** After a change every computed rate is enforced. */
  lemma ChangedRound(limit: int, asks: seq<Ask>)
    requires 0 <= limit && Observed(asks)
    ensures Enforced(limit, asks, true) == Computed(limit, asks)
  {
    var kept, updated := Kept(limit, asks, true), Updated(limit, asks, true);
    assert updated == Computed(limit, asks);
    assert kept == seq(|asks|, _ => 0);
    SumZero(kept);
    if asks == [] {
    } else {
      Conservation(limit, asks);
    }
    assert !Rescales(limit, asks, true);
    hide Computed, Sum;
    assert forall i | 0 <= i < |asks| :: Enforced(limit, asks, true)[i] == EnforcedAt(limit, asks, true, i);
  }

  /** A maintained rate and an unscaled one are at least 95%, or 99%, of the computed rate. */
  lemma UnscaledAtLeast(limit: int, asks: seq<Ask>, changed: bool, i: nat)
    requires Observed(asks) && Positive(Computed(limit, asks)) && i < |asks|
    requires Rescales(limit, asks, changed) ==> MaintainsAll(limit, asks, changed)[i]
    ensures 19 * Computed(limit, asks)[i] <= 20 * Enforced(limit, asks, changed)[i]
    ensures !LowUsage(limit, asks) ==> 99 * Computed(limit, asks)[i] <= 100 * Enforced(limit, asks, changed)[i]
  {
    assert Enforced(limit, asks, changed)[i] == EnforcedAt(limit, asks, changed, i);
    hide Computed, Kept, Updated, TotalUsage;
  }

  lemma ScaledSums(s: seq<int>, t: seq<int>, a: int, b: int)
    requires |s| == |t| && forall i | 0 <= i < |s| :: a * s[i] <= b * t[i]
    ensures a * Sum(s) <= b * Sum(t)
  {
    hide Sum;
    SumScale(s, a);
    SumScale(t, b);
    SumMonotone(Scale(s, a), Scale(t, b));
  }

  /**
   * Every round enforces at least 95% of what it has to hand out, up to rounding;
   * 99% if the stages use at least 95% of the limit, and all of it after a change.
   */
  lemma EnforcedTotalAtLeast(limit: int, asks: seq<Ask>, changed: bool)
    requires asks != [] && |asks| <= limit && Observed(asks) && Demanding(asks)
    ensures 19 * (limit - (|asks| - 1)) <= 20 * Sum(Enforced(limit, asks, changed))
    ensures 19 * limit <= 20 * Sum(Usages(asks)) ==>
      99 * (limit - (|asks| - 1)) <= 100 * Sum(Enforced(limit, asks, changed))
    ensures changed ==> limit - (|asks| - 1) <= Sum(Enforced(limit, asks, changed)) <= limit
  {
    ComputedPositive(limit, asks);
    Conservation(limit, asks);
    if changed {
      ChangedRound(limit, asks);
    }
    if Rescales(limit, asks, changed) && Updates(limit, asks, changed) {
      UpdatedIsPositive(limit, asks, changed);
      RescaledTotal(limit, asks, changed);
    } else {
      UnscaledTotal(limit, asks, changed);
    }
  }

  lemma UnscaledTotal(limit: int, asks: seq<Ask>, changed: bool)
    requires Observed(asks) && Positive(Computed(limit, asks))
    requires Rescales(limit, asks, changed) ==> !Updates(limit, asks, changed)
    ensures 19 * Sum(Computed(limit, asks)) <= 20 * Sum(Enforced(limit, asks, changed))
    ensures !LowUsage(limit, asks) ==> 99 * Sum(Computed(limit, asks)) <= 100 * Sum(Enforced(limit, asks, changed))
  {
    var rates, enforced := Computed(limit, asks), Enforced(limit, asks, changed);
    forall i | 0 <= i < |asks|
      ensures 19 * rates[i] <= 20 * enforced[i]
      ensures !LowUsage(limit, asks) ==> 99 * rates[i] <= 100 * enforced[i]
    {
      UnscaledAtLeast(limit, asks, changed, i);
    }
    hide Computed, Enforced, Sum, MaintainsAll, Rescales;
    ScaledSums(rates, enforced, 19, 20);
    if !LowUsage(limit, asks) {
      ScaledSums(rates, enforced, 99, 100);
    }
  }

  /** A rescaled rate is at least what the maintained rates leave, if that is negative. */
  lemma RescaledFloor(rate: int, allowed: int, updated: int)
    requires 1 <= rate <= updated
    ensures 0 <= Rescaled(rate, allowed, updated) || allowed <= Rescaled(rate, allowed, updated)
  {
    RescaledSign(rate, allowed, updated);
    if allowed < 0 {
      MulMonotone(rate, updated, -allowed);
      assert updated * allowed <= rate * allowed;
      DivMonotone(updated * allowed, rate * allowed, updated);
      DivUnique(updated * allowed, updated, allowed);
    }
  }

  lemma RescaledFloorAt(limit: int, asks: seq<Ask>, changed: bool, i: nat)
    requires Observed(asks) && Positive(Computed(limit, asks)) && Rescales(limit, asks, changed)
    requires i < |asks| && !MaintainsAll(limit, asks, changed)[i]
    ensures 0 <= EnforcedAt(limit, asks, changed, i)
         || limit - Sum(Kept(limit, asks, changed)) <= EnforcedAt(limit, asks, changed, i)
  {
    var updated := Updated(limit, asks, changed);
    hide Sum, Kept, Computed, Rescaled, MaintainsAll, Updated, Observed;
    assert forall k | 0 <= k < |asks| :: 0 <= updated[k];
    EntryBelowSum(updated, i);
    RescaledFloor(Computed(limit, asks)[i], limit - Sum(Kept(limit, asks, changed)), Sum(updated));
  }

  /** Whatever the usage, a round enforces no rate below -1% of the limit. */
  lemma RoundKeepsFloor(limit: int, asks: seq<Ask>, changed: bool, i: nat)
    requires |asks| <= limit && Observed(asks) && Demanding(asks) && i < |asks|
    requires WithinSlack(limit, Previous(asks))
    ensures AboveFloor(limit, Enforced(limit, asks, changed)[i])
  {
    ComputedPositive(limit, asks);
    KeptIsSmall(limit, asks, changed);
    assert Enforced(limit, asks, changed)[i] == EnforcedAt(limit, asks, changed, i);
    hide Sum, Kept, Computed, Rescaled, Updated, Enforced, Observed;
    if Rescales(limit, asks, changed) && !MaintainsAll(limit, asks, changed)[i] {
      RescaledFloorAt(limit, asks, changed, i);
    }
  }

  /** Whatever the usage, a round keeps the enforced rates within 101% of the limit. */
  lemma RoundKeepsSlack(limit: int, asks: seq<Ask>, changed: bool)
    requires |asks| <= limit && Observed(asks) && Demanding(asks)
    requires WithinSlack(limit, Previous(asks))
    ensures WithinSlack(limit, Enforced(limit, asks, changed))
  {
    ComputedPositive(limit, asks);
    if LowUsage(limit, asks) {
      LowUsageRound(limit, asks, changed);
    } else if asks != [] {
      HighUsageRound(limit, asks, changed);
    }
  }
}
