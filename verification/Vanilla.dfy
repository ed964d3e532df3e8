/**
 * The DYNAMIC_VANILLA allocator on the vector of job demands, in the order in
 * which the core controller visits the jobs.
 */
module Vanilla {
  import opened Arithmetic

  /** Demand a job is served for: an unset demand (-1) counts as one operation. */
  function Effective(demand: int): int {
    if demand == -1 then 1 else demand
  }

  function EffectiveAll(demands: seq<int>): (r: seq<int>)
    ensures |r| == |demands|
    ensures forall i | 0 <= i < |r| :: r[i] == Effective(demands[i])
  {
    seq(|demands|, i requires 0 <= i < |demands| => Effective(demands[i]))
  }

  /** Equal share of what is left among the jobs not yet served. */
  function Share(left: int, jobs: nat): int
    requires jobs > 0
  {
    TruncDiv(left, jobs)
  }

  function Grant(left: int, jobs: nat, demand: int): int
    requires jobs > 0
  {
    if demand <= Share(left, jobs) then Effective(demand) else Share(left, jobs)
  }

  /** The demand recorded after the job was served. */
  function Rewritten(left: int, jobs: nat, demand: int): int
    requires jobs > 0
  {
    if demand <= Share(left, jobs) then Effective(demand) else demand
  }

  /** First phase: each job gets its demand or the equal share, whichever is smaller. */
  function FirstPhase(left: int, demands: seq<int>): (rates: seq<int>)
    ensures |rates| == |demands|
    decreases |demands|
  {
    if demands == [] then []
    else
      var r := Grant(left, |demands|, demands[0]);
      [r] + FirstPhase(left - r, demands[1..])
  }

  function RewrittenDemands(left: int, demands: seq<int>): (ds: seq<int>)
    ensures |ds| == |demands|
    decreases |demands|
  {
    if demands == [] then []
    else
      [Rewritten(left, |demands|, demands[0])]
      + RewrittenDemands(left - Grant(left, |demands|, demands[0]), demands[1..])
  }

  function Leftover(limit: int, demands: seq<int>): int {
    limit - Sum(FirstPhase(limit, demands))
  }

  /** Both phases: what the first phase leaves is shared out equally. */
  function Computed(limit: int, demands: seq<int>): (rates: seq<int>)
    ensures |rates| == |demands|
  {
    if demands == [] then []
    else Shift(FirstPhase(limit, demands), Share(Leftover(limit, demands), |demands|))
  }

  // ------------------------------------------------------------------
  // The loop, job by job
  // ------------------------------------------------------------------

  /**
   * What the first loop gives job `k`: of what the jobs before it left, the equal
   * share if that is below its demand, else its demand, or one if that was never
   * set.
   */
  lemma {:induction false} FirstPhaseAt(limit: int, demands: seq<int>, k: nat)
    requires k < |demands|
    ensures var share := TruncDiv(limit - Sum(FirstPhase(limit, demands)[..k]), |demands| - k);
      FirstPhase(limit, demands)[k]
      == if share < demands[k] then share else if demands[k] == -1 then 1 else demands[k]
    decreases |demands|
  {
    var rates, r := FirstPhase(limit, demands), Grant(limit, |demands|, demands[0]);
    if k == 0 {
      assert rates[..0] == [];
    } else {
      assert rates[..k] == [r] + rates[1..][..k - 1];
      FirstPhaseAt(limit - r, demands[1..], k - 1);
    }
  }

  /** The second loop gives every job the same bonus: the equal part of what the first one left. */
  lemma SameBonus(limit: int, demands: seq<int>, k: nat)
    requires k < |demands|
    ensures var first := FirstPhase(limit, demands);
      Computed(limit, demands)[k] == first[k] + TruncDiv(limit - Sum(first), |demands|)
  {
    hide FirstPhase, Sum;
  }

  /**
   * What the first loop writes into the demands: set ones stay, and an unset one
   * becomes 1 exactly if the equal share it meets is not below -1.
   */
  lemma {:induction false} RewrittenAt(limit: int, demands: seq<int>, k: nat)
    requires k < |demands|
    ensures var share := TruncDiv(limit - Sum(FirstPhase(limit, demands)[..k]), |demands| - k);
      RewrittenDemands(limit, demands)[k] == if demands[k] == -1 && -1 <= share then 1 else demands[k]
    decreases |demands|
  {
    var rates, r := FirstPhase(limit, demands), Grant(limit, |demands|, demands[0]);
    if k == 0 {
      assert rates[..0] == [];
    } else {
      assert rates[..k] == [r] + rates[1..][..k - 1];
      RewrittenAt(limit - r, demands[1..], k - 1);
    }
  }

  /** With an operation for every unset demand, each of them becomes 1. */
  lemma {:induction false} UnsetBecomesOne(limit: int, demands: seq<int>, k: nat)
    requires k < |demands| && Shareable(limit, demands) && demands[k] == -1
    ensures RewrittenDemands(limit, demands)[k] == 1
    decreases |demands|
  {
    ServeOne(limit, demands);
    if k == 0 {
    } else {
      UnsetBecomesOne(limit - Grant(limit, |demands|, demands[0]), demands[1..], k - 1);
    }
  }

  lemma EnoughIsShareable(limit: int, demands: seq<int>)
    requires |demands| <= limit
    ensures Shareable(limit, demands)
  {
    UnsetCountBounded(demands);
  }

  // ------------------------------------------------------------------
  // When the limit can be shared
  // ------------------------------------------------------------------

  /** Number of jobs whose demand was never set. */
  function UnsetCount(demands: seq<int>): nat {
    if demands == [] then 0 else (if demands[0] == -1 then 1 else 0) + UnsetCount(demands[1..])
  }

  /** There is an operation for every unset demand, which is rounded up to one. */
  predicate Shareable(limit: int, demands: seq<int>) {
    UnsetCount(demands) <= limit
  }

  lemma {:induction false} UnsetCountBounded(demands: seq<int>)
    ensures UnsetCount(demands) <= |demands|
  {
    if demands == [] {
    } else {
      UnsetCountBounded(demands[1..]);
    }
  }

  lemma {:induction false} UnsetIsCounted(demands: seq<int>, i: nat)
    requires i < |demands| && demands[i] == -1
    ensures 1 <= UnsetCount(demands)
  {
    if i == 0 {
    } else {
      UnsetIsCounted(demands[1..], i - 1);
    }
  }

  /** Serving one job keeps the limit shareable and never lowers the share of the others. */
  lemma ServeOne(left: int, demands: seq<int>)
    requires demands != [] && Shareable(left, demands)
    ensures
      var r, share := Grant(left, |demands|, demands[0]), Share(left, |demands|);
      && 0 <= share && Min(Effective(demands[0]), share) <= r <= Effective(demands[0])
      && (demands[0] != -1 || |demands| <= left ==> r <= share)
      && Shareable(left - r, demands[1..])
      && (|demands| > 1 ==> share <= Share(left - r, |demands| - 1))
      && (|demands| <= left ==> |demands| - 1 <= left - r)
  {
    var n := |demands|;
    var r := Grant(left, n, demands[0]);
    ShareFits(left, n);
    UnsetCountBounded(demands[1..]);
    if n <= left {
      ShareLeavesOne(left, n);
    } else {
      DivUnique(left, n, 0);
    }
    if n > 1 {
      if r <= left / n {
        ShareGrows(left, n, r);
      } else {
        DivMonotone(0, left - r, n - 1);
      }
    }
  }

  /** In any order of jobs, each one gets its demand or at least the initial equal share. */
  lemma {:induction false} GuaranteedShare(left: int, demands: seq<int>, k: nat)
    requires k < |demands| && Shareable(left, demands)
    ensures Min(Effective(demands[k]), left / |demands|) <= FirstPhase(left, demands)[k] <= Effective(demands[k])
    decreases |demands|
  {
    ServeOne(left, demands);
    if k == 0 {
    } else {
      GuaranteedShare(left - Grant(left, |demands|, demands[0]), demands[1..], k - 1);
    }
  }

  /**
   * A job served earlier with no larger demand never gets more than one served
   * later, unless its demand is unset and some job cannot have an operation: an
   * unset demand is always worth one.
   */
  lemma {:induction false} SmallerDemandGetsNoMore(left: int, demands: seq<int>, i: nat, j: nat)
    requires i < j < |demands| && Shareable(left, demands)
    requires Effective(demands[i]) <= Effective(demands[j])
    ensures demands[i] != -1 || |demands| <= left ==> FirstPhase(left, demands)[i] <= FirstPhase(left, demands)[j]
    ensures demands[i] == -1 ==> FirstPhase(left, demands)[i] == 1
    decreases |demands|
  {
    var r := Grant(left, |demands|, demands[0]);
    ServeOne(left, demands);
    assert FirstPhase(left, demands) == [r] + FirstPhase(left - r, demands[1..]);
    assert demands[0] == -1 ==> r == 1;
    hide FirstPhase, Shareable, Grant;
    if i == 0 {
      GuaranteedShare(left - r, demands[1..], j - 1);
    } else {
      SmallerDemandGetsNoMore(left - r, demands[1..], i - 1, j - 1);
    }
  }

  lemma {:induction false} LeftoverNonNegative(left: int, demands: seq<int>)
    requires Shareable(left, demands)
    ensures 0 <= Leftover(left, demands)
    decreases |demands|
  {
    if demands == [] {
    } else {
      ServeOne(left, demands);
      LeftoverNonNegative(left - Grant(left, |demands|, demands[0]), demands[1..]);
    }
  }

  /** A job with an unset demand is handed one operation, unless its rate is negative. */
  lemma {:induction false} UnsetCostsOne(left: int, demands: seq<int>)
    requires NoneNegative(FirstPhase(left, demands))
    ensures UnsetCount(demands) <= Sum(FirstPhase(left, demands))
    decreases |demands|
  {
    if demands == [] {
    } else {
      var r := Grant(left, |demands|, demands[0]);
      var rates, rest := FirstPhase(left, demands), FirstPhase(left - r, demands[1..]);
      assert rates == [r] + rest && rates[0] == r;
      assert forall i | 0 <= i < |rest| :: rest[i] == rates[i + 1];
      UnsetCostsOne(left - r, demands[1..]);
    }
  }

  ghost predicate NoneNegative(rates: seq<int>) {
    forall i | 0 <= i < |rates| :: 0 <= rates[i]
  }

  lemma ShareableSuffices(limit: int, demands: seq<int>)
    requires Shareable(limit, demands) && forall i | 0 <= i < |demands| :: -1 <= demands[i]
    ensures NoneNegative(FirstPhase(limit, demands))
  {
    forall i | 0 <= i < |demands|
      ensures 0 <= FirstPhase(limit, demands)[i]
    {
      GuaranteedShare(limit, demands, i);
      ShareFits(limit, |demands|);
      assert 0 <= Effective(demands[i]);
      hide FirstPhase, Shareable;
    }
  }

  /**
   * Exactly when the first phase hands out no negative rate and overspends
   * nothing: when at most `limit` demands are unset.
   */
  lemma ShareableExactly(limit: int, demands: seq<int>)
    requires forall i | 0 <= i < |demands| :: -1 <= demands[i]
    ensures NoneNegative(FirstPhase(limit, demands)) && 0 <= Leftover(limit, demands) <==> Shareable(limit, demands)
  {
    if Shareable(limit, demands) {
      LeftoverNonNegative(limit, demands);
      ShareableSuffices(limit, demands);
    }
    if NoneNegative(FirstPhase(limit, demands)) {
      UnsetCostsOne(limit, demands);
    }
    hide FirstPhase, NoneNegative, UnsetCount;
  }

  /** Three unset demands and one operation: more than the limit is handed out. */
  lemma UnsetDemandsCanOverspend()
    ensures Sum(Computed(1, [-1, -1, -1])) > 1
  {
    assert FirstPhase(-1, [-1]) == [1];
    assert FirstPhase(0, [-1, -1]) == [1] + FirstPhase(-1, [-1, -1][1..]) && [-1, -1][1..] == [-1];
    assert FirstPhase(1, [-1, -1, -1]) == [1] + FirstPhase(0, [-1, -1, -1][1..]) && [-1, -1, -1][1..] == [-1, -1];
    assert Computed(1, [-1, -1, -1]) == [1, 1, 1];
    assert Sum([1, 1, 1]) == 3;
  }

  /** One more unset demand, and the last job is handed a negative rate instead. */
  lemma UnsetDemandsCanGoNegative()
    ensures FirstPhase(1, [-1, -1, -1, -1]) == [1, 1, 1, -2]
  {
    OneUnset(-2, []);
    OneUnset(-1, [-1]);
    OneUnset(0, [-1, -1]);
    OneUnset(1, [-1, -1, -1]);
    assert [-1] + [] == [-1];
    assert [-1] + [-1] == [-1, -1];
    assert [-1] + [-1, -1] == [-1, -1, -1];
    assert [-1] + [-1, -1, -1] == [-1, -1, -1, -1];
    hide FirstPhase, Grant;
    assert FirstPhase(-2, [-1]) == [-2] + FirstPhase(0, []);
  }

  /** The first job, with an unset demand, is served. */
  lemma OneUnset(left: int, rest: seq<int>)
    ensures var r := if -1 <= Share(left, |rest| + 1) then 1 else Share(left, |rest| + 1);
      FirstPhase(left, [-1] + rest) == [r] + FirstPhase(left - r, rest)
    ensures FirstPhase(left, []) == []
  {
    assert ([-1] + rest)[1..] == rest;
  }

  lemma DivideOut(left: int, n: int)
    requires 0 <= left && 0 < n
    ensures 0 <= TruncDiv(left, n) && n * TruncDiv(left, n) == left - left % n && 0 <= left % n < n
  {
    DivMonotone(0, left, n);
  }

  /** Conservation: rounding loses less than one operation a job, and nothing is invented. */
  lemma Conservation(limit: int, demands: seq<int>)
    requires demands != [] && Shareable(limit, demands)
    ensures Sum(Computed(limit, demands)) == limit - Leftover(limit, demands) % |demands|
    ensures limit - (|demands| - 1) <= Sum(Computed(limit, demands)) <= limit
    ensures forall k | 0 <= k < |demands| ::
      Min(Effective(demands[k]), limit / |demands|) <= Computed(limit, demands)[k]
  {
    var left := Leftover(limit, demands);
    LeftoverNonNegative(limit, demands);
    SumShift(FirstPhase(limit, demands), Share(left, |demands|));
    DivideOut(left, |demands|);
    hide FirstPhase, Shareable, Effective, Sum;
    forall k | 0 <= k < |demands|
      ensures Min(Effective(demands[k]), limit / |demands|) <= Computed(limit, demands)[k]
    {
      GuaranteedShare(limit, demands, k);
    }
  }

  // ------------------------------------------------------------------
  // Max-min fairness, when demands do not decrease in visiting order
  // ------------------------------------------------------------------

  predicate Sorted(demands: seq<int>) {
    forall i, j | 0 <= i < j < |demands| :: demands[i] <= demands[j]
  }

  /** Water poured to level `level` over the demands. */
  function Poured(demands: seq<int>, level: int): (r: seq<int>)
    ensures |r| == |demands|
    ensures forall i | 0 <= i < |r| :: r[i] == Min(Effective(demands[i]), level)
  {
    seq(|demands|, i requires 0 <= i < |demands| => Min(Effective(demands[i]), level))
  }

  /** The integer water level: pouring one unit higher would exceed the limit. */
  ghost predicate IsWaterLevel(limit: int, demands: seq<int>, level: int) {
    Sum(Poured(demands, level)) <= limit < Sum(Poured(demands, level + 1))
  }

  /** Once one job was capped at `q`, every later job gets `q` or `q + 1` and nothing is left. */
  lemma {:induction false} CappedTail(left: int, demands: seq<int>, q: int)
    requires 0 <= q
    requires q * |demands| <= left <= (q + 1) * |demands|
    requires forall i | 0 <= i < |demands| :: q + 1 <= demands[i]
    ensures forall i | 0 <= i < |demands| :: q <= FirstPhase(left, demands)[i] <= q + 1
    ensures Sum(FirstPhase(left, demands)) == left
    decreases |demands|
  {
    if demands == [] {
    } else {
      var share := CappedStep(left, |demands|, q);
      CappedTail(left - share, demands[1..], q);
    }
  }

  lemma CappedStep(left: int, n: int, q: int) returns (share: int)
    requires 0 < n && 0 <= q && q * n <= left <= (q + 1) * n
    ensures share == left / n && q <= share <= q + 1
    ensures q * (n - 1) <= left - share <= (q + 1) * (n - 1)
    ensures 0 <= left && (n == 1 ==> share == left)
  {
    assert (q + 1) * n == q * n + n;
    assert q * n == q * (n - 1) + q;
    assert (q + 1) * n == (q + 1) * (n - 1) + (q + 1);
    share := if left == (q + 1) * n then q + 1 else q;
    DivUnique(left, n, share);
  }

  /**
   * Shape of the first phase over sorted demands: either every demand is met,
   * or a level `q` separates the jobs met in full from the capped ones, and
   * everything is handed out.
   */
  lemma {:induction false} SortedShape(left: int, demands: seq<int>) returns (capped: bool, q: int)
    requires Shareable(left, demands) && Sorted(demands)
    ensures !capped ==> FirstPhase(left, demands) == EffectiveAll(demands)
    ensures capped ==> Capped(left, demands, q)
    decreases |demands|
  {
    if demands == [] {
      capped, q := false, 0;
    } else {
      var share := Share(left, |demands|);
      ServeOne(left, demands);
      if demands[0] <= share {
        hide FirstPhase, Capped, EffectiveAll, Sum;
        capped, q := SortedShape(left - Effective(demands[0]), demands[1..]);
        MetFirst(left, demands, capped, q);
      } else {
        capped, q := true, share;
        CapsFrom(left, |demands|);
        CappedTail(left, demands, q);
      }
    }
  }

  /** Level `q` separates the jobs met in full from the capped ones, and nothing is left. */
  ghost predicate Capped(left: int, demands: seq<int>, q: int) {
    && 0 <= q && Sum(FirstPhase(left, demands)) == left
    && demands != [] && Share(left, |demands|) <= q
    && forall i | 0 <= i < |demands| ::
         var r := FirstPhase(left, demands)[i];
         Min(Effective(demands[i]), q) <= r <= Min(Effective(demands[i]), q + 1)
  }

  lemma MetFirst(left: int, demands: seq<int>, capped: bool, q: int)
    requires demands != [] && Shareable(left, demands) && demands[0] <= Share(left, |demands|)
    requires var rest, more := left - Effective(demands[0]), demands[1..];
      if capped then Capped(rest, more, q) else FirstPhase(rest, more) == EffectiveAll(more)
    ensures if capped then Capped(left, demands, q) else FirstPhase(left, demands) == EffectiveAll(demands)
  {
    hide FirstPhase, Capped, EffectiveAll, Sum, Shareable, Share;
    if capped {
      CappedFirst(left, demands, q);
    } else {
      MetHead(left, demands);
    }
  }

  lemma MetHead(left: int, demands: seq<int>)
    requires demands != [] && Shareable(left, demands) && demands[0] <= Share(left, |demands|)
    requires FirstPhase(left - Effective(demands[0]), demands[1..]) == EffectiveAll(demands[1..])
    ensures FirstPhase(left, demands) == EffectiveAll(demands)
  {
    assert FirstPhase(left, demands) == [Effective(demands[0])] + FirstPhase(left - Effective(demands[0]), demands[1..]);
    assert EffectiveAll(demands) == [Effective(demands[0])] + EffectiveAll(demands[1..]);
  }

  lemma CappedFirst(left: int, demands: seq<int>, q: int)
    requires demands != [] && Shareable(left, demands) && demands[0] <= Share(left, |demands|)
    requires Capped(left - Effective(demands[0]), demands[1..], q)
    ensures Capped(left, demands, q)
  {
    var r := Effective(demands[0]);
    ServeOne(left, demands);
    var rates, rest := FirstPhase(left, demands), FirstPhase(left - r, demands[1..]);
    assert rates == [r] + rest;
    hide FirstPhase, Shareable, Share, Sum;
    forall i | 0 <= i < |demands|
      ensures Min(Effective(demands[i]), q) <= rates[i] <= Min(Effective(demands[i]), q + 1)
    {
      if i == 0 {
        assert r <= q + 1;
      } else {
        assert demands[i] == demands[1..][i - 1] && rates[i] == rest[i - 1];
      }
    }
    SumOfCons(r, rest);
  }

  lemma SumOfCons(r: int, rest: seq<int>)
    ensures Sum([r] + rest) == r + Sum(rest)
  {
    assert ([r] + rest)[1..] == rest;
  }

  lemma CapsFrom(left: int, n: int)
    requires 0 < n && 0 <= left
    ensures 0 <= left / n && (left / n) * n <= left <= (left / n + 1) * n
  {
    DivBounds(left, n);
    DivMonotone(0, left, n);
  }

  /** The one-pass loop refines water filling: rates lie between level and level + 1. */
  lemma RefinesWaterFilling(limit: int, demands: seq<int>, level: int)
    requires Shareable(limit, demands) && Sorted(demands) && IsWaterLevel(limit, demands, level)
    ensures Sum(FirstPhase(limit, demands)) == limit
    ensures forall i | 0 <= i < |demands| ::
      var r := FirstPhase(limit, demands)[i];
      Min(Effective(demands[i]), level) <= r <= Min(Effective(demands[i]), level + 1)
  {
    var rates := FirstPhase(limit, demands);
    var capped, q := SortedShape(limit, demands);
    if !capped {
      LeftoverNonNegative(limit, demands);
      SumMonotone(Poured(demands, level + 1), rates);
    } else {
      SumMonotone(Poured(demands, q), rates);
      SumMonotone(rates, Poured(demands, q + 1));
      if level < q {
        SumMonotone(Poured(demands, level + 1), Poured(demands, q));
      } else if level > q {
        SumMonotone(Poured(demands, q + 1), Poured(demands, level));
        SumSqueeze(rates, Poured(demands, q + 1));
        SumSqueeze(Poured(demands, q + 1), Poured(demands, level));
      }
    }
  }

  /** A water level exists exactly when the demands exceed the limit. */
  lemma WaterLevelExists(limit: int, demands: seq<int>)
    requires 0 <= limit
    ensures Sum(EffectiveAll(demands)) > limit <==> exists level :: IsWaterLevel(limit, demands, level)
  {
    if level :| IsWaterLevel(limit, demands, level) {
      SumMonotone(Poured(demands, level + 1), EffectiveAll(demands));
    }
    if Sum(EffectiveAll(demands)) > limit {
      var zero := seq(|demands|, _ => 0);
      SumMonotone(Poured(demands, 0), zero);
      SumZero(zero);
      var top := Top(demands);
      var level := 0;
      while Sum(Poured(demands, level + 1)) <= limit
        invariant 0 <= level <= top && Sum(Poured(demands, level)) <= limit
        decreases top - level
      {
        if level == top {
          SumMonotone(EffectiveAll(demands), Poured(demands, level + 1));
        }
        level := level + 1;
      }
      assert IsWaterLevel(limit, demands, level);
    }
  }

  /** A bound of all effective demands. */
  function Top(demands: seq<int>): (t: nat)
    ensures forall i | 0 <= i < |demands| :: Effective(demands[i]) <= t
  {
    if demands == [] then 0 else Max(Effective(demands[0]), Top(demands[1..]))
  }

  /**
   * Max-min fairness up to one operation: no feasible allocation raises a job
   * without lowering one that has at most one operation more than it.
   */
  lemma MaxMinFair(limit: int, demands: seq<int>, other: seq<int>, i: nat)
    requires Shareable(limit, demands) && Sorted(demands)
    requires |other| == |demands| && i < |demands|
    requires forall k | 0 <= k < |demands| :: other[k] <= Effective(demands[k])
    requires Sum(other) <= limit
    requires other[i] > FirstPhase(limit, demands)[i]
    ensures exists j | 0 <= j < |demands| ::
      other[j] < FirstPhase(limit, demands)[j] <= FirstPhase(limit, demands)[i] + 1
  {
    var rates := FirstPhase(limit, demands);
    var capped, q := SortedShape(limit, demands);
    assert capped;
    SumWitness(other, rates, i);
    var j :| 0 <= j < |demands| && other[j] < rates[j];
    assert rates[j] <= q + 1 <= rates[i] + 1;
  }
}
