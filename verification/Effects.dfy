/**
 * What one policy, one statistics reply and one round do to each job, in plain
 * numbers and without the functions that define them.
 */
module Effects {
  import opened Arithmetic
  import opened Sequences
  import opened Registry
  import opened Statistics
  import opened Sessions
  import opened Rounds
  import opened RoundLaws
  import opened Programs
  import Decimal
  import Tokenizer
  import EnforcementWire
  import Vanilla
  import Leftover

  // ------------------------------------------------------------------
  // Policies
  // ------------------------------------------------------------------

  /**
   * A demand line sets the demand of the job it names and the operation, and
   * counts as a change under static control; a line of another kind clears the
   * operation, an empty queue does nothing, and neither touches a demand.
   */
  lemma PolicyEffect(c: Core, rule: string)
    requires PolicyReadable(rule)
    ensures var tokens, p := Tokenizer.Tokens(rule, '|'), UpdateDemands(c, rule);
      var demand := rule != "" && (tokens[1] == "demand" || tokens[1] == "job");
      && p.demands == (if demand then c.demands[tokens[2] := Decimal.Parse(tokens[4]).value] else c.demands)
      && p.activeOperation == (if rule == "" then c.activeOperation else if demand then tokens[3] else "")
      && p.changed == c.changed && MarkPolicy(p, rule).changed == (c.changed || demand)
      && MarkPolicy(p, rule) == p.(changed := c.changed || demand)
  {
    if rule != "" {
      var tokens := Tokenizer.Tokens(rule, '|');
      DemandKinds(tokens[1]);
      assert 4 <= |tokens| ==> tokens[3] in tokens;
    }
    hide Tokenizer.Tokens, Decimal.Parse, SetsDemand;
  }

  lemma DemandKinds(kind: string)
    ensures SetsDemand(kind) <==> kind == "demand" || kind == "job"
  {
  }

  // ------------------------------------------------------------------
  // Usage of a job
  // ------------------------------------------------------------------

  /** The usage a reply reports for a stage: at least one operation, also if the stage is missing. */
  ghost predicate Reports(reply: seq<Sample>, s: Stage, usage: int) {
    && (forall i | 0 <= i < |reply| :: reply[i].stage == s ==> usage == if reply[i].rate == 0 then 1 else reply[i].rate)
    && ((forall i | 0 <= i < |reply| :: reply[i].stage != s) ==> usage == 1)
  }

  lemma {:induction false} ReportedUsage(reply: seq<Sample>, s: Stage, usage: int)
    requires Reports(reply, s, usage)
    ensures SampledUsage(reply, s) == usage
  {
    if reply == [] || reply[0].stage == s {
    } else {
      forall i | 0 <= i < |reply[1..]|
        ensures reply[1..][i] == reply[i + 1]
      {
      }
      if forall i | 0 <= i < |reply[1..]| :: reply[1..][i].stage != s {
        assert forall i | 0 < i < |reply| :: reply[i] == reply[1..][i - 1];
      }
      ReportedUsage(reply[1..], s, usage);
    }
  }

  /** The usage of each stage of a job at one address: reported, or the whole limit for each live job if not asked. */
  ghost predicate StageUsages(unasked: int, asked: seq<string>, replies: map<string, seq<Sample>>,
                              job: string, address: string, envs: seq<int>, usages: seq<int>) {
    && |usages| == |envs|
    && forall k | 0 <= k < |envs| ::
         if address !in asked then usages[k] == unasked
         else address in replies && Reports(replies[address], Stage(job, envs[k]), usages[k])
  }

  lemma {:induction false} EnvsUsageIs(unasked: int, asked: seq<string>, replies: map<string, seq<Sample>>,
                                       job: string, address: string, envs: seq<int>, usages: seq<int>)
    requires address in asked ==> address in replies
    requires StageUsages(unasked, asked, replies, job, address, envs, usages)
    ensures EnvsUsage(unasked, asked, replies, job, address, envs) == Sum(usages)
  {
    if envs == [] {
    } else {
      if address in asked {
        ReportedUsage(replies[address], Stage(job, envs[0]), usages[0]);
      }
      hide Reports;
      EnvsUsageIs(unasked, asked, replies, job, address, envs[1..], usages[1..]);
    }
  }

  /** Sum of all the usages at all addresses. */
  function SumAll(usages: seq<seq<int>>): int {
    if usages == [] then 0 else Sum(usages[0]) + SumAll(usages[1..])
  }

  lemma {:induction false} JobUsageIs(unasked: int, asked: seq<string>, replies: map<string, seq<Sample>>, job: string,
                                      located: map<string, seq<int>>, addresses: seq<string>, usages: seq<seq<int>>)
    requires forall a | a in addresses :: a in located && (a in asked ==> a in replies)
    requires |usages| == |addresses|
    requires forall i | 0 <= i < |addresses| ::
      StageUsages(unasked, asked, replies, job, addresses[i], located[addresses[i]], usages[i])
    ensures JobUsage(unasked, asked, replies, job, located, addresses) == SumAll(usages)
  {
    if addresses == [] {
    } else {
      assert addresses[0] in addresses;
      EnvsUsageIs(unasked, asked, replies, job, addresses[0], located[addresses[0]], usages[0]);
      hide StageUsages;
      JobUsageIs(unasked, asked, replies, job, located, addresses[1..], usages[1..]);
    }
  }

  /**
   * What a leftover round knows of a job: its demand, its enforced rate, and the
   * usage of all its stages at all its addresses, where each stage of a local
   * controller that was not asked counts as the limit times the number of jobs.
   */
  lemma AskOfJob(c: Core, o: Order, asked: seq<string>, replies: map<string, seq<Sample>>, i: nat, usages: seq<seq<int>>)
    requires Ready(c, o) && StatisticsAtHand(c, asked, replies) && i < |o.jobs|
    requires |usages| == |o.addresses[o.jobs[i]]|
    requires forall k | 0 <= k < |usages| :: var a := o.addresses[o.jobs[i]][k];
      StageUsages(c.limit * |c.locations|, asked, replies, o.jobs[i], a, c.locations[o.jobs[i]][a], usages[k])
    ensures Asks(c, o, asked, replies)[i]
         == Leftover.Ask(c.demands[o.jobs[i]], SumAll(usages), c.previous[o.jobs[i]])
  {
    var j := o.jobs[i];
    assert j in o.jobs;
    hide IndexesAgree, Tidy, StageUsages;
    JobUsageIs(Unasked(c), asked, replies, j, c.locations[j], o.addresses[j], usages);
  }

  // ------------------------------------------------------------------
  // Rates and demands of one round
  // ------------------------------------------------------------------

  lemma JobIsTracked(c: Core, o: Order, i: nat)
    requires Ready(c, o) && i < |o.jobs|
    ensures o.jobs[i] in c.locations && o.jobs[i] in c.demands && o.jobs[i] in c.rates && o.jobs[i] in c.previous
    ensures NoDuplicates(o.jobs) && forall k | 0 <= k < |o.jobs| :: o.jobs[k] in c.demands && o.jobs[k] in c.previous
  {
    assert forall k | 0 <= k < |o.jobs| :: o.jobs[k] in o.jobs;
  }

  /** Far enough from the enforced rate means at least 10 off it. */
  lemma SignificantAt(rates: seq<int>, previous: seq<int>, changed: bool, i: nat)
    requires |rates| == |previous| && i < |rates|
    ensures Significant(rates, previous, changed)[i]
       <==> changed || 10 <= rates[i] - previous[i] || 10 <= previous[i] - rates[i]
  {
  }

  /** Static: the rate of a job is its demand, or the one it had, and is sent if at least 10 off the enforced one. */
  lemma StaticSentExactly(m: Core, o: Order, i: nat)
    requires Ready(m, o) && i < |o.jobs|
    ensures var j := o.jobs[i];
      && j in m.demands && j in m.rates && j in m.previous
      && var w := if m.demands[j] != -1 then m.demands[j] else m.rates[j];
         && StaticRates(m, o)[i] == w
         && (StaticSent(m, o)[i] <==> 10 <= w - m.previous[j] || 10 <= m.previous[j] - w)
  {
    JobIsTracked(m, o, i);
    assert StaticRates(m, o)[i] == Overlay(m)[o.jobs[i]];
    hide Consistent, Visits, StaticRates;
  }

  /** Vanilla: the computed rate of a job is sent if at least 10 off the enforced one, and after a change in any case. */
  lemma VanillaSentExactly(p: Core, o: Order, i: nat)
    requires Ready(p, o) && i < |o.jobs|
    ensures var j := o.jobs[i];
      && j in p.previous
      && var v := Vanilla.Computed(p.limit, Values(p.demands, o.jobs))[i];
         && VanillaRates(p, o)[i] == v
         && (VanillaSent(p, o)[i] <==> p.changed || 10 <= v - p.previous[j] || 10 <= p.previous[j] - v)
  {
    JobIsTracked(p, o, i);
    SignificantAt(VanillaRates(p, o), Values(p.previous, o.jobs), p.changed, i);
    assert VanillaSent(p, o)[i] == Significant(VanillaRates(p, o), Values(p.previous, o.jobs), p.changed)[i] by {
      hide *;
    }
    hide Ready, Vanilla.Computed, Significant, VanillaSent;
  }

  /** Of one job the enforcing loop sends the rate and records it, or withdraws it. */
  lemma EnforcedJob(c: Core, o: Order, rates: seq<int>, sent: seq<bool>, i: nat)
    requires Ready(c, o) && |rates| == |sent| == |o.jobs| && i < |o.jobs|
    ensures var d, j := Enforce(c, o, rates, sent), o.jobs[i];
      && j in d.rates && j in d.previous && j in c.previous
      && d.rates[j] == (if sent[i] then rates[i] else -1)
      && d.previous[j] == (if sent[i] then rates[i] else c.previous[j])
  {
    JobIsTracked(c, o, i);
    hide Ready, Consistent, Visits, NoDuplicates;
    Assigned(c.rates, o.jobs, Choose(sent, rates, Unset(|o.jobs|)));
    Assigned(c.previous, o.jobs, Choose(sent, rates, Values(c.previous, o.jobs)));
  }

  /** Vanilla: a rate at least 10 off the enforced one is enforced, and every rate after a change; any other is withdrawn. */
  lemma VanillaJob(c: Core, o: Order, i: nat)
    requires Ready(c, o) && i < |o.jobs|
    ensures var d, j := VanillaRound(c, o), o.jobs[i];
      && j in d.rates && j in d.previous && j in c.previous
      && var v := Vanilla.Computed(c.limit, Values(c.demands, o.jobs))[i];
         if c.changed || 10 <= v - c.previous[j] || 10 <= c.previous[j] - v
         then d.rates[j] == d.previous[j] == v
         else d.rates[j] == -1 && d.previous[j] == c.previous[j]
  {
    EnforcedJob(c, o, VanillaRates(c, o), VanillaSent(c, o), i);
    VanillaSentExactly(c, o, i);
    JobIsTracked(c, o, i);
    hide Ready, Vanilla.Computed, Vanilla.RewrittenDemands, NoDuplicates, Assign, Enforce, VanillaRates, VanillaSent;
  }

  lemma VanillaRoundDemands(c: Core, o: Order)
    requires Ready(c, o)
    ensures NoDuplicates(o.jobs)
    ensures VanillaRound(c, o).demands
         == Assign(c.demands, o.jobs, Vanilla.RewrittenDemands(c.limit, Values(c.demands, o.jobs)))
  {
    hide Consistent, Vanilla.RewrittenDemands, NoDuplicates, VanillaRates, VanillaSent, Enforce;
  }

  /**
   * Vanilla, the demands: a set one stays; an unset one becomes 1 or stays unset,
   * and becomes 1 whenever the limit has an operation for each unset demand.
   */
  lemma VanillaDemand(c: Core, o: Order, i: nat)
    requires Ready(c, o) && i < |o.jobs|
    ensures var d, j := VanillaRound(c, o), o.jobs[i];
      && j in c.demands && j in d.demands
      && (c.demands[j] != -1 ==> d.demands[j] == c.demands[j])
      && (c.demands[j] == -1 ==> d.demands[j] == 1 || d.demands[j] == -1)
      && (c.demands[j] == -1 && Vanilla.Shareable(c.limit, Values(c.demands, o.jobs)) ==> d.demands[j] == 1)
      && (c.demands[j] == -1 && |o.jobs| <= c.limit ==> d.demands[j] == 1)
  {
    JobIsTracked(c, o, i);
    VanillaRoundDemands(c, o);
    var demands := Values(c.demands, o.jobs);
    var ds := Vanilla.RewrittenDemands(c.limit, demands);
    hide Ready, VanillaRound, Vanilla.RewrittenDemands, Vanilla.FirstPhase, Vanilla.Shareable, NoDuplicates, Assign;
    Vanilla.RewrittenAt(c.limit, demands, i);
    if c.demands[o.jobs[i]] == -1 && Vanilla.Shareable(c.limit, demands) {
      Vanilla.UnsetBecomesOne(c.limit, demands, i);
    }
    if |o.jobs| <= c.limit {
      Vanilla.EnoughIsShareable(c.limit, demands);
    }
    Assigned(c.demands, o.jobs, ds);
  }

  /** Demands of jobs that a vanilla round does not visit stay as they are. */
  lemma VanillaElsewhere(c: Core, o: Order, j: string)
    requires Ready(c, o) && j !in o.jobs
    ensures SameAt(c.demands, VanillaRound(c, o).demands, j)
  {
    VanillaRoundDemands(c, o);
    hide Ready, VanillaRound, Vanilla.RewrittenDemands, NoDuplicates, Assign, Values;
    Assigned(c.demands, o.jobs, Vanilla.RewrittenDemands(c.limit, Values(c.demands, o.jobs)));
  }

  /**
   * Static: after a change the rate of a job is its demand if that is set, else
   * the rate it had. At least 10 off the enforced rate it is enforced; any other is
   * withdrawn. Without a change, nothing happens.
   */
  lemma StaticJob(c: Core, o: Order, i: nat)
    requires Ready(c, o) && i < |o.jobs|
    ensures var d, j := StaticRound(c, o), o.jobs[i];
      && d.demands == c.demands && (!c.changed ==> d == c)
      && j in c.demands && j in c.rates && j in c.previous && j in d.rates && j in d.previous
      && var w := if c.demands[j] != -1 then c.demands[j] else c.rates[j];
         c.changed ==>
           if 10 <= w - c.previous[j] || 10 <= c.previous[j] - w
           then d.rates[j] == d.previous[j] == w
           else d.rates[j] == -1 && d.previous[j] == c.previous[j]
  {
    JobIsTracked(c, o, i);
    OverlayKeeps(c, o);
    var m := c.(rates := Overlay(c));
    if c.changed {
      EnforcedJob(m, o, StaticRates(c, o), StaticSent(c, o), i);
      StaticSentExactly(c, o, i);
    }
    hide Ready, NoDuplicates, Enforce, StaticRates, StaticSent, Overlay;
  }

  /** Static, jobs that are not visited: their enforced rates stay, and their rates become their demands if those are set. */
  lemma StaticElsewhere(c: Core, o: Order, j: string)
    requires Ready(c, o) && j !in o.jobs
    ensures var d := StaticRound(c, o);
      && d.demands == c.demands && SameAt(c.previous, d.previous, j)
      && if c.changed && o.jobs != [] && j in c.demands && c.demands[j] != -1
         then j in d.rates && d.rates[j] == c.demands[j]
         else SameAt(c.rates, d.rates, j)
  {
    if o.jobs != [] {
      JobIsTracked(c, o, 0);
      OverlayKeeps(c, o);
      Assigned(Overlay(c), o.jobs, Choose(StaticSent(c, o), StaticRates(c, o), Unset(|o.jobs|)));
      Assigned(c.previous, o.jobs, Choose(StaticSent(c, o), StaticRates(c, o), Values(c.previous, o.jobs)));
    }
    hide Consistent, Visits, NoDuplicates, Assign, StaticRates, StaticSent, Choose;
  }

  /** Leftover: the rate of a job is the computed one, or the enforced one if that was changed, and is enforced unless maintained. */
  lemma LeftoverJob(c: Core, o: Order, asks: seq<Leftover.Ask>, i: nat)
    requires Ready(c, o) && |asks| == |o.jobs| && Leftover.Observed(asks) && i < |o.jobs|
    requires Leftover.Previous(asks) == Values(c.previous, o.jobs)
    ensures var d, j := LeftoverRound(c, o, asks), o.jobs[i];
      && d.demands == c.demands && j in d.rates && j in d.previous && j in c.previous
      && d.previous[j] == Leftover.Enforced(c.limit, asks, c.changed)[i]
      && var rate := Leftover.Computed(c.limit, asks)[i];
         var off := if rate < c.previous[j] then c.previous[j] - rate else rate - c.previous[j];
         if !c.changed && (100 * off < rate || (20 * Sum(Leftover.Usages(asks)) < 19 * c.limit && 20 * off < rate))
         then d.rates[j] == rate && d.previous[j] == c.previous[j]
         else d.rates[j] == d.previous[j]
  {
    JobIsTracked(c, o, i);
    Leftover.MaintainedExactly(c.limit, asks, c.changed, i);
    var enforced := Leftover.Enforced(c.limit, asks, c.changed);
    assert enforced[i] == Leftover.EnforcedAt(c.limit, asks, c.changed, i);
    assert Leftover.Previous(asks)[i] == asks[i].previous == c.previous[o.jobs[i]];
    Assigned(c.rates, o.jobs, Choose(LeftoverSent(c, asks), enforced, Leftover.Computed(c.limit, asks)));
    Assigned(c.previous, o.jobs, enforced);
    hide Consistent, Visits, NoDuplicates, Assign, Leftover.Computed, Leftover.Enforced, Leftover.Rescaled, Leftover.Kept,
         Leftover.Updated, Leftover.Rescales, Leftover.Maintains, Sum;
  }

  // ------------------------------------------------------------------
  // Rules sent in one round
  // ------------------------------------------------------------------

  /** The call that submits the rate of visited job `i` to the local controller at `address`. */
  ghost predicate SubmitsRate(c: Core, o: Order, rates: seq<int>, i: nat, address: string, call: Call)
    requires Routable(c, o) && |rates| == |o.jobs| && i < |o.jobs|
  {
    var j := o.jobs[i];
    && address in o.addresses[j]
    && call == Submit(address, EnforcementWire.Print(j, c.activeOperation, c.locations[j][address],
                                                     TruncDiv(rates[i], StageCount(c.locations[j], o.addresses[j]))))
  }

  /** The stages of a job are counted over all its addresses. */
  lemma {:induction false} StageCountIs(envs: map<string, seq<int>>, addresses: seq<string>, sizes: seq<int>)
    requires |sizes| == |addresses| && forall a | a in addresses :: a in envs
    requires forall i | 0 <= i < |sizes| :: sizes[i] == |envs[addresses[i]]|
    ensures StageCount(envs, addresses) == Sum(sizes)
  {
    if addresses == [] {
    } else {
      assert addresses[0] in addresses;
      StageCountIs(envs, addresses[1..], sizes[1..]);
    }
  }

  /** The call submits the rate of job `i` to one of its local controllers. */
  ghost predicate SubmitsJob(c: Core, o: Order, rates: seq<int>, i: nat, call: Call)
    requires Routable(c, o) && |rates| == |o.jobs| && i < |o.jobs|
  {
    exists a :: SubmitsRate(c, o, rates, i, a, call)
  }

  /** Of one job: one rule for each of its local controllers, and no other call. */
  lemma JobSendsExactly(c: Core, o: Order, rates: seq<int>, i: nat, call: Call)
    requires Routable(c, o) && |rates| == |o.jobs| && i < |o.jobs|
    ensures call in JobSends(c, o, o.jobs[i], rates[i]) <==> SubmitsJob(c, o, rates, i, call)
  {
    var j := o.jobs[i];
    var sends := JobSends(c, o, j, rates[i]);
    forall k | 0 <= k < |sends|
      ensures SubmitsRate(c, o, rates, i, o.addresses[j][k], sends[k])
    {
    }
    if a :| SubmitsRate(c, o, rates, i, a, call) {
      var k :| 0 <= k < |o.addresses[j]| && o.addresses[j][k] == a;
      assert sends[k] == call;
    }
  }

  lemma InEither<T>(s: seq<T>, t: seq<T>, x: T)
    ensures x in s + t <==> x in s || x in t
  {
  }

  /** The call submits the rate of one of the first `k` jobs that are sent. */
  ghost predicate SubmitsOneOf(c: Core, o: Order, rates: seq<int>, sent: seq<bool>, k: nat, call: Call)
    requires Routable(c, o) && |rates| == |sent| == |o.jobs| && k <= |o.jobs|
  {
    exists i: nat, a :: i < k && sent[i] && SubmitsRate(c, o, rates, i, a, call)
  }

  lemma OneMoreJob(c: Core, o: Order, rates: seq<int>, sent: seq<bool>, k: nat, call: Call)
    requires Routable(c, o) && |rates| == |sent| == |o.jobs| && k < |o.jobs|
    ensures SubmitsOneOf(c, o, rates, sent, k + 1, call)
       <==> SubmitsOneOf(c, o, rates, sent, k, call) || (sent[k] && SubmitsJob(c, o, rates, k, call))
  {
    hide SubmitsRate, Routable;
    if i: nat, a :| i < k + 1 && sent[i] && SubmitsRate(c, o, rates, i, a, call) {
      assert i < k || i == k;
    }
    if i: nat, a :| i < k && sent[i] && SubmitsRate(c, o, rates, i, a, call) {
      assert i < k + 1;
    }
  }

  lemma OneMoreSent(c: Core, o: Order, rates: seq<int>, sent: seq<bool>, k: nat, call: Call)
    requires Routable(c, o) && |rates| == |sent| == |o.jobs| && k < |o.jobs|
    ensures call in Sends(c, o, rates, sent, k + 1)
       <==> call in Sends(c, o, rates, sent, k) || (sent[k] && SubmitsJob(c, o, rates, k, call))
  {
    hide JobSends, Routable, SubmitsJob;
    if sent[k] {
      JobSendsExactly(c, o, rates, k, call);
      InEither(Sends(c, o, rates, sent, k), JobSends(c, o, o.jobs[k], rates[k]), call);
    } else {
      InEither(Sends(c, o, rates, sent, k), [], call);
    }
  }

  lemma {:induction false} SendsExactly(c: Core, o: Order, rates: seq<int>, sent: seq<bool>, k: nat, call: Call)
    requires Routable(c, o) && |rates| == |sent| == |o.jobs| && k <= |o.jobs|
    ensures call in Sends(c, o, rates, sent, k) <==> SubmitsOneOf(c, o, rates, sent, k, call)
  {
    hide *;
    if k == 0 {
      NothingSent(c, o, rates, sent, call);
    } else {
      OneMoreSent(c, o, rates, sent, k - 1, call);
      OneMoreJob(c, o, rates, sent, k - 1, call);
      SendsExactly(c, o, rates, sent, k - 1, call);
    }
  }

  lemma NothingSent(c: Core, o: Order, rates: seq<int>, sent: seq<bool>, call: Call)
    requires Routable(c, o) && |rates| == |sent| == |o.jobs|
    ensures call !in Sends(c, o, rates, sent, 0) && !SubmitsOneOf(c, o, rates, sent, 0, call)
  {
  }

  lemma {:induction false} AwaitsSubmitNothing(c: Core, o: Order, rates: seq<int>, sent: seq<bool>, k: nat)
    requires Routable(c, o) && |rates| == |sent| == |o.jobs| && k <= |o.jobs|
    ensures forall call | call in Awaits(c, o, rates, sent, k) :: call.Await?
  {
    if k == 0 {
    } else {
      AwaitsSubmitNothing(c, o, rates, sent, k - 1);
      hide Routable;
    }
  }

  /** A round submits, to each local controller of each job it sends, the printed rate of that job, and no other rule. */
  lemma RoundSubmitsExactly(c: Core, o: Order, rates: seq<int>, sent: seq<bool>, call: Call)
    requires Routable(c, o) && |rates| == |sent| == |o.jobs| && call.Submit?
    ensures call in RoundCalls(c, o, rates, sent)
       <==> exists i: nat, a :: i < |o.jobs| && sent[i] && SubmitsRate(c, o, rates, i, a, call)
  {
    SendsExactly(c, o, rates, sent, |o.jobs|, call);
    AwaitsSubmitNothing(c, o, rates, sent, |o.jobs|);
    assert SubmitsOneOf(c, o, rates, sent, |o.jobs|, call)
      <==> exists i: nat, a :: i < |o.jobs| && sent[i] && SubmitsRate(c, o, rates, i, a, call);
    hide Routable, SubmitsRate, Sends, Awaits, SubmitsOneOf;
  }

  /** Leftover: the rate of a job is sent unless nothing changed and the enforced one is within 1% of it, or within 5% at low usage. */
  lemma LeftoverSentExactly(p: Core, asks: seq<Leftover.Ask>, i: nat)
    requires Leftover.Observed(asks) && i < |asks|
    ensures var rate := Leftover.Computed(p.limit, asks)[i];
      var off := if rate < asks[i].previous then asks[i].previous - rate else rate - asks[i].previous;
      LeftoverSent(p, asks)[i]
      <==> p.changed || (rate <= 100 * off && (19 * p.limit <= 20 * Sum(Leftover.Usages(asks)) || rate <= 20 * off))
  {
    Leftover.MaintainedExactly(p.limit, asks, p.changed, i);
    hide Leftover.Computed, Leftover.MaintainsAll, Sum;
  }

  /**
   * Static: a job without a demand and without a rate of its own, whose enforced
   * rate is within 9 of -1, is left alone: its rate stays -1 and its enforced rate
   * what it is.
   */
  lemma StaticLeavesAlone(m: Core, o: Order, i: nat)
    requires Ready(m, o) && i < |o.jobs|
    requires o.jobs[i] in m.demands && m.demands[o.jobs[i]] == -1
    requires o.jobs[i] in m.rates && m.rates[o.jobs[i]] == -1
    requires o.jobs[i] in m.previous && -10 <= m.previous[o.jobs[i]] <= 8
    ensures var d, j := StaticRound(m, o), o.jobs[i];
      && j in d.rates && d.rates[j] == -1
      && j in d.previous && d.previous[j] == m.previous[j]
  {
    StaticJob(m, o, i);
    hide Ready, StaticRound;
  }

  /** No rule is sent for such a job: every rule sent is one of another job. */
  lemma StaticSendsOthers(m: Core, o: Order, i: nat, call: Call)
    requires Ready(m, o) && Routable(m, o) && i < |o.jobs|
    requires o.jobs[i] in m.demands && m.demands[o.jobs[i]] == -1
    requires o.jobs[i] in m.rates && m.rates[o.jobs[i]] == -1
    requires o.jobs[i] in m.previous && -10 <= m.previous[o.jobs[i]] <= 8
    requires call in RoundCalls(m, o, StaticRates(m, o), StaticSent(m, o)) && call.Submit?
    ensures exists k: nat, a :: k < |o.jobs| && o.jobs[k] != o.jobs[i] && SubmitsRate(m, o, StaticRates(m, o), k, a, call)
  {
    JobIsTracked(m, o, i);
    StaticSentExactly(m, o, i);
    hide Ready, StaticRates, StaticSent, RoundCalls, SubmitsRate, Routable;
    RoundSubmitsExactly(m, o, StaticRates(m, o), StaticSent(m, o), call);
    var k: nat, a :| k < |o.jobs| && StaticSent(m, o)[k] && SubmitsRate(m, o, StaticRates(m, o), k, a, call);
    assert k != i;
    assert o.jobs[k] != o.jobs[i];
  }
}
