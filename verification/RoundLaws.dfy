/** What a round keeps, and how the enforced rates relate to the computed ones. */
module RoundLaws {
  import opened Arithmetic
  import opened Sequences
  import opened Registry
  import opened Statistics
  import opened Rounds
  import Decimal
  import Tokenizer
  import Vanilla
  import Leftover

  lemma AssignOnKeys(m: map<string, int>, jobs: seq<string>, values: seq<int>)
    requires Enumerates(jobs, m.Keys) && |values| == |jobs|
    ensures Assign(m, jobs, values).Keys == m.Keys
    ensures Values(Assign(m, jobs, values), jobs) == values
    ensures Total(Assign(m, jobs, values)) == Sum(values)
  {
    Assigned(m, jobs, values);
    var r := Assign(m, jobs, values);
    assert r.Keys == m.Keys;
    TotalAlong(r, jobs);
    assert Values(r, jobs) == values;
  }

  lemma AssignGrows(m: map<string, int>, jobs: seq<string>, values: seq<int>)
    requires NoDuplicates(jobs) && |values| == |jobs|
    ensures m.Keys <= Assign(m, jobs, values).Keys
  {
    Assigned(m, jobs, values);
  }

  /** Enforcing keeps the registry, and the enforced rates become the chosen ones. */
  lemma EnforceKeeps(c: Core, o: Order, rates: seq<int>, sent: seq<bool>)
    requires Ready(c, o) && |rates| == |sent| == |o.jobs|
    ensures var d := Enforce(c, o, rates, sent);
      && Consistent(d) && Visits(o, d)
      && Values(d.previous, o.jobs) == Choose(sent, rates, Values(c.previous, o.jobs))
      && Total(d.previous) == Sum(Choose(sent, rates, Values(c.previous, o.jobs)))
  {
    var chosen := Choose(sent, rates, Values(c.previous, o.jobs));
    AssignOnKeys(c.previous, o.jobs, chosen);
    AssignGrows(c.rates, o.jobs, Choose(sent, rates, Unset(|o.jobs|)));
    var d := Enforce(c, o, rates, sent);
    SameLocations(c, d);
  }

  /** Every job's value is within the threshold of its rate. */
  ghost predicate Close(m: map<string, int>, jobs: seq<string>, rates: seq<int>) {
    && |rates| == |jobs|
    && forall i | 0 <= i < |jobs| :: jobs[i] in m && Abs(m[jobs[i]] - rates[i]) <= 9
  }

  /** A rate that is not sent hardly differs from the value there. */
  ghost predicate Settled(m: map<string, int>, jobs: seq<string>, rates: seq<int>, sent: seq<bool>) {
    && |rates| == |sent| == |jobs|
    && forall i | 0 <= i < |jobs| :: jobs[i] in m && (sent[i] || Abs(rates[i] - m[jobs[i]]) < IOPS_THRESHOLD)
  }

  lemma AssignedClose(m: map<string, int>, jobs: seq<string>, rates: seq<int>, sent: seq<bool>)
    requires Enumerates(jobs, m.Keys) && Settled(m, jobs, rates, sent)
    ensures var d := Assign(m, jobs, Choose(sent, rates, Values(m, jobs))); d.Keys == m.Keys && Close(d, jobs, rates)
  {
    var chosen := Choose(sent, rates, Values(m, jobs));
    AssignOnKeys(m, jobs, chosen);
    var d := Assign(m, jobs, chosen);
    hide Assign, Enumerates, Choose;
    forall i | 0 <= i < |jobs|
      ensures jobs[i] in d && Abs(d[jobs[i]] - rates[i]) <= 9
    {
      assert jobs[i] in jobs;
      assert Values(d, jobs)[i] == chosen[i];
    }
  }

  /** Job by job, the enforced rate is within the threshold of the computed one. */
  lemma EnforcedClose(c: Core, o: Order, rates: seq<int>, sent: seq<bool>)
    requires Ready(c, o) && Settled(c.previous, o.jobs, rates, sent)
    ensures var d := Enforce(c, o, rates, sent);
      d.previous.Keys == c.previous.Keys && Close(d.previous, o.jobs, rates)
  {
    JobsEnumerated(c, o);
    hide Consistent, Visits, Assign, Choose, Close, Settled;
    AssignedClose(c.previous, o.jobs, rates, sent);
  }

  lemma JobsEnumerated(c: Core, o: Order)
    requires Ready(c, o)
    ensures Enumerates(o.jobs, c.previous.Keys)
  {
  }

  /** Changing rates and demands leaves the indexes alone. */
  lemma SameLocations(c: Core, d: Core)
    requires Consistent(c)
    requires d.localToStages == c.localToStages && d.info == c.info && d.locations == c.locations
    requires d.previous.Keys == c.previous.Keys
    requires c.demands.Keys <= d.demands.Keys && c.rates.Keys <= d.rates.Keys
    ensures Consistent(d)
  {
    SameRegistry(c, d.(previous := c.previous));
    var e := d.(previous := c.previous);
    assert forall s, a :: Located(e, s, a) == Located(d, s, a);
    assert forall s, a :: Listed(e, s, a) == Listed(d, s, a);
    assert forall s, a :: Informed(e, s, a) == Informed(d, s, a);
  }

  /** Sessions, stage lists, membership and limit are the same. */
  ghost predicate SameSystem(c: Core, d: Core) {
    && d.sessions == c.sessions && d.localToStages == c.localToStages && d.activeLocals == c.activeLocals
    && d.locations == c.locations && d.limit == c.limit
  }

  /** A round touches rates and demands only. */
  lemma RoundsKeepSystem(c: Core, o: Order, asks: seq<Leftover.Ask>)
    requires Ready(c, o)
    ensures SameSystem(c, StaticRound(c, o)) && SameSystem(c, VanillaRound(c, o))
    ensures |asks| == |o.jobs| && Leftover.Observed(asks) ==> SameSystem(c, LeftoverRound(c, o, asks))
  {
    hide Ready, Consistent, Visits, Assign, Choose, Overlay, StaticRates, StaticSent, VanillaRates, VanillaSent,
         Leftover.Observed, Leftover.Enforced, Leftover.Computed, LeftoverSent, Vanilla.RewrittenDemands;
  }

  lemma LowerMark(c: Core)
    requires Consistent(c)
    ensures Consistent(c.(changed := false))
    ensures Tracks(c) ==> Tracks(c.(changed := false))
  {
    SameLocations(c, c.(changed := false));
  }

  lemma UpdateDemandsKeeps(c: Core, rule: string)
    requires Consistent(c) && PolicyReadable(rule)
    ensures Consistent(UpdateDemands(c, rule))
    ensures SessionsAgree(c) ==> SessionsAgree(UpdateDemands(c, rule))
  {
    PolicyFrame(c, rule);
    hide UpdateDemands, PolicyReadable, Consistent, Tokenizer.Tokens;
    SameLocations(c, UpdateDemands(c, rule));
  }

  // ------------------------------------------------------------------
  // Static
  // ------------------------------------------------------------------

  /** Every live job with a set demand has an enforced rate within the threshold of that demand. */
  ghost predicate Tracks(c: Core) {
    forall j | j in c.locations && j in c.demands && j in c.previous && c.demands[j] != -1 ::
      Abs(c.previous[j] - c.demands[j]) < IOPS_THRESHOLD
  }

  lemma StaticRoundKeeps(c: Core, o: Order)
    requires Ready(c, o)
    ensures Consistent(StaticRound(c, o))
    ensures c.changed || Tracks(c) ==> Tracks(StaticRound(c, o))
  {
    if c.changed && o.jobs != [] {
      OverlayKeeps(c, o);
      var c' := c.(rates := Overlay(c));
      EnforceKeeps(c', o, StaticRates(c, o), StaticSent(c, o));
      StaticRoundTracks(c, o);
    } else if c.changed {
      assert forall j | j in c.locations :: j in o.jobs;
    }
  }

  /** A live job with a set demand is sent that demand, or is close enough to it. */
  lemma StaticJobTracks(c: Core, o: Order, i: nat)
    requires Ready(c, o) && c.changed && i < |o.jobs| && c.demands[o.jobs[i]] != -1
    requires o.jobs[i] in StaticRound(c, o).previous
    requires Abs(StaticRound(c, o).previous[o.jobs[i]] - StaticRates(c, o)[i]) <= 9
    ensures Abs(StaticRound(c, o).previous[o.jobs[i]] - c.demands[o.jobs[i]]) < IOPS_THRESHOLD
  {
    assert StaticRates(c, o)[i] == Overlay(c)[o.jobs[i]] == c.demands[o.jobs[i]];
    hide Ready, StaticRound, StaticRates;
  }

  lemma StaticSettled(c: Core, o: Order)
    requires Ready(c, o)
    ensures Settled(c.previous, o.jobs, StaticRates(c, o), StaticSent(c, o))
  {
    JobsEnumerated(c, o);
    hide Consistent, Visits, StaticRates;
    assert forall i | 0 <= i < |o.jobs| :: o.jobs[i] in o.jobs;
  }

  /** After a change every visited job's enforced rate is within 9 of its overlaid rate. */
  lemma StaticRoundClose(c: Core, o: Order)
    requires Ready(c, o) && c.changed && o.jobs != []
    ensures var d := StaticRound(c, o);
      && d.demands == c.demands && d.locations == c.locations && d.previous.Keys == c.previous.Keys
      && Close(d.previous, o.jobs, StaticRates(c, o))
  {
    OverlayKeeps(c, o);
    StaticSettled(c, o);
    hide Consistent, Visits, Settled, Close, StaticRates, StaticSent, Overlay;
    EnforcedClose(c.(rates := Overlay(c)), o, StaticRates(c, o), StaticSent(c, o));
    hide Assign, Choose;
  }

  lemma EveryJobVisited(c: Core, o: Order)
    requires Visits(o, c)
    ensures forall j | j in c.locations :: j in o.jobs
  {
    forall j | j in c.locations
      ensures j in o.jobs
    {
      assert j in c.locations.Keys;
    }
  }

  lemma StaticRoundTracks(c: Core, o: Order)
    requires Ready(c, o) && c.changed && o.jobs != []
    ensures Tracks(StaticRound(c, o))
  {
    StaticRoundClose(c, o);
    var d := StaticRound(c, o);
    EveryJobVisited(c, o);
    hide StaticRound, StaticRates, StaticSent, Consistent, Ready, Visits;
    forall j | j in d.locations && j in d.demands && j in d.previous && d.demands[j] != -1
      ensures Abs(d.previous[j] - d.demands[j]) < IOPS_THRESHOLD
    {
      var i :| 0 <= i < |o.jobs| && o.jobs[i] == j;
      StaticJobTracks(c, o, i);
    }
  }

  // ------------------------------------------------------------------
  // Vanilla
  // ------------------------------------------------------------------

  /** The enforced total is within the threshold, job by job, of a total that spends the limit. */
  ghost predicate NearLimit(c: Core) {
    var n := |c.locations|;
    c.limit - (n - 1) - 9 * n <= Total(c.previous) <= c.limit + 9 * n
  }

  lemma CloseSums(s: seq<int>, t: seq<int>, d: int)
    requires |s| == |t| && 0 <= d && forall i | 0 <= i < |s| :: Abs(s[i] - t[i]) <= d
    ensures Sum(t) - d * |s| <= Sum(s) <= Sum(t) + d * |s|
  {
    hide Sum;
    SumShift(t, d);
    SumShift(t, -d);
    SumMonotone(s, Shift(t, d));
    SumMonotone(Shift(t, -d), s);
    Negated(|t|, d);
  }

  lemma Negated(n: int, d: int)
    ensures n * (-d) == -(d * n) && n * d == d * n
  {
  }

  lemma VanillaSettled(c: Core, o: Order)
    requires Ready(c, o)
    ensures Settled(c.previous, o.jobs, VanillaRates(c, o), VanillaSent(c, o))
  {
    JobsEnumerated(c, o);
    hide Consistent, Visits, VanillaRates;
    assert forall i | 0 <= i < |o.jobs| :: o.jobs[i] in o.jobs;
  }

  /** After a vanilla round every live job's enforced rate is within 9 of its computed rate. */
  lemma VanillaRoundClose(c: Core, o: Order)
    requires Ready(c, o) && o.jobs != []
    ensures var d := VanillaRound(c, o);
      d.previous.Keys == c.previous.Keys && Close(d.previous, o.jobs, VanillaRates(c, o))
  {
    VanillaSettled(c, o);
    hide Consistent, Visits, Settled, Close, VanillaRates, VanillaSent;
    EnforcedClose(c, o, VanillaRates(c, o), VanillaSent(c, o));
    hide Assign, Choose;
  }

  lemma VanillaRoundConsistent(c: Core, o: Order)
    requires Ready(c, o)
    ensures var d := VanillaRound(c, o);
      Consistent(d) && d.locations == c.locations && d.limit == c.limit
  {
    if o.jobs != [] {
      var rates, sent := VanillaRates(c, o), VanillaSent(c, o);
      EnforceKeeps(c, o, rates, sent);
      AssignGrows(c.demands, o.jobs, Vanilla.RewrittenDemands(c.limit, Values(c.demands, o.jobs)));
      SameLocations(Enforce(c, o, rates, sent), VanillaRound(c, o));
    }
  }

  lemma NearWhenClose(d: Core, jobs: seq<string>, rates: seq<int>)
    requires Enumerates(jobs, d.locations.Keys) && d.previous.Keys == d.locations.Keys
    requires |rates| == |jobs| && d.limit - (|jobs| - 1) <= Sum(rates) <= d.limit
    requires Close(d.previous, jobs, rates)
    ensures NearLimit(d)
  {
    TotalAlong(d.previous, jobs);
    CloseSums(Values(d.previous, jobs), rates, 9);
    EnumerationSize(jobs, d.locations.Keys);
  }

  lemma VanillaSpends(c: Core, o: Order)
    requires Ready(c, o) && o.jobs != []
    requires Vanilla.Shareable(c.limit, Values(c.demands, o.jobs))
    ensures c.limit - (|o.jobs| - 1) <= Sum(VanillaRates(c, o)) <= c.limit
  {
    Vanilla.Conservation(c.limit, Values(c.demands, o.jobs));
  }

  lemma VanillaRoundNear(c: Core, o: Order)
    requires Ready(c, o) && o.jobs != []
    requires c.limit - (|o.jobs| - 1) <= Sum(VanillaRates(c, o)) <= c.limit
    ensures NearLimit(VanillaRound(c, o))
  {
    VanillaRoundClose(c, o);
    VanillaRoundConsistent(c, o);
    var d, rates := VanillaRound(c, o), VanillaRates(c, o);
    assert Enumerates(o.jobs, d.locations.Keys);
    assert d.previous.Keys == d.locations.Keys;
    assert |rates| == |o.jobs|;
    hide VanillaRound, VanillaRates, Consistent, Enumerates, Sum, NearLimit;
    NearWhenClose(d, o.jobs, rates);
  }

  lemma VanillaRoundKeeps(c: Core, o: Order)
    requires Ready(c, o)
    requires Vanilla.Shareable(c.limit, Values(c.demands, o.jobs))
    ensures c.locations != map[] ==> NearLimit(VanillaRound(c, o))
  {
    if o.jobs != [] {
      VanillaSpends(c, o);
      hide NearLimit, VanillaRound, VanillaRates, Consistent, Sum;
      VanillaRoundNear(c, o);
    } else {
      assert forall j | j in c.locations.Keys :: j in o.jobs;
      assert c.locations == map[];
    }
  }

  // ------------------------------------------------------------------
  // Leftover
  // ------------------------------------------------------------------

  /**
   * Positive enforced rates add up to less than 101% of the limit, or there are
   * none; negative ones stay within 1% of it.
   */
  ghost predicate WithinSlack(c: Core) {
    && Leftover.BelowSlack(c.limit, Total(ClipMap(c.previous)))
    && forall j | j in c.previous :: Leftover.AboveFloor(c.limit, c.previous[j])
  }

  lemma ClipAlong(m: map<string, int>, jobs: seq<string>)
    requires Enumerates(jobs, m.Keys)
    ensures Total(ClipMap(m)) == Sum(Leftover.Clip(Values(m, jobs)))
  {
    TotalAlong(ClipMap(m), jobs);
    assert Values(ClipMap(m), jobs) == Leftover.Clip(Values(m, jobs));
  }

  /** Usage reports a job can have: no failed stage left, nothing below zero. */
  ghost predicate Reported(c: Core, replies: map<string, seq<Sample>>) {
    forall a, i | a in replies && 0 <= i < |replies[a]| :: replies[a][i].rate >= 0 || replies[a][i].stage !in c.info
  }

  lemma {:induction false} SampledUsagePositive(reply: seq<Sample>, s: Stage)
    requires forall i | 0 <= i < |reply| :: reply[i].stage == s ==> reply[i].rate >= 0
    ensures 1 <= SampledUsage(reply, s)
  {
    if reply != [] && reply[0].stage != s {
      forall i | 0 <= i < |reply[1..]| && reply[1..][i].stage == s
        ensures reply[1..][i].rate >= 0
      {
        assert reply[i + 1].stage == s;
      }
      SampledUsagePositive(reply[1..], s);
    }
  }

  lemma {:induction false} EnvsUsagePositive(c: Core, asked: seq<string>, replies: map<string, seq<Sample>>,
                                             job: string, address: string, envs: seq<int>)
    requires address in asked ==> address in replies
    requires Reported(c, replies) && 1 <= c.limit && c.locations != map[]
    requires forall e | e in envs :: Stage(job, e) in c.info
    ensures |envs| <= EnvsUsage(Unasked(c), asked, replies, job, address, envs)
  {
    if envs == [] {
    } else {
      assert envs[0] in envs;
      if address in asked {
        SampledUsagePositive(replies[address], Stage(job, envs[0]));
      } else {
        assert 1 <= |c.locations| by {
          var j :| j in c.locations;
          assert j in c.locations.Keys;
        }
        MulMonotone(1, c.limit, |c.locations|);
      }
      EnvsUsagePositive(c, asked, replies, job, address, envs[1..]);
    }
  }

  lemma {:induction false} JobUsagePositive(c: Core, asked: seq<string>, replies: map<string, seq<Sample>>,
                                            job: string, addresses: seq<string>)
    requires Consistent(c) && job in c.locations
    requires forall a | a in addresses :: a in c.locations[job] && (a in asked ==> a in replies)
    requires Reported(c, replies) && 1 <= c.limit
    ensures |addresses| <= JobUsage(Unasked(c), asked, replies, job, c.locations[job], addresses)
  {
    if addresses == [] {
    } else {
      var a := addresses[0];
      assert a in addresses;
      forall e | e in c.locations[job][a]
        ensures Stage(job, e) in c.info
      {
        assert Located(c, Stage(job, e), a);
      }
      EnvsUsagePositive(c, asked, replies, job, a, c.locations[job][a]);
      JobUsagePositive(c, asked, replies, job, addresses[1..]);
    }
  }

  /** The usage of every job is at least one, so the proportional phase never divides by zero. */
  lemma AsksAreObserved(c: Core, o: Order, asked: seq<string>, replies: map<string, seq<Sample>>)
    requires Ready(c, o) && StatisticsAtHand(c, asked, replies) && Reported(c, replies) && 1 <= c.limit
    ensures Leftover.Observed(Asks(c, o, asked, replies))
  {
    forall i | 0 <= i < |o.jobs|
      ensures 1 <= Asks(c, o, asked, replies)[i].usage
    {
      var j := o.jobs[i];
      assert j in o.jobs;
      var a :| a in c.locations[j];
      assert a in o.addresses[j];
      JobUsagePositive(c, asked, replies, j, o.addresses[j]);
    }
  }

  lemma LeftoverRoundConsistent(c: Core, o: Order, asks: seq<Leftover.Ask>)
    requires Ready(c, o) && Leftover.Observed(asks) && |asks| == |o.jobs|
    ensures Consistent(LeftoverRound(c, o, asks))
  {
    if o.jobs != [] {
      var enforced := Leftover.Enforced(c.limit, asks, c.changed);
      AssignOnKeys(c.previous, o.jobs, enforced);
      AssignGrows(c.rates, o.jobs, Choose(LeftoverSent(c, asks), enforced, Leftover.Computed(c.limit, asks)));
      SameLocations(c, LeftoverRound(c, o, asks));
    }
  }

  lemma LeftoverRoundKeeps(c: Core, o: Order, asks: seq<Leftover.Ask>)
    requires Ready(c, o) && Leftover.Observed(asks) && Leftover.Demanding(asks)
    requires |asks| == |o.jobs| <= c.limit
    requires Leftover.Previous(asks) == Values(c.previous, o.jobs)
    requires WithinSlack(c)
    ensures WithinSlack(LeftoverRound(c, o, asks))
  {
    if o.jobs != [] {
      var enforced := Leftover.Enforced(c.limit, asks, c.changed);
      AssignOnKeys(c.previous, o.jobs, enforced);
      ClipAlong(c.previous, o.jobs);
      ClipAlong(LeftoverRound(c, o, asks).previous, o.jobs);
      Leftover.RoundKeepsSlack(c.limit, asks, c.changed);
      LeftoverRoundFloor(c, o, asks);
    }
  }

  lemma LeftoverRoundFloor(c: Core, o: Order, asks: seq<Leftover.Ask>)
    requires Ready(c, o) && Leftover.Observed(asks) && Leftover.Demanding(asks) && o.jobs != []
    requires |asks| == |o.jobs| <= c.limit && Leftover.WithinSlack(c.limit, Leftover.Previous(asks))
    ensures var d := LeftoverRound(c, o, asks);
      forall j | j in d.previous :: Leftover.AboveFloor(c.limit, d.previous[j])
  {
    JobsEnumerated(c, o);
    hide Leftover.Enforced, Leftover.Observed, Leftover.WithinSlack, Leftover.AboveFloor, Leftover.Demanding, Consistent, Visits;
    forall i | 0 <= i < |asks|
      ensures Leftover.AboveFloor(c.limit, Leftover.Enforced(c.limit, asks, c.changed)[i])
    {
      Leftover.RoundKeepsFloor(c.limit, asks, c.changed, i);
    }
    FloorAlong(c.previous, o.jobs, Leftover.Enforced(c.limit, asks, c.changed), c.limit);
    LeftoverRoundPrevious(c, o, asks);
    hide LeftoverRound, Assign;
  }

  lemma LeftoverRoundPrevious(c: Core, o: Order, asks: seq<Leftover.Ask>)
    requires Ready(c, o) && Leftover.Observed(asks) && |asks| == |o.jobs| && o.jobs != []
    ensures LeftoverRound(c, o, asks).previous
         == Assign(c.previous, o.jobs, Leftover.Enforced(c.limit, asks, c.changed))
  {
    hide Leftover.Enforced, Leftover.Observed, Consistent, Visits, Assign, Choose;
  }

  lemma FloorAlong(m: map<string, int>, jobs: seq<string>, values: seq<int>, limit: int)
    requires Enumerates(jobs, m.Keys) && |values| == |jobs|
    requires forall i | 0 <= i < |values| :: Leftover.AboveFloor(limit, values[i])
    ensures var d := Assign(m, jobs, values); forall j | j in d :: Leftover.AboveFloor(limit, d[j])
  {
    var d := Assign(m, jobs, values);
    AssignOnKeys(m, jobs, values);
    hide Assign, Leftover.AboveFloor;
    forall j | j in d
      ensures Leftover.AboveFloor(limit, d[j])
    {
      var i :| 0 <= i < |jobs| && jobs[i] == j;
      assert Values(d, jobs)[i] == values[i];
    }
  }

  // ------------------------------------------------------------------
  // Policies of the administrator
  // ------------------------------------------------------------------

  /** A submitted demand, of any value, reaches the job it names and no other. */
  lemma PolicyReachesJob(c: Core, id: string, kind: string, job: string, operation: string, limit: int)
    requires forall t | t in [id, job, operation] :: Tokenizer.IsToken(t, '|')
    requires kind in ["demand", "job"]
    ensures var rule := PolicyText(id, kind, job, operation, limit);
      && PolicyReadable(rule) && PolicyOperation(rule) == operation
      && UpdateDemands(c, rule) == c.(demands := c.demands[job := limit], activeOperation := operation)
  {
    var fields := [id, kind, job, operation, Decimal.Text(limit)];
    var names := [id, job, operation];
    assert names[0] == id && names[1] == job && names[2] == operation;
    assert id in names && job in names && operation in names;
    Decimal.TextIsFree(limit, '|');
    Decimal.ParseText(limit);
    Tokenizer.TerminatedTokens(fields, '|');
    Tokenizer.DropDelimiter(Tokenizer.Terminated(fields, '|'), '|');
    assert PolicyText(id, kind, job, operation, limit) == ['|'] + Tokenizer.Terminated(fields, '|');
  }
}
