/**
 * Concrete runs of the feedback loop: one local controller and jobs of one stage
 * each. They show that runs of every control type exist, and that the failures
 * of leftover control happen in states the loop reaches.
 */
module Witnesses {
  import opened Arithmetic
  import opened Sequences
  import opened Registry
  import opened Statistics
  import opened Rounds
  import opened RoundLaws
  import opened Runs
  import opened Programs
  import opened Loop
  import S = Sessions
  import C = CoreController
  import Decimal
  import HousekeepingWire
  import Leftover
  import Machine
  import Tokenizer
  import Vanilla

  const NODE := "node"

  function StageOf(job: string): StageInfo {
    StageInfo(Stage(job, 0), NODE)
  }

  function Places(jobs: seq<string>): map<string, map<string, seq<int>>> {
    map j | j in jobs :: map[NODE := [0]]
  }

  /** The registry holds these jobs, with these demands and enforced rates, and nothing else. */
  ghost predicate OnNode(c: Core, jobs: seq<string>, demands: seq<int>, previous: seq<int>) {
    && Base(c) && c.sessions == {NODE} && NoDuplicates(jobs) && |demands| == |previous| == |jobs|
    && c.locations == Places(jobs)
    && (forall i | 0 <= i < |jobs| :: jobs[i] in c.demands && c.demands[jobs[i]] == demands[i])
    && (forall i | 0 <= i < |jobs| :: jobs[i] in c.previous && c.previous[jobs[i]] == previous[i])
  }

  function NodeOrder(jobs: seq<string>): Order {
    Order(jobs, map j | j in jobs :: [NODE])
  }

  function Reply(jobs: seq<string>, usages: seq<int>): (r: seq<Sample>)
    requires |usages| == |jobs|
    ensures |r| == |jobs| && forall i | 0 <= i < |r| :: r[i] == Sample(Stage(jobs[i], 0), usages[i])
  {
    seq(|jobs|, i requires 0 <= i < |jobs| => Sample(Stage(jobs[i], 0), usages[i]))
  }

  /** One iteration in which every stage reports its usage. */
  function NodeIteration(jobs: seq<string>, usages: seq<int>, rule: string): Event
    requires |usages| == |jobs|
  {
    Iteration([NODE], map[NODE := Reply(jobs, usages)], rule, NodeOrder(jobs))
  }

  ghost predicate Used(usages: seq<int>) {
    forall i | 0 <= i < |usages| :: 1 <= usages[i]
  }

  // ------------------------------------------------------------------
  // Iterations on such a registry
  // ------------------------------------------------------------------

  lemma NodeStages(c: Core, jobs: seq<string>, demands: seq<int>, previous: seq<int>)
    requires OnNode(c, jobs, demands, previous) && jobs != []
    ensures forall i | 0 <= i < |jobs| :: Informed(c, Stage(jobs[i], 0), NODE)
    ensures Asked(c, NODE)
  {
    forall i | 0 <= i < |jobs|
      ensures Informed(c, Stage(jobs[i], 0), NODE)
    {
      assert Located(c, Stage(jobs[i], 0), NODE);
    }
    assert Listed(c, Stage(jobs[0], 0), NODE);
  }

  lemma NodeReplies(c: Core, jobs: seq<string>, demands: seq<int>, previous: seq<int>, usages: seq<int>)
    requires OnNode(c, jobs, demands, previous) && jobs != [] && |usages| == |jobs| && Used(usages)
    ensures var e := NodeIteration(jobs, usages, "");
      Received(c, e.locals, e.replies) && CollectAll(c, e.locals, e.replies) == c
  {
    NodeStages(c, jobs, demands, previous);
    var reply := Reply(jobs, usages);
    hide Base;
    assert FromLocal(c, NODE, reply);
    assert Healthy(reply);
    HealthyChangesNothing(c, [NODE], map[NODE := reply]);
  }

  lemma NodeVisits(c: Core, jobs: seq<string>)
    requires NoDuplicates(jobs) && c.locations == Places(jobs)
    ensures Visits(NodeOrder(jobs), c)
  {
    assert map[NODE := [0]].Keys == {NODE};
    assert forall x :: x in [NODE] <==> x in map[NODE := [0]].Keys;
  }

  /** What an iteration prepares: the policy is processed, nobody leaves. */
  lemma NodePrepares(c: Core, jobs: seq<string>, demands: seq<int>, previous: seq<int>, usages: seq<int>, rule: string)
    requires OnNode(c, jobs, demands, previous) && jobs != [] && |usages| == |jobs| && Used(usages) && PolicyReadable(rule)
    ensures var e := NodeIteration(jobs, usages, rule);
      && Received(c, e.locals, e.replies) && Prepared(c, e) == UpdateDemands(c, rule)
      && Visits(e.order, Prepared(c, e))
  {
    NodeReplies(c, jobs, demands, previous, usages);
    NodeVisits(UpdateDemands(c, rule), jobs);
    hide Received, CollectAll, Visits;
  }

  lemma {:induction false} NodeSample(jobs: seq<string>, usages: seq<int>, i: nat)
    requires NoDuplicates(jobs) && |usages| == |jobs| && i < |jobs| && 1 <= usages[i]
    ensures SampledUsage(Reply(jobs, usages), Stage(jobs[i], 0)) == usages[i]
    decreases |jobs|
  {
    if i == 0 {
    } else {
      assert Reply(jobs, usages)[1..] == Reply(jobs[1..], usages[1..]);
      assert jobs[0] != jobs[i];
      NodeSample(jobs[1..], usages[1..], i - 1);
    }
  }

  /** The jobs as the leftover allocator sees them. */
  function NodeAsks(demands: seq<int>, usages: seq<int>, previous: seq<int>): (asks: seq<Leftover.Ask>)
    requires |demands| == |usages| == |previous|
    ensures |asks| == |demands|
    ensures forall i | 0 <= i < |asks| :: asks[i] == Leftover.Ask(demands[i], usages[i], previous[i])
  {
    seq(|demands|, i requires 0 <= i < |demands| => Leftover.Ask(demands[i], usages[i], previous[i]))
  }

  lemma NodeUsage(unasked: int, jobs: seq<string>, usages: seq<int>, i: nat)
    requires NoDuplicates(jobs) && |usages| == |jobs| && i < |jobs| && 1 <= usages[i]
    ensures JobUsage(unasked, [NODE], map[NODE := Reply(jobs, usages)], jobs[i], map[NODE := [0]], [NODE]) == usages[i]
  {
    var replies := map[NODE := Reply(jobs, usages)];
    NodeSample(jobs, usages, i);
    assert [NODE][1..] == [];
    assert [0][1..] == [];
    hide SampledUsage;
    assert EnvsUsage(unasked, [NODE], replies, jobs[i], NODE, []) == 0;
    assert EnvsUsage(unasked, [NODE], replies, jobs[i], NODE, [0]) == usages[i];
    assert JobUsage(unasked, [NODE], replies, jobs[i], map[NODE := [0]], []) == 0;
  }

  lemma NodeAsked(c: Core, jobs: seq<string>, demands: seq<int>, previous: seq<int>, usages: seq<int>)
    requires OnNode(c, jobs, demands, previous) && |usages| == |jobs| && Used(usages)
    ensures var replies := map[NODE := Reply(jobs, usages)];
      && Ready(c, NodeOrder(jobs)) && StatisticsAtHand(c, [NODE], replies)
      && Asks(c, NodeOrder(jobs), [NODE], replies) == NodeAsks(demands, usages, previous)
  {
    NodeVisits(c, jobs);
    hide Base, Visits;
    var replies := map[NODE := Reply(jobs, usages)];
    forall i | 0 <= i < |jobs|
      ensures Asks(c, NodeOrder(jobs), [NODE], replies)[i] == NodeAsks(demands, usages, previous)[i]
    {
      assert jobs[i] in jobs;
      NodeUsage(Unasked(c), jobs, usages, i);
    }
  }

  lemma NoPolicy(c: Core)
    ensures PolicyReadable("") && UpdateDemands(c, "") == c
  {
  }

  lemma NodeLeftoverEnabled(c: Core, jobs: seq<string>, demands: seq<int>, previous: seq<int>, usages: seq<int>)
    requires OnNode(c, jobs, demands, previous) && jobs != [] && |usages| == |jobs| && Used(usages)
    requires |jobs| <= c.limit && forall i | 0 <= i < |jobs| :: 1 <= demands[i]
    ensures Enabled(DynamicLeftover, c, NodeIteration(jobs, usages, ""))
  {
    NodePrepares(c, jobs, demands, previous, usages, "");
    NodeDemanding(c, jobs, demands, previous);
    NoPolicy(c);
    hide Base, Consistent, SessionsAgree, CollectAll, Visits, Received, UpdateDemands, Prepared, PolicyReadable, Places,
         Reply, Used, NoDuplicates;
  }

  lemma NodeLeftoverReady(c: Core, jobs: seq<string>, demands: seq<int>, previous: seq<int>, usages: seq<int>)
    requires OnNode(c, jobs, demands, previous) && |usages| == |jobs| && Used(usages)
    ensures Ready(c, NodeOrder(jobs)) && Leftover.Observed(NodeAsks(demands, usages, previous))
  {
    NodeVisits(c, jobs);
  }

  lemma ApplyLeftover(c: Core, e: Event)
    requires Base(c) && e.Iteration? && Enabled(DynamicLeftover, c, e)
    ensures Apply(DynamicLeftover, c, e) == LeftoverStep(c, e).(changed := false)
  {
    hide Consistent, SessionsAgree, LeftoverStep, Received, Visits;
  }

  lemma NodeLeftoverResult(c: Core, jobs: seq<string>, demands: seq<int>, previous: seq<int>, usages: seq<int>)
    requires OnNode(c, jobs, demands, previous) && jobs != [] && |usages| == |jobs| && Used(usages)
    requires Enabled(DynamicLeftover, c, NodeIteration(jobs, usages, ""))
    requires Ready(c, NodeOrder(jobs)) && Leftover.Observed(NodeAsks(demands, usages, previous))
    ensures LeftoverStep(c, NodeIteration(jobs, usages, ""))
         == LeftoverRound(c, NodeOrder(jobs), NodeAsks(demands, usages, previous))
  {
    NodePrepares(c, jobs, demands, previous, usages, "");
    NodeAsked(c, jobs, demands, previous, usages);
    hide Consistent, SessionsAgree, CollectAll, Visits, Received, Prepared, Asks, LeftoverRound, Enabled, OnNode, Ready,
         Leftover.Observed, Used;
    assert UpdateDemands(c, "") == c;
  }

  lemma NodeLeftoverKeeps(c: Core, jobs: seq<string>, demands: seq<int>, previous: seq<int>, asks: seq<Leftover.Ask>,
                          d: Core)
    requires OnNode(c, jobs, demands, previous) && jobs != [] && |asks| == |jobs| && Leftover.Observed(asks)
    requires Ready(c, NodeOrder(jobs)) && d == LeftoverRound(c, NodeOrder(jobs), asks).(changed := false) && Base(d)
    ensures OnNode(d, jobs, demands, Leftover.Enforced(c.limit, asks, c.changed))
    ensures d.limit == c.limit && d.demands == c.demands && !d.changed
  {
    hide Base, Ready, LeftoverRound, Leftover.Enforced, Leftover.Observed, Places, NoDuplicates;
    NodeEnforced(c, jobs, asks);
  }

  /** A leftover iteration enforces what the allocator says. */
  lemma NodeLeftover(c: Core, jobs: seq<string>, demands: seq<int>, previous: seq<int>, usages: seq<int>) returns (d: Core)
    requires OnNode(c, jobs, demands, previous) && jobs != [] && |usages| == |jobs| && Used(usages)
    requires |jobs| <= c.limit && forall i | 0 <= i < |jobs| :: 1 <= demands[i]
    ensures Enabled(DynamicLeftover, c, NodeIteration(jobs, usages, ""))
    ensures d == Apply(DynamicLeftover, c, NodeIteration(jobs, usages, ""))
    ensures Leftover.Observed(NodeAsks(demands, usages, previous))
    ensures OnNode(d, jobs, demands, Leftover.Enforced(c.limit, NodeAsks(demands, usages, previous), c.changed))
    ensures d.limit == c.limit && d.demands == c.demands && !d.changed
  {
    var e := NodeIteration(jobs, usages, "");
    NodeLeftoverEnabled(c, jobs, demands, previous, usages);
    NodeLeftoverReady(c, jobs, demands, previous, usages);
    hide Consistent, SessionsAgree, Apply, Enabled, LeftoverRound, LeftoverStep, Leftover.Enforced, Leftover.Observed,
         RatesInvariant, Ready, NodeIteration;
    EventKeeps(DynamicLeftover, c, e);
    d := Apply(DynamicLeftover, c, e);
    ApplyLeftover(c, e);
    NodeLeftoverResult(c, jobs, demands, previous, usages);
    NodeLeftoverKeeps(c, jobs, demands, previous, NodeAsks(demands, usages, previous), d);
  }

  lemma NodeDemanding(c: Core, jobs: seq<string>, demands: seq<int>, previous: seq<int>)
    requires OnNode(c, jobs, demands, previous) && forall i | 0 <= i < |jobs| :: 1 <= demands[i]
    ensures forall j | j in jobs :: j in c.demands && 1 <= c.demands[j]
  {
    hide Base;
  }

  lemma LeftoverDemands(c: Core, o: Order, asks: seq<Leftover.Ask>)
    requires Ready(c, o) && |asks| == |o.jobs| && Leftover.Observed(asks)
    ensures LeftoverRound(c, o, asks).demands == c.demands
  {
    hide Consistent, Visits, Leftover.Enforced, Leftover.Computed, Leftover.Observed, Assign, Choose;
  }

  lemma NodeEnforced(c: Core, jobs: seq<string>, asks: seq<Leftover.Ask>)
    requires Ready(c, NodeOrder(jobs)) && |asks| == |jobs| && jobs != [] && Leftover.Observed(asks)
    ensures var d := LeftoverRound(c, NodeOrder(jobs), asks);
      && d.limit == c.limit && d.demands == c.demands && d.locations == c.locations && d.sessions == c.sessions
      && forall i | 0 <= i < |jobs| ::
           jobs[i] in d.previous && d.previous[jobs[i]] == Leftover.Enforced(c.limit, asks, c.changed)[i]
  {
    LeftoverRoundPrevious(c, NodeOrder(jobs), asks);
    RoundsKeepSystem(c, NodeOrder(jobs), asks);
    LeftoverDemands(c, NodeOrder(jobs), asks);
    hide Consistent, Leftover.Enforced, LeftoverRound, Visits, Leftover.Observed;
    Assigned(c.previous, jobs, Leftover.Enforced(c.limit, asks, c.changed));
  }

  /** A job joins with the demand submitted for it before, or without one. */
  lemma NodeJoins(t: ControlType, c: Core, jobs: seq<string>, demands: seq<int>, previous: seq<int>, job: string)
    returns (d: Core)
    requires OnNode(c, jobs, demands, previous) && job !in jobs
    ensures Enabled(t, c, StageJoins(StageOf(job))) && d == Apply(t, c, StageJoins(StageOf(job)))
    ensures OnNode(d, jobs + [job], demands + [if job in c.demands then c.demands[job] else -1], previous + [0])
    ensures d.limit == c.limit && d.demands == Emplace(c.demands, job, -1) && d.changed
  {
    FreshStage(c, jobs, job);
    NodeGrows(c, jobs, job);
    hide Consistent, SessionsAgree, RatesInvariant, RegisterStage, OnNode;
    assert Enabled(t, c, StageJoins(StageOf(job))) by { OnNodeLive(c, jobs, demands, previous); }
    EventKeeps(t, c, StageJoins(StageOf(job)));
    d := RegisterStage(c, StageOf(job));
    NodeJoined(c, jobs, demands, previous, job, d);
  }

  lemma OnNodeLive(c: Core, jobs: seq<string>, demands: seq<int>, previous: seq<int>)
    requires OnNode(c, jobs, demands, previous)
    ensures NODE in c.sessions
  {
  }

  lemma NodeJoined(c: Core, jobs: seq<string>, demands: seq<int>, previous: seq<int>, job: string, d: Core)
    requires OnNode(c, jobs, demands, previous) && job !in jobs
    requires Base(d) && d.locations == Places(jobs + [job]) && d.sessions == c.sessions
    requires d.demands == Emplace(c.demands, job, -1) && d.previous == c.previous[job := 0]
    ensures OnNode(d, jobs + [job], demands + [if job in c.demands then c.demands[job] else -1], previous + [0])
  {
    hide Base, Places;
    AppendKeepsApart(jobs, job);
    hide NoDuplicates;
    forall i | 0 <= i < |jobs|
      ensures jobs[i] != job
    {
      assert jobs[i] in jobs;
    }
  }

  lemma NodeGrows(c: Core, jobs: seq<string>, job: string)
    requires Consistent(c) && c.locations == Places(jobs) && job !in jobs
    ensures var d := RegisterStage(c, StageOf(job));
      && d.locations == Places(jobs + [job]) && d.sessions == c.sessions && d.limit == c.limit && d.changed
      && d.demands == Emplace(c.demands, job, -1) && d.previous == c.previous[job := 0]
  {
    assert AddEnv(map[], NODE, 0) == map[NODE := [0]];
    assert job !in c.previous;
    hide IndexesAgree, Tidy;
  }

  lemma FreshStage(c: Core, jobs: seq<string>, job: string)
    requires Consistent(c) && c.locations == Places(jobs) && job !in jobs
    ensures Stage(job, 0) !in c.info
  {
    var s := Stage(job, 0);
    assert forall a :: Informed(c, s, a) <==> Located(c, s, a);
    assert forall a :: !Located(c, s, a);
    assert s in c.info ==> Informed(c, s, c.info[s].address);
  }

  lemma PolicyIsRead(c: Core, job: string, demand: int)
    requires Tokenizer.IsToken(job, '|')
    ensures var rule := PolicyText("1", "demand", job, "rate", demand);
      && PolicyReadable(rule)
      && UpdateDemands(c, rule) == c.(demands := c.demands[job := demand], activeOperation := "rate")
  {
    assert forall f | f in ["1", job, "rate"] :: Tokenizer.IsToken(f, '|');
    hide PolicyText, PolicyReadable, UpdateDemands, Tokenizer.IsToken;
    PolicyReachesJob(c, "1", "demand", job, "rate", demand);
  }

  lemma NobodyAnswers(c: Core)
    requires Base(c)
    ensures Received(c, [], map[]) && CollectAll(c, [], map[]) == c
  {
    assert Answered(c, [], map[]);
    HealthyChangesNothing(c, [], map[]);
    hide Consistent, SessionsAgree, CollectAll;
  }

  /** A demand submitted while no stage is registered. */
  lemma DemandIsSet(c: Core, job: string, demand: int)
    requires Base(c) && c.locations == map[] && 1 <= c.limit && Tokenizer.IsToken(job, '|')
    ensures var e := Iteration([], map[], PolicyText("1", "demand", job, "rate", demand), Order([], map[]));
      && Enabled(DynamicLeftover, c, e)
      && Apply(DynamicLeftover, c, e) == c.(demands := c.demands[job := demand], activeOperation := "rate", changed := false)
  {
    PolicyIsRead(c, job, demand);
    NobodyAnswers(c);
    hide PolicyText, PolicyReadable, Tokenizer.IsToken, Consistent, SessionsAgree, CollectAll, UpdateDemands, Received;
    var e := Iteration([], map[], PolicyText("1", "demand", job, "rate", demand), Order([], map[]));
    assert Prepared(c, e) == UpdateDemands(c, e.rule);
  }

  // ------------------------------------------------------------------
  // The start of every run here
  // ------------------------------------------------------------------

  lemma TokenIs(name: string)
    requires name in ["a", "b", "c"]
    ensures Tokenizer.IsToken(name, '|')
  {
  }

  lemma OnNodeBase(c: Core, jobs: seq<string>, demands: seq<int>, previous: seq<int>)
    requires OnNode(c, jobs, demands, previous)
    ensures Base(c)
  {
  }

  lemma NodeIsAll(c: Core, jobs: seq<string>, demands: seq<int>, previous: seq<int>)
    requires OnNode(c, jobs, demands, previous)
    ensures Enumerates([NODE], c.sessions) && c.activeLocals == 1
    ensures WithStages(c.localToStages, [NODE]) == if jobs == [] then [] else [NODE]
  {
    assert |{NODE}| == 1;
    if jobs != [] {
      NodeStages(c, jobs, demands, previous);
    } else {
      NobodyListed(c);
    }
    assert [NODE][..0] == [];
    assert WithStages(c.localToStages, []) == [];
  }

  lemma NobodyListed(c: Core)
    requires Base(c) && c.locations == map[]
    ensures !Asked(c, NODE)
  {
    if Asked(c, NODE) {
      assert Listed(c, c.localToStages[NODE][0], NODE);
    }
  }

  lemma LoweredOnNode(c: Core, jobs: seq<string>, demands: seq<int>, previous: seq<int>)
    requires OnNode(c, jobs, demands, previous)
    ensures OnNode(c.(changed := false), jobs, demands, previous)
  {
    LowerMark(c);
    hide Consistent;
  }

  // ------------------------------------------------------------------
  // Registrations of one turn
  // ------------------------------------------------------------------

  function Infos(jobs: seq<string>): (r: seq<StageInfo>)
    ensures |r| == |jobs| && forall i | 0 <= i < |r| :: r[i] == StageOf(jobs[i])
  {
    seq(|jobs|, i requires 0 <= i < |jobs| => StageOf(jobs[i]))
  }

  function Zeros(n: nat): (r: seq<int>)
    ensures |r| == n && forall i | 0 <= i < n :: r[i] == 0
  {
    seq(n, _ => 0)
  }

  /** The demand each job joins with: the one submitted for it before, or none. */
  function Wants(demands: map<string, int>, jobs: seq<string>): (r: seq<int>)
    ensures |r| == |jobs|
    ensures forall i | 0 <= i < |r| :: r[i] == if jobs[i] in demands then demands[jobs[i]] else -1
  {
    seq(|jobs|, i requires 0 <= i < |jobs| => if jobs[i] in demands then demands[jobs[i]] else -1)
  }

  /** Jobs join one after the other. */
  lemma {:induction false} StagesAppear(t: ControlType, c: Core, jobs: seq<string>, demands: seq<int>, previous: seq<int>,
                                        more: seq<string>)
    requires OnNode(c, jobs, demands, previous) && NoDuplicates(jobs + more) && Base(c)
    ensures FeasibleAll(t, c, StagesJoin(Infos(more)))
    ensures var d := Final(t, c, StagesJoin(Infos(more)));
      && OnNode(d, jobs + more, demands + Wants(c.demands, more), previous + Zeros(|more|)) && d.limit == c.limit
      && (more != [] ==> d.changed)
      && forall j | j !in more :: j in d.demands <==> j in c.demands
    decreases |more|
  {
    hide Base, OnNode, Runs.Enabled, Runs.Apply, NoDuplicates, Wants, Zeros, Infos, StagesJoin, Emplace;
    if more == [] {
      NobodyAppears(c, jobs, demands, previous);
    } else {
      hide FeasibleAll, Final;
      var job, rest := more[0], more[1..];
      FirstIsNew(jobs, more);
      var d := OneAppears(t, c, jobs, demands, previous, job);
      StagesAppear(t, d, jobs + [job], demands + Wants(c.demands, [job]), previous + [0], rest);
      JoinFirst(t, c, d, job, rest);
      AppearedOrder(c.demands, jobs, demands, previous, more);
      assert more == [job] + rest;
    }
  }

  lemma NobodyAppears(c: Core, jobs: seq<string>, demands: seq<int>, previous: seq<int>)
    ensures jobs + [] == jobs && demands + Wants(c.demands, []) == demands && previous + Zeros(0) == previous
    ensures StagesJoin(Infos([])) == []
  {
  }

  lemma OneAppears(t: ControlType, c: Core, jobs: seq<string>, demands: seq<int>, previous: seq<int>, job: string)
    returns (d: Core)
    requires OnNode(c, jobs, demands, previous) && job !in jobs
    ensures Runs.Enabled(t, c, StageJoins(StageOf(job))) && d == Runs.Apply(t, c, StageJoins(StageOf(job))) && Base(d)
    ensures OnNode(d, jobs + [job], demands + Wants(c.demands, [job]), previous + [0])
    ensures d.limit == c.limit && d.changed && d.demands == Emplace(c.demands, job, -1)
    ensures forall j | j != job :: j in d.demands <==> j in c.demands
  {
    OnNodeBase(c, jobs, demands, previous);
    hide OnNode, Base, Runs.Enabled, Runs.Apply;
    d := NodeJoins(t, c, jobs, demands, previous, job);
    assert Wants(c.demands, [job]) == [if job in c.demands then c.demands[job] else -1];
    OnNodeBase(d, jobs + [job], demands + Wants(c.demands, [job]), previous + [0]);
  }

  lemma AppearedOrder(wanted: map<string, int>, jobs: seq<string>, demands: seq<int>, previous: seq<int>, more: seq<string>)
    requires more != [] && more[0] !in more[1..]
    ensures jobs + more == (jobs + [more[0]]) + more[1..]
    ensures demands + Wants(wanted, more)
         == (demands + Wants(wanted, [more[0]])) + Wants(Emplace(wanted, more[0], -1), more[1..])
    ensures previous + Zeros(|more|) == (previous + [0]) + Zeros(|more[1..]|)
  {
    assert more == [more[0]] + more[1..];
    RestWants(wanted, more[0], more[1..]);
    hide Wants, Emplace;
  }

  lemma FirstIsNew(jobs: seq<string>, more: seq<string>)
    requires NoDuplicates(jobs + more) && more != []
    ensures more[0] !in jobs && more[0] !in more[1..] && NoDuplicates((jobs + [more[0]]) + more[1..])
  {
    assert jobs + more == (jobs + [more[0]]) + more[1..];
    assert (jobs + more)[|jobs|] == more[0];
    assert forall i | 0 <= i < |jobs| :: (jobs + more)[i] == jobs[i];
    assert forall i | 0 <= i < |more| :: (jobs + more)[|jobs| + i] == more[i];
  }

  lemma RestWants(demands: map<string, int>, job: string, rest: seq<string>)
    requires job !in rest
    ensures Wants(demands, [job] + rest) == Wants(demands, [job]) + Wants(Emplace(demands, job, -1), rest)
  {
    assert forall i | 0 <= i < |rest| :: rest[i] in rest;
  }

  lemma JoinFirst(t: ControlType, c: Core, d: Core, job: string, rest: seq<string>)
    requires Base(c) && Base(d) && Runs.Enabled(t, c, StageJoins(StageOf(job)))
    requires d == Runs.Apply(t, c, StageJoins(StageOf(job))) && FeasibleAll(t, d, StagesJoin(Infos(rest)))
    ensures FeasibleAll(t, c, StagesJoin(Infos([job] + rest)))
    ensures Final(t, c, StagesJoin(Infos([job] + rest))) == Final(t, d, StagesJoin(Infos(rest)))
  {
    hide Base, Runs.Enabled, Runs.Apply;
    var first := Happens(StageJoins(StageOf(job)));
    OneFeasible(t, c, first);
    FinalAppend(t, c, [first], StagesJoin(Infos(rest)));
    assert StagesJoin(Infos([job] + rest)) == [first] + StagesJoin(Infos(rest));
  }

  /** The first turn: the local controller joins, and then the stages of some jobs. */
  function FirstRound(jobs: seq<string>): Round {
    Round([NODE], Infos(jobs), [NODE], map[], "", Order([], map[]))
  }

  lemma NodeAppears(t: ControlType, limit: int, jobs: seq<string>) returns (d: Core)
    requires NoDuplicates(jobs)
    ensures Base(Initial(limit, "")) && FeasibleAll(t, Initial(limit, ""), Joins(FirstRound(jobs)))
    ensures d == Final(t, Initial(limit, ""), Joins(FirstRound(jobs))) && d.limit == limit
    ensures OnNode(d, jobs, Wants(map[], jobs), Zeros(|jobs|)) && (jobs != [] ==> d.changed)
  {
    var c := Initial(limit, "");
    InitialIsConsistent(limit, "");
    var m := RegisterLocal(c, NODE);
    RegisterLocalKeeps(c, NODE);
    assert OnNode(m, [], [], []);
    assert LocalsJoin([NODE]) == [Happens(LocalJoins(NODE))];
    OneFeasible(t, c, Happens(LocalJoins(NODE)));
    assert [] + jobs == jobs && [] + Wants(map[], jobs) == Wants(map[], jobs) && [] + Zeros(|jobs|) == Zeros(|jobs|);
    hide Base, OnNode;
    StagesAppear(t, m, [], [], [], jobs);
    FinalAppend(t, c, LocalsJoin([NODE]), StagesJoin(Infos(jobs)));
    d := Final(t, m, StagesJoin(Infos(jobs)));
  }

  /** A later turn in which the stages of some jobs join. */
  function NextRound(jobs: seq<string>): Round {
    Round([], Infos(jobs), [NODE], map[], "", Order([], map[]))
  }

  lemma JobsAppear(t: ControlType, c: Core, jobs: seq<string>, demands: seq<int>, previous: seq<int>, more: seq<string>)
    returns (d: Core)
    requires OnNode(c, jobs, demands, previous) && NoDuplicates(jobs + more) && Base(c)
    ensures FeasibleAll(t, c, Joins(NextRound(more))) && d == Final(t, c, Joins(NextRound(more)))
    ensures OnNode(d, jobs + more, demands + Wants(c.demands, more), previous + Zeros(|more|)) && d.limit == c.limit
    ensures forall j | j !in more :: j in d.demands <==> j in c.demands
  {
    StagesAppear(t, c, jobs, demands, previous, more);
    assert LocalsJoin([]) + StagesJoin(Infos(more)) == StagesJoin(Infos(more));
    hide Base, OnNode;
    d := Final(t, c, StagesJoin(Infos(more)));
  }

  lemma NobodyJoins(t: ControlType, c: Core)
    requires Base(c)
    ensures FeasibleAll(t, c, Joins(NextRound([]))) && Final(t, c, Joins(NextRound([]))) == c
  {
    hide Base;
    assert Joins(NextRound([])) == [];
  }

  // ------------------------------------------------------------------
  // Windows of leftover control
  // ------------------------------------------------------------------

  /** The loop is between two windows, with these jobs. */
  ghost predicate Between(limit: int, x: Control, jobs: seq<string>, demands: seq<int>, previous: seq<int>) {
    && Arrives(DynamicLeftover, limit, x) && x.counter == 0 && x.core.limit == limit
    && OnNode(x.core, jobs, demands, previous)
  }

  /** A window opens with the registrations of `first`, after which the registry is `m`. */
  ghost predicate Opens(limit: int, x: Control, first: Round, m: Core) {
    && Arrives(DynamicLeftover, limit, x) && x.counter == 0 && first.sessions == [NODE] && m.limit == limit
    && 0 < |first.locals| + x.core.activeLocals + |first.stages|
    && FeasibleAll(DynamicLeftover, x.core, Joins(first)) && m == Final(DynamicLeftover, x.core, Joins(first))
  }

  lemma FirstOpens(limit: int, jobs: seq<string>) returns (x: Control, m: Core)
    requires NoDuplicates(jobs)
    ensures Opens(limit, x, FirstRound(jobs), m) && OnNode(m, jobs, Wants(map[], jobs), Zeros(|jobs|))
    ensures jobs == [] ==> m.demands == map[]
  {
    ArrivesFirst(DynamicLeftover, limit);
    x := Begin(Initial(limit, ""));
    m := NodeAppears(DynamicLeftover, limit, jobs);
    hide Base, OnNode, FeasibleAll, Arrives, Joins;
    if jobs == [] {
      NodeOnly(limit, m);
    }
  }

  lemma NodeOnly(limit: int, m: Core)
    requires Base(Initial(limit, "")) && FeasibleAll(DynamicLeftover, Initial(limit, ""), Joins(FirstRound([])))
    requires m == Final(DynamicLeftover, Initial(limit, ""), Joins(FirstRound([])))
    ensures m.demands == map[]
  {
    var c, join := Initial(limit, ""), Happens(LocalJoins(NODE));
    assert Joins(FirstRound([])) == [join];
    assert Feasible(DynamicLeftover, c, join);
    OneFeasible(DynamicLeftover, c, join);
    assert StateAfter(DynamicLeftover, c, join) == RegisterLocal(c, NODE);
  }

  lemma NextOpens(limit: int, x: Control, jobs: seq<string>, demands: seq<int>, previous: seq<int>, more: seq<string>)
    returns (m: Core)
    requires Between(limit, x, jobs, demands, previous) && NoDuplicates(jobs + more)
    ensures Opens(limit, x, NextRound(more), m)
    ensures OnNode(m, jobs + more, demands + Wants(x.core.demands, more), previous + Zeros(|more|))
    ensures more == [] ==> m == x.core
    ensures forall j | j !in more :: j in m.demands <==> j in x.core.demands
  {
    NodeIsAll(x.core, jobs, demands, previous);
    m := JobsAppear(DynamicLeftover, x.core, jobs, demands, previous, more);
    hide Base, OnNode, FeasibleAll, Final, Joins, Leads;
    if more == [] {
      NobodyJoins(DynamicLeftover, x.core);
    }
  }

  /** A window in which a policy sets the demand of a job that is still to come. */
  lemma DemandWindow(limit: int, x: Control, first: Round, m: Core, job: string, demand: int) returns (y: Control)
    requires Opens(limit, x, first, m) && OnNode(m, [], [], []) && 1 <= limit && job in ["a", "b", "c"]
    ensures Between(limit, y, [], [], []) && y.core.demands == m.demands[job := demand]
  {
    NodeIsAll(m, [], [], []);
    LoweredOnNode(m, [], [], []);
    TokenIs(job);
    hide Base, FeasibleAll, Final, Joins, Leads, WithStages, Enumerates, Runs.Enabled, Runs.Apply, PolicyText, Tokenizer.IsToken;
    var z := WindowOpens(limit, x, first, m);
    var rule := PolicyText("1", "demand", job, "rate", demand);
    DemandIsSet(z.core, job, demand);
    y := WindowCloses(limit, z, Round([], [], [NODE], map[], rule, Order([], map[])),
                      Iteration([], map[], rule, Order([], map[])));
    EmptyOnNode(m, y.core);
  }

  lemma EmptyOnNode(m: Core, d: Core)
    requires OnNode(m, [], [], []) && Base(d) && d.sessions == m.sessions && d.locations == m.locations
    ensures OnNode(d, [], [], [])
  {
    hide Base;
  }

  /** A window with statistics: the jobs are enforced what the allocator says. */
  lemma UsageWindow(limit: int, x: Control, first: Round, m: Core,
                    jobs: seq<string>, demands: seq<int>, previous: seq<int>, usages: seq<int>)
    returns (y: Control)
    requires Opens(limit, x, first, m) && OnNode(m, jobs, demands, previous)
    requires jobs != [] && |usages| == |jobs| <= limit && Used(usages) && forall i | 0 <= i < |jobs| :: 1 <= demands[i]
    ensures Leftover.Observed(NodeAsks(demands, usages, previous))
    ensures Between(limit, y, jobs, demands, Leftover.Enforced(limit, NodeAsks(demands, usages, previous), false))
    ensures y.core.demands == m.demands
  {
    NodeIsAll(m, jobs, demands, previous);
    LoweredOnNode(m, jobs, demands, previous);
    hide Base, OnNode, FeasibleAll, Final, Joins, Leads, WithStages, Enumerates, Runs.Enabled, Runs.Apply,
         Leftover.Enforced, Leftover.Observed, Used;
    var z := WindowOpens(limit, x, first, m);
    var d := NodeLeftover(z.core, jobs, demands, previous, usages);
    y := WindowCloses(limit, z, Round([], [], [NODE], map[NODE := Reply(jobs, usages)], "", NodeOrder(jobs)),
                      NodeIteration(jobs, usages, ""));
  }

  // ------------------------------------------------------------------
  // A negative rate
  // ------------------------------------------------------------------

  const DEMANDS := map["a" := 507, "b" := 2, "c" := 821]
  const JOBS := ["a", "b", "c"]
  const WANTS := [507, 2, 821]

  lemma NoMore(jobs: seq<string>, demands: seq<int>, previous: seq<int>, wanted: map<string, int>)
    requires NoDuplicates(jobs)
    ensures NoDuplicates(jobs + []) && jobs + [] == jobs
    ensures demands + Wants(wanted, []) == demands && previous + Zeros(0) == previous
  {
    assert jobs + [] == jobs;
  }

  /** The local controller joins in the first turn; three windows later the three demands are set. */
  lemma DemandsSet() returns (x: Control)
    ensures Between(1000, x, [], [], []) && x.core.demands == DEMANDS
  {
    hide OnNode, Opens, Arrives, Base, FeasibleAll, Final;
    var x0, m0 := FirstOpens(1000, []);
    NoMore([], [], [], map[]);
    var x1 := DemandWindow(1000, x0, FirstRound([]), m0, "a", 507);
    NoMore([], [], [], x1.core.demands);
    var m1 := NextOpens(1000, x1, [], [], [], []);
    var x2 := DemandWindow(1000, x1, NextRound([]), m1, "b", 2);
    NoMore([], [], [], x2.core.demands);
    var m2 := NextOpens(1000, x2, [], [], [], []);
    x := DemandWindow(1000, x2, NextRound([]), m2, "c", 821);
    assert map[]["a" := 507]["b" := 2]["c" := 821] == DEMANDS;
  }

  /** The next window: the three jobs join, and their rates are all enforced. */
  lemma AfterFirst() returns (x: Control)
    ensures Between(1000, x, JOBS, WANTS, [333, 2, 665])
  {
    hide OnNode, Opens, Arrives, Leftover.Enforced, Leftover.Observed, Used, FeasibleAll, Final;
    var x0 := DemandsSet();
    ThreeWanted();
    var m := NextOpens(1000, x0, [], [], [], JOBS);
    assert Used([279, 261, 645]) by { AllUsed(279, 261, 645); }
    x := UsageWindow(1000, x0, NextRound(JOBS), m, JOBS, WANTS, [0, 0, 0], [279, 261, 645]);
    assert NodeAsks(WANTS, [279, 261, 645], [0, 0, 0]) == Leftover.FIRST_ROUND;
    Leftover.FirstRound();
  }

  lemma ThreeWanted()
    ensures NoDuplicates([] + JOBS) && [] + JOBS == JOBS
    ensures [] + Wants(DEMANDS, JOBS) == WANTS && [] + Zeros(3) == [0, 0, 0]
  {
    var w := Wants(DEMANDS, JOBS);
    assert JOBS[0] == "a" && JOBS[1] == "b" && JOBS[2] == "c";
    assert w[0] == 507 && w[1] == 2 && w[2] == 821;
    hide Wants;
    assert w == WANTS;
  }

  lemma AllUsed(a: int, b: int, c: int)
    requires 1 <= a && 1 <= b && 1 <= c
    ensures Used([a, b, c])
  {
  }

  /** A window in which nobody joins. */
  lemma QuietWindow(limit: int, x: Control, jobs: seq<string>, demands: seq<int>, previous: seq<int>, usages: seq<int>)
    returns (y: Control)
    requires Between(limit, x, jobs, demands, previous) && |demands| == |previous| == |usages| == |jobs| <= limit
    requires jobs != [] && NoDuplicates(jobs) && Used(usages) && forall i | 0 <= i < |jobs| :: 1 <= demands[i]
    ensures Leftover.Observed(NodeAsks(demands, usages, previous))
    ensures Between(limit, y, jobs, demands, Leftover.Enforced(limit, NodeAsks(demands, usages, previous), false))
  {
    NoMore(jobs, demands, previous, x.core.demands);
    hide OnNode, Between, Opens, Arrives, Leftover.Enforced, Leftover.Observed, Used, FeasibleAll, Final, NoDuplicates;
    var m := NextOpens(limit, x, jobs, demands, previous, []);
    y := UsageWindow(limit, x, NextRound([]), m, jobs, demands, previous, usages);
  }

  lemma JobsApart()
    ensures NoDuplicates(JOBS)
  {
  }

  lemma AfterSecond() returns (x: Control)
    ensures Between(1000, x, JOBS, WANTS, [338, 2, 665])
  {
    hide Between, Leftover.Enforced, Leftover.Observed, Used;
    var x0 := AfterFirst();
    AllUsed(475, 29, 597);
    JobsApart();
    x := QuietWindow(1000, x0, JOBS, WANTS, [333, 2, 665], [475, 29, 597]);
    assert NodeAsks(WANTS, [475, 29, 597], [333, 2, 665]) == Leftover.SECOND_ROUND;
    Leftover.SecondRound();
  }

  lemma AfterThird() returns (x: Control)
    ensures Between(1000, x, JOBS, WANTS, [338, -3, 665])
  {
    hide Between, Leftover.Enforced, Leftover.Observed, Used;
    var x0 := AfterSecond();
    AllUsed(280, 1, 607);
    JobsApart();
    x := QuietWindow(1000, x0, JOBS, WANTS, [338, 2, 665], [280, 1, 607]);
    assert NodeAsks(WANTS, [280, 1, 607], [338, 2, 665]) == Leftover.THIRD_ROUND;
    Leftover.ThirdRound();
  }

  /** Turns of leftover control that end with a negative rate enforced: 1003 are maintained beside it. */
  lemma NegativeRateIsReached() returns (rounds: seq<Round>, x: Control)
    ensures Leads(DynamicLeftover, 1000, rounds, x)
    ensures var previous := x.core.previous;
      && "a" in previous && previous["a"] == 338
      && "b" in previous && previous["b"] == -3
      && "c" in previous && previous["c"] == 665
  {
    x := AfterThird();
    rounds :| Leads(DynamicLeftover, 1000, rounds, x);
    hide Leads;
    OnNodeRates(x.core, JOBS, WANTS, [338, -3, 665]);
    hide OnNode, Base;
    assert JOBS[0] == "a" && JOBS[1] == "b" && JOBS[2] == "c";
  }

  lemma OnNodeRates(c: Core, jobs: seq<string>, demands: seq<int>, previous: seq<int>)
    requires OnNode(c, jobs, demands, previous)
    ensures |jobs| == |previous|
    ensures forall i | 0 <= i < |jobs| :: jobs[i] in c.previous && c.previous[jobs[i]] == previous[i]
  {
  }

  // ------------------------------------------------------------------
  // A job whose demand was never set
  // ------------------------------------------------------------------

  /** Two demands are set in two windows. */
  lemma TwoSet() returns (x: Control)
    ensures Between(1000, x, [], [], []) && x.core.demands == map["a" := 10, "b" := 900]
  {
    hide OnNode, Opens, Arrives, Base, FeasibleAll, Final;
    NoMore([], [], [], map[]);
    var x0, m0 := FirstOpens(1000, []);
    var x1 := DemandWindow(1000, x0, FirstRound([]), m0, "a", 10);
    NoMore([], [], [], x1.core.demands);
    var m1 := NextOpens(1000, x1, [], [], [], []);
    x := DemandWindow(1000, x1, NextRound([]), m1, "b", 900);
    assert map[]["a" := 10]["b" := 900] == map["a" := 10, "b" := 900];
  }

  /** Two jobs with demands are enforced their rates. */
  lemma TwoEnforced() returns (x: Control)
    ensures Between(1000, x, ["a", "b"], [10, 900], [13, 986]) && "c" !in x.core.demands
  {
    hide OnNode, Opens, Arrives, Base, FeasibleAll, Final, Leftover.Enforced, Leftover.Observed, Used, Wants, NoDuplicates;
    var x0 := TwoSet();
    TwoWanted();
    var m := NextOpens(1000, x0, [], [], [], ["a", "b"]);
    x := UsageWindow(1000, x0, NextRound(["a", "b"]), m, ["a", "b"], [10, 900], [0, 0], [40, 900]);
    assert NodeAsks([10, 900], [40, 900], [0, 0]) == Machine.BEFORE_JOINING;
    Machine.RoundBeforeJoining();
  }

  lemma TwoWanted()
    ensures NoDuplicates([] + ["a", "b"]) && [] + ["a", "b"] == ["a", "b"] && [] + Zeros(2) == [0, 0]
    ensures [] + Wants(map["a" := 10, "b" := 900], ["a", "b"]) == [10, 900] && Used([40, 900])
  {
    assert Wants(map["a" := 10, "b" := 900], ["a", "b"]) == [10, 900];
  }

  /** The next statistics show the leftover allocator exactly these jobs. */
  ghost predicate Shows(c: Core, replies: map<string, seq<Sample>>, o: Order, asks: seq<Leftover.Ask>) {
    && Base(c) && Received(c, [NODE], replies) && CollectAll(c, [NODE], replies) == c
    && Ready(c, o) && StatisticsAtHand(c, [NODE], replies) && Asks(c, o, [NODE], replies) == asks
  }

  /**
   * Turns of leftover control before the last of a window, which collects
   * statistics that make the machine enforce more than a million times the limit
   * for a job without a demand.
   */
  lemma UnsetDemandEscapes() returns (rounds: seq<Round>, x: Control, replies: map<string, seq<Sample>>)
    ensures Leads(DynamicLeftover, 1000, rounds, x)
    ensures x.counter + 1 == COLLECT_ROUNDS && x.sent == [NODE] && x.core.limit == 1000 && !x.core.changed
    ensures Shows(x.core, replies, NodeOrder(JOBS), Machine.AFTER_JOINING)
    ensures Leftover.Observed(Machine.AFTER_JOINING)
    ensures var rate := Machine.MachineAt(x.core.limit, Machine.AFTER_JOINING, x.core.changed, 2);
      rate.Some? && 1_000_000 * 1000 < rate.value
  {
    x := UnsetJoined();
    rounds :| Leads(DynamicLeftover, 1000, rounds, x);
    replies := map[NODE := Reply(JOBS, [40, 900, 1])];
    hide OnNode, Base, Leads, Shows;
    UnsetStatistics(x.core, replies);
    Machine.RoundAfterJoining();
  }

  lemma UnsetJoined() returns (x: Control)
    ensures Arrives(DynamicLeftover, 1000, x) && x.counter + 1 == COLLECT_ROUNDS && x.sent == [NODE]
    ensures x.core.limit == 1000 && !x.core.changed && OnNode(x.core, JOBS, [10, 900, -1], [13, 986, 0])
  {
    var x0 := TwoEnforced();
    UnsetWanted(x0.core.demands);
    hide OnNode, FeasibleAll, Final, Leads, Joins, WithStages, Enumerates;
    var m := NextOpens(1000, x0, ["a", "b"], [10, 900], [13, 986], ["c"]);
    NodeIsAll(m, JOBS, [10, 900, -1], [13, 986, 0]);
    LoweredOnNode(m, JOBS, [10, 900, -1], [13, 986, 0]);
    x := WindowOpens(1000, x0, NextRound(["c"]), m);
  }

  lemma UnsetWanted(demands: map<string, int>)
    requires "c" !in demands
    ensures NoDuplicates(["a", "b"] + ["c"]) && ["a", "b"] + ["c"] == JOBS
    ensures [10, 900] + Wants(demands, ["c"]) == [10, 900, -1] && [13, 986] + Zeros(1) == [13, 986, 0]
  {
    assert Wants(demands, ["c"]) == [-1];
  }

  lemma UnsetStatistics(c: Core, replies: map<string, seq<Sample>>)
    requires OnNode(c, JOBS, [10, 900, -1], [13, 986, 0]) && replies == map[NODE := Reply(JOBS, [40, 900, 1])]
    ensures Shows(c, replies, NodeOrder(JOBS), Machine.AFTER_JOINING)
  {
    hide OnNode, Base, Received, CollectAll, Ready, Asks, StatisticsAtHand;
    NodeReplies(c, JOBS, [10, 900, -1], [13, 986, 0], [40, 900, 1]);
    NodeAsked(c, JOBS, [10, 900, -1], [13, 986, 0], [40, 900, 1]);
    OnNodeBase(c, JOBS, [10, 900, -1], [13, 986, 0]);
    assert NodeAsks([10, 900, -1], [40, 900, 1], [13, 986, 0]) == Machine.AFTER_JOINING;
  }

  // ------------------------------------------------------------------
  // Vanilla and static control
  // ------------------------------------------------------------------

  /** The first turn, in which the local controller and one job join, and statistics are collected. */
  function OnlyTurn(rule: string): Round {
    FirstRound(["a"]).(replies := map[NODE := Reply(["a"], [1])], rule := rule, order := NodeOrder(["a"]))
  }

  lemma OneJoined(t: ControlType, limit: int, rule: string) returns (c: Core)
    ensures Base(Initial(limit, "")) && FeasibleAll(t, Initial(limit, ""), Joins(OnlyTurn(rule)))
    ensures c == Final(t, Initial(limit, ""), Joins(OnlyTurn(rule)))
    ensures c.limit == limit && c.changed && OnNode(c, ["a"], [-1], [0])
  {
    hide Base, OnNode, FeasibleAll, Final;
    c := NodeAppears(t, limit, ["a"]);
    assert Wants(map[], ["a"]) == [-1] && Zeros(1) == [0];
    assert Joins(OnlyTurn(rule)) == Joins(FirstRound(["a"]));
  }

  /** The turn ends in the state of its one iteration. */
  lemma OneTurn(t: ControlType, limit: int, rule: string, c: Core) returns (rounds: seq<Round>, x: Control)
    requires t != DynamicLeftover && OnNode(c, ["a"], [-1], [0]) && Base(c)
    requires Base(Initial(limit, "")) && FeasibleAll(t, Initial(limit, ""), Joins(OnlyTurn(rule)))
    requires c == Final(t, Initial(limit, ""), Joins(OnlyTurn(rule)))
    requires Runs.Enabled(t, c, NodeIteration(["a"], [1], rule))
    ensures Leads(t, limit, rounds, x) && x.core == Runs.Apply(t, c, NodeIteration(["a"], [1], rule))
  {
    var start, r := Begin(Initial(limit, "")), OnlyTurn(rule);
    NodeIsAll(c, ["a"], [-1], [0]);
    assert Collecting(t, c, 0, [], r) == NodeIteration(["a"], [1], rule);
    ArrivesFirst(t, limit);
    hide Base, OnNode, FeasibleAll, Final, Joins, Collecting, Runs.Enabled, Runs.Apply, RoundPossible, AfterRound, Leads,
         WithStages, Enumerates;
    RoundIterates(t, start, r, c, NodeIteration(["a"], [1], rule));
    ArrivesNext(t, limit, start, r);
    x := AfterRound(t, start, r);
    rounds :| Leads(t, limit, rounds, x);
  }

  lemma OnlyShare(limit: int)
    requires 1 <= limit
    ensures Vanilla.Computed(limit, [-1]) == [limit] && Vanilla.Shareable(limit, [-1])
  {
    assert Vanilla.FirstPhase(limit, [-1]) == [1];
    assert Sum([1]) == 1;
    assert Vanilla.Leftover(limit, [-1]) == limit - 1;
    assert TruncDiv(limit - 1, 1) == limit - 1;
    assert Vanilla.Computed(limit, [-1]) == Shift([1], limit - 1) == [limit];
  }

  lemma OnlyVanillaEnabled(c: Core)
    requires OnNode(c, ["a"], [-1], [0]) && 1 <= c.limit
    ensures var e := NodeIteration(["a"], [1], "");
      Enabled(DynamicVanilla, c, e) && Prepared(c, e) == c && Visits(NodeOrder(["a"]), c)
  {
    OnlyShare(c.limit);
    NodePrepares(c, ["a"], [-1], [0], [1], "");
    NoPolicy(c);
    assert Values(c.demands, ["a"]) == [-1];
    hide Base, Consistent, SessionsAgree, CollectAll, Received, Visits, Vanilla.Shareable, UpdateDemands, PolicyReadable,
         Places, NoDuplicates, Reply, Used;
  }

  lemma ApplyVanilla(c: Core, e: Event)
    requires Base(c) && e.Iteration? && Enabled(DynamicVanilla, c, e)
    ensures Ready(Prepared(c, e), e.order)
    ensures Apply(DynamicVanilla, c, e) == VanillaRound(Prepared(c, e), e.order).(changed := false)
  {
    PreparedKeeps(c, e);
    hide Consistent, SessionsAgree, Received, Visits, Prepared, PolicyReadable, VanillaRound, Vanilla.Shareable;
  }

  lemma OnlyVanilla(c: Core)
    requires OnNode(c, ["a"], [-1], [0]) && 1 <= c.limit && c.changed
    ensures Enabled(DynamicVanilla, c, NodeIteration(["a"], [1], ""))
    ensures var d := Apply(DynamicVanilla, c, NodeIteration(["a"], [1], ""));
      "a" in d.previous && d.previous["a"] == c.limit
  {
    OnNodeBase(c, ["a"], [-1], [0]);
    hide OnNode, Consistent, SessionsAgree, Visits, Enabled, Apply;
    OnlyVanillaEnabled(c);
    OnlyRound(c);
    ApplyVanilla(c, NodeIteration(["a"], [1], ""));
    hide VanillaRound, Prepared;
  }

  lemma OnlyRound(c: Core)
    requires OnNode(c, ["a"], [-1], [0]) && 1 <= c.limit && c.changed && Visits(NodeOrder(["a"]), c)
    ensures var d := VanillaRound(c, NodeOrder(["a"])); "a" in d.previous && d.previous["a"] == c.limit
  {
    OnlyShare(c.limit);
    hide Consistent, SessionsAgree, Vanilla.Computed, Vanilla.Shareable, Vanilla.RewrittenDemands;
    assert Values(c.demands, ["a"]) == [-1];
    assert VanillaRates(c, NodeOrder(["a"])) == [c.limit];
    Assigned(c.previous, ["a"], [c.limit]);
  }

  /** A turn of vanilla control in which the only job is given the whole limit. */
  lemma OnlyJobGetsTheLimit(limit: int) returns (rounds: seq<Round>, x: Control)
    requires 1 <= limit
    ensures Leads(DynamicVanilla, limit, rounds, x)
    ensures "a" in x.core.previous && x.core.previous["a"] == limit
  {
    var c := OneJoined(DynamicVanilla, limit, "");
    OnNodeBase(c, ["a"], [-1], [0]);
    hide OnNode, Base, Runs.Enabled, Runs.Apply, FeasibleAll, Final, Leads;
    OnlyVanilla(c);
    rounds, x := OneTurn(DynamicVanilla, limit, "", c);
  }

  /** The policy sets the demand of job "a" to 500. */
  ghost predicate Sets500(c: Core, rule: string) {
    && PolicyReadable(rule) && PolicyOperation(rule) == "rate"
    && UpdateDemands(c, rule) == c.(demands := c.demands["a" := 500], activeOperation := "rate")
  }

  lemma OnlyStaticPrepares(c: Core, rule: string)
    requires OnNode(c, ["a"], [-1], [0]) && Sets500(c, rule)
    ensures var e := NodeIteration(["a"], [1], rule);
      && Enabled(Static, c, e) && Prepared(c, e) == c.(demands := c.demands["a" := 500], activeOperation := "rate")
      && 0 < Prepared(c, e).activeLocals && Visits(e.order, Prepared(c, e))
  {
    NodePrepares(c, ["a"], [-1], [0], [1], rule);
    assert NODE in c.sessions;
    hide PolicyReadable, PolicyOperation, UpdateDemands, Received, CollectAll, Visits, IndexesAgree, Tidy, JobsTracked;
  }

  lemma ApplyStatic(c: Core, e: Event)
    requires Base(c) && e.Iteration? && Enabled(Static, c, e) && 0 < PreparedActive(c, e)
    ensures Consistent(Prepared(c, e))
    ensures Apply(Static, c, e) == StaticStep(Prepared(c, e), e.rule, e.order).(changed := false)
  {
    PreparedKeeps(c, e);
    hide Consistent, SessionsAgree, Received, Visits, Prepared, PolicyReadable;
  }

  lemma OnlyStatic(c: Core, rule: string) returns (d: Core)
    requires OnNode(c, ["a"], [-1], [0]) && Sets500(c, rule)
    ensures Enabled(Static, c, NodeIteration(["a"], [1], rule))
    ensures d == Apply(Static, c, NodeIteration(["a"], [1], rule))
    ensures "a" in d.previous && d.previous["a"] == 500
  {
    var e := NodeIteration(["a"], [1], rule);
    OnNodeBase(c, ["a"], [-1], [0]);
    OnlyStaticPrepares(c, rule);
    ApplyStatic(c, e);
    OnlyStep(c, rule, Prepared(c, e));
    hide OnNode, Consistent, SessionsAgree, Received, Visits, Prepared, StaticStep, Apply, Enabled, Sets500;
    d := Apply(Static, c, e);
  }

  lemma OnlyStep(c: Core, rule: string, p: Core)
    requires OnNode(c, ["a"], [-1], [0]) && p == c.(demands := c.demands["a" := 500], activeOperation := "rate")
    requires Sets500(c, rule) && Consistent(p) && Visits(NodeOrder(["a"]), p)
    ensures var d := StaticStep(p, rule, NodeOrder(["a"])); "a" in d.previous && d.previous["a"] == 500
  {
    var m := MarkPolicy(p, rule);
    SameLocations(p, m);
    assert m == p.(changed := true);
    OnlyStaticRound(m);
    hide Consistent, SessionsAgree, PolicyReadable, PolicyOperation, UpdateDemands, StaticRound;
  }

  lemma OnlyStaticRound(m: Core)
    requires Ready(m, NodeOrder(["a"])) && m.changed && m.demands["a"] == 500 && m.previous["a"] == 0
    ensures var d := StaticRound(m, NodeOrder(["a"])); "a" in d.previous && d.previous["a"] == 500
  {
    hide IndexesAgree, Tidy;
    assert StaticRates(m, NodeOrder(["a"])) == [500];
    assert StaticSent(m, NodeOrder(["a"])) == [true];
    Assigned(m.previous, ["a"], [500]);
  }

  lemma Demand500(c: Core, rule: string)
    requires rule == PolicyText("1", "demand", "a", "rate", 500)
    ensures Sets500(c, rule)
  {
    TokenIs("a");
    assert forall f | f in ["1", "a", "rate"] :: Tokenizer.IsToken(f, '|');
    PolicyReachesJob(c, "1", "demand", "a", "rate", 500);
    hide PolicyText, Tokenizer.IsToken, PolicyReadable, PolicyOperation, UpdateDemands;
  }

  /** A turn of static control in which a policy is enforced. */
  lemma PolicyIsEnforced() returns (rounds: seq<Round>, x: Control)
    ensures Leads(Static, 1000, rounds, x)
    ensures "a" in x.core.previous && x.core.previous["a"] == 500
  {
    var rule := PolicyText("1", "demand", "a", "rate", 500);
    hide OnNode, Base, Runs.Enabled, Runs.Apply, FeasibleAll, Final, Leads, Sets500, PolicyText;
    var c := OneJoined(Static, 1000, rule);
    Demand500(c, rule);
    OnNodeBase(c, ["a"], [-1], [0]);
    var d := OnlyStatic(c, rule);
    rounds, x := OneTurn(Static, 1000, rule, c);
  }

  // ------------------------------------------------------------------
  // A registration in the window
  // ------------------------------------------------------------------

  /** The calls of actions that do not collect: they depend on no state. */
  function FlatCalls(rules: seq<string>, actions: seq<Action>): seq<S.Call> {
    if actions == [] then []
    else
      (match actions[0]
       case Requests(locals) => Requested(locals)
       case Happens(e) =>
         match e
         case LocalJoins(a) => Pair(a, HousekeepingWire.Handshake(rules))
         case StageJoins(i) => Pair(i.address, C.ReadyRule(i.stage))
         case _ => [])
      + FlatCalls(rules, actions[1..])
  }

  predicate Collects(a: Action) {
    a.Happens? && a.event.Iteration?
  }

  lemma {:induction false} CallsAreFlat(t: ControlType, rules: seq<string>, c: Core, w: Window, actions: seq<Action>)
    requires Base(c) && Allowed(t, c, w, actions) && forall i | 0 <= i < |actions| :: !Collects(actions[i])
    ensures RunCalls(t, rules, c, w, actions) == FlatCalls(rules, actions)
    decreases |actions|
  {
    hide Consistent, SessionsAgree, Runs.Enabled, Runs.Apply, InWindow, Asked;
    if actions == [] {
    } else {
      ActionKeeps(t, c, actions[0]);
      CallsAreFlat(t, rules, StateAfter(t, c, actions[0]), WindowAfterOne(w, actions[0]), actions[1..]);
    }
  }

  lemma FlatStep(rules: seq<string>, a: Action, rest: seq<Action>)
    ensures FlatCalls(rules, [a] + rest) == FlatCalls(rules, [a]) + FlatCalls(rules, rest)
  {
    assert ([a] + rest)[0] == a && ([a] + rest)[1..] == rest;
    assert [a][1..] == [] && FlatCalls(rules, []) == [];
  }

  const IDLE := Happens(IdleIteration)

  /** Two turns: the second registers a stage at a local controller asked in the first. */
  function Disturbing(): seq<Action> {
    [Happens(LocalJoins(NODE))] + ([Happens(StageJoins(StageOf("a")))] + ([Requests([NODE])] + ([IDLE] +
    ([Happens(StageJoins(StageOf("b")))] + [IDLE]))))
  }

  function DisturbingCalls(rules: seq<string>): seq<S.Call> {
    [S.Submit(NODE, HousekeepingWire.Handshake(rules)), S.Await(NODE, HousekeepingWire.Handshake(rules)),
     S.Submit(NODE, C.ReadyRule(Stage("a", 0))), S.Await(NODE, C.ReadyRule(Stage("a", 0))),
     S.Submit(NODE, C.AGGREGATED_RULE),
     S.Submit(NODE, C.ReadyRule(Stage("b", 0))), S.Await(NODE, C.ReadyRule(Stage("b", 0)))]
  }

  lemma DisturbingFlat(rules: seq<string>)
    ensures FlatCalls(rules, Disturbing()) == DisturbingCalls(rules)
  {
    var a, b := Happens(StageJoins(StageOf("a"))), Happens(StageJoins(StageOf("b")));
    FlatStep(rules, Happens(LocalJoins(NODE)), [a] + ([Requests([NODE])] + ([IDLE] + ([b] + [IDLE]))));
    FlatStep(rules, a, [Requests([NODE])] + ([IDLE] + ([b] + [IDLE])));
    FlatStep(rules, Requests([NODE]), [IDLE] + ([b] + [IDLE]));
    FlatStep(rules, IDLE, [b] + [IDLE]);
    FlatStep(rules, b, [IDLE]);
    FlatOne(rules);
    hide FlatCalls, C.ReadyRule, HousekeepingWire.Handshake;
  }

  lemma FlatOne(rules: seq<string>)
    ensures FlatCalls(rules, [IDLE]) == [] && FlatCalls(rules, [Requests([NODE])]) == [S.Submit(NODE, C.AGGREGATED_RULE)]
    ensures FlatCalls(rules, [Happens(LocalJoins(NODE))]) == Pair(NODE, HousekeepingWire.Handshake(rules))
    ensures forall j :: FlatCalls(rules, [Happens(StageJoins(StageOf(j)))]) == Pair(NODE, C.ReadyRule(Stage(j, 0)))
  {
    assert FlatCalls(rules, []) == [];
    assert Requested([NODE]) == [S.Submit(NODE, C.AGGREGATED_RULE)];
  }

  lemma DisturbingTurns() returns (rounds: seq<Round>)
    ensures Base(Initial(1000, "")) && LoopPossible(DynamicLeftover, Begin(Initial(1000, "")), rounds)
    ensures !Undisturbed(DynamicLeftover, Begin(Initial(1000, "")), rounds)
    ensures LoopActions(DynamicLeftover, Begin(Initial(1000, "")), rounds) == Disturbing()
  {
    var x, r, q := Begin(Initial(1000, "")), FirstRound(["a"]), NextRound(["b"]);
    rounds := [r] + [q];
    OneAndAnother();
    hide Base, OnNode, FeasibleAll, Final, RoundPossible, AfterRound, WithStages, Enumerates, Wants, Zeros, NoDuplicates, Joins,
         Infos, RoundActions, LoopPossible, Undisturbed, LoopActions;
    var m := NodeAppears(DynamicLeftover, 1000, ["a"]);
    NodeIsAll(m, ["a"], [-1], [0]);
    LoweredOnNode(m, ["a"], [-1], [0]);
    RoundIdles(x, r, m);
    RoundKeeps(DynamicLeftover, x, r);
    var y := AfterRound(DynamicLeftover, x, r);
    NodeIsAll(y.core, ["a"], [-1], [0]);
    var n := JobsAppear(DynamicLeftover, y.core, ["a"], [-1], [0], ["b"]);
    NodeIsAll(n, ["a"] + ["b"], [-1] + Wants(y.core.demands, ["b"]), [0] + Zeros(1));
    RoundIdles(y, q, n);
    SecondTurn(x, y, r, q);
    DisturbingActions(x, y, r, q, m, n);
  }

  lemma OneAndAnother()
    ensures NoDuplicates(["a"]) && NoDuplicates(["a"] + ["b"]) && Wants(map[], ["a"]) == [-1] && Zeros(1) == [0]
  {
  }

  lemma SecondTurn(x: Control, y: Control, r: Round, q: Round)
    requires Base(x.core) && RoundPossible(DynamicLeftover, x, r) && y == AfterRound(DynamicLeftover, x, r) && Base(y.core)
    requires RoundPossible(DynamicLeftover, y, q) && q.stages == Infos(["b"]) && y.counter == 1 && y.sent == [NODE]
    ensures LoopPossible(DynamicLeftover, x, [r] + [q]) && !Undisturbed(DynamicLeftover, x, [r] + [q])
    ensures LoopActions(DynamicLeftover, x, [r] + [q])
         == RoundActions(DynamicLeftover, x, r) + RoundActions(DynamicLeftover, y, q)
  {
    SecondIsLoud(y, q);
    hide Base, RoundPossible, AfterRound, RoundActions, Quiet, LoopPossible, Undisturbed, LoopActions, LoopEnd;
    LoopOfOne(DynamicLeftover, y, q);
    RoundKeeps(DynamicLeftover, x, r);
    LoopFirst(DynamicLeftover, x, r, [q]);
    ActionsFirst(DynamicLeftover, x, r, [q]);
  }

  lemma SecondIsLoud(y: Control, q: Round)
    requires q.stages == Infos(["b"]) && y.counter == 1 && y.sent == [NODE]
    ensures !Quiet(y, q)
  {
    assert q.stages[0] == StageOf("b");
    assert StageOf("b") in q.stages;
  }

  lemma ActionsFirst(t: ControlType, x: Control, r: Round, rest: seq<Round>)
    requires Base(x.core) && LoopPossible(t, x, [r] + rest) && RoundPossible(t, x, r) && Base(AfterRound(t, x, r).core)
    requires LoopPossible(t, AfterRound(t, x, r), rest)
    ensures LoopActions(t, x, [r] + rest) == RoundActions(t, x, r) + LoopActions(t, AfterRound(t, x, r), rest)
  {
    hide Base, RoundPossible, AfterRound, RoundActions;
    assert ([r] + rest)[0] == r && ([r] + rest)[1..] == rest;
  }

  lemma LoopOfOne(t: ControlType, y: Control, q: Round)
    requires Base(y.core) && RoundPossible(t, y, q)
    ensures LoopPossible(t, y, [q]) && (Undisturbed(t, y, [q]) <==> Quiet(y, q))
    ensures LoopActions(t, y, [q]) == RoundActions(t, y, q)
  {
    hide Base, RoundPossible, AfterRound, RoundActions, Quiet;
    RoundKeeps(t, y, q);
    assert [q] + [] == [q];
    assert LoopPossible(t, AfterRound(t, y, q), []) && Undisturbed(t, AfterRound(t, y, q), []);
    assert LoopActions(t, AfterRound(t, y, q), []) == [];
    hide LoopActions, LoopPossible, Undisturbed;
    LoopFirst(t, y, q, []);
    ActionsFirst(t, y, q, []);
  }

  lemma DisturbingActions(x: Control, y: Control, r: Round, q: Round, m: Core, n: Core)
    requires Base(x.core) && RoundPossible(DynamicLeftover, x, r) && x.counter == 0 && r == FirstRound(["a"])
    requires Base(y.core) && RoundPossible(DynamicLeftover, y, q) && y.counter == 1 && q == NextRound(["b"])
    requires m == Final(DynamicLeftover, x.core, Joins(r)) && WithStages(m.localToStages, [NODE]) == [NODE]
    requires n == Final(DynamicLeftover, y.core, Joins(q))
    ensures RoundActions(DynamicLeftover, x, r) + RoundActions(DynamicLeftover, y, q) == Disturbing()
  {
    JoinsAre();
    TurnsAre(m, x.sent, r);
    TurnsAre(n, y.sent, q);
    hide Base, Joins, Turn, RoundPossible, FeasibleAll, Final, WithStages;
    assert [Happens(LocalJoins(NODE)), Happens(StageJoins(StageOf("a")))]
        == [Happens(LocalJoins(NODE))] + [Happens(StageJoins(StageOf("a")))];
  }

  lemma JoinsAre()
    ensures Joins(FirstRound(["a"])) == [Happens(LocalJoins(NODE)), Happens(StageJoins(StageOf("a")))]
    ensures Joins(NextRound(["b"])) == [Happens(StageJoins(StageOf("b")))]
  {
  }

  lemma TurnsAre(m: Core, sent: seq<string>, r: Round)
    ensures Turn(DynamicLeftover, m, 0, sent, r) == [Requests(WithStages(m.localToStages, r.sessions))] + [IDLE]
    ensures Turn(DynamicLeftover, m, 1, sent, r) == [IDLE]
  {
  }

  /**
   * Turns from the empty registry that register a stage in the window: whatever
   * the workers do, the STAGE_READY wait returns the response to the statistics
   * request.
   */
  lemma StageGetsStatistics(rules: seq<string>, steps: seq<S.Step>) returns (rounds: seq<Round>)
    ensures Base(Initial(1000, "")) && LoopPossible(DynamicLeftover, Begin(Initial(1000, "")), rounds)
    ensures LoopCalls(DynamicLeftover, rules, Initial(1000, ""), rounds) == DisturbingCalls(rules)
    ensures !S.WellPaired(DisturbingCalls(rules))
    ensures S.IsSchedule(DisturbingCalls(rules), S.Start(), steps) ==>
      var w := S.After(DisturbingCalls(rules), S.Start(), steps);
      w.pc == 7 ==> |w.got| == 7 && w.got[6].Some? && w.got[6].value.rule == C.AGGREGATED_RULE
  {
    rounds := DisturbingTurns();
    hide Base, LoopPossible, LoopActions, LoopCalls, Undisturbed, S.WellPaired, Disturbing, DisturbingCalls, S.IsSchedule,
         S.After;
    DisturbingProgram(rules, Initial(1000, ""), rounds);
    LoopIsPairedExactly(DynamicLeftover, rules, Initial(1000, ""), rounds);
    if S.IsSchedule(DisturbingCalls(rules), S.Start(), steps) {
      ThirdWait(rules, steps);
    }
  }

  lemma DisturbingProgram(rules: seq<string>, c: Core, rounds: seq<Round>)
    requires Base(c) && LoopPossible(DynamicLeftover, Begin(c), rounds)
    requires LoopActions(DynamicLeftover, Begin(c), rounds) == Disturbing()
    ensures LoopCalls(DynamicLeftover, rules, c, rounds) == DisturbingCalls(rules)
  {
    NoneCollects();
    DisturbingFlat(rules);
    hide Base, LoopPossible, LoopActions, Allowed, RunCalls, FeasibleAll, Final, FlatCalls, Disturbing, DisturbingCalls, Steady,
         LoopEnd, WindowAfter, Collects;
    BeginIsSteady(DynamicLeftover, c);
    LoopIsAllowed(DynamicLeftover, Begin(c), rounds);
    CallsAreFlat(DynamicLeftover, rules, c, Decimal.None, Disturbing());
  }

  lemma NoneCollects()
    ensures forall i | 0 <= i < |Disturbing()| :: !Collects(Disturbing()[i])
  {
  }

  lemma ThirdWait(rules: seq<string>, steps: seq<S.Step>)
    requires S.IsSchedule(DisturbingCalls(rules), S.Start(), steps)
    ensures var w := S.After(DisturbingCalls(rules), S.Start(), steps);
      w.pc == 7 ==> |w.got| == 7 && w.got[6].Some? && w.got[6].value.rule == C.AGGREGATED_RULE
  {
    var calls := DisturbingCalls(rules);
    if S.After(calls, S.Start(), steps).pc == 7 {
      S.ResponsesArriveInOrder(calls, steps, 6);
      FirstSix(calls);
    }
  }

  lemma FirstSix(calls: seq<S.Call>)
    requires |calls| == 7 && forall i | 0 <= i < 7 :: calls[i].session == NODE
    requires forall i | 0 <= i < 7 :: calls[i].Submit? <==> i in {0, 2, 4, 5}
    ensures |S.Awaited(calls[..6], NODE)| == 2
    ensures |S.Submitted(calls[..6], NODE)| == 4 && S.Submitted(calls[..6], NODE)[2] == calls[4].rule
  {
    assert calls[..0] == [];
    S.CallStep(calls, 0, NODE);
    S.CallStep(calls, 1, NODE);
    S.CallStep(calls, 2, NODE);
    S.CallStep(calls, 3, NODE);
    S.CallStep(calls, 4, NODE);
    S.CallStep(calls, 5, NODE);
  }
}
