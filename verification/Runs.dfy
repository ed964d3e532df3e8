/**
 * Whole runs of the core controller: registrations, statistics, policies and
 * rounds in any order a feedback loop can produce, for each control type.
 */
module Runs {
  import opened Arithmetic
  import opened Sequences
  import opened Registry
  import opened Statistics
  import opened Rounds
  import opened RoundLaws
  import Tokenizer
  import Vanilla
  import Leftover

  datatype ControlType = Static | DynamicVanilla | DynamicLeftover

  /**
   * Events of a run. An iteration collects statistics from `locals`, processes
   * one queued policy (or none, ""), runs the round and resets the change flag.
   */
  datatype Event =
    | LocalJoins(address: string)
    | StageJoins(info: StageInfo)
    | Iteration(locals: seq<string>, replies: map<string, seq<Sample>>, rule: string, order: Order)
    | IdleIteration

  // ------------------------------------------------------------------
  // One iteration
  // ------------------------------------------------------------------

  /** Replies come from the local controllers that were asked; -1 is the only negative rate. */
  ghost predicate Received(c: Core, locals: seq<string>, replies: map<string, seq<Sample>>) {
    && Answered(c, locals, replies)
    && (forall a | a in replies :: a in locals && Asked(c, a))
    && (forall a, i | a in replies && 0 <= i < |replies[a]| :: -1 <= replies[a][i].rate)
  }

  ghost function Prepared(c: Core, e: Event): Core
    requires e.Iteration? && Consistent(c) && Answered(c, e.locals, e.replies) && PolicyReadable(e.rule)
  {
    UpdateDemands(CollectAll(c, e.locals, e.replies), e.rule)
  }

  lemma PreparedKeeps(c: Core, e: Event)
    requires e.Iteration? && Consistent(c) && SessionsAgree(c)
    requires Answered(c, e.locals, e.replies) && PolicyReadable(e.rule)
    ensures var d := Prepared(c, e);
      && Consistent(d) && SessionsAgree(d) && d.limit == c.limit
      && (d.changed || (d.locations == c.locations && d.previous == c.previous))
      && SubMap(d.previous, c.previous)
      && (d.changed || e.rule != "" || d.demands == c.demands)
  {
    CollectAllKeeps(c, e.locals, e.replies);
    UpdateDemandsKeeps(CollectAll(c, e.locals, e.replies), e.rule);
  }

  /** After a statistics round the lookups of the leftover round cannot fail, and usage is positive. */
  lemma StatisticsSuffice(c: Core, e: Event)
    requires e.Iteration? && Consistent(c) && SessionsAgree(c) && PolicyReadable(e.rule)
    requires Received(c, e.locals, e.replies)
    ensures StatisticsAtHand(Prepared(c, e), e.locals, e.replies)
    ensures Reported(Prepared(c, e), e.replies)
  {
    var d := Prepared(c, e);
    PreparedKeeps(c, e);
    CollectKeeps(c, e.locals, e.replies);
    CollectRemoves(c, e.locals, e.replies);
    var m := Collect(c, e.locals, e.replies);
    forall j, a | j in d.locations && a in d.locations[j] && a in e.locals
      ensures a in e.replies
    {
      var s := Stage(j, d.locations[j][a][0]);
      assert Located(m, s, a);
      assert Informed(m, s, a) && Informed(c, s, a);
      assert Listed(c, s, a);
    }
    forall a, i | a in e.replies && 0 <= i < |e.replies[a]|
      ensures e.replies[a][i].rate >= 0 || e.replies[a][i].stage !in d.info
    {
      var s := e.replies[a][i].stage;
      if e.replies[a][i].rate == -1 && s in d.info {
        assert Informed(m, s, m.info[s].address);
        assert Informed(c, s, m.info[s].address) && Informed(c, s, a);
        assert Failed(e.replies[a], s);
        assert false;
      }
    }
  }

  ghost predicate Enabled(t: ControlType, c: Core, e: Event)
    requires Consistent(c) && SessionsAgree(c)
  {
    match e
    case LocalJoins(address) => address !in c.sessions
    case StageJoins(i) => i.stage !in c.info && i.address in c.sessions
    case IdleIteration => t == DynamicLeftover
    case Iteration(locals, replies, rule, order) =>
      && Received(c, locals, replies) && PolicyReadable(rule)
      && Visits(order, Prepared(c, e))
      && match t
         case Static => true
         case DynamicVanilla =>
           PreparedKeeps(c, e);
           Vanilla.Shareable(c.limit, Values(Prepared(c, e).demands, order.jobs))
         case DynamicLeftover =>
           PreparedKeeps(c, e);
           && 1 <= c.limit && |order.jobs| <= c.limit
           && forall j | j in order.jobs :: 1 <= Prepared(c, e).demands[j]
  }

  ghost function StaticStep(p: Core, rule: string, order: Order): Core
    requires Consistent(p) && PolicyReadable(rule) && Visits(order, p)
  {
    SameLocations(p, MarkPolicy(p, rule));
    StaticRound(MarkPolicy(p, rule), order)
  }

  ghost function LeftoverStep(c: Core, e: Event): Core
    requires Consistent(c) && SessionsAgree(c) && e.Iteration? && Enabled(DynamicLeftover, c, e)
  {
    PreparedKeeps(c, e);
    StatisticsSuffice(c, e);
    AsksAreObserved(Prepared(c, e), e.order, e.locals, e.replies);
    LeftoverRound(Prepared(c, e), e.order, Asks(Prepared(c, e), e.order, e.locals, e.replies))
  }

  ghost function IterationResult(t: ControlType, c: Core, e: Event): Core
    requires Consistent(c) && SessionsAgree(c) && e.Iteration? && Enabled(t, c, e)
  {
    PreparedKeeps(c, e);
    match t
    case Static =>
      if 0 < Prepared(c, e).activeLocals
      then StaticStep(Prepared(c, e), e.rule, e.order)
      else CollectAll(c, e.locals, e.replies)
    case DynamicVanilla => VanillaRound(Prepared(c, e), e.order)
    case DynamicLeftover => LeftoverStep(c, e)
  }

  ghost function Apply(t: ControlType, c: Core, e: Event): Core
    requires Consistent(c) && SessionsAgree(c) && Enabled(t, c, e)
  {
    match e
    case LocalJoins(address) => RegisterLocal(c, address)
    case StageJoins(i) => RegisterStage(c, i)
    case IdleIteration => c.(changed := false)
    case Iteration(_, _, _, _) => IterationResult(t, c, e).(changed := false)
  }

  // ------------------------------------------------------------------
  // Invariants
  // ------------------------------------------------------------------

  /** What the enforced rates satisfy in every state of a run, by control type. */
  ghost predicate RatesInvariant(t: ControlType, c: Core) {
    match t
    case Static => !c.changed ==> Tracks(c)
    case DynamicVanilla => !c.changed && c.locations != map[] ==> NearLimit(c)
    case DynamicLeftover => WithinSlack(c)
  }

  ghost predicate Base(c: Core) {
    Consistent(c) && SessionsAgree(c)
  }

  /** One event keeps the registry, and keeps the rates invariant if it held. */
  ghost predicate Keeps(t: ControlType, c: Core, e: Event)
    requires Base(c) && Enabled(t, c, e)
  {
    var d := Apply(t, c, e);
    Base(d) && d.limit == c.limit && (RatesInvariant(t, c) ==> RatesInvariant(t, d))
  }

  lemma {:induction false} TotalClipRestrict(m: map<string, int>, n: map<string, int>)
    requires SubMap(m, n)
    ensures Total(ClipMap(m)) <= Total(ClipMap(n))
    decreases |n|
  {
    if k :| k in n && k !in m {
      TotalRemove(ClipMap(n), k);
      assert ClipMap(n) - {k} == ClipMap(n - {k});
      TotalClipRestrict(m, n - {k});
    } else {
      assert m.Keys == n.Keys;
      assert m == n;
    }
  }

  /** A job registered with rate zero, or with the rate it had, adds nothing to the enforced total. */
  lemma RegisterStageSlack(c: Core, i: StageInfo)
    requires Consistent(c) && WithinSlack(c)
    ensures WithinSlack(RegisterStage(c, i))
  {
    if i.stage.job !in c.locations {
      ClipInsertZero(c.previous, i.stage.job);
    }
  }

  lemma ClipInsertZero(m: map<string, int>, k: string)
    requires k !in m
    ensures Total(ClipMap(m[k := 0])) == Total(ClipMap(m))
  {
    TotalInsert(ClipMap(m), k, 0);
    assert ClipMap(m[k := 0]) == ClipMap(m)[k := 0];
  }

  lemma LocalJoinsKeep(t: ControlType, c: Core, address: string)
    requires Base(c) && address !in c.sessions
    ensures var d := RegisterLocal(c, address);
      Base(d) && d.limit == c.limit && (RatesInvariant(t, c) ==> RatesInvariant(t, d))
  {
    RegisterLocalKeeps(c, address);
    hide Consistent, SessionsAgree;
  }

  lemma StageJoinsKeep(t: ControlType, c: Core, i: StageInfo)
    requires Base(c) && i.stage !in c.info && i.address in c.sessions
    ensures var d := RegisterStage(c, i);
      Base(d) && d.limit == c.limit && (RatesInvariant(t, c) ==> RatesInvariant(t, d))
  {
    RegisterStageKeeps(c, i);
    RegisterStageSessions(c, i);
    hide Consistent, SessionsAgree;
    if t == DynamicLeftover && WithinSlack(c) {
      RegisterStageSlack(c, i);
    }
  }

  lemma JoinsKeep(t: ControlType, c: Core, e: Event)
    requires Base(c) && Enabled(t, c, e) && (e.LocalJoins? || e.StageJoins?)
    ensures Keeps(t, c, e)
  {
    hide RatesInvariant;
    match e
    case LocalJoins(address) => LocalJoinsKeep(t, c, address);
    case StageJoins(i) => StageJoinsKeep(t, c, i);
  }

  lemma SomeLocal(c: Core) returns (a: string)
    requires Consistent(c) && c.locations != map[]
    ensures a in c.localToStages
  {
    var j :| j in c.locations;
    a :| a in c.locations[j];
    var s := Stage(j, c.locations[j][a][0]);
    assert Located(c, s, a);
    assert Listed(c, s, a);
  }

  lemma NoSessionsNoJobs(c: Core)
    requires Consistent(c) && SessionsAgree(c) && c.activeLocals <= 0
    ensures c.locations == map[]
  {
    if c.locations != map[] {
      var a := SomeLocal(c);
    }
  }

  lemma StaticStepKeeps(p: Core, rule: string, order: Order)
    requires Base(p) && PolicyReadable(rule) && Visits(order, p)
    ensures var d := StaticStep(p, rule, order).(changed := false);
      && Base(d) && d.limit == p.limit
      && (MarkPolicy(p, rule).changed || Tracks(p) ==> Tracks(d))
  {
    var m := MarkPolicy(p, rule);
    SameLocations(p, m);
    StaticRoundKeeps(m, order);
    RoundsKeepSystem(m, order, []);
    LowerMark(StaticRound(m, order));
  }

  ghost function PreparedActive(c: Core, e: Event): int
    requires e.Iteration? && Consistent(c) && Answered(c, e.locals, e.replies) && PolicyReadable(e.rule)
  {
    Prepared(c, e).activeLocals
  }

  lemma StaticBusyKeeps(c: Core, e: Event)
    requires Base(c) && e.Iteration? && Enabled(Static, c, e)
    requires 0 < PreparedActive(c, e)
    ensures Keeps(Static, c, e)
  {
    PreparedKeeps(c, e);
    StaticStepKeeps(Prepared(c, e), e.rule, e.order);
    if RatesInvariant(Static, c) {
      StaticMarkOrTracks(c, e);
    }
  }

  lemma StaticMarkOrTracks(c: Core, e: Event)
    requires Base(c) && e.Iteration? && Answered(c, e.locals, e.replies) && PolicyReadable(e.rule)
    requires !c.changed ==> Tracks(c)
    ensures MarkPolicy(Prepared(c, e), e.rule).changed || Tracks(Prepared(c, e))
  {
    if !MarkPolicy(Prepared(c, e), e.rule).changed {
      PolicySets(c, e);
    }
  }

  lemma StaticIdleResult(c: Core, e: Event)
    requires Base(c) && e.Iteration? && Enabled(Static, c, e)
    requires PreparedActive(c, e) <= 0
    ensures CollectAll(c, e.locals, e.replies).activeLocals <= 0
    ensures Apply(Static, c, e) == CollectAll(c, e.locals, e.replies).(changed := false)
  {
    PreparedLocals(c, e);
    hide CollectAll, Consistent, SessionsAgree, StaticStep, Prepared, Received, PolicyReadable, Visits;
  }

  lemma PreparedLocals(c: Core, e: Event)
    requires Base(c) && e.Iteration? && Answered(c, e.locals, e.replies) && PolicyReadable(e.rule)
    ensures PreparedActive(c, e) == Prepared(c, e).activeLocals == CollectAll(c, e.locals, e.replies).activeLocals
  {
    hide CollectAll, Consistent, SessionsAgree, UpdateDemands, PolicyReadable, Answered;
    PolicyFrame(CollectAll(c, e.locals, e.replies), e.rule);
  }

  lemma NoJobsTracked(d: Core)
    requires Base(d) && d.activeLocals <= 0
    ensures Base(d.(changed := false)) && Tracks(d.(changed := false))
  {
    NoSessionsNoJobs(d);
    LowerMark(d);
  }

  lemma StaticIdleKeeps(c: Core, e: Event)
    requires Base(c) && e.Iteration? && Enabled(Static, c, e)
    requires PreparedActive(c, e) <= 0
    ensures Keeps(Static, c, e)
  {
    CollectAllKeeps(c, e.locals, e.replies);
    StaticIdleResult(c, e);
    NoJobsTracked(CollectAll(c, e.locals, e.replies));
    hide Apply, Enabled, CollectAll, Base, Tracks;
  }

  lemma StaticIterationKeeps(c: Core, e: Event)
    requires Base(c) && e.Iteration? && Enabled(Static, c, e)
    ensures Keeps(Static, c, e)
  {
    if 0 < PreparedActive(c, e) {
      StaticBusyKeeps(c, e);
    } else {
      StaticIdleKeeps(c, e);
    }
  }

  /** Without a change mark, neither membership nor demands nor enforced rates changed. */
  lemma PolicySets(c: Core, e: Event)
    requires e.Iteration? && Consistent(c) && SessionsAgree(c)
    requires Answered(c, e.locals, e.replies) && PolicyReadable(e.rule)
    requires !MarkPolicy(Prepared(c, e), e.rule).changed
    ensures var p := Prepared(c, e);
      p.demands == c.demands && p.locations == c.locations && p.previous == c.previous && !c.changed
  {
    CollectAllKeeps(c, e.locals, e.replies);
    CollectKeeps(c, e.locals, e.replies);
    SilentPolicy(CollectAll(c, e.locals, e.replies), e.rule);
  }

  /** A policy that sets a demand always names an operation, because tokens are not empty. */
  lemma SilentPolicy(c: Core, rule: string)
    requires PolicyReadable(rule) && PolicyOperation(rule) == ""
    ensures UpdateDemands(c, rule).demands == c.demands
  {
    var tokens := Tokenizer.Tokens(rule, '|');
    assert 4 <= |tokens| ==> tokens[3] in tokens;
  }

  lemma VanillaIterationKeeps(c: Core, e: Event)
    requires Base(c) && e.Iteration? && Enabled(DynamicVanilla, c, e)
    ensures Keeps(DynamicVanilla, c, e)
  {
    PreparedKeeps(c, e);
    var p := Prepared(c, e);
    VanillaRoundConsistent(p, e.order);
    VanillaRoundKeeps(p, e.order);
    RoundsKeepSystem(p, e.order, []);
    LowerMark(VanillaRound(p, e.order));
  }

  /** A leftover iteration is one leftover round on the prepared state. */
  lemma LeftoverStepIs(c: Core, e: Event, p: Core)
    requires Base(c) && e.Iteration? && Enabled(DynamicLeftover, c, e) && p == Prepared(c, e)
    ensures Base(p) && Ready(p, e.order) && StatisticsAtHand(p, e.locals, e.replies)
    ensures p.limit == c.limit && SubMap(p.previous, c.previous) && |e.order.jobs| <= p.limit
    ensures var asks := Asks(p, e.order, e.locals, e.replies);
      && Leftover.Observed(asks)
      && LeftoverStep(c, e) == LeftoverRound(p, e.order, asks)
    ensures forall j | j in e.order.jobs :: j in p.demands && 1 <= p.demands[j]
  {
    PreparedKeeps(c, e);
    StatisticsSuffice(c, e);
    AsksAreObserved(p, e.order, e.locals, e.replies);
    hide Leftover.Observed, LeftoverRound, Asks, SubMap, Prepared, Consistent, SessionsAgree;
  }

  /** Asks carry the enforced rates and the demands of the visited jobs. */
  lemma AsksCarry(p: Core, o: Order, asked: seq<string>, replies: map<string, seq<Sample>>)
    requires Ready(p, o) && StatisticsAtHand(p, asked, replies)
    requires forall j | j in o.jobs :: 1 <= p.demands[j]
    ensures var asks := Asks(p, o, asked, replies);
      Leftover.Previous(asks) == Values(p.previous, o.jobs) && Leftover.Demanding(asks)
  {
    var asks := Asks(p, o, asked, replies);
    hide Consistent, Asks;
    forall i | 0 <= i < |asks|
      ensures 1 <= asks[i].demand
    {
      assert o.jobs[i] in o.jobs;
    }
  }

  /** Losing jobs frees enforced rate. */
  lemma SlackShrinks(c: Core, p: Core)
    requires p.limit == c.limit && SubMap(p.previous, c.previous) && WithinSlack(c)
    ensures WithinSlack(p)
  {
    TotalClipRestrict(p.previous, c.previous);
    ClipTotalNonNegative(p.previous);
  }

  lemma ClipTotalNonNegative(m: map<string, int>)
    ensures 0 <= Total(ClipMap(m))
  {
    TotalClipRestrict(map[], m);
    assert ClipMap(map[]) == map[];
  }

  lemma LeftoverStepKeeps(c: Core, e: Event)
    requires Base(c) && e.Iteration? && Enabled(DynamicLeftover, c, e)
    ensures var d := LeftoverStep(c, e);
      Base(d) && d.limit == c.limit && (WithinSlack(c) ==> WithinSlack(d))
  {
    var p := Prepared(c, e);
    LeftoverStepIs(c, e, p);
    AsksCarry(p, e.order, e.locals, e.replies);
    hide Base, WithinSlack, LeftoverRound, LeftoverStep, Enabled;
    LeftoverRoundAll(p, e.order, Asks(p, e.order, e.locals, e.replies));
    if WithinSlack(c) {
      SlackShrinks(c, p);
    }
  }

  /** The leftover round on consistent state and sound asks. */
  lemma LeftoverRoundAll(p: Core, o: Order, asks: seq<Leftover.Ask>)
    requires Base(p) && Ready(p, o) && |asks| == |o.jobs| <= p.limit && Leftover.Observed(asks)
    requires Leftover.Previous(asks) == Values(p.previous, o.jobs)
    requires Leftover.Demanding(asks)
    ensures var d := LeftoverRound(p, o, asks);
      Base(d) && d.limit == p.limit && (WithinSlack(p) ==> WithinSlack(d))
  {
    LeftoverRoundConsistent(p, o, asks);
    RoundsKeepSystem(p, o, asks);
    if WithinSlack(p) {
      LeftoverRoundKeeps(p, o, asks);
    }
  }

  lemma LeftoverIterationKeeps(c: Core, e: Event)
    requires Base(c) && e.Iteration? && Enabled(DynamicLeftover, c, e)
    ensures Keeps(DynamicLeftover, c, e)
  {
    LeftoverStepKeeps(c, e);
    LowerMark(LeftoverStep(c, e));
  }

  lemma EventKeeps(t: ControlType, c: Core, e: Event)
    requires Base(c) && Enabled(t, c, e)
    ensures Keeps(t, c, e)
  {
    if e.IdleIteration? {
      SameLocations(c, Apply(t, c, e));
    } else if e.Iteration? {
      match t
      case Static => StaticIterationKeeps(c, e);
      case DynamicVanilla => VanillaIterationKeeps(c, e);
      case DynamicLeftover => LeftoverIterationKeeps(c, e);
    } else {
      JoinsKeep(t, c, e);
    }
  }

  // ------------------------------------------------------------------
  // Every run
  // ------------------------------------------------------------------

  /**
   * The events can happen one after the other: only fresh stages and live,
   * distinct local controllers are assumed. Every lookup and division made on
   * the way is defined, or this definition would not be.
   */
  ghost predicate Possible(t: ControlType, c: Core, events: seq<Event>)
    requires Base(c)
    decreases |events|
  {
    events == [] ||
    (Enabled(t, c, events[0]) &&
     (EventKeeps(t, c, events[0]);
      Possible(t, Apply(t, c, events[0]), events[1..])))
  }

  ghost function After(t: ControlType, c: Core, events: seq<Event>): Core
    requires Base(c) && Possible(t, c, events)
    decreases |events|
  {
    if events == [] then c
    else
      EventKeeps(t, c, events[0]);
      After(t, Apply(t, c, events[0]), events[1..])
  }

  lemma {:induction false} RunKeeps(t: ControlType, c: Core, events: seq<Event>)
    requires Base(c) && RatesInvariant(t, c) && Possible(t, c, events)
    ensures var d := After(t, c, events);
      Base(d) && RatesInvariant(t, d) && d.limit == c.limit
    decreases |events|
  {
    if events == [] {
    } else {
      EventKeeps(t, c, events[0]);
      RunKeeps(t, Apply(t, c, events[0]), events[1..]);
    }
  }

  lemma InitialHolds(t: ControlType, limit: int, operation: string)
    requires 0 <= limit
    ensures Base(Initial(limit, operation)) && RatesInvariant(t, Initial(limit, operation))
  {
    InitialIsConsistent(limit, operation);
    assert ClipMap(map[]) == map[];
  }

  /** In every state of every run the three indexes, the job maps and the sessions agree. */
  lemma RegistryInEveryState(t: ControlType, limit: int, operation: string, events: seq<Event>)
    requires 0 <= limit && Base(Initial(limit, operation)) && Possible(t, Initial(limit, operation), events)
    ensures var c := After(t, Initial(limit, operation), events);
      && Consistent(c) && SessionsAgree(c)
      && (c.activeLocals == 0 ==> c.locations == map[])
  {
    InitialHolds(t, limit, operation);
    RunKeeps(t, Initial(limit, operation), events);
    var c := After(t, Initial(limit, operation), events);
    if c.activeLocals == 0 {
      NoSessionsNoJobs(c);
    }
  }

  /**
   * Leftover: in every state the enforced rates add up to less than 101% of the
   * limit, and none is below -1% of it.
   */
  lemma LeftoverStaysWithinLimit(limit: int, operation: string, events: seq<Event>)
    requires 0 <= limit && Base(Initial(limit, operation))
    requires Possible(DynamicLeftover, Initial(limit, operation), events)
    ensures var c := After(DynamicLeftover, Initial(limit, operation), events);
      && c.previous.Keys == c.locations.Keys
      && (if limit == 0 then Total(c.previous) <= 0 else 100 * Total(c.previous) < 101 * limit)
      && forall j | j in c.previous :: 0 <= c.previous[j] || -limit < 100 * c.previous[j]
  {
    InitialHolds(DynamicLeftover, limit, operation);
    RunKeeps(DynamicLeftover, Initial(limit, operation), events);
    TotalClip(After(DynamicLeftover, Initial(limit, operation), events).previous);
  }

  /** A leftover round enforces at least 95% of what it has to hand out, all of it after a change. */
  lemma LeftoverRoundSpends(p: Core, o: Order, asks: seq<Leftover.Ask>)
    requires Ready(p, o) && o.jobs != [] && |asks| == |o.jobs| <= p.limit
    requires Leftover.Observed(asks) && Leftover.Demanding(asks)
    ensures var d, n := LeftoverRound(p, o, asks), |o.jobs|;
      && d.locations == p.locations && n == |p.locations|
      && 19 * (p.limit - (n - 1)) <= 20 * Total(d.previous)
      && (19 * p.limit <= 20 * Sum(Leftover.Usages(asks)) ==> 99 * (p.limit - (n - 1)) <= 100 * Total(d.previous))
      && (p.changed ==> p.limit - (n - 1) <= Total(d.previous) <= p.limit)
  {
    RoundsKeepSystem(p, o, asks);
    JobsEnumerated(p, o);
    EnumerationSize(o.jobs, p.locations.Keys);
    assert |p.locations.Keys| == |p.locations|;
    LeftoverRoundPrevious(p, o, asks);
    AssignOnKeys(p.previous, o.jobs, Leftover.Enforced(p.limit, asks, p.changed));
    hide Ready, LeftoverRound, Leftover.Enforced, Leftover.Observed, Leftover.Demanding, Sum, Total, Assign;
    Leftover.EnforcedTotalAtLeast(p.limit, asks, p.changed);
  }

  lemma LeftoverStepSpends(c: Core, e: Event)
    requires Base(c) && e.Iteration? && Enabled(DynamicLeftover, c, e) && e.order.jobs != []
    ensures var d := LeftoverStep(c, e); var n := |d.locations|;
      19 * (c.limit - (n - 1)) <= 20 * Total(d.previous)
  {
    var p := Prepared(c, e);
    LeftoverStepIs(c, e, p);
    AsksCarry(p, e.order, e.locals, e.replies);
    hide Base, LeftoverRound, LeftoverStep, Enabled;
    LeftoverRoundSpends(p, e.order, Asks(p, e.order, e.locals, e.replies));
  }

  /** A round without jobs leaves none behind. */
  lemma LeftoverStepWithoutJobs(c: Core, e: Event)
    requires Base(c) && e.Iteration? && Enabled(DynamicLeftover, c, e) && e.order.jobs == []
    ensures LeftoverStep(c, e).locations == map[]
  {
    var p := Prepared(c, e);
    LeftoverStepIs(c, e, p);
    EveryJobVisited(p, e.order);
    assert p.locations == map[];
    hide Base, LeftoverStep, Enabled, Prepared, Asks;
  }

  lemma {:induction false} LeftoverRunSpends(c: Core, events: seq<Event>)
    requires Base(c) && Possible(DynamicLeftover, c, events) && events != [] && events[|events| - 1].Iteration?
    ensures var d := After(DynamicLeftover, c, events); var n := |d.locations|;
      d.locations != map[] ==> 19 * (c.limit - (n - 1)) <= 20 * Total(d.previous)
    decreases |events|
  {
    var e := events[0];
    EventKeeps(DynamicLeftover, c, e);
    var d := Apply(DynamicLeftover, c, e);
    assert After(DynamicLeftover, c, events) == After(DynamicLeftover, d, events[1..]);
    if |events| == 1 {
      if e.order.jobs == [] {
        LeftoverStepWithoutJobs(c, e);
      } else {
        LeftoverStepSpends(c, e);
      }
    } else {
      assert events[1..][|events| - 2] == events[|events| - 1];
      hide Enabled, Apply, Consistent, SessionsAgree, WithinSlack, Total;
      LeftoverRunSpends(d, events[1..]);
    }
  }

  /**
   * Leftover: after every iteration at least 95% of the limit is enforced, up to
   * one operation a job.
   */
  lemma LeftoverSpendsTheLimit(limit: int, operation: string, events: seq<Event>)
    requires 0 <= limit && Base(Initial(limit, operation))
    requires Possible(DynamicLeftover, Initial(limit, operation), events)
    requires events != [] && events[|events| - 1].Iteration?
    ensures var c := After(DynamicLeftover, Initial(limit, operation), events); var n := |c.locations|;
      c.locations != map[] ==> 19 * (limit - (n - 1)) <= 20 * Total(c.previous)
  {
    LeftoverRunSpends(Initial(limit, operation), events);
  }

  /** Static: after every iteration each live job with a set demand is enforced within 9 of it. */
  lemma StaticTracksDemands(limit: int, operation: string, events: seq<Event>)
    requires 0 <= limit && Base(Initial(limit, operation))
    requires Possible(Static, Initial(limit, operation), events)
    ensures var c := After(Static, Initial(limit, operation), events);
      !c.changed ==> Tracks(c)
  {
    InitialHolds(Static, limit, operation);
    RunKeeps(Static, Initial(limit, operation), events);
  }

  /** Vanilla: after every iteration the enforced total is within 9n of a total that spends the limit. */
  lemma VanillaSpendsTheLimit(limit: int, operation: string, events: seq<Event>)
    requires 0 <= limit && Base(Initial(limit, operation))
    requires Possible(DynamicVanilla, Initial(limit, operation), events)
    ensures var c := After(DynamicVanilla, Initial(limit, operation), events);
      var n := |c.locations|;
      !c.changed && c.locations != map[] ==>
        limit - (n - 1) - 9 * n <= Total(c.previous) <= limit + 9 * n
  {
    InitialHolds(DynamicVanilla, limit, operation);
    RunKeeps(DynamicVanilla, Initial(limit, operation), events);
  }

  /** The change flag is set by a stage that joins and reset by every turn of the loop. */
  lemma EventMarks(t: ControlType, c: Core, e: Event)
    requires Base(c) && Enabled(t, c, e)
    ensures Apply(t, c, e).changed <==> e.StageJoins? || (e.LocalJoins? && c.changed)
  {
    hide Consistent, SessionsAgree, Enabled, IterationResult;
    if e.StageJoins? {
      RegisterStageMaps(c, e.info);
      hide RegisterStage;
    }
  }

  /** A run that starts with one event. */
  lemma EventFirst(t: ControlType, c: Core, e: Event, rest: seq<Event>)
    requires Base(c) && Enabled(t, c, e) && Base(Apply(t, c, e)) && Possible(t, Apply(t, c, e), rest)
    ensures Possible(t, c, [e] + rest) && After(t, c, [e] + rest) == After(t, Apply(t, c, e), rest)
  {
    hide Consistent, SessionsAgree, Enabled, Apply;
    assert ([e] + rest)[1..] == rest;
  }
}
