/** The feedback loop of the core controller: the object performs exactly the actions of the runs. */
module FeedbackLoop {
  import opened Sequences
  import opened Registry
  import opened Statistics
  import opened Rounds
  import opened RoundLaws
  import opened Runs
  import opened Programs
  import opened Sessions
  import opened Loop
  import C = CoreController
  import Decimal
  import HousekeepingWire
  import Leftover

  /** A policy changes nothing an iteration looks up. */
  lemma PolicyShape(m: Core, rule: string)
    requires PolicyReadable(rule)
    ensures var p := UpdateDemands(m, rule);
      p.activeLocals == m.activeLocals && p.limit == m.limit && p.locations == m.locations && p.info == m.info
  {
    PolicyFrame(m, rule);
    hide UpdateDemands, PolicyReadable;
  }

  lemma CollectedState(c: Core, e: Event)
    requires Base(c) && e.Iteration? && Answered(c, e.locals, e.replies) && PolicyReadable(e.rule)
    ensures var m := CollectAll(c, e.locals, e.replies);
      Consistent(m) && m.limit == c.limit && Prepared(c, e) == UpdateDemands(m, e.rule)
  {
    CollectAllKeeps(c, e.locals, e.replies);
    hide Consistent, SessionsAgree, CollectAll, Answered, UpdateDemands;
  }

  /** What an iteration does after collecting, one control type at a time. */
  lemma StaticApplied(c: Core, e: Event, p: Core)
    requires Base(c) && e.Iteration? && Runs.Enabled(Static, c, e) && p == Prepared(c, e)
    ensures var m := MarkPolicy(p, e.rule);
      && Ready(m, e.order) && Routable(m, e.order)
      && Runs.Apply(Static, c, e)
         == (if 0 < p.activeLocals then StaticRound(m, e.order)
             else CollectAll(c, e.locals, e.replies)).(changed := false)
      && EnforcementCalls(Static, c, e)
         == if 0 < p.activeLocals && m.changed && e.order.jobs != []
            then RoundCalls(m, e.order, StaticRates(m, e.order), StaticSent(m, e.order)) else []
  {
    PreparedKeeps(c, e);
    hide Consistent, SessionsAgree, Prepared, Received, StaticRound, RoundCalls, Routable, PolicyReadable, CollectAll,
         PolicyOperation, Visits, StaticRates, StaticSent;
    MarkedReady(p, e.rule, e.order);
  }

  lemma MarkedReady(p: Core, rule: string, o: Order)
    requires Consistent(p) && PolicyReadable(rule) && Visits(o, p)
    ensures Ready(MarkPolicy(p, rule), o) && Routable(MarkPolicy(p, rule), o)
  {
    SameLocations(p, MarkPolicy(p, rule));
    ReadyIsRoutable(MarkPolicy(p, rule), o);
  }

  lemma VanillaApplied(c: Core, e: Event, p: Core)
    requires Base(c) && e.Iteration? && Runs.Enabled(DynamicVanilla, c, e) && p == Prepared(c, e)
    ensures Ready(p, e.order) && Routable(p, e.order)
    ensures Runs.Apply(DynamicVanilla, c, e) == VanillaRound(p, e.order).(changed := false)
    ensures EnforcementCalls(DynamicVanilla, c, e)
         == if e.order.jobs != [] then RoundCalls(p, e.order, VanillaRates(p, e.order), VanillaSent(p, e.order)) else []
  {
    PreparedKeeps(c, e);
    ReadyIsRoutable(p, e.order);
    hide Consistent, SessionsAgree, Prepared, Received, Visits, VanillaRound, RoundCalls, Routable, PolicyReadable;
  }

  lemma LeftoverApplied(c: Core, e: Event, p: Core)
    requires Base(c) && e.Iteration? && Runs.Enabled(DynamicLeftover, c, e) && p == Prepared(c, e)
    ensures Ready(p, e.order) && Routable(p, e.order) && StatisticsAtHand(p, e.locals, e.replies)
    ensures var asks := Asks(p, e.order, e.locals, e.replies);
      && Leftover.Observed(asks)
      && Runs.Apply(DynamicLeftover, c, e) == LeftoverRound(p, e.order, asks).(changed := false)
      && EnforcementCalls(DynamicLeftover, c, e)
         == if e.order.jobs != []
            then RoundCalls(p, e.order, Leftover.Enforced(p.limit, asks, p.changed), LeftoverSent(p, asks)) else []
  {
    PreparedKeeps(c, e);
    StatisticsSuffice(c, e);
    AsksAreObserved(p, e.order, e.locals, e.replies);
    ReadyIsRoutable(p, e.order);
    hide Consistent, SessionsAgree, Prepared, Received, Visits, LeftoverRound, RoundCalls, Routable, PolicyReadable, Asks,
         StatisticsAtHand, Leftover.Observed;
  }

  /** Policies touch nothing that statistics are looked up with. */
  lemma CollectedStatistics(m: Core, p: Core, locals: seq<string>, replies: map<string, seq<Sample>>)
    requires m.locations == p.locations && m.info == p.info
    requires StatisticsAtHand(p, locals, replies) && Reported(p, replies)
    ensures StatisticsAtHand(m, locals, replies) && Reported(m, replies)
  {
  }

  lemma CollectedVisits(m: Core, p: Core, o: Order)
    requires Visits(o, p) && m.locations == p.locations
    ensures Visits(o, m)
  {
  }

  ghost predicate Ordered(e: Event) {
    e.Iteration? ==> C.PlainAddresses(e.order)
  }

  /** What the methods of the object ask for, once the statistics are collected. */
  lemma CollectedReady(t: ControlType, c: Core, e: Event)
    requires Base(c) && e.Iteration? && Runs.Enabled(t, c, e) && Ordered(e)
    ensures Consistent(c) && Answered(c, e.locals, e.replies) && PolicyReadable(e.rule) && C.PlainAddresses(e.order)
    ensures var m := CollectAll(c, e.locals, e.replies);
      && Consistent(m) && Visits(e.order, m) && m.limit == c.limit
      && Prepared(c, e) == UpdateDemands(m, e.rule)
      && m.activeLocals == Prepared(c, e).activeLocals && m.limit == Prepared(c, e).limit
      && (t == DynamicLeftover ==>
            1 <= m.limit && StatisticsAtHand(m, e.locals, e.replies) && Reported(m, e.replies))
  {
    var m, p := CollectAll(c, e.locals, e.replies), Prepared(c, e);
    CollectedState(c, e);
    PolicyShape(m, e.rule);
    CollectedVisits(m, p, e.order);
    if t == DynamicLeftover {
      StatisticsSuffice(c, e);
      CollectedStatistics(m, p, e.locals, e.replies);
    }
    hide SessionsAgree, CollectAll, UpdateDemands, Visits, StatisticsAtHand, Reported, Answered, C.PlainAddresses;
  }

  method IterateStatic(core: C.CoreController, e: Event)
    requires Base(core.State()) && e.Iteration? && Runs.Enabled(Static, core.State(), e) && Ordered(e)
    modifies core
    ensures core.State() == Runs.Apply(Static, old(core.State()), e)
    ensures core.calls == old(core.calls) + C.StatisticsSends(old(core.State()), e.locals, C.COLLECT_RULE)
                          + C.StatisticsAwaits(old(core.State()), e.locals, C.COLLECT_RULE)
                          + EnforcementCalls(Static, old(core.State()), e)
  {
    hide Base, Ordered, Consistent, SessionsAgree, CollectAll, Answered, Visits, Received, Reported, StatisticsAtHand, Asks,
         RoundCalls, Prepared, UpdateDemands, MarkPolicy, EnforcementCalls, Ready, Routable, C.PlainAddresses, PolicyReadable,
         Runs.Enabled, Runs.Apply, Leftover.Observed, StaticRound;
    ghost var c := core.State();
    CollectedReady(Static, c, e);
    StaticApplied(c, e, Prepared(c, e));
    core.CollectStatisticsGlobal(e.locals, e.replies);
    if core.activeLocals > 0 {
      core.ComputeAndEnforceStaticRules(e.rule, e.order);
    }
    core.changed := false;
  }

  method IterateVanilla(core: C.CoreController, e: Event)
    requires Base(core.State()) && e.Iteration? && Runs.Enabled(DynamicVanilla, core.State(), e) && Ordered(e)
    modifies core
    ensures core.State() == Runs.Apply(DynamicVanilla, old(core.State()), e)
    ensures core.calls == old(core.calls) + C.StatisticsSends(old(core.State()), e.locals, C.COLLECT_RULE)
                          + C.StatisticsAwaits(old(core.State()), e.locals, C.COLLECT_RULE)
                          + EnforcementCalls(DynamicVanilla, old(core.State()), e)
  {
    hide Base, Ordered, Consistent, SessionsAgree, CollectAll, Answered, Visits, Received, Reported, StatisticsAtHand, Asks,
         RoundCalls, Prepared, UpdateDemands, MarkPolicy, EnforcementCalls, Ready, Routable, C.PlainAddresses, PolicyReadable,
         Runs.Enabled, Runs.Apply, Leftover.Observed, VanillaRound;
    ghost var c := core.State();
    CollectedReady(DynamicVanilla, c, e);
    VanillaApplied(c, e, Prepared(c, e));
    core.CollectStatisticsGlobal(e.locals, e.replies);
    core.ComputeAndEnforceVanillaRules(e.rule, e.order);
    core.changed := false;
  }

  /** The requests were made when the window opened. */
  method IterateLeftover(core: C.CoreController, e: Event)
    requires Base(core.State()) && e.Iteration? && Runs.Enabled(DynamicLeftover, core.State(), e) && Ordered(e)
    modifies core
    ensures core.State() == Runs.Apply(DynamicLeftover, old(core.State()), e)
    ensures core.calls == old(core.calls) + C.StatisticsAwaits(old(core.State()), e.locals, C.AGGREGATED_RULE)
                          + EnforcementCalls(DynamicLeftover, old(core.State()), e)
  {
    hide Base, Ordered, Consistent, SessionsAgree, CollectAll, Answered, Visits, Received, Reported, StatisticsAtHand, Asks,
         RoundCalls, Prepared, UpdateDemands, MarkPolicy, EnforcementCalls, Ready, Routable, C.PlainAddresses, PolicyReadable,
         Runs.Enabled, Runs.Apply, Leftover.Observed, LeftoverRound;
    ghost var c := core.State();
    CollectedReady(DynamicLeftover, c, e);
    LeftoverApplied(c, e, Prepared(c, e));
    core.CollectStatisticsGlobalCollect(e.locals, e.replies, C.AGGREGATED_RULE);
    core.ComputeAndEnforceLeftoverRules(e.rule, e.order, e.locals, e.replies);
    core.changed := false;
  }

  /** The calls of an iteration, one part after the other. */
  lemma IterationCalls(t: ControlType, c: Core, e: Event, before: seq<Call>)
    requires Base(c) && e.Iteration? && Runs.Enabled(t, c, e)
    ensures var sends := C.StatisticsSends(c, e.locals, C.COLLECT_RULE);
      t != DynamicLeftover ==>
        before + EventCalls(t, [], c, e)
        == before + sends + C.StatisticsAwaits(c, e.locals, C.COLLECT_RULE) + EnforcementCalls(t, c, e)
    ensures t == DynamicLeftover ==>
      before + EventCalls(t, [], c, e)
      == before + C.StatisticsAwaits(c, e.locals, C.AGGREGATED_RULE) + EnforcementCalls(t, c, e)
  {
    hide Base, Runs.Enabled, EnforcementCalls, C.StatisticsSends, C.StatisticsAwaits;
    var sends, awaits := C.StatisticsSends(c, e.locals, Request(t)), C.StatisticsAwaits(c, e.locals, Request(t));
    Regroup(before, sends + awaits, EnforcementCalls(t, c, e));
    Regroup(before, sends, awaits);
    Regroup(before, awaits, EnforcementCalls(t, c, e));
    assert [] + awaits == awaits;
  }

  /** An iteration of any control type; the housekeeping rules play no part in it. */
  method Iterate(core: C.CoreController, t: ControlType, e: Event)
    requires Base(core.State()) && e.Iteration? && Runs.Enabled(t, core.State(), e) && Ordered(e)
    modifies core
    ensures core.State() == Runs.Apply(t, old(core.State()), e)
    ensures core.calls == old(core.calls) + EventCalls(t, [], old(core.State()), e)
  {
    IterationCalls(t, core.State(), e, core.calls);
    hide Base, Runs.Enabled, Runs.Apply, EventCalls, EnforcementCalls, C.StatisticsSends, C.StatisticsAwaits;
    match t
    case Static => IterateStatic(core, e);
    case DynamicVanilla => IterateVanilla(core, e);
    case DynamicLeftover => IterateLeftover(core, e);
  }

  lemma RulesAreForLocals(t: ControlType, rules: seq<string>, c: Core, e: Event)
    requires Base(c) && Runs.Enabled(t, c, e) && !e.LocalJoins?
    ensures EventCalls(t, rules, c, e) == EventCalls(t, [], c, e)
  {
    hide Base, Runs.Enabled, EnforcementCalls;
  }

  /** An event other than an iteration. */
  method Register(core: C.CoreController, t: ControlType, rules: seq<string>, e: Event)
    requires Base(core.State()) && Runs.Enabled(t, core.State(), e) && !e.Iteration?
    modifies core
    ensures core.State() == Runs.Apply(t, old(core.State()), e)
    ensures core.calls == old(core.calls) + EventCalls(t, rules, old(core.State()), e)
  {
    hide Consistent, SessionsAgree;
    match e
    case LocalJoins(address) =>
      var handshake := HousekeepingWire.BuildHandshake(rules);
      core.HandleLocalControllerSession(address, handshake);
    case StageJoins(info) =>
      core.HandleDataPlaneSession(info);
    case IdleIteration =>
      core.changed := false;
  }

  /** One action of a run: the new state and the calls made are those of the run. */
  method Perform(core: C.CoreController, t: ControlType, rules: seq<string>, a: Action)
    requires Base(core.State()) && Feasible(t, core.State(), a) && (a.Happens? ==> Ordered(a.event))
    modifies core
    ensures core.State() == StateAfter(t, old(core.State()), a)
    ensures core.calls == old(core.calls) + ActionCalls(t, rules, old(core.State()), a)
  {
    hide Base, Runs.Enabled, Runs.Apply, EventCalls;
    if a.Requests? {
      AllAsked(core.State(), a.locals);
      var asked := core.CollectStatisticsGlobalSend(a.locals, C.AGGREGATED_RULE);
    } else if a.event.Iteration? {
      RulesAreForLocals(t, rules, core.State(), a.event);
      Iterate(core, t, a.event);
    } else {
      Register(core, t, rules, a.event);
    }
  }

  /** The calls of feasible actions; the windows play no part in them. */
  ghost function AllCalls(t: ControlType, rules: seq<string>, c: Core, actions: seq<Action>): seq<Call>
    requires Base(c) && FeasibleAll(t, c, actions)
    decreases |actions|
  {
    if actions == [] then []
    else
      ActionKeeps(t, c, actions[0]);
      ActionCalls(t, rules, c, actions[0]) + AllCalls(t, rules, StateAfter(t, c, actions[0]), actions[1..])
  }

  lemma {:induction false} AllCallsAreRun(t: ControlType, rules: seq<string>, c: Core, w: Window, actions: seq<Action>)
    requires Base(c) && FeasibleAll(t, c, actions) && Allowed(t, c, w, actions)
    ensures AllCalls(t, rules, c, actions) == RunCalls(t, rules, c, w, actions)
    decreases |actions|
  {
    hide Base, Feasible, InWindow, StateAfter, ActionCalls, WindowAfterOne;
    if actions == [] {
    } else {
      ActionKeeps(t, c, actions[0]);
      AllCallsAreRun(t, rules, StateAfter(t, c, actions[0]), WindowAfterOne(w, actions[0]), actions[1..]);
    }
  }

  /** Registers what is pending, one session after the other. */
  method RegisterAll(core: C.CoreController, t: ControlType, rules: seq<string>, joins: seq<Action>)
    requires Base(core.State()) && FeasibleAll(t, core.State(), joins)
    requires forall i | 0 <= i < |joins| :: joins[i].Happens? && !joins[i].event.Iteration?
    modifies core
    ensures core.State() == Final(t, old(core.State()), joins)
    ensures core.calls == old(core.calls) + AllCalls(t, rules, old(core.State()), joins)
  {
    ghost var start := core.State();
    hide Base, Feasible, StateAfter, ActionCalls, C.CoreController.State;
    for k := 0 to |joins|
      invariant Base(core.State()) && FeasibleAll(t, core.State(), joins[k..])
      invariant Final(t, core.State(), joins[k..]) == Final(t, start, joins)
      invariant core.calls + AllCalls(t, rules, core.State(), joins[k..])
             == old(core.calls) + AllCalls(t, rules, start, joins)
    {
      assert joins[k..][0] == joins[k] && joins[k..][1..] == joins[k + 1..];
      ActionKeeps(t, core.State(), joins[k]);
      Regroup(core.calls, ActionCalls(t, rules, core.State(), joins[k]),
              AllCalls(t, rules, StateAfter(t, core.State(), joins[k]), joins[k + 1..]));
      Perform(core, t, rules, joins[k]);
    }
    assert core.calls + [] == core.calls;
  }

  lemma OneAction(t: ControlType, rules: seq<string>, c: Core, a: Action)
    requires Base(c) && FeasibleAll(t, c, [a])
    ensures Feasible(t, c, a) && Final(t, c, [a]) == StateAfter(t, c, a)
    ensures AllCalls(t, rules, c, [a]) == ActionCalls(t, rules, c, a)
  {
    hide Base, Feasible, StateAfter, ActionCalls;
    ActionKeeps(t, c, a);
    assert [a][1..] == [];
    assert Final(t, StateAfter(t, c, a), []) == StateAfter(t, c, a);
    assert AllCalls(t, rules, StateAfter(t, c, a), []) == [];
  }

  /** Requests change nothing but the calls. */
  lemma RequestsFirst(t: ControlType, rules: seq<string>, c: Core, locals: seq<string>, a: Action)
    requires Base(c) && FeasibleAll(t, c, [Requests(locals)] + [a])
    ensures FeasibleAll(t, c, [a]) && Final(t, c, [Requests(locals)] + [a]) == Final(t, c, [a])
    ensures AllCalls(t, rules, c, [Requests(locals)] + [a]) == Requested(locals) + AllCalls(t, rules, c, [a])
  {
    hide Base, Runs.Enabled, Runs.Apply, EventCalls;
    var actions := [Requests(locals)] + [a];
    assert actions[0] == Requests(locals) && actions[1..] == [a];
    ActionKeeps(t, c, actions[0]);
    assert StateAfter(t, c, actions[0]) == c;
    assert ActionCalls(t, rules, c, actions[0]) == Requested(locals);
    hide FeasibleAll, Final, AllCalls;
  }

  lemma {:induction false} SendsToStages(c: Core, sessions: seq<string>)
    ensures C.StatisticsSends(c, sessions, C.AGGREGATED_RULE) == Requested(WithStages(c.localToStages, sessions))
    decreases |sessions|
  {
    if sessions == [] {
    } else {
      var n := |sessions| - 1;
      SendsToStages(c, sessions[..n]);
      var rest := WithStages(c.localToStages, sessions[..n]);
      assert Requested(rest + [sessions[n]]) == Requested(rest) + [Submit(sessions[n], C.AGGREGATED_RULE)];
    }
  }

  /** The last part of a turn of leftover control: the collection, or nothing but the change mark. */
  method FinishTurn(core: C.CoreController, rules: seq<string>, r: Round, counter: nat, sent: seq<string>)
    returns (nextCounter: nat)
    requires Base(core.State()) && C.PlainAddresses(r.order)
    requires FeasibleAll(DynamicLeftover, core.State(), [LastAction(core.State(), counter, sent, r)])
    modifies core
    ensures core.State() == Final(DynamicLeftover, old(core.State()), [LastAction(old(core.State()), counter, sent, r)])
    ensures core.calls == old(core.calls)
            + AllCalls(DynamicLeftover, rules, old(core.State()), [LastAction(old(core.State()), counter, sent, r)])
    ensures nextCounter == NextCounter(DynamicLeftover, counter)
  {
    OneAction(DynamicLeftover, rules, core.State(), LastAction(core.State(), counter, sent, r));
    hide Base, Runs.Enabled, Runs.Apply, EventCalls, FeasibleAll, Final, AllCalls, C.PlainAddresses;
    nextCounter := counter + 1;
    if nextCounter == COLLECT_ROUNDS {
      var present := WithStages(core.localToStages, r.sessions);
      Perform(core, DynamicLeftover, rules, Happens(Iteration(Among(present, sent), r.replies, r.rule, r.order)));
      nextCounter := 0;
    } else {
      Perform(core, DynamicLeftover, rules, Happens(IdleIteration));
    }
  }

  function LastAction(m: Core, counter: nat, sent: seq<string>, r: Round): Action {
    Happens(if counter + 1 == COLLECT_ROUNDS
            then Iteration(Among(WithStages(m.localToStages, r.sessions), sent), r.replies, r.rule, r.order)
            else IdleIteration)
  }

  /** What a turn does after the registrations, with the counter and the list of those asked. */
  method ExecuteTurn(core: C.CoreController, t: ControlType, rules: seq<string>, r: Round, counter: nat, sent: seq<string>)
    returns (nextCounter: nat, nextSent: seq<string>)
    requires Base(core.State()) && C.PlainAddresses(r.order)
    requires FeasibleAll(t, core.State(), Turn(t, core.State(), counter, sent, r))
    modifies core
    ensures core.State() == Final(t, old(core.State()), Turn(t, old(core.State()), counter, sent, r))
    ensures core.calls == old(core.calls)
            + AllCalls(t, rules, old(core.State()), Turn(t, old(core.State()), counter, sent, r))
    ensures nextCounter == NextCounter(t, counter) && nextSent == Sent(t, old(core.State()), counter, sent, r)
  {
    ghost var c := core.State();
    if t != DynamicLeftover {
      hide Base, Runs.Enabled, Runs.Apply, EventCalls, FeasibleAll, Final, AllCalls, C.PlainAddresses;
      OneAction(t, rules, c, Happens(Collecting(t, c, counter, sent, r)));
      var present := WithStages(core.localToStages, r.sessions);
      Perform(core, t, rules, Happens(Iteration(present, r.replies, r.rule, r.order)));
      nextCounter, nextSent := 0, sent;
    } else {
      hide Base, Runs.Enabled, Runs.Apply, EventCalls, FeasibleAll, Final, AllCalls, C.PlainAddresses;
      nextSent := sent;
      ghost var last := LastAction(c, counter, Sent(t, c, counter, sent, r), r);
      if counter == 0 {
        SendsToStages(c, r.sessions);
        RequestsFirst(t, rules, c, WithStages(c.localToStages, r.sessions), last);
        nextSent := core.CollectStatisticsGlobalSend(r.sessions, C.AGGREGATED_RULE);
        Regroup(old(core.calls), Requested(nextSent), AllCalls(t, rules, c, [last]));
      } else {
        assert [] + [last] == [last];
      }
      nextCounter := FinishTurn(core, rules, r, counter, nextSent);
    }
  }

  /** One turn: registrations, then what the control type does. */
  method ExecuteRound(core: C.CoreController, t: ControlType, rules: seq<string>, r: Round, counter: nat, sent: seq<string>)
    returns (nextCounter: nat, nextSent: seq<string>)
    requires Base(core.State()) && C.PlainAddresses(r.order)
    requires RoundPossible(t, Control(core.State(), counter, sent), r)
    modifies core
    ensures var x := Control(old(core.State()), counter, sent);
      && RoundPossible(t, x, r) && Control(core.State(), nextCounter, nextSent) == AfterRound(t, x, r)
      && FeasibleAll(t, x.core, RoundActions(t, x, r))
      && core.calls == old(core.calls) + AllCalls(t, rules, x.core, RoundActions(t, x, r))
  {
    ghost var x := Control(core.State(), counter, sent);
    ghost var m := Final(t, x.core, Joins(r));
    ghost var turn := Turn(t, m, counter, sent, r);
    JoinsHappen(r);
    FinalKeeps(t, x.core, Joins(r));
    RoundKeeps(t, x, r);
    AllCallsAppend(t, rules, x.core, Joins(r), turn);
    hide Base, FeasibleAll, Final, AllCalls, Turn, Joins, C.PlainAddresses, Enumerates;
    RegisterAll(core, t, rules, LocalsJoin(r.locals) + StagesJoin(r.stages));
    Regroup(old(core.calls), AllCalls(t, rules, x.core, Joins(r)), AllCalls(t, rules, m, turn));
    nextCounter, nextSent := ExecuteTurn(core, t, rules, r, counter, sent);
  }

  lemma {:induction false} AllCallsAppend(t: ControlType, rules: seq<string>, c: Core, first: seq<Action>, rest: seq<Action>)
    requires Base(c) && FeasibleAll(t, c, first) && Base(Final(t, c, first)) && FeasibleAll(t, Final(t, c, first), rest)
    requires FeasibleAll(t, c, first + rest)
    ensures AllCalls(t, rules, c, first + rest)
         == AllCalls(t, rules, c, first) + AllCalls(t, rules, Final(t, c, first), rest)
    decreases |first|
  {
    hide Base, Feasible, StateAfter, ActionCalls;
    if first == [] {
      assert first + rest == rest;
    } else {
      var d := StateAfter(t, c, first[0]);
      assert (first + rest)[1..] == first[1..] + rest;
      ActionKeeps(t, c, first[0]);
      AllCallsAppend(t, rules, d, first[1..], rest);
      Regroup(ActionCalls(t, rules, c, first[0]), AllCalls(t, rules, d, first[1..]),
              AllCalls(t, rules, Final(t, c, first), rest));
    }
  }

  ghost function CallsOfLoop(t: ControlType, rules: seq<string>, x: Control, rounds: seq<Round>): seq<Call>
    requires Base(x.core) && LoopPossible(t, x, rounds) && Steady(t, x)
  {
    LoopIsAllowed(t, x, rounds);
    AllCalls(t, rules, x.core, LoopActions(t, x, rounds))
  }

  /** What is left of the loop after its first turn. */
  lemma LoopStep(t: ControlType, rules: seq<string>, x: Control, rounds: seq<Round>)
    requires Base(x.core) && LoopPossible(t, x, rounds) && Steady(t, x) && rounds != []
    ensures RoundPossible(t, x, rounds[0]) && 0 < |rounds[0].locals| + x.core.activeLocals + |rounds[0].stages|
    ensures var y := AfterRound(t, x, rounds[0]);
      && Base(y.core) && Steady(t, y) && LoopPossible(t, y, rounds[1..])
      && LoopEnd(t, x, rounds) == LoopEnd(t, y, rounds[1..])
      && FeasibleAll(t, x.core, RoundActions(t, x, rounds[0]))
      && CallsOfLoop(t, rules, x, rounds)
         == AllCalls(t, rules, x.core, RoundActions(t, x, rounds[0])) + CallsOfLoop(t, rules, y, rounds[1..])
  {
    var r, rest := rounds[0], rounds[1..];
    RoundKeeps(t, x, r);
    RoundAllowed(t, x, r);
    var y := AfterRound(t, x, r);
    LoopIsAllowed(t, x, rounds);
    LoopIsAllowed(t, y, rest);
    hide Base, FeasibleAll, Final, AllCalls, AfterRound, RoundActions, Steady, Allowed, WindowAfter;
    AllCallsAppend(t, rules, x.core, RoundActions(t, x, r), LoopActions(t, y, rest));
  }

  lemma LoopOver(t: ControlType, rules: seq<string>, x: Control)
    requires Base(x.core) && Steady(t, x)
    ensures LoopPossible(t, x, []) && LoopEnd(t, x, []) == x && CallsOfLoop(t, rules, x, []) == []
  {
    hide Base, Steady;
    assert LoopActions(t, x, []) == [];
  }

  lemma CallsAreRun(t: ControlType, rules: seq<string>, c: Core, rounds: seq<Round>)
    requires Base(c) && LoopPossible(t, Begin(c), rounds)
    ensures Steady(t, Begin(c)) && CallsOfLoop(t, rules, Begin(c), rounds) == LoopCalls(t, rules, c, rounds)
  {
    BeginIsSteady(t, c);
    LoopIsAllowed(t, Begin(c), rounds);
    hide Base, LoopPossible, FeasibleAll, Allowed, LoopActions, RunCalls, AllCalls, Steady, Final, WindowAfter;
    AllCallsAreRun(t, rules, c, Decimal.None, LoopActions(t, Begin(c), rounds));
  }

  /** After `k` turns in state `x`: the turns left lead to the end, and their calls complete those of the loop. */
  ghost predicate Remains(t: ControlType, rules: seq<string>, start: Control, before: seq<Call>, rounds: seq<Round>,
                          x: Control, calls: seq<Call>, k: nat)
    requires Base(start.core) && LoopPossible(t, start, rounds) && Steady(t, start)
  {
    && k <= |rounds| && Base(x.core) && Steady(t, x) && LoopPossible(t, x, rounds[k..])
    && LoopEnd(t, x, rounds[k..]) == LoopEnd(t, start, rounds)
    && calls + CallsOfLoop(t, rules, x, rounds[k..]) == before + CallsOfLoop(t, rules, start, rounds)
    && (k < |rounds| ==>
          && RoundPossible(t, x, rounds[k]) && 0 < |rounds[k].locals| + x.core.activeLocals + |rounds[k].stages|
          && FeasibleAll(t, x.core, RoundActions(t, x, rounds[k])))
  }

  lemma RemainsAll(t: ControlType, rules: seq<string>, start: Control, before: seq<Call>, rounds: seq<Round>)
    requires Base(start.core) && LoopPossible(t, start, rounds) && Steady(t, start)
    ensures Remains(t, rules, start, before, rounds, start, before, 0)
  {
    assert rounds[0..] == rounds;
    if rounds != [] {
      LoopStep(t, rules, start, rounds);
    }
  }

  lemma RemainsLess(t: ControlType, rules: seq<string>, start: Control, before: seq<Call>, rounds: seq<Round>,
                    x: Control, calls: seq<Call>, k: nat)
    requires Base(start.core) && LoopPossible(t, start, rounds) && Steady(t, start)
    requires Remains(t, rules, start, before, rounds, x, calls, k) && k < |rounds|
    ensures Remains(t, rules, start, before, rounds, AfterRound(t, x, rounds[k]),
                    calls + AllCalls(t, rules, x.core, RoundActions(t, x, rounds[k])), k + 1)
  {
    hide Base, LoopPossible, LoopEnd, CallsOfLoop, AllCalls, RoundPossible, AfterRound, RoundActions, FeasibleAll, Steady;
    assert rounds[k..][0] == rounds[k] && rounds[k..][1..] == rounds[k + 1..];
    LoopStep(t, rules, x, rounds[k..]);
    var y := AfterRound(t, x, rounds[k]);
    Regroup(calls, AllCalls(t, rules, x.core, RoundActions(t, x, rounds[k])), CallsOfLoop(t, rules, y, rounds[k + 1..]));
    if k + 1 < |rounds| {
      assert rounds[k + 1..][0] == rounds[k + 1];
      LoopStep(t, rules, y, rounds[k + 1..]);
    }
  }

  lemma RemainsNothing(t: ControlType, rules: seq<string>, start: Control, before: seq<Call>, rounds: seq<Round>,
                       x: Control, calls: seq<Call>)
    requires Base(start.core) && LoopPossible(t, start, rounds) && Steady(t, start)
    requires Remains(t, rules, start, before, rounds, x, calls, |rounds|)
    ensures x == LoopEnd(t, start, rounds) && calls == before + CallsOfLoop(t, rules, start, rounds)
  {
    hide Base, Steady, RoundPossible, FeasibleAll;
    assert rounds[|rounds|..] == [];
    LoopOver(t, rules, x);
    assert calls + [] == calls;
  }

  /**
   * The feedback loop, turn after turn, with its round counter and its list of
   * those asked: the state and the calls are those of the run.
   */
  method ExecuteFeedbackLoop(core: C.CoreController, t: ControlType, rules: seq<string>, rounds: seq<Round>)
    requires Base(core.State()) && LoopPossible(t, Begin(core.State()), rounds)
    requires forall i | 0 <= i < |rounds| :: C.PlainAddresses(rounds[i].order)
    modifies core
    ensures core.State() == LoopEnd(t, Begin(old(core.State())), rounds).core
    ensures core.calls == old(core.calls) + LoopCalls(t, rules, old(core.State()), rounds)
  {
    ghost var start, before := Begin(core.State()), core.calls;
    CallsAreRun(t, rules, core.State(), rounds);
    RemainsAll(t, rules, start, before, rounds);
    hide Base, LoopPossible, LoopEnd, LoopCalls, CallsOfLoop, AllCalls, RoundPossible, AfterRound, RoundActions, FeasibleAll,
         Steady, C.PlainAddresses;
    var counter: nat, sent: seq<string>, k := 0, [], 0;
    while k < |rounds| && 0 < |rounds[k].locals| + core.activeLocals + |rounds[k].stages|
      invariant 0 <= k <= |rounds|
      invariant Remains(t, rules, start, before, rounds, Control(core.State(), counter, sent), core.calls, k)
      decreases |rounds| - k
    {
      RemainsLess(t, rules, start, before, rounds, Control(core.State(), counter, sent), core.calls, k);
      counter, sent := ExecuteRound(core, t, rules, rounds[k], counter, sent);
      k := k + 1;
    }
    RemainsNothing(t, rules, start, before, rounds, Control(core.State(), counter, sent), core.calls);
  }
}
