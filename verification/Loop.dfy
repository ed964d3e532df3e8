/**
 * The feedback loop: how turn after turn it registers what is pending, requests
 * and collects statistics, and which runs come of that.
 */
module Loop {
  import opened Sequences
  import opened Registry
  import opened Statistics
  import opened Rounds
  import opened Runs
  import opened Programs
  import opened Sessions
  import Decimal

  /** Under leftover control statistics are collected in the last of this many turns, and requested in the first. */
  const COLLECT_ROUNDS := 5

  /**
   * What one turn meets: the sessions pending, the order in which it walks over
   * the sessions it has, the replies, the policy in the queue (or none, "") and
   * the order of the jobs.
   */
  datatype Round = Round(locals: seq<string>, stages: seq<StageInfo>, sessions: seq<string>,
                         replies: map<string, seq<Sample>>, rule: string, order: Order)

  /** The controller between two turns: its state, the turns since the last collection, and who was asked. */
  datatype Control = Control(core: Core, counter: nat, sent: seq<string>)

  // ------------------------------------------------------------------
  // Actions one after the other
  // ------------------------------------------------------------------

  /** The actions can happen one after the other; nothing is said about windows. */
  ghost predicate FeasibleAll(t: ControlType, c: Core, actions: seq<Action>)
    requires Base(c)
    decreases |actions|
  {
    actions == [] ||
    (Feasible(t, c, actions[0]) &&
     (ActionKeeps(t, c, actions[0]);
      FeasibleAll(t, StateAfter(t, c, actions[0]), actions[1..])))
  }

  ghost function Final(t: ControlType, c: Core, actions: seq<Action>): Core
    requires Base(c) && FeasibleAll(t, c, actions)
    decreases |actions|
  {
    if actions == [] then c
    else
      ActionKeeps(t, c, actions[0]);
      Final(t, StateAfter(t, c, actions[0]), actions[1..])
  }

  lemma {:induction false} FinalKeeps(t: ControlType, c: Core, actions: seq<Action>)
    requires Base(c) && FeasibleAll(t, c, actions)
    ensures Base(Final(t, c, actions))
    decreases |actions|
  {
    hide Base, Feasible, StateAfter;
    if actions == [] {
    } else {
      ActionKeeps(t, c, actions[0]);
      FinalKeeps(t, StateAfter(t, c, actions[0]), actions[1..]);
    }
  }

  lemma {:induction false} FinalAppend(t: ControlType, c: Core, first: seq<Action>, rest: seq<Action>)
    requires Base(c) && FeasibleAll(t, c, first) && Base(Final(t, c, first)) && FeasibleAll(t, Final(t, c, first), rest)
    ensures FeasibleAll(t, c, first + rest)
    ensures Final(t, c, first + rest) == Final(t, Final(t, c, first), rest)
    decreases |first|
  {
    hide Base, Feasible, StateAfter;
    if first == [] {
      assert first + rest == rest;
    } else {
      assert (first + rest)[1..] == first[1..] + rest;
      ActionKeeps(t, c, first[0]);
      FinalAppend(t, StateAfter(t, c, first[0]), first[1..], rest);
    }
  }

  lemma {:induction false} AllowedAppend(t: ControlType, c: Core, w: Window, first: seq<Action>, rest: seq<Action>)
    requires Base(c) && FeasibleAll(t, c, first) && Base(Final(t, c, first))
    requires Allowed(t, c, w, first) && Allowed(t, Final(t, c, first), WindowAfter(w, first), rest)
    ensures Allowed(t, c, w, first + rest)
    decreases |first|
  {
    hide Base, Feasible, InWindow, StateAfter, WindowAfterOne;
    if first == [] {
      assert first + rest == rest;
    } else {
      assert (first + rest)[1..] == first[1..] + rest;
      ActionKeeps(t, c, first[0]);
      AllowedAppend(t, StateAfter(t, c, first[0]), WindowAfterOne(w, first[0]), first[1..], rest);
    }
  }

  lemma {:induction false} CallsAppend(t: ControlType, rules: seq<string>, c: Core, w: Window,
                                       first: seq<Action>, rest: seq<Action>)
    requires Base(c) && FeasibleAll(t, c, first) && Base(Final(t, c, first))
    requires Allowed(t, c, w, first) && Allowed(t, Final(t, c, first), WindowAfter(w, first), rest)
    requires Allowed(t, c, w, first + rest)
    ensures RunCalls(t, rules, c, w, first + rest)
         == RunCalls(t, rules, c, w, first) + RunCalls(t, rules, Final(t, c, first), WindowAfter(w, first), rest)
    decreases |first|
  {
    hide Base, Feasible, InWindow, StateAfter, WindowAfterOne, ActionCalls;
    if first == [] {
      assert first + rest == rest;
    } else {
      var d, v := StateAfter(t, c, first[0]), WindowAfterOne(w, first[0]);
      assert (first + rest)[1..] == first[1..] + rest;
      ActionKeeps(t, c, first[0]);
      CallsAppend(t, rules, d, v, first[1..], rest);
      Regroup(ActionCalls(t, rules, c, first[0]), RunCalls(t, rules, d, v, first[1..]),
              RunCalls(t, rules, Final(t, c, first), WindowAfter(w, first), rest));
    }
  }

  lemma {:induction false} WindowAppend(w: Window, first: seq<Action>, rest: seq<Action>)
    ensures WindowAfter(w, first + rest) == WindowAfter(WindowAfter(w, first), rest)
    ensures Clean(w, first + rest) <==> Clean(w, first) && Clean(WindowAfter(w, first), rest)
    decreases |first|
  {
    if first == [] {
      assert first + rest == rest;
    } else {
      assert (first + rest)[1..] == first[1..] + rest;
      WindowAppend(WindowAfterOne(w, first[0]), first[1..], rest);
    }
  }

  /** The actions that are events. */
  function Events(actions: seq<Action>): seq<Event> {
    if actions == [] then []
    else if actions[0].Requests? then Events(actions[1..])
    else [actions[0].event] + Events(actions[1..])
  }

  /** Requests change nothing: actions are a run of their events. */
  lemma {:induction false} ActionsAreRun(t: ControlType, c: Core, actions: seq<Action>)
    requires Base(c) && FeasibleAll(t, c, actions)
    ensures Runs.Possible(t, c, Events(actions)) && Runs.After(t, c, Events(actions)) == Final(t, c, actions)
    decreases |actions|
  {
    hide Consistent, SessionsAgree, Runs.Enabled, Runs.Apply;
    if actions == [] {
    } else {
      var a, rest := actions[0], actions[1..];
      ActionKeeps(t, c, a);
      ActionsAreRun(t, StateAfter(t, c, a), rest);
      if a.Happens? {
        EventFirst(t, c, a.event, Events(rest));
      }
    }
  }

  // ------------------------------------------------------------------
  // One turn
  // ------------------------------------------------------------------

  function LocalsJoin(locals: seq<string>): (r: seq<Action>)
    ensures |r| == |locals| && forall i | 0 <= i < |r| :: r[i] == Happens(LocalJoins(locals[i]))
  {
    seq(|locals|, i requires 0 <= i < |locals| => Happens(LocalJoins(locals[i])))
  }

  function StagesJoin(stages: seq<StageInfo>): (r: seq<Action>)
    ensures |r| == |stages| && forall i | 0 <= i < |r| :: r[i] == Happens(StageJoins(stages[i]))
  {
    seq(|stages|, i requires 0 <= i < |stages| => Happens(StageJoins(stages[i])))
  }

  /** Pending local controllers register first, then pending stages. */
  function Joins(r: Round): seq<Action> {
    LocalsJoin(r.locals) + StagesJoin(r.stages)
  }

  /** All pending local controllers register, in order, before the first pending stage does. */
  lemma JoinsInOrder(r: Round)
    ensures |Joins(r)| == |r.locals| + |r.stages|
    ensures forall i | 0 <= i < |r.locals| :: Joins(r)[i] == Happens(LocalJoins(r.locals[i]))
    ensures forall i | 0 <= i < |r.stages| :: Joins(r)[|r.locals| + i] == Happens(StageJoins(r.stages[i]))
  {
  }

  /** Of those, the ones that were asked. */
  function Among(sessions: seq<string>, sent: seq<string>): seq<string> {
    if sessions == [] then []
    else (if sessions[0] in sent then [sessions[0]] else []) + Among(sessions[1..], sent)
  }

  /** Who has been asked once the turn has made its requests. */
  function Sent(t: ControlType, m: Core, counter: nat, sent: seq<string>, r: Round): seq<string> {
    if t == DynamicLeftover && counter == 0 then WithStages(m.localToStages, r.sessions) else sent
  }

  /** The iteration of a turn that collects. */
  function Collecting(t: ControlType, m: Core, counter: nat, sent: seq<string>, r: Round): Event {
    var present := WithStages(m.localToStages, r.sessions);
    Iteration(if t == DynamicLeftover then Among(present, Sent(t, m, counter, sent, r)) else present,
              r.replies, r.rule, r.order)
  }

  /** What a turn does after the registrations. */
  function Turn(t: ControlType, m: Core, counter: nat, sent: seq<string>, r: Round): seq<Action> {
    if t != DynamicLeftover then [Happens(Collecting(t, m, counter, sent, r))]
    else
      (if counter == 0 then [Requests(WithStages(m.localToStages, r.sessions))] else [])
      + [Happens(if counter + 1 == COLLECT_ROUNDS then Collecting(t, m, counter, sent, r) else IdleIteration)]
  }

  function NextCounter(t: ControlType, counter: nat): nat {
    if t != DynamicLeftover || counter + 1 == COLLECT_ROUNDS then 0 else counter + 1
  }

  /** The guard of the loop, and that the environment keeps to its part. */
  ghost predicate RoundPossible(t: ControlType, x: Control, r: Round)
    requires Base(x.core)
  {
    && 0 < |r.locals| + x.core.activeLocals + |r.stages|
    && FeasibleAll(t, x.core, Joins(r))
    && (FinalKeeps(t, x.core, Joins(r));
        var m := Final(t, x.core, Joins(r));
        && Enumerates(r.sessions, m.sessions)
        && FeasibleAll(t, m, Turn(t, m, x.counter, x.sent, r)))
  }

  ghost function RoundActions(t: ControlType, x: Control, r: Round): seq<Action>
    requires Base(x.core) && RoundPossible(t, x, r)
  {
    Joins(r) + Turn(t, Final(t, x.core, Joins(r)), x.counter, x.sent, r)
  }

  ghost function AfterRound(t: ControlType, x: Control, r: Round): Control
    requires Base(x.core) && RoundPossible(t, x, r)
  {
    FinalKeeps(t, x.core, Joins(r));
    var m := Final(t, x.core, Joins(r));
    Control(Final(t, m, Turn(t, m, x.counter, x.sent, r)), NextCounter(t, x.counter), Sent(t, m, x.counter, x.sent, r))
  }

  // ------------------------------------------------------------------
  // The loop
  // ------------------------------------------------------------------

  lemma RoundKeeps(t: ControlType, x: Control, r: Round)
    requires Base(x.core) && RoundPossible(t, x, r)
    ensures FeasibleAll(t, x.core, RoundActions(t, x, r))
    ensures Final(t, x.core, RoundActions(t, x, r)) == AfterRound(t, x, r).core && Base(AfterRound(t, x, r).core)
  {
    hide Base, FeasibleAll, Final, Turn;
    FinalKeeps(t, x.core, Joins(r));
    var m := Final(t, x.core, Joins(r));
    FinalKeeps(t, m, Turn(t, m, x.counter, x.sent, r));
    FinalAppend(t, x.core, Joins(r), Turn(t, m, x.counter, x.sent, r));
  }

  ghost predicate LoopPossible(t: ControlType, x: Control, rounds: seq<Round>)
    requires Base(x.core)
    decreases |rounds|
  {
    rounds == [] ||
    (RoundPossible(t, x, rounds[0]) &&
     (RoundKeeps(t, x, rounds[0]);
      LoopPossible(t, AfterRound(t, x, rounds[0]), rounds[1..])))
  }

  ghost function LoopActions(t: ControlType, x: Control, rounds: seq<Round>): seq<Action>
    requires Base(x.core) && LoopPossible(t, x, rounds)
    decreases |rounds|
  {
    if rounds == [] then []
    else
      RoundKeeps(t, x, rounds[0]);
      RoundActions(t, x, rounds[0]) + LoopActions(t, AfterRound(t, x, rounds[0]), rounds[1..])
  }

  ghost function LoopEnd(t: ControlType, x: Control, rounds: seq<Round>): Control
    requires Base(x.core) && LoopPossible(t, x, rounds)
    decreases |rounds|
  {
    if rounds == [] then x
    else
      RoundKeeps(t, x, rounds[0]);
      LoopEnd(t, AfterRound(t, x, rounds[0]), rounds[1..])
  }

  /** The counter tells whether a request is outstanding, and the list from whom. */
  function WindowOf(x: Control): Window {
    if x.counter == 0 then Decimal.None else Decimal.Some(x.sent)
  }

  ghost predicate Steady(t: ControlType, x: Control) {
    && x.counter < COLLECT_ROUNDS && (t != DynamicLeftover ==> x.counter == 0)
    && StillAsked(x.core, WindowOf(x))
  }

  /** Under leftover control the counter is what is left of the turns after whole groups of five. */
  lemma {:induction false} CounterCounts(t: ControlType, x: Control, rounds: seq<Round>) returns (groups: nat)
    requires Base(x.core) && LoopPossible(t, x, rounds) && x.counter < 5
    ensures t == DynamicLeftover ==> x.counter + |rounds| == 5 * groups + LoopEnd(t, x, rounds).counter
    ensures LoopEnd(t, x, rounds).counter < 5
    decreases |rounds|
  {
    if rounds == [] {
      groups := 0;
    } else {
      RoundKeeps(t, x, rounds[0]);
      AfterRoundCounter(t, x, rounds[0]);
      hide Base, RoundPossible, AfterRound;
      groups := CounterCounts(t, AfterRound(t, x, rounds[0]), rounds[1..]);
      groups := if x.counter == 4 then groups + 1 else groups;
    }
  }

  lemma Remainder(n: nat, groups: nat, rest: nat)
    requires n == 5 * groups + rest && rest < 5
    ensures n % 5 == rest
  {
  }

  lemma AfterRoundCounter(t: ControlType, x: Control, r: Round)
    requires Base(x.core) && RoundPossible(t, x, r) && x.counter < 5
    ensures AfterRound(t, x, r).counter == if t == DynamicLeftover && x.counter < 4 then x.counter + 1 else 0
  {
    hide Base, RoundPossible, Final, Turn, Sent;
  }

  predicate IsIteration(a: Action) {
    a.Happens? && a.event.Iteration?
  }

  /**
   * Which turns do what: leftover control requests statistics in every fifth turn,
   * the first included, and collects and enforces in the fourth turn after that.
   * The others do both in every turn.
   */
  lemma EveryFifthTurn(t: ControlType, x: Control, rounds: seq<Round>, r: Round)
    requires Base(x.core) && LoopPossible(t, x, rounds) && x.counter == 0
    requires Base(LoopEnd(t, x, rounds).core) && RoundPossible(t, LoopEnd(t, x, rounds), r)
    ensures var actions := RoundActions(t, LoopEnd(t, x, rounds), r);
      && ((exists a :: a in actions && a.Requests?) <==> t == DynamicLeftover && |rounds| % 5 == 0)
      && ((exists a :: a in actions && IsIteration(a)) <==> t != DynamicLeftover || |rounds| % 5 == 4)
  {
    var groups := CounterCounts(t, x, rounds);
    hide Base, LoopPossible, RoundPossible, LoopEnd, RoundActions;
    RoundDoes(t, LoopEnd(t, x, rounds), r);
    if t == DynamicLeftover {
      Remainder(|rounds|, groups, LoopEnd(t, x, rounds).counter);
    }
  }

  lemma RoundDoes(t: ControlType, x: Control, r: Round)
    requires Base(x.core) && RoundPossible(t, x, r)
    ensures var actions := RoundActions(t, x, r);
      && ((exists a :: a in actions && a.Requests?) <==> t == DynamicLeftover && x.counter == 0)
      && ((exists a :: a in actions && IsIteration(a)) <==> t != DynamicLeftover || x.counter == 4)
  {
    JoinsHappen(r);
    var m := Final(t, x.core, Joins(r));
    var turn := Turn(t, m, x.counter, x.sent, r);
    assert RoundActions(t, x, r) == Joins(r) + turn;
    TurnDoes(t, m, x.counter, x.sent, r);
    hide Base, RoundPossible, Turn, Joins, FeasibleAll, Final, RoundActions;
    forall a | a in Joins(r)
      ensures !a.Requests? && !IsIteration(a)
    {
    }
    assert forall a :: a in Joins(r) + turn <==> a in Joins(r) || a in turn;
  }

  lemma TurnDoes(t: ControlType, m: Core, counter: nat, sent: seq<string>, r: Round)
    ensures var turn := Turn(t, m, counter, sent, r);
      && ((exists a :: a in turn && a.Requests?) <==> t == DynamicLeftover && counter == 0)
      && ((exists a :: a in turn && IsIteration(a)) <==> t != DynamicLeftover || counter == 4)
  {
    var turn := Turn(t, m, counter, sent, r);
    hide WithStages, Among, Sent;
    if t != DynamicLeftover {
      assert turn[0] in turn;
    } else {
      assert turn[0] in turn && turn[|turn| - 1] in turn;
    }
  }

  lemma {:induction false} WithStagesAre(lists: map<string, seq<Stage>>, sessions: seq<string>)
    requires NoDuplicates(sessions)
    ensures NoDuplicates(WithStages(lists, sessions))
    ensures forall l :: l in WithStages(lists, sessions) <==> l in sessions && l in lists && lists[l] != []
    decreases |sessions|
  {
    if sessions == [] {
    } else {
      var n := |sessions| - 1;
      assert sessions == sessions[..n] + [sessions[n]];
      WithStagesAre(lists, sessions[..n]);
    }
  }

  lemma {:induction false} AmongAre(sessions: seq<string>, sent: seq<string>)
    requires NoDuplicates(sessions)
    ensures NoDuplicates(Among(sessions, sent))
    ensures forall l :: l in Among(sessions, sent) <==> l in sessions && l in sent
  {
    if sessions == [] {
    } else {
      assert sessions == [sessions[0]] + sessions[1..];
      AmongAre(sessions[1..], sent);
    }
  }

  /** Walking over all sessions finds exactly the local controllers with stages. */
  lemma AllAreFound(m: Core, sessions: seq<string>)
    requires Base(m) && Enumerates(sessions, m.sessions)
    ensures var present := WithStages(m.localToStages, sessions);
      NoDuplicates(present) && forall l :: l in present <==> Asked(m, l)
  {
    WithStagesAre(m.localToStages, sessions);
    hide Consistent, WithStages;
  }

  /** Everyone who was asked is found again: what is collected is what was requested. */
  lemma SentAreFound(m: Core, sessions: seq<string>, sent: seq<string>)
    requires Base(m) && Enumerates(sessions, m.sessions) && forall l | l in sent :: Asked(m, l)
    ensures Same(sent, Among(WithStages(m.localToStages, sessions), sent))
  {
    AllAreFound(m, sessions);
    AmongAre(WithStages(m.localToStages, sessions), sent);
    hide Base, WithStages, Among, Enumerates, Asked;
  }

  lemma {:induction false} JoinsAllowed(t: ControlType, c: Core, w: Window, joins: seq<Action>)
    requires Base(c) && FeasibleAll(t, c, joins) && StillAsked(c, w)
    requires forall i | 0 <= i < |joins| :: joins[i].Happens? && !joins[i].event.Iteration?
    ensures Allowed(t, c, w, joins) && WindowAfter(w, joins) == w && StillAsked(Final(t, c, joins), w)
    decreases |joins|
  {
    hide Base, Feasible, StateAfter, StillAsked;
    if joins == [] {
    } else {
      ActionKeeps(t, c, joins[0]);
      WindowKeeps(t, c, w, joins[0]);
      JoinsAllowed(t, StateAfter(t, c, joins[0]), w, joins[1..]);
    }
  }

  /** The requests of a turn go to everyone with stages, when none is outstanding; the collection is of those asked. */
  lemma TurnAllowed(t: ControlType, m: Core, counter: nat, sent: seq<string>, r: Round)
    requires Base(m) && Enumerates(r.sessions, m.sessions) && Steady(t, Control(m, counter, sent))
    requires FeasibleAll(t, m, Turn(t, m, counter, sent, r))
    ensures var turn, w := Turn(t, m, counter, sent, r), WindowOf(Control(m, counter, sent));
      var next := Control(Final(t, m, turn), NextCounter(t, counter), Sent(t, m, counter, sent, r));
      Allowed(t, m, w, turn) && WindowAfter(w, turn) == WindowOf(next) && Steady(t, next)
  {
    if t != DynamicLeftover {
      OneAllowed(t, m, Decimal.None, Happens(Collecting(t, m, counter, sent, r)));
    } else {
      var asked := Sent(t, m, counter, sent, r);
      AllAreFound(m, r.sessions);
      SentAreFound(m, r.sessions, asked);
      LeftoverTurnAllowed(m, counter, sent, r);
    }
  }

  lemma OneAllowed(t: ControlType, c: Core, w: Window, a: Action)
    requires Base(c) && FeasibleAll(t, c, [a]) && InWindow(t, w, a) && StillAsked(c, w)
    ensures Allowed(t, c, w, [a]) && WindowAfter(w, [a]) == WindowAfterOne(w, a)
    ensures StillAsked(Final(t, c, [a]), WindowAfterOne(w, a))
  {
    assert [a][1..] == [];
    hide Base, Feasible, InWindow, StateAfter, WindowAfterOne, StillAsked;
    ActionKeeps(t, c, a);
    WindowKeeps(t, c, w, a);
    assert WindowAfter(WindowAfterOne(w, a), []) == WindowAfterOne(w, a);
  }

  lemma LeftoverTurnAllowed(m: Core, counter: nat, sent: seq<string>, r: Round)
    requires Base(m) && Steady(DynamicLeftover, Control(m, counter, sent))
    requires FeasibleAll(DynamicLeftover, m, Turn(DynamicLeftover, m, counter, sent, r))
    requires var present, asked := WithStages(m.localToStages, r.sessions), Sent(DynamicLeftover, m, counter, sent, r);
      && NoDuplicates(present) && (forall l :: l in present <==> Asked(m, l))
      && Same(asked, Among(present, asked))
    ensures var turn, w := Turn(DynamicLeftover, m, counter, sent, r), WindowOf(Control(m, counter, sent));
      var next := Control(Final(DynamicLeftover, m, turn), NextCounter(DynamicLeftover, counter),
                          Sent(DynamicLeftover, m, counter, sent, r));
      Allowed(DynamicLeftover, m, w, turn) && WindowAfter(w, turn) == WindowOf(next) && Steady(DynamicLeftover, next)
  {
    var present, asked := WithStages(m.localToStages, r.sessions), Sent(DynamicLeftover, m, counter, sent, r);
    var last := Happens(if counter + 1 == COLLECT_ROUNDS then Collecting(DynamicLeftover, m, counter, sent, r)
                        else IdleIteration);
    var window := Decimal.Some(asked);
    assert InWindow(DynamicLeftover, window, last);
    if counter == 0 {
      var turn := Turn(DynamicLeftover, m, counter, sent, r);
      assert turn == [Requests(present), last] && turn[0] == Requests(present) && turn[1..] == [last];
      assert StateAfter(DynamicLeftover, m, Requests(present)) == m;
      assert StillAsked(m, window);
      hide Base, Runs.Enabled, Runs.Apply, WithStages, Among;
      OneAllowed(DynamicLeftover, m, window, last);
    } else {
      assert [] + [last] == [last];
      hide Base, Runs.Enabled, Runs.Apply, WithStages, Among;
      OneAllowed(DynamicLeftover, m, window, last);
    }
  }

  lemma JoinsHappen(r: Round)
    ensures forall i | 0 <= i < |Joins(r)| :: Joins(r)[i].Happens? && !Joins(r)[i].event.Iteration?
  {
  }

  lemma RoundAllowed(t: ControlType, x: Control, r: Round)
    requires Base(x.core) && RoundPossible(t, x, r) && Steady(t, x)
    ensures Allowed(t, x.core, WindowOf(x), RoundActions(t, x, r))
    ensures WindowAfter(WindowOf(x), RoundActions(t, x, r)) == WindowOf(AfterRound(t, x, r))
    ensures Steady(t, AfterRound(t, x, r))
  {
    FinalKeeps(t, x.core, Joins(r));
    var m := Final(t, x.core, Joins(r));
    JoinsHappen(r);
    hide Base, FeasibleAll, Final, Turn, Joins, Allowed, WindowAfter, StillAsked, Enumerates, Sent, NextCounter;
    JoinsAllowed(t, x.core, WindowOf(x), Joins(r));
    TurnAllowed(t, m, x.counter, x.sent, r);
    AllowedAppend(t, x.core, WindowOf(x), Joins(r), Turn(t, m, x.counter, x.sent, r));
    WindowAppend(WindowOf(x), Joins(r), Turn(t, m, x.counter, x.sent, r));
  }

  /**
   * The round counter and the list of those asked keep the windows: whatever the
   * environment does, the actions of the loop are ones a program can be paired
   * from, and a run of their events.
   */
  lemma {:induction false} LoopIsAllowed(t: ControlType, x: Control, rounds: seq<Round>)
    requires Base(x.core) && LoopPossible(t, x, rounds) && Steady(t, x)
    ensures Allowed(t, x.core, WindowOf(x), LoopActions(t, x, rounds))
    ensures WindowAfter(WindowOf(x), LoopActions(t, x, rounds)) == WindowOf(LoopEnd(t, x, rounds))
    ensures FeasibleAll(t, x.core, LoopActions(t, x, rounds))
    ensures Final(t, x.core, LoopActions(t, x, rounds)) == LoopEnd(t, x, rounds).core
    ensures Base(LoopEnd(t, x, rounds).core) && Steady(t, LoopEnd(t, x, rounds))
    decreases |rounds|
  {
    if rounds == [] {
    } else {
      hide Base, RoundPossible, AfterRound, RoundActions, Steady, FeasibleAll, Final, Allowed, WindowAfter;
      var r, rest := rounds[0], rounds[1..];
      RoundKeeps(t, x, r);
      RoundAllowed(t, x, r);
      var y := AfterRound(t, x, r);
      LoopIsAllowed(t, y, rest);
      FinalAppend(t, x.core, RoundActions(t, x, r), LoopActions(t, y, rest));
      AllowedAppend(t, x.core, WindowOf(x), RoundActions(t, x, r), LoopActions(t, y, rest));
      WindowAppend(WindowOf(x), RoundActions(t, x, r), LoopActions(t, y, rest));
    }
  }

  // ------------------------------------------------------------------
  // Which loops pair their calls
  // ------------------------------------------------------------------

  /** No stage registers at a local controller whose statistics are outstanding. */
  predicate Quiet(x: Control, r: Round) {
    x.counter == 0 || forall i | i in r.stages :: i.address !in x.sent
  }

  ghost predicate Undisturbed(t: ControlType, x: Control, rounds: seq<Round>)
    requires Base(x.core) && LoopPossible(t, x, rounds)
    decreases |rounds|
  {
    rounds == [] ||
    (Quiet(x, rounds[0]) &&
     (RoundKeeps(t, x, rounds[0]);
      Undisturbed(t, AfterRound(t, x, rounds[0]), rounds[1..])))
  }

  lemma {:induction false} LocalsAreClean(w: Window, locals: seq<string>)
    ensures Clean(w, LocalsJoin(locals)) && WindowAfter(w, LocalsJoin(locals)) == w
    decreases |locals|
  {
    if locals == [] {
    } else {
      assert LocalsJoin(locals)[1..] == LocalsJoin(locals[1..]);
      LocalsAreClean(w, locals[1..]);
    }
  }

  lemma {:induction false} StagesAreClean(w: Window, stages: seq<StageInfo>)
    ensures Clean(w, StagesJoin(stages)) <==> w.None? || forall i | i in stages :: i.address !in w.value
    ensures WindowAfter(w, StagesJoin(stages)) == w
    decreases |stages|
  {
    if stages == [] {
    } else {
      assert StagesJoin(stages)[1..] == StagesJoin(stages[1..]);
      assert stages == [stages[0]] + stages[1..];
      StagesAreClean(w, stages[1..]);
    }
  }

  lemma OneIsClean(w: Window, a: Action)
    requires a.Requests? || a.event.Iteration? || a.event.IdleIteration?
    ensures Clean(w, [a])
  {
    assert [a][1..] == [];
  }

  lemma TurnIsClean(t: ControlType, m: Core, counter: nat, sent: seq<string>, r: Round, w: Window)
    ensures Clean(w, Turn(t, m, counter, sent, r))
  {
    var turn := Turn(t, m, counter, sent, r);
    var last := turn[|turn| - 1];
    assert Collecting(t, m, counter, sent, r).Iteration?;
    hide Collecting, WithStages, Clean;
    if |turn| == 2 {
      OneIsClean(w, turn[0]);
      OneIsClean(WindowAfter(w, [turn[0]]), last);
      assert turn == [turn[0]] + [last];
      WindowAppend(w, [turn[0]], [last]);
    } else {
      assert turn == [last];
      OneIsClean(w, last);
    }
  }

  lemma RoundIsClean(t: ControlType, x: Control, r: Round)
    requires Base(x.core) && RoundPossible(t, x, r)
    ensures Clean(WindowOf(x), RoundActions(t, x, r)) <==> Quiet(x, r)
  {
    hide Base, FeasibleAll, Final, Turn, Clean, WindowAfter;
    LocalsAreClean(WindowOf(x), r.locals);
    StagesAreClean(WindowOf(x), r.stages);
    WindowAppend(WindowOf(x), LocalsJoin(r.locals), StagesJoin(r.stages));
    var m := Final(t, x.core, Joins(r));
    WindowAppend(WindowOf(x), Joins(r), Turn(t, m, x.counter, x.sent, r));
    TurnIsClean(t, m, x.counter, x.sent, r, WindowAfter(WindowOf(x), Joins(r)));
  }

  lemma {:induction false} LoopIsClean(t: ControlType, x: Control, rounds: seq<Round>)
    requires Base(x.core) && LoopPossible(t, x, rounds) && Steady(t, x)
    ensures Clean(WindowOf(x), LoopActions(t, x, rounds)) <==> Undisturbed(t, x, rounds)
    decreases |rounds|
  {
    if rounds == [] {
    } else {
      hide Base, RoundPossible, AfterRound, RoundActions, Steady, Clean, Quiet, WindowOf, WindowAfter;
      var r, rest := rounds[0], rounds[1..];
      RoundKeeps(t, x, r);
      RoundAllowed(t, x, r);
      RoundIsClean(t, x, r);
      var y := AfterRound(t, x, r);
      LoopIsClean(t, y, rest);
      WindowAppend(WindowOf(x), RoundActions(t, x, r), LoopActions(t, y, rest));
    }
  }

  function Begin(c: Core): Control {
    Control(c, 0, [])
  }

  lemma BeginIsSteady(t: ControlType, c: Core)
    ensures Steady(t, Begin(c))
  {
  }

  /** The calls of the whole loop. */
  ghost function LoopCalls(t: ControlType, rules: seq<string>, c: Core, rounds: seq<Round>): seq<Call>
    requires Base(c) && LoopPossible(t, Begin(c), rounds)
  {
    BeginIsSteady(t, c);
    LoopIsAllowed(t, Begin(c), rounds);
    RunCalls(t, rules, c, Decimal.None, LoopActions(t, Begin(c), rounds))
  }

  /**
   * Every run of the feedback loop: its calls pair up exactly when no stage
   * registers at a local controller whose statistics are outstanding.
   */
  lemma LoopIsPairedExactly(t: ControlType, rules: seq<string>, c: Core, rounds: seq<Round>)
    requires Base(c) && LoopPossible(t, Begin(c), rounds)
    ensures WellPaired(LoopCalls(t, rules, c, rounds)) <==> Undisturbed(t, Begin(c), rounds)
  {
    BeginIsSteady(t, c);
    LoopIsAllowed(t, Begin(c), rounds);
    LoopIsClean(t, Begin(c), rounds);
    hide Base, LoopPossible, LoopActions, Undisturbed, WellPaired, Clean, Allowed, RunCalls;
    RunIsPairedExactly(t, rules, c, LoopActions(t, Begin(c), rounds));
  }

  // ------------------------------------------------------------------
  // Turns of particular kinds
  // ------------------------------------------------------------------

  lemma OneFeasible(t: ControlType, c: Core, a: Action)
    requires Base(c) && Feasible(t, c, a)
    ensures FeasibleAll(t, c, [a]) && Final(t, c, [a]) == StateAfter(t, c, a)
  {
    hide Base, Feasible, StateAfter;
    ActionKeeps(t, c, a);
    assert [a][1..] == [];
    assert FeasibleAll(t, StateAfter(t, c, a), []) && Final(t, StateAfter(t, c, a), []) == StateAfter(t, c, a);
  }

  /** A turn of leftover control that does not collect lowers the change mark. */
  lemma TurnIdles(m: Core, counter: nat, sent: seq<string>, r: Round)
    requires Base(m) && Enumerates(r.sessions, m.sessions) && counter + 1 < COLLECT_ROUNDS
    ensures var turn := Turn(DynamicLeftover, m, counter, sent, r);
      FeasibleAll(DynamicLeftover, m, turn) && Final(DynamicLeftover, m, turn) == m.(changed := false)
  {
    var idle := Happens(IdleIteration);
    assert Feasible(DynamicLeftover, m, idle) && StateAfter(DynamicLeftover, m, idle) == m.(changed := false);
    OneFeasible(DynamicLeftover, m, idle);
    if counter == 0 {
      var present := WithStages(m.localToStages, r.sessions);
      AllAreFound(m, r.sessions);
      OneFeasible(DynamicLeftover, m, Requests(present));
      hide Base, WithStages;
      FinalAppend(DynamicLeftover, m, [Requests(present)], [idle]);
    } else {
      assert [] + [idle] == [idle];
    }
  }

  lemma RoundIdles(x: Control, r: Round, m: Core)
    requires Base(x.core) && FeasibleAll(DynamicLeftover, x.core, Joins(r)) && m == Final(DynamicLeftover, x.core, Joins(r))
    requires 0 < |r.locals| + x.core.activeLocals + |r.stages| && Enumerates(r.sessions, m.sessions)
    requires x.counter + 1 < COLLECT_ROUNDS
    ensures RoundPossible(DynamicLeftover, x, r)
    ensures AfterRound(DynamicLeftover, x, r)
         == Control(m.(changed := false), x.counter + 1, Sent(DynamicLeftover, m, x.counter, x.sent, r))
  {
    FinalKeeps(DynamicLeftover, x.core, Joins(r));
    hide Base, FeasibleAll, Final, Turn, Sent, Enumerates;
    TurnIdles(m, x.counter, x.sent, r);
  }

  /** A turn without registrations that collects: one iteration. */
  lemma RoundCollects(t: ControlType, x: Control, r: Round, e: Event)
    requires Base(x.core) && r.locals == [] && r.stages == [] && 0 < x.core.activeLocals
    requires Enumerates(r.sessions, x.core.sessions) && (t == DynamicLeftover ==> x.counter + 1 == COLLECT_ROUNDS)
    requires e == Collecting(t, x.core, x.counter, x.sent, r) && Runs.Enabled(t, x.core, e)
    ensures RoundPossible(t, x, r)
    ensures AfterRound(t, x, r) == Control(Runs.Apply(t, x.core, e), 0, x.sent)
  {
    assert Joins(r) == [];
    assert Final(t, x.core, Joins(r)) == x.core;
    var turn := Turn(t, x.core, x.counter, x.sent, r);
    assert turn == [Happens(e)];
    hide Base, Runs.Enabled, Runs.Apply, Enumerates, Turn, Collecting, WithStages;
    OneFeasible(t, x.core, Happens(e));
  }

  /** A turn of static or vanilla control: registrations, then one iteration. */
  lemma RoundIterates(t: ControlType, x: Control, r: Round, m: Core, e: Event)
    requires Base(x.core) && FeasibleAll(t, x.core, Joins(r)) && m == Final(t, x.core, Joins(r)) && t != DynamicLeftover
    requires 0 < |r.locals| + x.core.activeLocals + |r.stages| && Enumerates(r.sessions, m.sessions)
    requires Base(m) && e == Collecting(t, m, x.counter, x.sent, r) && Runs.Enabled(t, m, e)
    ensures RoundPossible(t, x, r)
    ensures AfterRound(t, x, r) == Control(Runs.Apply(t, m, e), 0, x.sent)
  {
    FinalKeeps(t, x.core, Joins(r));
    assert Turn(t, m, x.counter, x.sent, r) == [Happens(e)];
    hide Base, Runs.Enabled, Runs.Apply, Enumerates, Turn, Collecting, WithStages;
    OneFeasible(t, m, Happens(e));
  }

  // ------------------------------------------------------------------
  // States the loop reaches
  // ------------------------------------------------------------------

  /** The loop, started with the empty registry, can get to `x`, and no registration disturbs a window. */
  ghost predicate Leads(t: ControlType, limit: int, rounds: seq<Round>, x: Control) {
    && Base(Initial(limit, "")) && LoopPossible(t, Begin(Initial(limit, "")), rounds)
    && Undisturbed(t, Begin(Initial(limit, "")), rounds)
    && LoopEnd(t, Begin(Initial(limit, "")), rounds) == x
  }

  ghost predicate Arrives(t: ControlType, limit: int, x: Control) {
    Base(x.core) && exists rounds :: Leads(t, limit, rounds, x)
  }

  lemma ArrivesFirst(t: ControlType, limit: int)
    ensures Arrives(t, limit, Begin(Initial(limit, "")))
  {
    InitialIsConsistent(limit, "");
    assert Leads(t, limit, [], Begin(Initial(limit, "")));
  }

  lemma ArrivesNext(t: ControlType, limit: int, x: Control, r: Round)
    requires Arrives(t, limit, x) && RoundPossible(t, x, r) && Quiet(x, r)
    ensures Arrives(t, limit, AfterRound(t, x, r))
  {
    var rounds :| Leads(t, limit, rounds, x);
    RoundKeeps(t, x, r);
    hide Base, RoundPossible, AfterRound, Quiet, LoopPossible, Undisturbed, LoopEnd;
    LastRound(t, Begin(Initial(limit, "")), rounds, r);
    assert Leads(t, limit, rounds + [r], AfterRound(t, x, r));
  }

  lemma {:induction false} LastRound(t: ControlType, x: Control, rounds: seq<Round>, r: Round)
    requires Base(x.core) && LoopPossible(t, x, rounds) && Undisturbed(t, x, rounds)
    requires Base(LoopEnd(t, x, rounds).core) && RoundPossible(t, LoopEnd(t, x, rounds), r)
    requires Quiet(LoopEnd(t, x, rounds), r)
    ensures LoopPossible(t, x, rounds + [r]) && Undisturbed(t, x, rounds + [r])
    ensures LoopEnd(t, x, rounds + [r]) == AfterRound(t, LoopEnd(t, x, rounds), r)
    decreases |rounds|
  {
    hide Base, RoundPossible, AfterRound, Quiet;
    if rounds == [] {
      RoundKeeps(t, x, r);
      LoopFirst(t, x, r, []);
      assert rounds + [r] == [r] + [];
    } else {
      RoundKeeps(t, x, rounds[0]);
      var y := AfterRound(t, x, rounds[0]);
      LastRound(t, y, rounds[1..], r);
      LoopFirst(t, x, rounds[0], rounds[1..] + [r]);
      assert rounds + [r] == [rounds[0]] + (rounds[1..] + [r]);
    }
  }

  lemma LoopFirst(t: ControlType, x: Control, r: Round, rest: seq<Round>)
    requires Base(x.core) && RoundPossible(t, x, r) && Base(AfterRound(t, x, r).core)
    requires LoopPossible(t, AfterRound(t, x, r), rest)
    ensures LoopPossible(t, x, [r] + rest) && LoopEnd(t, x, [r] + rest) == LoopEnd(t, AfterRound(t, x, r), rest)
    ensures Undisturbed(t, x, [r] + rest) <==> Quiet(x, r) && Undisturbed(t, AfterRound(t, x, r), rest)
  {
    hide Base, RoundPossible, AfterRound, Quiet;
    RoundKeeps(t, x, r);
    assert ([r] + rest)[0] == r && ([r] + rest)[1..] == rest;
  }

  // ------------------------------------------------------------------
  // A whole window of leftover control
  // ------------------------------------------------------------------

  /** A turn that meets no pending session. */
  function Plain(sessions: seq<string>): Round {
    Round([], [], sessions, map[], "", Order([], map[]))
  }

  /** Turns without registrations, up to the one that collects. */
  lemma {:induction false} IdleTurns(limit: int, x: Control, sessions: seq<string>) returns (y: Control)
    requires Arrives(DynamicLeftover, limit, x) && Enumerates(sessions, x.core.sessions) && 0 < x.core.activeLocals
    requires 0 < x.counter < COLLECT_ROUNDS && !x.core.changed
    ensures Arrives(DynamicLeftover, limit, y) && y == x.(counter := COLLECT_ROUNDS - 1)
    decreases COLLECT_ROUNDS - x.counter
  {
    if x.counter == COLLECT_ROUNDS - 1 {
      y := x;
    } else {
      var r := Plain(sessions);
      assert Joins(r) == [];
      assert FeasibleAll(DynamicLeftover, x.core, []) && Final(DynamicLeftover, x.core, []) == x.core;
      hide Base, FeasibleAll, Final, RoundPossible, AfterRound, Enumerates, Joins, Leads;
      RoundIdles(x, r, x.core);
      ArrivesNext(DynamicLeftover, limit, x, r);
      assert x.core.(changed := false) == x.core;
      y := IdleTurns(limit, AfterRound(DynamicLeftover, x, r), sessions);
    }
  }

  /** The window opens: sessions register, requests go out, and turns pass until the collection. */
  lemma WindowOpens(limit: int, x: Control, first: Round, m: Core) returns (y: Control)
    requires Arrives(DynamicLeftover, limit, x) && x.counter == 0
    requires FeasibleAll(DynamicLeftover, x.core, Joins(first)) && m == Final(DynamicLeftover, x.core, Joins(first))
    requires 0 < |first.locals| + x.core.activeLocals + |first.stages|
    requires Enumerates(first.sessions, m.sessions) && 0 < m.activeLocals
    ensures Arrives(DynamicLeftover, limit, y)
    ensures y == Control(m.(changed := false), COLLECT_ROUNDS - 1, WithStages(m.localToStages, first.sessions))
  {
    hide Base, FeasibleAll, Final, RoundPossible, AfterRound, Enumerates, Joins, WithStages, Leads;
    RoundIdles(x, first, m);
    ArrivesNext(DynamicLeftover, limit, x, first);
    y := IdleTurns(limit, AfterRound(DynamicLeftover, x, first), first.sessions);
  }

  /** The window closes: everyone who was asked is collected from, in one iteration. */
  lemma WindowCloses(limit: int, x: Control, last: Round, e: Event) returns (y: Control)
    requires Arrives(DynamicLeftover, limit, x) && x.counter == COLLECT_ROUNDS - 1 && 0 < x.core.activeLocals
    requires last.locals == [] && last.stages == [] && Enumerates(last.sessions, x.core.sessions)
    requires x.sent == WithStages(x.core.localToStages, last.sessions)
    requires e == Iteration(x.sent, last.replies, last.rule, last.order) && Runs.Enabled(DynamicLeftover, x.core, e)
    ensures Arrives(DynamicLeftover, limit, y)
    ensures y == Control(Runs.Apply(DynamicLeftover, x.core, e), 0, x.sent)
  {
    AmongItself(x.sent);
    assert e == Collecting(DynamicLeftover, x.core, x.counter, x.sent, last);
    hide Base, Runs.Enabled, Runs.Apply, RoundPossible, AfterRound, Enumerates, Collecting, WithStages, Leads;
    RoundCollects(DynamicLeftover, x, last, e);
    ArrivesNext(DynamicLeftover, limit, x, last);
    y := AfterRound(DynamicLeftover, x, last);
  }

  lemma {:induction false} AmongAll(sessions: seq<string>, sent: seq<string>)
    requires forall l | l in sessions :: l in sent
    ensures Among(sessions, sent) == sessions
  {
    if sessions == [] {
    } else {
      assert sessions[0] in sessions;
      AmongAll(sessions[1..], sent);
      assert sessions == [sessions[0]] + sessions[1..];
    }
  }

  lemma AmongItself(sent: seq<string>)
    ensures Among(sent, sent) == sent
  {
    AmongAll(sent, sent);
  }
}
