/**
 * Demands over whole runs: what the administrator submitted against what the core
 * controller stores, whatever rounds, statistics and registrations come between.
 */
module Demands {
  import opened Arithmetic
  import opened Sequences
  import opened Registry
  import opened Statistics
  import opened Rounds
  import opened RoundLaws
  import opened Runs
  import Decimal
  import Effects
  import Tokenizer
  import Vanilla
  import Leftover

  // ------------------------------------------------------------------
  // What was submitted
  // ------------------------------------------------------------------

  /** The policy line submits a demand. */
  predicate SubmitsDemand(rule: string)
    requires PolicyReadable(rule)
  {
    rule != "" && var tokens := Tokenizer.Tokens(rule, '|'); tokens[1] == "demand" || tokens[1] == "job"
  }

  /** The job named by a policy line, and the demand submitted for it. */
  function Submission(rule: string): (string, int)
    requires PolicyReadable(rule) && SubmitsDemand(rule)
  {
    var tokens := Tokenizer.Tokens(rule, '|');
    (tokens[2], Decimal.Parse(tokens[4]).value)
  }

  function Entered(h: map<string, int>, rule: string): map<string, int>
    requires PolicyReadable(rule)
  {
    if SubmitsDemand(rule) then h[Submission(rule).0 := Submission(rule).1] else h
  }

  /** Static control leaves the queue alone while no local controller is connected. */
  ghost predicate TakesPolicy(t: ControlType, c: Core, e: Event)
    requires e.Iteration? && Consistent(c) && Answered(c, e.locals, e.replies)
  {
    t == Static ==> 0 < CollectAll(c, e.locals, e.replies).activeLocals
  }

  /** The demands on record after an event: jobs that lose their last stage are struck out, then the policy is entered. */
  ghost function RecordAfter(t: ControlType, c: Core, h: map<string, int>, e: Event): map<string, int>
    requires Base(c) && Enabled(t, c, e)
  {
    if !e.Iteration? then h
    else
      var left := h - (c.locations.Keys - CollectAll(c, e.locals, e.replies).locations.Keys);
      if TakesPolicy(t, c, e) then Entered(left, e.rule) else left
  }

  // ------------------------------------------------------------------
  // What is stored
  // ------------------------------------------------------------------

  /**
   * The stored demand of a job is the one on record, or -1 for a live job without
   * one; vanilla may have rounded an unset demand up to 1. Under static control a
   * job without one has no rate of its own, and nothing is enforced for it.
   */
  predicate MatchesAt(t: ControlType, c: Core, h: map<string, int>, j: string) {
    var submitted := if j in h then h[j] else -1;
    && (j in c.demands <==> j in h || j in c.locations)
    && (j in c.demands ==> c.demands[j] == submitted || (t == DynamicVanilla && submitted == -1 && c.demands[j] == 1))
    && (t == Static && j !in h && j in c.rates ==> c.rates[j] == -1)
    && (t == Static && j !in h && j in c.previous ==> c.previous[j] == 0)
  }

  ghost predicate Matches(t: ControlType, c: Core, h: map<string, int>) {
    forall j :: MatchesAt(t, c, h, j)
  }

  lemma RegisterMatchesAt(t: ControlType, c: Core, h: map<string, int>, i: StageInfo, j: string)
    requires JobsTracked(c) && MatchesAt(t, c, h, j)
    ensures MatchesAt(t, RegisterStage(c, i), h, j)
  {
    RegisterStageMaps(c, i);
    var d := RegisterStage(c, i);
    assert d.locations.Keys == c.locations.Keys + {i.stage.job};
    hide RegisterStage;
    if j != i.stage.job {
      assert AllSameAt(c, d, j);
      assert j in d.locations.Keys <==> j in c.locations.Keys;
    } else {
      assert j in d.locations.Keys;
      assert j in c.previous.Keys <==> j in c.locations.Keys;
    }
  }

  /** Losing jobs strikes them out, and changes nothing for the others. */
  lemma LeavingMatchesAt(t: ControlType, c: Core, d: Core, h: map<string, int>, j: string)
    requires JobsLeave(c, d) && MatchesAt(t, c, h, j)
    ensures MatchesAt(t, d, h - (c.locations.Keys - d.locations.Keys), j)
  {
    assert if j in c.locations && j !in d.locations then Forgotten(d, j) else AllSameAt(c, d, j);
    assert j in d.locations.Keys ==> j in c.locations.Keys;
  }

  lemma PolicyMatchesAt(t: ControlType, c: Core, h: map<string, int>, rule: string, j: string)
    requires PolicyReadable(rule) && MatchesAt(t, c, h, j)
    ensures MatchesAt(t, UpdateDemands(c, rule), Entered(h, rule), j)
  {
    PolicyDemands(c, rule);
    hide UpdateDemands, PolicyReadable, Submission, SubmitsDemand;
  }

  lemma PolicyDemands(c: Core, rule: string)
    requires PolicyReadable(rule)
    ensures var p := UpdateDemands(c, rule);
      p == c.(demands := Entered(c.demands, rule), activeOperation := p.activeOperation)
  {
    Effects.PolicyEffect(c, rule);
    PolicyFrame(c, rule);
    hide UpdateDemands;
  }

  lemma StaticRoundMatchesAt(m: Core, o: Order, h: map<string, int>, j: string)
    requires Ready(m, o) && MatchesAt(Static, m, h, j)
    ensures MatchesAt(Static, StaticRound(m, o), h, j)
  {
    RoundsKeepSystem(m, o, []);
    EveryJobVisited(m, o);
    hide StaticRound, Ready, Visits, Consistent;
    if j in o.jobs {
      var i: nat :| i < |o.jobs| && o.jobs[i] == j;
      Effects.StaticJob(m, o, i);
    } else {
      Effects.StaticElsewhere(m, o, j);
    }
  }

  /** Vanilla: whether a job is visited or not, a set demand stays and an unset one stays or becomes 1. */
  lemma VanillaDemandOf(c: Core, o: Order, j: string)
    requires Ready(c, o)
    ensures var d := VanillaRound(c, o);
      && (j in d.demands <==> j in c.demands)
      && (j in c.demands ==> d.demands[j] == c.demands[j] || (c.demands[j] == -1 && d.demands[j] == 1))
  {
    hide VanillaRound, Ready, Vanilla.Shareable, Values;
    if j in o.jobs {
      var i: nat :| i < |o.jobs| && o.jobs[i] == j;
      Effects.VanillaDemand(c, o, i);
    } else {
      Effects.VanillaElsewhere(c, o, j);
    }
  }

  lemma VanillaRoundMatchesAt(c: Core, o: Order, h: map<string, int>, j: string)
    requires Ready(c, o) && MatchesAt(DynamicVanilla, c, h, j)
    ensures MatchesAt(DynamicVanilla, VanillaRound(c, o), h, j)
  {
    RoundsKeepSystem(c, o, []);
    VanillaDemandOf(c, o, j);
    hide VanillaRound, Ready;
  }

  lemma LeftoverRoundMatchesAt(c: Core, o: Order, asks: seq<Leftover.Ask>, h: map<string, int>, j: string)
    requires Ready(c, o) && |asks| == |o.jobs| && Leftover.Observed(asks) && MatchesAt(DynamicLeftover, c, h, j)
    ensures MatchesAt(DynamicLeftover, LeftoverRound(c, o, asks), h, j)
  {
    hide Ready, Leftover.Computed, Leftover.Enforced, Leftover.Observed, Assign, Choose, LeftoverSent;
  }

  // ------------------------------------------------------------------
  // One event
  // ------------------------------------------------------------------

  lemma LowerMarkMatchesAt(t: ControlType, c: Core, h: map<string, int>, j: string)
    requires MatchesAt(t, c, h, j)
    ensures MatchesAt(t, c.(changed := false), h, j) && MatchesAt(t, c.(changed := true), h, j)
  {
  }

  lemma PreparedMatchesAt(t: ControlType, c: Core, h: map<string, int>, e: Event, j: string)
    requires Base(c) && e.Iteration? && Answered(c, e.locals, e.replies) && PolicyReadable(e.rule)
    requires MatchesAt(t, c, h, j)
    ensures var d := CollectAll(c, e.locals, e.replies);
      var left := h - (c.locations.Keys - d.locations.Keys);
      && MatchesAt(t, d, left, j)
      && MatchesAt(t, Prepared(c, e), Entered(left, e.rule), j)
  {
    CollectAllLeaves(c, e.locals, e.replies);
    var d := CollectAll(c, e.locals, e.replies);
    LeavingMatchesAt(t, c, d, h, j);
    hide MatchesAt, CollectAll, Consistent, SessionsAgree, JobsLeave, UpdateDemands, Entered;
    PolicyMatchesAt(t, d, h - (c.locations.Keys - d.locations.Keys), e.rule, j);
  }

  lemma StaticStepMatchesAt(p: Core, rule: string, o: Order, h: map<string, int>, j: string)
    requires Consistent(p) && PolicyReadable(rule) && Visits(o, p) && MatchesAt(Static, p, h, j)
    ensures MatchesAt(Static, StaticStep(p, rule, o), h, j)
  {
    SameLocations(p, MarkPolicy(p, rule));
    LowerMarkMatchesAt(Static, p, h, j);
    hide MatchesAt, Consistent, StaticRound, PolicyReadable, PolicyOperation;
    StaticRoundMatchesAt(MarkPolicy(p, rule), o, h, j);
  }

  lemma IterationMatchesAt(t: ControlType, c: Core, h: map<string, int>, e: Event, j: string)
    requires Base(c) && e.Iteration? && Enabled(t, c, e) && MatchesAt(t, c, h, j)
    ensures MatchesAt(t, IterationResult(t, c, e), RecordAfter(t, c, h, e), j)
  {
    PreparedMatchesAt(t, c, h, e, j);
    PreparedKeeps(c, e);
    PreparedLocals(c, e);
    var p := Prepared(c, e);
    hide MatchesAt, Prepared, CollectAll, Consistent, SessionsAgree, StaticStep, VanillaRound, LeftoverStep, LeftoverRound,
         Visits, Received, Entered, PolicyReadable, Vanilla.Shareable, SubMap;
    match t
    case Static =>
      if 0 < p.activeLocals {
        StaticStepMatchesAt(p, e.rule, e.order, Entered(h - (c.locations.Keys - CollectAll(c, e.locals, e.replies).locations.Keys), e.rule), j);
      }
    case DynamicVanilla =>
      VanillaRoundMatchesAt(p, e.order, RecordAfter(t, c, h, e), j);
    case DynamicLeftover =>
      LeftoverStepIs(c, e, p);
      LeftoverRoundMatchesAt(p, e.order, Asks(p, e.order, e.locals, e.replies), RecordAfter(t, c, h, e), j);
  }

  lemma EventMatchesAt(t: ControlType, c: Core, h: map<string, int>, e: Event, j: string)
    requires Base(c) && Enabled(t, c, e) && MatchesAt(t, c, h, j)
    ensures MatchesAt(t, Apply(t, c, e), RecordAfter(t, c, h, e), j)
  {
    match e
    case LocalJoins(_) =>
    case StageJoins(i) => RegisterMatchesAt(t, c, h, i, j);
    case IdleIteration => LowerMarkMatchesAt(t, c, h, j);
    case Iteration(_, _, _, _) =>
      IterationMatchesAt(t, c, h, e, j);
      LowerMarkMatchesAt(t, IterationResult(t, c, e), RecordAfter(t, c, h, e), j);
  }

  lemma EventMatches(t: ControlType, c: Core, h: map<string, int>, e: Event)
    requires Base(c) && Enabled(t, c, e) && Matches(t, c, h)
    ensures Matches(t, Apply(t, c, e), RecordAfter(t, c, h, e))
  {
    hide MatchesAt, Apply, RecordAfter, Enabled, Consistent, SessionsAgree;
    forall j
      ensures MatchesAt(t, Apply(t, c, e), RecordAfter(t, c, h, e), j)
    {
      EventMatchesAt(t, c, h, e, j);
    }
  }

  // ------------------------------------------------------------------
  // Every run
  // ------------------------------------------------------------------

  /** The demands on record after a run. */
  ghost function Record(t: ControlType, c: Core, h: map<string, int>, events: seq<Event>): map<string, int>
    requires Base(c) && Possible(t, c, events)
    decreases |events|
  {
    if events == [] then h
    else
      EventKeeps(t, c, events[0]);
      Record(t, Apply(t, c, events[0]), RecordAfter(t, c, h, events[0]), events[1..])
  }

  lemma {:induction false} RunMatches(t: ControlType, c: Core, h: map<string, int>, events: seq<Event>)
    requires Base(c) && Possible(t, c, events) && Matches(t, c, h)
    ensures Matches(t, After(t, c, events), Record(t, c, h, events))
    decreases |events|
  {
    if events == [] {
    } else {
      EventKeeps(t, c, events[0]);
      EventMatches(t, c, h, events[0]);
      hide Matches, Apply, RecordAfter, Enabled, Base;
      RunMatches(t, Apply(t, c, events[0]), RecordAfter(t, c, h, events[0]), events[1..]);
    }
  }

  lemma InitialMatches(t: ControlType, limit: int, operation: string)
    ensures Matches(t, Initial(limit, operation), map[])
  {
  }

  /**
   * Every run of every control type: the set demand of a live job is the one last
   * submitted for it since it was last without a stage; without one its demand is
   * -1, or 1 after a vanilla round. No other job is stored but those with a
   * submitted demand.
   */
  lemma DemandsAreThoseSubmitted(t: ControlType, limit: int, operation: string, events: seq<Event>)
    requires 0 <= limit && Base(Initial(limit, operation)) && Possible(t, Initial(limit, operation), events)
    ensures var c, h := After(t, Initial(limit, operation), events), Record(t, Initial(limit, operation), map[], events);
      && c.demands.Keys == h.Keys + c.locations.Keys
      && (forall j | j in h && h[j] != -1 :: c.demands[j] == h[j])
      && (forall j | j in c.demands && (j in h ==> h[j] == -1) ::
            c.demands[j] == -1 || (t == DynamicVanilla && c.demands[j] == 1))
  {
    var start := Initial(limit, operation);
    InitialMatches(t, limit, operation);
    RunMatches(t, start, map[], events);
    var c, h := After(t, start, events), Record(t, start, map[], events);
    hide After, Record, Possible, Base, Initial;
    assert forall j :: MatchesAt(t, c, h, j);
    hide Matches;
    forall j
      ensures j in c.demands <==> j in h || j in c.locations
      ensures j in h && h[j] != -1 ==> c.demands[j] == h[j]
    {
      assert MatchesAt(t, c, h, j);
    }
    assert c.demands.Keys == h.Keys + c.locations.Keys;
    forall j | j in c.demands && (j in h ==> h[j] == -1)
      ensures c.demands[j] == -1 || (t == DynamicVanilla && c.demands[j] == 1)
    {
      assert MatchesAt(t, c, h, j);
    }
  }

  /** The event is an iteration whose policy line submits a demand for the job. */
  predicate NamesJob(e: Event, j: string) {
    && e.Iteration? && e.rule != ""
    && var tokens := Tokenizer.Tokens(e.rule, '|');
       3 <= |tokens| && (tokens[1] == "demand" || tokens[1] == "job") && tokens[2] == j
  }

  lemma EventIsNamed(t: ControlType, c: Core, h: map<string, int>, e: Event, j: string)
    requires Base(c) && Enabled(t, c, e) && j !in h && !NamesJob(e, j)
    ensures j !in RecordAfter(t, c, h, e)
  {
    hide CollectAll, Consistent, SessionsAgree, Prepared, Vanilla.Shareable, Received, Visits;
  }

  lemma {:induction false} RecordIsNamed(t: ControlType, c: Core, h: map<string, int>, events: seq<Event>, j: string)
    requires Base(c) && Possible(t, c, events) && j !in h
    requires forall i | 0 <= i < |events| :: !NamesJob(events[i], j)
    ensures j !in Record(t, c, h, events)
    decreases |events|
  {
    if events == [] {
    } else {
      EventKeeps(t, c, events[0]);
      hide RecordAfter, Apply, Enabled, NamesJob, Consistent, SessionsAgree;
      EventIsNamed(t, c, h, events[0], j);
      RecordIsNamed(t, Apply(t, c, events[0]), RecordAfter(t, c, h, events[0]), events[1..], j);
    }
  }

  /** Static: a job that no policy names is never enforced a rate, in any run. */
  lemma UnnamedIsNeverEnforced(limit: int, operation: string, events: seq<Event>, j: string)
    requires 0 <= limit && Base(Initial(limit, operation)) && Possible(Static, Initial(limit, operation), events)
    requires forall i | 0 <= i < |events| :: !NamesJob(events[i], j)
    ensures var c := After(Static, Initial(limit, operation), events);
      j in c.locations ==>
        && j in c.previous && c.previous[j] == 0
        && j in c.demands && c.demands[j] == -1
        && j in c.rates && c.rates[j] == -1
  {
    var start := Initial(limit, operation);
    InitialMatches(Static, limit, operation);
    RunMatches(Static, start, map[], events);
    RecordIsNamed(Static, start, map[], events, j);
    RegistryInEveryState(Static, limit, operation, events);
    var c, h := After(Static, start, events), Record(Static, start, map[], events);
    hide After, Record, Possible, Base;
    assert MatchesAt(Static, c, h, j);
    assert j in c.locations ==> j in c.locations.Keys;
  }
}
