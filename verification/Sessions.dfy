/**
 * A controller and the workers of its sessions. Each session has a submission
 * queue and a completion queue; the controller submits rules and later waits
 * for results, the worker takes one rule at a time and posts one response.
 */
module Sessions {
  import opened Arithmetic
  import opened Sequences
  import opened Decimal
  import opened Tokenizer

  // ------------------------------------------------------------------
  // One session
  // ------------------------------------------------------------------

  const STAGE_HANDSHAKE := 0
  const STAGE_READY := 1
  const COLLECT_DETAILED_STATS := 3
  const CREATE_ENF_RULE := 6
  const LOCAL_HANDSHAKE := 11
  const COLLECT_GLOBAL_STATS := 5
  const COLLECT_GLOBAL_STATS_AGGREGATED := 6

  /** A response remembers the rule it answers; its body is whatever the other side returned. */
  datatype Response = Response(rule: string, body: int)

  /** The kind of a rule is the number before its first bar; -1 for the empty rule. */
  function OperationType(rule: string): Option<int> {
    if rule == "" then Some(-1) else Parse(rule[..RunLength(rule, '|')])
  }

  /** Rules for which SendRule posts a response. */
  predicate IsAnswered(rule: string) {
    match OperationType(rule)
    case None => false
    case Some(t) =>
      || t in [STAGE_HANDSHAKE, STAGE_READY, CREATE_ENF_RULE, LOCAL_HANDSHAKE]
      || (t == COLLECT_DETAILED_STATS
          && var tokens := Tokens(rule, '|');
             && 2 <= |tokens|
             && Parse(tokens[1]) in [Some(COLLECT_GLOBAL_STATS), Some(COLLECT_GLOBAL_STATS_AGGREGATED)])
  }

  // ------------------------------------------------------------------
  // Calls of a controller
  // ------------------------------------------------------------------

  /** One operation of the controller on a session; an Await is meant for the response to `rule`. */
  datatype Call = Submit(session: string, rule: string) | Await(session: string, rule: string)

  function Submitted(calls: seq<Call>, session: string): seq<string>
    decreases |calls|
  {
    if calls == [] then []
    else
      var rest, last := Submitted(calls[..|calls| - 1], session), calls[|calls| - 1];
      if last.Submit? && last.session == session then rest + [last.rule] else rest
  }

  function Awaited(calls: seq<Call>, session: string): seq<string>
    decreases |calls|
  {
    if calls == [] then []
    else
      var rest, last := Awaited(calls[..|calls| - 1], session), calls[|calls| - 1];
      if last.Await? && last.session == session then rest + [last.rule] else rest
  }

  /** Every wait is for the oldest rule of the session not yet waited for. */
  ghost predicate WellPaired(calls: seq<Call>) {
    forall k, s | 0 <= k <= |calls| :: Awaited(calls[..k], s) <= Submitted(calls[..k], s)
  }

  /** Every submitted rule is waited for. */
  ghost predicate Balanced(calls: seq<Call>) {
    forall s :: Awaited(calls, s) == Submitted(calls, s)
  }

  lemma {:induction false} AppendedSubmits(calls: seq<Call>, more: seq<Call>, s: string)
    ensures Submitted(calls + more, s) == Submitted(calls, s) + Submitted(more, s)
    decreases |more|
  {
    if more == [] {
      assert calls + more == calls;
    } else {
      var n := |more| - 1;
      AppendedSubmits(calls, more[..n], s);
      assert (calls + more)[..|calls| + n] == calls + more[..n];
    }
  }

  lemma {:induction false} AppendedAwaits(calls: seq<Call>, more: seq<Call>, s: string)
    ensures Awaited(calls + more, s) == Awaited(calls, s) + Awaited(more, s)
    decreases |more|
  {
    if more == [] {
      assert calls + more == calls;
    } else {
      var n := |more| - 1;
      AppendedAwaits(calls, more[..n], s);
      assert (calls + more)[..|calls| + n] == calls + more[..n];
    }
  }

  lemma AppendedCalls(calls: seq<Call>, more: seq<Call>, s: string)
    ensures Submitted(calls + more, s) == Submitted(calls, s) + Submitted(more, s)
    ensures Awaited(calls + more, s) == Awaited(calls, s) + Awaited(more, s)
  {
    AppendedSubmits(calls, more, s);
    AppendedAwaits(calls, more, s);
  }

  lemma CallStep(calls: seq<Call>, k: nat, s: string)
    requires k < |calls|
    ensures Submitted(calls[..k + 1], s)
         == Submitted(calls[..k], s) + if calls[k].Submit? && calls[k].session == s then [calls[k].rule] else []
    ensures Awaited(calls[..k + 1], s)
         == Awaited(calls[..k], s) + if calls[k].Await? && calls[k].session == s then [calls[k].rule] else []
  {
    assert calls[..k + 1][..k] == calls[..k];
  }

  // ------------------------------------------------------------------
  // Interleavings of the controller and the workers
  // ------------------------------------------------------------------

  datatype Queues = Queues(submission: seq<string>, taken: Option<string>, completion: seq<Response>)

  /** `pc` calls were made; `got` holds the response of each of them that was an Await. */
  datatype World = World(pc: nat, queues: map<string, Queues>, got: seq<Option<Response>>)

  datatype Step = Controller | WorkerTakes(session: string) | WorkerPosts(session: string, body: int)

  function Start(): World {
    World(0, map[], [])
  }

  function QueuesOf(w: World, s: string): Queues {
    if s in w.queues then w.queues[s] else Queues([], None, [])
  }

  predicate Enabled(calls: seq<Call>, w: World, step: Step) {
    match step
    case Controller =>
      w.pc < |calls| && (calls[w.pc].Await? ==> QueuesOf(w, calls[w.pc].session).completion != [])
    case WorkerTakes(s) => QueuesOf(w, s).taken == None && QueuesOf(w, s).submission != []
    case WorkerPosts(s, _) => QueuesOf(w, s).taken.Some?
  }

  function Next(calls: seq<Call>, w: World, step: Step): World
    requires Enabled(calls, w, step)
  {
    match step
    case Controller =>
      var call := calls[w.pc];
      var q := QueuesOf(w, call.session);
      if call.Submit? then
        World(w.pc + 1, w.queues[call.session := q.(submission := q.submission + [call.rule])], w.got + [None])
      else
        World(w.pc + 1, w.queues[call.session := q.(completion := q.completion[1..])], w.got + [Some(q.completion[0])])
    case WorkerTakes(s) =>
      var q := QueuesOf(w, s);
      w.(queues := w.queues[s := q.(submission := q.submission[1..], taken := Some(q.submission[0]))])
    case WorkerPosts(s, body) =>
      var q := QueuesOf(w, s);
      w.(queues := w.queues[s := q.(taken := None, completion := q.completion + [Response(q.taken.value, body)])])
  }

  predicate IsSchedule(calls: seq<Call>, w: World, steps: seq<Step>)
    decreases |steps|
  {
    steps == [] || (Enabled(calls, w, steps[0]) && IsSchedule(calls, Next(calls, w, steps[0]), steps[1..]))
  }

  function After(calls: seq<Call>, w: World, steps: seq<Step>): World
    requires IsSchedule(calls, w, steps)
    decreases |steps|
  {
    if steps == [] then w else After(calls, Next(calls, w, steps[0]), steps[1..])
  }

  function Rules(rs: seq<Response>): (r: seq<string>)
    ensures |r| == |rs| && forall i | 0 <= i < |r| :: r[i] == rs[i].rule
  {
    seq(|rs|, i requires 0 <= i < |rs| => rs[i].rule)
  }

  /** Rules of a session whose responses the controller has not received, oldest first. */
  function Outstanding(q: Queues): seq<string> {
    Rules(q.completion) + (if q.taken.Some? then [q.taken.value] else []) + q.submission
  }

  ghost predicate Flows(calls: seq<Call>, w: World, s: string)
    requires w.pc <= |calls|
  {
    var submitted, n := Submitted(calls[..w.pc], s), |Awaited(calls[..w.pc], s)|;
    n <= |submitted| && submitted[n..] == Outstanding(QueuesOf(w, s))
  }

  /** The response of call `i` answers the rule with the same position on its session. */
  ghost predicate PairedByPosition(calls: seq<Call>, w: World, i: nat)
    requires i < w.pc <= |calls| && |w.got| == w.pc
  {
    calls[i].Await? ==>
      var s := calls[i].session;
      var submitted, n := Submitted(calls[..i], s), |Awaited(calls[..i], s)|;
      n < |submitted| && w.got[i].Some? && w.got[i].value.rule == submitted[n]
  }

  ghost predicate Invariant(calls: seq<Call>, w: World) {
    && w.pc <= |calls| && |w.got| == w.pc
    && (forall s :: Flows(calls, w, s))
    && (forall i | 0 <= i < w.pc :: PairedByPosition(calls, w, i))
  }

  lemma SubmitFlows(calls: seq<Call>, w: World, s: string)
    requires w.pc < |calls| && calls[w.pc].Submit? && Flows(calls, w, s)
    ensures Flows(calls, Next(calls, w, Controller), s)
  {
    CallStep(calls, w.pc, s);
    var call := calls[w.pc];
    if call.session == s {
      var q := QueuesOf(w, s);
      var submitted, n := Submitted(calls[..w.pc], s), |Awaited(calls[..w.pc], s)|;
      assert (submitted + [call.rule])[n..] == submitted[n..] + [call.rule];
      assert Outstanding(q.(submission := q.submission + [call.rule])) == Outstanding(q) + [call.rule];
    }
  }

  lemma AwaitFlows(calls: seq<Call>, w: World, s: string)
    requires w.pc < |calls| && calls[w.pc].Await? && Enabled(calls, w, Controller) && Flows(calls, w, s)
    ensures Flows(calls, Next(calls, w, Controller), s)
  {
    CallStep(calls, w.pc, s);
    if calls[w.pc].session == s {
      var q := QueuesOf(w, s);
      OldestLeaves(q);
      var submitted, n := Submitted(calls[..w.pc], s), |Awaited(calls[..w.pc], s)|;
      assert submitted[n + 1..] == submitted[n..][1..];
    }
  }

  lemma OldestLeaves(q: Queues)
    requires q.completion != []
    ensures Outstanding(q) != [] && Outstanding(q.(completion := q.completion[1..])) == Outstanding(q)[1..]
  {
    assert Rules(q.completion) == [q.completion[0].rule] + Rules(q.completion[1..]);
    assert Outstanding(q) == [q.completion[0].rule] + Outstanding(q.(completion := q.completion[1..]));
  }

  lemma ControllerFlows(calls: seq<Call>, w: World, s: string)
    requires w.pc < |calls| && Flows(calls, w, s) && Enabled(calls, w, Controller)
    ensures Flows(calls, Next(calls, w, Controller), s)
  {
    if calls[w.pc].Submit? {
      SubmitFlows(calls, w, s);
    } else {
      AwaitFlows(calls, w, s);
    }
  }

  lemma ControllerPairs(calls: seq<Call>, w: World)
    requires Invariant(calls, w) && Enabled(calls, w, Controller)
    ensures var v := Next(calls, w, Controller);
      forall i | 0 <= i < v.pc :: PairedByPosition(calls, v, i)
  {
    var v := Next(calls, w, Controller);
    var call := calls[w.pc];
    assert Flows(calls, w, call.session);
    forall i | 0 <= i < v.pc
      ensures PairedByPosition(calls, v, i)
    {
      if i < w.pc {
        assert PairedByPosition(calls, w, i);
      } else if call.Await? {
        var submitted, n := Submitted(calls[..i], call.session), |Awaited(calls[..i], call.session)|;
        assert submitted[n..][0] == Rules(QueuesOf(w, call.session).completion)[0];
      }
    }
  }

  lemma WorkerFlows(calls: seq<Call>, w: World, step: Step, s: string)
    requires Invariant(calls, w) && Enabled(calls, w, step) && !step.Controller?
    ensures Outstanding(QueuesOf(Next(calls, w, step), s)) == Outstanding(QueuesOf(w, s))
  {
    var q := QueuesOf(w, s);
    if step.session == s {
      match step
      case WorkerTakes(_) =>
        assert q.submission == [q.submission[0]] + q.submission[1..];
      case WorkerPosts(_, body) =>
        assert Rules(q.completion + [Response(q.taken.value, body)]) == Rules(q.completion) + [q.taken.value];
    }
  }

  lemma StepKeeps(calls: seq<Call>, w: World, step: Step)
    requires Invariant(calls, w) && Enabled(calls, w, step)
    ensures Invariant(calls, Next(calls, w, step))
  {
    var v := Next(calls, w, step);
    if step.Controller? {
      forall s
        ensures Flows(calls, v, s)
      {
        assert Flows(calls, w, s);
        ControllerFlows(calls, w, s);
      }
      ControllerPairs(calls, w);
    } else {
      forall s
        ensures Flows(calls, v, s)
      {
        assert Flows(calls, w, s);
        WorkerFlows(calls, w, step, s);
      }
      forall i | 0 <= i < v.pc
        ensures PairedByPosition(calls, v, i)
      {
        assert PairedByPosition(calls, w, i);
      }
    }
  }

  lemma {:induction false} ScheduleKeeps(calls: seq<Call>, w: World, steps: seq<Step>)
    requires Invariant(calls, w) && IsSchedule(calls, w, steps)
    ensures Invariant(calls, After(calls, w, steps))
    decreases |steps|
  {
    if steps == [] {
    } else {
      StepKeeps(calls, w, steps[0]);
      ScheduleKeeps(calls, Next(calls, w, steps[0]), steps[1..]);
    }
  }

  lemma StartHolds(calls: seq<Call>)
    ensures Invariant(calls, Start())
  {
    forall s
      ensures Flows(calls, Start(), s)
    {
      assert calls[..0] == [];
    }
  }

  // ------------------------------------------------------------------
  // The session object
  // ------------------------------------------------------------------

  /**
   * Each method is one step of a schedule: if the queues of session `s` in world
   * `w` are those of the object, they are again after the step.
   */
  class Session {
    var submission: seq<string>
    var completion: seq<Response>
    var working: bool
    /** The rule the worker has dequeued and not answered yet. */
    ghost var taken: Option<string>

    ghost function View(): Queues
      reads this
    {
      Queues(submission, taken, completion)
    }

    constructor ()
      ensures forall s :: View() == QueuesOf(Start(), s)
      ensures working
    {
      submission, completion, working, taken := [], [], true, None;
    }

    method SubmitRule(rule: string, ghost calls: seq<Call>, ghost w: World, ghost s: string)
      requires w.pc < |calls| && calls[w.pc] == Submit(s, rule) && QueuesOf(w, s) == View()
      modifies this`submission
      ensures QueuesOf(Next(calls, w, Controller), s) == View()
    {
      submission := submission + [rule];
    }

    /** The flag goes down before the empty rule wakes the worker. */
    method RemoveSession()
      modifies this`submission, this`working
      ensures !working && submission == old(submission) + [""]
    {
      working := false;
      submission := submission + [""];
    }

    /** Returns once the wait is over: a rule is there and becomes the worker's, or the session stopped. */
    method DequeueRule(ghost calls: seq<Call>, ghost w: World, ghost s: string) returns (rule: Option<string>)
      requires taken == None && QueuesOf(w, s) == View()
      requires !working || submission != []
      modifies this`submission, this`taken
      ensures working ==> Enabled(calls, w, WorkerTakes(s)) && QueuesOf(Next(calls, w, WorkerTakes(s)), s) == View()
      ensures !working ==> View() == old(View())
      ensures rule == taken
    {
      rule := None;
      if working {
        rule := Some(submission[0]);
        submission := submission[1..];
      }
      taken := rule;
    }

    /** Posts the one response of an answered kind of rule; the other kinds post none. */
    method SendRule(rule: string, body: int, ghost calls: seq<Call>, ghost w: World, ghost s: string)
      requires taken == Some(rule) && QueuesOf(w, s) == View()
      modifies this`completion, this`taken
      ensures IsAnswered(rule) ==> QueuesOf(Next(calls, w, WorkerPosts(s, body)), s) == View()
      ensures !IsAnswered(rule) ==> View() == old(View()).(taken := None)
    {
      taken := None;
      var t := OperationType(rule);
      if t.None? {
        return;
      }
      if t.value == STAGE_HANDSHAKE || t.value == STAGE_READY || t.value == CREATE_ENF_RULE || t.value == LOCAL_HANDSHAKE {
        completion := completion + [Response(rule, body)];
      } else if t.value == COLLECT_DETAILED_STATS {
        var tokens := ParseRule(rule, '|');
        if 2 <= |tokens| {
          var subtype := Parse(tokens[1]);
          if subtype == Some(COLLECT_GLOBAL_STATS) || subtype == Some(COLLECT_GLOBAL_STATS_AGGREGATED) {
            completion := completion + [Response(rule, body)];
          }
        }
      }
    }

    /** Returns once a response is there; in a well-paired program it answers the rule waited for. */
    method GetResult(ghost calls: seq<Call>, ghost w: World, ghost s: string) returns (r: Response)
      requires w.pc < |calls| && calls[w.pc].Await? && calls[w.pc].session == s && QueuesOf(w, s) == View()
      requires completion != []
      modifies this`completion
      ensures QueuesOf(Next(calls, w, Controller), s) == View()
      ensures Next(calls, w, Controller).got == w.got + [Some(r)]
      ensures WellPaired(calls) && Invariant(calls, w) ==> r.rule == calls[w.pc].rule
    {
      if WellPaired(calls) && Invariant(calls, w) {
        OldestIsAwaited(calls, w);
      }
      r := completion[0];
      completion := completion[1..];
    }

    /**
     * The worker loop, until the queue is empty: every rule is taken and answered
     * in turn. `bodies` are the answers of the other side.
     */
    method StartSession(bodies: seq<int>, ghost calls: seq<Call>, ghost w: World, ghost s: string)
      returns (ghost steps: seq<Step>)
      requires working && taken == None && QueuesOf(w, s) == View() && |bodies| == |submission|
      requires forall i | 0 <= i < |submission| :: IsAnswered(submission[i])
      modifies this`submission, this`completion, this`taken
      ensures IsSchedule(calls, w, steps) && QueuesOf(After(calls, w, steps), s) == View()
      ensures submission == [] && taken == None
      ensures |completion| == |old(completion)| + |bodies| && old(completion) <= completion
      ensures forall i | 0 <= i < |bodies| ::
        completion[|old(completion)| + i] == Response(old(submission)[i], bodies[i])
    {
      steps := [];
      ghost var v := w;
      for k := 0 to |bodies|
        invariant taken == None && submission == old(submission)[k..]
        invariant IsSchedule(calls, w, steps) && v == After(calls, w, steps) && QueuesOf(v, s) == View()
        invariant |completion| == |old(completion)| + k && old(completion) <= completion
        invariant forall i | 0 <= i < k ::
          completion[|old(completion)| + i] == Response(old(submission)[i], bodies[i])
      {
        ghost var before := View();
        var rule := DequeueRule(calls, v, s);
        AppendStep(calls, w, steps, WorkerTakes(s));
        steps := steps + [WorkerTakes(s)];
        v := Next(calls, v, WorkerTakes(s));
        assert rule == Some(before.submission[0]) && before.submission[0] == old(submission)[k];
        SendRule(rule.value, bodies[k], calls, v, s);
        AppendStep(calls, w, steps, WorkerPosts(s, bodies[k]));
        steps := steps + [WorkerPosts(s, bodies[k])];
        v := Next(calls, v, WorkerPosts(s, bodies[k]));
      }
    }
  }

  lemma {:induction false} AppendStep(calls: seq<Call>, w: World, steps: seq<Step>, step: Step)
    requires IsSchedule(calls, w, steps) && Enabled(calls, After(calls, w, steps), step)
    ensures IsSchedule(calls, w, steps + [step])
    ensures After(calls, w, steps + [step]) == Next(calls, After(calls, w, steps), step)
    decreases |steps|
  {
    if steps == [] {
      assert steps + [step] == [step];
    } else {
      assert (steps + [step])[1..] == steps[1..] + [step];
      AppendStep(calls, Next(calls, w, steps[0]), steps[1..], step);
    }
  }

  /** The oldest response of the session answers the rule the controller waits for. */
  lemma OldestIsAwaited(calls: seq<Call>, w: World)
    requires WellPaired(calls) && Invariant(calls, w) && Enabled(calls, w, Controller) && calls[w.pc].Await?
    ensures QueuesOf(w, calls[w.pc].session).completion[0].rule == calls[w.pc].rule
  {
    var s := calls[w.pc].session;
    var submitted, n := Submitted(calls[..w.pc], s), |Awaited(calls[..w.pc], s)|;
    var q := QueuesOf(w, s);
    CallStep(calls, w.pc, s);
    assert Flows(calls, w, s);
    assert Awaited(calls[..w.pc + 1], s) <= Submitted(calls[..w.pc + 1], s);
    assert Awaited(calls[..w.pc + 1], s)[n] == calls[w.pc].rule;
    assert submitted[n..][0] == Outstanding(q)[0] == q.completion[0].rule;
  }

  // ------------------------------------------------------------------
  // Results over every interleaving
  // ------------------------------------------------------------------

  /** For any program and schedule: the n-th wait on a session returns the response to its n-th rule. */
  lemma ResponsesArriveInOrder(calls: seq<Call>, steps: seq<Step>, i: nat)
    requires IsSchedule(calls, Start(), steps) && i < After(calls, Start(), steps).pc
    ensures var w := After(calls, Start(), steps);
      && i < |calls| && |w.got| == w.pc
      && (calls[i].Await? ==>
            var s := calls[i].session;
            var submitted, n := Submitted(calls[..i], s), |Awaited(calls[..i], s)|;
            n < |submitted| && w.got[i].Some? && w.got[i].value.rule == submitted[n])
  {
    StartHolds(calls);
    ScheduleKeeps(calls, Start(), steps);
    assert PairedByPosition(calls, After(calls, Start(), steps), i);
  }

  /** In a well-paired program every wait returns the response to the rule it is meant for. */
  lemma WaitsGetTheirResponse(calls: seq<Call>, steps: seq<Step>, i: nat)
    requires WellPaired(calls) && IsSchedule(calls, Start(), steps) && i < After(calls, Start(), steps).pc
    ensures var w := After(calls, Start(), steps);
      && i < |calls| && |w.got| == w.pc
      && (calls[i].Await? ==> w.got[i].Some? && w.got[i].value.rule == calls[i].rule)
  {
    ResponsesArriveInOrder(calls, steps, i);
    if calls[i].Await? {
      var s := calls[i].session;
      CallStep(calls, i, s);
      assert Awaited(calls[..i + 1], s) <= Submitted(calls[..i + 1], s);
      assert Awaited(calls[..i + 1], s)[|Awaited(calls[..i], s)|] == calls[i].rule;
    }
  }

  /** Worker steps still to be done for one session. */
  function Load(q: Queues): nat {
    2 * |q.submission| + if q.taken.Some? then 1 else 0
  }

  function Loads(w: World): (m: map<string, int>)
    ensures m.Keys == w.queues.Keys
    ensures forall s | s in w.queues :: m[s] == Load(w.queues[s])
  {
    map s | s in w.queues :: Load(w.queues[s])
  }

  /** Steps that can still be made, at most. */
  ghost function Work(calls: seq<Call>, w: World): int
    requires w.pc <= |calls|
  {
    3 * (|calls| - w.pc) + Total(Loads(w))
  }

  lemma TotalUpdate(m: map<string, int>, k: string, v: int)
    ensures Total(m[k := v]) == Total(m) + v - if k in m then m[k] else 0
  {
    if k in m {
      TotalRemove(m, k);
      TotalRemove(m[k := v], k);
      assert m[k := v] - {k} == m - {k};
    } else {
      TotalInsert(m, k, v);
    }
  }

  lemma {:induction false} TotalNonNegative(m: map<string, int>)
    requires forall k | k in m :: 0 <= m[k]
    ensures 0 <= Total(m)
    decreases |m|
  {
    if m == map[] {
    } else {
      var k :| k in m;
      TotalRemove(m, k);
      TotalNonNegative(m - {k});
    }
  }

  /** Every step uses up work: no schedule goes on for ever. */
  lemma StepsUseUpWork(calls: seq<Call>, w: World, step: Step)
    requires Invariant(calls, w) && Enabled(calls, w, step)
    ensures Next(calls, w, step).pc <= |calls|
    ensures 0 <= Work(calls, Next(calls, w, step)) < Work(calls, w)
  {
    var v := Next(calls, w, step);
    var s := if step.Controller? then calls[w.pc].session else step.session;
    TotalUpdate(Loads(w), s, Load(v.queues[s]));
    assert Loads(v) == Loads(w)[s := Load(v.queues[s])];
    TotalNonNegative(Loads(v));
  }

  /** While the program is not finished some step is enabled: no wait is ever deadlocked. */
  lemma NeverStuck(calls: seq<Call>, steps: seq<Step>)
    requires WellPaired(calls) && IsSchedule(calls, Start(), steps)
    requires After(calls, Start(), steps).pc < |calls|
    ensures exists step :: Enabled(calls, After(calls, Start(), steps), step)
  {
    StartHolds(calls);
    ScheduleKeeps(calls, Start(), steps);
    var w := After(calls, Start(), steps);
    var call := calls[w.pc];
    var s := call.session;
    assert Flows(calls, w, s);
    CallStep(calls, w.pc, s);
    assert Awaited(calls[..w.pc + 1], s) <= Submitted(calls[..w.pc + 1], s);
    var q := QueuesOf(w, s);
    if call.Submit? || q.completion != [] {
      assert Enabled(calls, w, Controller);
    } else if q.taken.Some? {
      assert Enabled(calls, w, WorkerPosts(s, 0));
    } else {
      assert Enabled(calls, w, WorkerTakes(s));
    }
  }

  /** When a balanced program is finished, every queue is empty and no worker holds a rule. */
  lemma QueuesEndEmpty(calls: seq<Call>, steps: seq<Step>, s: string)
    requires Balanced(calls) && IsSchedule(calls, Start(), steps)
    requires After(calls, Start(), steps).pc == |calls|
    ensures QueuesOf(After(calls, Start(), steps), s) == Queues([], None, [])
  {
    StartHolds(calls);
    ScheduleKeeps(calls, Start(), steps);
    var w := After(calls, Start(), steps);
    assert calls[..|calls|] == calls;
    assert Flows(calls, w, s);
    assert |Outstanding(QueuesOf(w, s))| == 0;
  }
}
