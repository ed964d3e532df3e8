/** The calls the core controller makes on its sessions over a run, and why they pair up. */
module Programs {
  import opened Sequences
  import opened Registry
  import opened Statistics
  import opened Rounds
  import opened RoundLaws
  import opened Runs
  import opened Sessions
  import C = CoreController
  import Decimal
  import Tokenizer
  import EnforcementWire
  import HousekeepingWire
  import Leftover
  import Vanilla

  // ------------------------------------------------------------------
  // Blocks of submissions followed by their waits
  // ------------------------------------------------------------------

  /** `awaits` waits for exactly the rules of `sends`, in the same order. */
  predicate Mirrors(sends: seq<Call>, awaits: seq<Call>) {
    && |sends| == |awaits|
    && forall i | 0 <= i < |sends| :: sends[i].Submit? && awaits[i] == Await(sends[i].session, sends[i].rule)
  }

  lemma {:induction false} MirrorCounts(sends: seq<Call>, awaits: seq<Call>, s: string)
    requires Mirrors(sends, awaits)
    ensures Awaited(awaits, s) == Submitted(sends, s) && Submitted(awaits, s) == [] && Awaited(sends, s) == []
    decreases |sends|
  {
    if sends == [] {
    } else {
      MirrorCounts(sends[..|sends| - 1], awaits[..|sends| - 1], s);
    }
  }

  lemma {:induction false} AwaitedPrefix(calls: seq<Call>, k: nat, s: string)
    requires k <= |calls|
    ensures Awaited(calls[..k], s) <= Awaited(calls, s)
    decreases |calls|
  {
    if k == |calls| {
      assert calls[..k] == calls;
    } else {
      var n := |calls| - 1;
      assert calls[..n][..k] == calls[..k];
      AwaitedPrefix(calls[..n], k, s);
    }
  }

  /** A block of submissions followed by its waits is well paired and leaves nothing behind. */
  lemma BlockIsPaired(sends: seq<Call>, awaits: seq<Call>)
    requires Mirrors(sends, awaits)
    ensures WellPaired(sends + awaits) && Balanced(sends + awaits)
  {
    var calls := sends + awaits;
    forall s
      ensures Awaited(calls, s) == Submitted(calls, s)
    {
      AppendedCalls(sends, awaits, s);
      MirrorCounts(sends, awaits, s);
    }
    forall k, s | 0 <= k <= |calls|
      ensures Awaited(calls[..k], s) <= Submitted(calls[..k], s)
    {
      MirrorCounts(sends, awaits, s);
      if k <= |sends| {
        assert calls[..k] == sends[..k];
        AwaitedPrefix(sends, k, s);
      } else {
        var j := k - |sends|;
        assert calls[..k] == sends + awaits[..j];
        AppendedCalls(sends, awaits[..j], s);
        AwaitedPrefix(awaits, j, s);
        MirrorCounts(sends[..j], awaits[..j], s);
      }
    }
  }

  lemma OnePair(session: string, rule: string)
    ensures WellPaired([Submit(session, rule), Await(session, rule)])
    ensures Balanced([Submit(session, rule), Await(session, rule)])
  {
    BlockIsPaired([Submit(session, rule)], [Await(session, rule)]);
    assert [Submit(session, rule)] + [Await(session, rule)] == [Submit(session, rule), Await(session, rule)];
  }

  lemma NothingIsPaired()
    ensures WellPaired([]) && Balanced([])
  {
    BlockIsPaired([], []);
    var none: seq<Call> := [];
    assert none + none == none;
  }

  lemma MirrorsAppend(s: seq<Call>, a: seq<Call>, t: seq<Call>, b: seq<Call>)
    requires Mirrors(s, a) && Mirrors(t, b)
    ensures Mirrors(s + t, a + b)
  {
  }

  lemma {:induction false} StatisticsMirror(c: Core, locals: seq<string>, rule: string)
    ensures Mirrors(C.StatisticsSends(c, locals, rule), C.StatisticsAwaits(c, locals, rule))
    decreases |locals|
  {
    if locals == [] {
    } else {
      StatisticsMirror(c, locals[..|locals| - 1], rule);
    }
  }

  lemma {:induction false} RoundMirror(c: Core, o: Order, rates: seq<int>, sent: seq<bool>, k: nat)
    requires Routable(c, o) && |rates| == |sent| == |o.jobs| && k <= |o.jobs|
    ensures Mirrors(Sends(c, o, rates, sent, k), Awaits(c, o, rates, sent, k))
  {
    if k == 0 {
    } else {
      RoundMirror(c, o, rates, sent, k - 1);
      assert o.jobs[k - 1] in o.jobs;
      if sent[k - 1] {
        MirrorsAppend(Sends(c, o, rates, sent, k - 1), Awaits(c, o, rates, sent, k - 1),
                      JobSends(c, o, o.jobs[k - 1], rates[k - 1]), JobAwaits(c, o, o.jobs[k - 1], rates[k - 1]));
      }
    }
  }

  lemma RoundIsPaired(c: Core, o: Order, rates: seq<int>, sent: seq<bool>)
    requires Routable(c, o) && |rates| == |sent| == |o.jobs|
    ensures WellPaired(RoundCalls(c, o, rates, sent)) && Balanced(RoundCalls(c, o, rates, sent))
  {
    RoundMirror(c, o, rates, sent, |o.jobs|);
    BlockIsPaired(Sends(c, o, rates, sent, |o.jobs|), Awaits(c, o, rates, sent, |o.jobs|));
  }

  // ------------------------------------------------------------------
  // Programs with requests still to be waited for
  // ------------------------------------------------------------------

  /** So far every wait was for the oldest rule; exactly the submissions `sends` are still to be waited for. */
  ghost predicate Owes(done: seq<Call>, sends: seq<Call>) {
    WellPaired(done) && forall s :: Submitted(done, s) == Awaited(done, s) + Submitted(sends, s)
  }

  predicate OnlySubmits(calls: seq<Call>) {
    forall i | 0 <= i < |calls| :: calls[i].Submit?
  }

  lemma {:induction false} NoWaits(calls: seq<Call>, s: string)
    requires OnlySubmits(calls)
    ensures Awaited(calls, s) == []
    decreases |calls|
  {
    if calls == [] {
    } else {
      NoWaits(calls[..|calls| - 1], s);
    }
  }

  /** What a program does with its first `k` calls, when more calls follow `done`. */
  lemma PrefixCalls(done: seq<Call>, more: seq<Call>, k: nat, s: string) returns (j: nat)
    requires |done| <= k <= |done + more|
    ensures j == k - |done| && j <= |more|
    ensures Awaited((done + more)[..k], s) == Awaited(done, s) + Awaited(more[..j], s)
    ensures Submitted((done + more)[..k], s) == Submitted(done, s) + Submitted(more[..j], s)
  {
    j := k - |done|;
    assert (done + more)[..k] == done + more[..j];
    AppendedCalls(done, more[..j], s);
  }

  /** A program stays paired if more calls follow whose every prefix waits for the right rules. */
  lemma PairedSoFar(done: seq<Call>, more: seq<Call>)
    requires WellPaired(done)
    requires forall j, s | 0 <= j <= |more| ::
      Awaited(done, s) + Awaited(more[..j], s) <= Submitted(done, s) + Submitted(more[..j], s)
    ensures WellPaired(done + more)
  {
    forall k, s | 0 <= k <= |done + more|
      ensures Awaited((done + more)[..k], s) <= Submitted((done + more)[..k], s)
    {
      if k <= |done| {
        assert (done + more)[..k] == done[..k];
      } else {
        var j := PrefixCalls(done, more, k, s);
      }
    }
  }

  lemma PairedPrefix(done: seq<Call>, more: seq<Call>)
    requires WellPaired(done + more)
    ensures WellPaired(done)
  {
    forall k, s | 0 <= k <= |done|
      ensures Awaited(done[..k], s) <= Submitted(done[..k], s)
    {
      assert (done + more)[..k] == done[..k];
    }
  }

  lemma OwesRequests(done: seq<Call>, sends: seq<Call>)
    requires Owes(done, []) && OnlySubmits(sends)
    ensures Owes(done + sends, sends)
  {
    forall j, s | 0 <= j <= |sends|
      ensures Awaited(done, s) + Awaited(sends[..j], s) <= Submitted(done, s) + Submitted(sends[..j], s)
    {
      NoWaits(sends[..j], s);
    }
    PairedSoFar(done, sends);
    forall s
      ensures Submitted(done + sends, s) == Awaited(done + sends, s) + Submitted(sends, s)
    {
      AppendedCalls(done, sends, s);
      NoWaits(sends, s);
    }
  }

  lemma OwesAwaits(done: seq<Call>, sends: seq<Call>, awaits: seq<Call>)
    requires Owes(done, sends) && Mirrors(sends, awaits)
    ensures Owes(done + awaits, [])
  {
    forall j, s | 0 <= j <= |awaits|
      ensures Awaited(done, s) + Awaited(awaits[..j], s) <= Submitted(done, s) + Submitted(awaits[..j], s)
    {
      MirrorCounts(sends, awaits, s);
      MirrorCounts(sends[..j], awaits[..j], s);
      AwaitedPrefix(awaits, j, s);
    }
    PairedSoFar(done, awaits);
    forall s
      ensures Submitted(done + awaits, s) == Awaited(done + awaits, s) + Submitted([], s)
    {
      AppendedCalls(done, awaits, s);
      MirrorCounts(sends, awaits, s);
    }
  }

  /** The block uses no session on which a wait is still owed. */
  ghost predicate Apart(block: seq<Call>, sends: seq<Call>) {
    forall s :: Submitted(sends, s) == [] || Submitted(block, s) == []
  }

  lemma OwesBlock(done: seq<Call>, sends: seq<Call>, block: seq<Call>)
    requires Owes(done, sends) && WellPaired(block) && Balanced(block) && Apart(block, sends)
    ensures Owes(done + block, sends)
  {
    forall j, s | 0 <= j <= |block|
      ensures Awaited(done, s) + Awaited(block[..j], s) <= Submitted(done, s) + Submitted(block[..j], s)
    {
      AwaitedPrefix(block, j, s);
      if Submitted(sends, s) != [] {
        assert Awaited(block, s) == [];
      }
    }
    PairedSoFar(done, block);
    forall s
      ensures Submitted(done + block, s) == Awaited(done + block, s) + Submitted(sends, s)
    {
      AppendedCalls(done, block, s);
    }
  }

  function Pair(session: string, rule: string): seq<Call> {
    [Submit(session, rule), Await(session, rule)]
  }

  lemma PairSubmits(session: string, rule: string, s: string)
    ensures Submitted(Pair(session, rule), s) == if s == session then [rule] else []
    ensures Awaited(Pair(session, rule), s) == if s == session then [rule] else []
  {
    var calls := Pair(session, rule);
    assert calls[..2] == calls && calls[..0] == [];
    CallStep(calls, 0, s);
    CallStep(calls, 1, s);
  }

  lemma OwesPair(done: seq<Call>, sends: seq<Call>, session: string, rule: string)
    requires Owes(done, sends) && Submitted(sends, session) == []
    ensures Owes(done + Pair(session, rule), sends)
  {
    OnePair(session, rule);
    forall s
      ensures Submitted(sends, s) == [] || Submitted(Pair(session, rule), s) == []
    {
      PairSubmits(session, rule, s);
    }
    OwesBlock(done, sends, Pair(session, rule));
  }

  lemma WholePaired(calls: seq<Call>, s: string)
    ensures WellPaired(calls) ==> Awaited(calls, s) <= Submitted(calls, s)
  {
    assert calls[..|calls|] == calls;
  }

  /** A rule submitted and awaited on a session with an older request gets that request's response. */
  lemma PairMispairs(done: seq<Call>, sends: seq<Call>, session: string, rule: string)
    requires Owes(done, sends) && Submitted(sends, session) != [] && Submitted(sends, session)[0] != rule
    ensures !WellPaired(done + Pair(session, rule))
  {
    var calls := done + Pair(session, rule);
    AppendedCalls(done, Pair(session, rule), session);
    PairSubmits(session, rule, session);
    var n := |Awaited(done, session)|;
    assert Awaited(calls, session)[n] == rule;
    assert Submitted(calls, session)[n] == Submitted(sends, session)[0];
    WholePaired(calls, session);
  }

  // ------------------------------------------------------------------
  // The program of a run
  // ------------------------------------------------------------------

  ghost function StaticCalls(p: Core, rule: string, o: Order): seq<Call>
    requires Consistent(p) && PolicyReadable(rule) && Visits(o, p)
  {
    var m := MarkPolicy(p, rule);
    SameLocations(p, m);
    ReadyIsRoutable(m, o);
    if 0 < p.activeLocals && m.changed && o.jobs != []
    then RoundCalls(m, o, StaticRates(m, o), StaticSent(m, o)) else []
  }

  ghost function VanillaCalls(p: Core, o: Order): seq<Call>
    requires Ready(p, o)
  {
    ReadyIsRoutable(p, o);
    if o.jobs != [] then RoundCalls(p, o, VanillaRates(p, o), VanillaSent(p, o)) else []
  }

  ghost function LeftoverCalls(p: Core, o: Order, asks: seq<Leftover.Ask>): seq<Call>
    requires Ready(p, o) && |asks| == |o.jobs| && Leftover.Observed(asks)
  {
    ReadyIsRoutable(p, o);
    if o.jobs != []
    then RoundCalls(p, o, Leftover.Enforced(p.limit, asks, p.changed), LeftoverSent(p, asks)) else []
  }

  ghost function EnforcementCalls(t: ControlType, c: Core, e: Event): seq<Call>
    requires Base(c) && e.Iteration? && Runs.Enabled(t, c, e)
  {
    PreparedKeeps(c, e);
    match t
    case Static => StaticCalls(Prepared(c, e), e.rule, e.order)
    case DynamicVanilla => VanillaCalls(Prepared(c, e), e.order)
    case DynamicLeftover =>
      StatisticsSuffice(c, e);
      AsksAreObserved(Prepared(c, e), e.order, e.locals, e.replies);
      LeftoverCalls(Prepared(c, e), e.order, Asks(Prepared(c, e), e.order, e.locals, e.replies))
  }

  function Request(t: ControlType): string {
    if t == DynamicLeftover then C.AGGREGATED_RULE else C.COLLECT_RULE
  }

  /**
   * The calls of one event. Under leftover control the requests of an iteration
   * were made before. The housekeeping rules are sent to every local controller
   * that joins.
   */
  ghost function EventCalls(t: ControlType, rules: seq<string>, c: Core, e: Event): seq<Call>
    requires Base(c) && Runs.Enabled(t, c, e)
  {
    match e
    case LocalJoins(a) => Pair(a, HousekeepingWire.Handshake(rules))
    case StageJoins(i) => Pair(i.address, C.ReadyRule(i.stage))
    case IdleIteration => []
    case Iteration(locals, _, _, _) =>
      (if t == DynamicLeftover then [] else C.StatisticsSends(c, locals, Request(t)))
      + C.StatisticsAwaits(c, locals, Request(t)) + EnforcementCalls(t, c, e)
  }

  // ------------------------------------------------------------------
  // Runs with statistics windows
  // ------------------------------------------------------------------

  /** Under leftover control statistics are requested first; other events may happen before they are collected. */
  datatype Action = Requests(locals: seq<string>) | Happens(event: Event)

  /** The local controllers with an outstanding request; none outside a window. */
  type Window = Decimal.Option<seq<string>>

  function WindowAfterOne(w: Window, a: Action): Window {
    match a
    case Requests(locals) => Decimal.Some(locals)
    case Happens(e) => if e.Iteration? then Decimal.None else w
  }

  function WindowAfter(w: Window, actions: seq<Action>): Window
    decreases |actions|
  {
    if actions == [] then w else WindowAfter(WindowAfterOne(w, actions[0]), actions[1..])
  }

  /** Requests go to local controllers with stages; events are enabled. */
  ghost predicate Feasible(t: ControlType, c: Core, a: Action)
    requires Base(c)
  {
    match a
    case Requests(locals) => NoDuplicates(locals) && forall l | l in locals :: Asked(c, l)
    case Happens(e) => Runs.Enabled(t, c, e)
  }

  /** The same local controllers, in any order. */
  ghost predicate Same(asked: seq<string>, collected: seq<string>) {
    forall l :: l in asked <==> l in collected
  }

  /** One window at a time; the collection of what was requested closes it. */
  ghost predicate InWindow(t: ControlType, w: Window, a: Action) {
    match a
    case Requests(_) => t == DynamicLeftover && w.None?
    case Happens(e) =>
      e.Iteration? ==> if t == DynamicLeftover then w.Some? && Same(w.value, e.locals) else w.None?
  }

  ghost predicate Fits(t: ControlType, c: Core, w: Window, a: Action)
    requires Base(c)
  {
    Feasible(t, c, a) && InWindow(t, w, a)
  }

  ghost function StateAfter(t: ControlType, c: Core, a: Action): Core
    requires Base(c) && Feasible(t, c, a)
  {
    if a.Requests? then c else Runs.Apply(t, c, a.event)
  }

  ghost predicate Allowed(t: ControlType, c: Core, w: Window, actions: seq<Action>)
    requires Base(c)
    decreases |actions|
  {
    actions == [] ||
    (Fits(t, c, w, actions[0]) &&
     (ActionKeeps(t, c, actions[0]);
      Allowed(t, StateAfter(t, c, actions[0]), WindowAfterOne(w, actions[0]), actions[1..])))
  }

  lemma ActionKeeps(t: ControlType, c: Core, a: Action)
    requires Base(c) && Feasible(t, c, a)
    ensures Base(StateAfter(t, c, a))
  {
    if a.Happens? {
      EventKeeps(t, c, a.event);
    }
  }

  /** No stage registers in a window at a local controller that was asked. */
  predicate Avoids(w: Window, a: Action) {
    a.Happens? && a.event.StageJoins? && w.Some? ==> a.event.info.address !in w.value
  }

  predicate Clean(w: Window, actions: seq<Action>)
    decreases |actions|
  {
    actions == [] || (Avoids(w, actions[0]) && Clean(WindowAfterOne(w, actions[0]), actions[1..]))
  }

  function Requested(locals: seq<string>): (r: seq<Call>)
    ensures |r| == |locals|
    ensures forall i | 0 <= i < |r| :: r[i] == Submit(locals[i], C.AGGREGATED_RULE)
  {
    seq(|locals|, i requires 0 <= i < |locals| => Submit(locals[i], C.AGGREGATED_RULE))
  }

  function Owed(w: Window): seq<Call> {
    if w.None? then [] else Requested(w.value)
  }

  ghost function ActionCalls(t: ControlType, rules: seq<string>, c: Core, a: Action): seq<Call>
    requires Base(c) && Feasible(t, c, a)
  {
    if a.Requests? then Requested(a.locals) else EventCalls(t, rules, c, a.event)
  }

  ghost function RunCalls(t: ControlType, rules: seq<string>, c: Core, w: Window, actions: seq<Action>): seq<Call>
    requires Base(c) && Allowed(t, c, w, actions)
    decreases |actions|
  {
    if actions == [] then []
    else
      ActionKeeps(t, c, actions[0]);
      ActionCalls(t, rules, c, actions[0])
      + RunCalls(t, rules, StateAfter(t, c, actions[0]), WindowAfterOne(w, actions[0]), actions[1..])
  }

  lemma StaticIsPaired(p: Core, rule: string, o: Order)
    requires Consistent(p) && PolicyReadable(rule) && Visits(o, p)
    ensures WellPaired(StaticCalls(p, rule, o)) && Balanced(StaticCalls(p, rule, o))
    ensures AllAnswered(StaticCalls(p, rule, o))
  {
    NothingIsPaired();
    var m := MarkPolicy(p, rule);
    SameLocations(p, m);
    ReadyIsRoutable(m, o);
    RoundIsPaired(m, o, StaticRates(m, o), StaticSent(m, o));
    RoundIsAnswered(m, o, StaticRates(m, o), StaticSent(m, o));
  }

  lemma VanillaIsPaired(p: Core, o: Order)
    requires Ready(p, o)
    ensures WellPaired(VanillaCalls(p, o)) && Balanced(VanillaCalls(p, o)) && AllAnswered(VanillaCalls(p, o))
  {
    NothingIsPaired();
    ReadyIsRoutable(p, o);
    RoundIsPaired(p, o, VanillaRates(p, o), VanillaSent(p, o));
    RoundIsAnswered(p, o, VanillaRates(p, o), VanillaSent(p, o));
  }

  lemma LeftoverIsPaired(p: Core, o: Order, asks: seq<Leftover.Ask>)
    requires Ready(p, o) && |asks| == |o.jobs| && Leftover.Observed(asks)
    ensures WellPaired(LeftoverCalls(p, o, asks)) && Balanced(LeftoverCalls(p, o, asks))
    ensures AllAnswered(LeftoverCalls(p, o, asks))
  {
    NothingIsPaired();
    ReadyIsRoutable(p, o);
    RoundIsPaired(p, o, Leftover.Enforced(p.limit, asks, p.changed), LeftoverSent(p, asks));
    RoundIsAnswered(p, o, Leftover.Enforced(p.limit, asks, p.changed), LeftoverSent(p, asks));
  }

  lemma EnforcementIsPaired(t: ControlType, c: Core, e: Event)
    requires Base(c) && e.Iteration? && Runs.Enabled(t, c, e)
    ensures WellPaired(EnforcementCalls(t, c, e)) && Balanced(EnforcementCalls(t, c, e))
    ensures AllAnswered(EnforcementCalls(t, c, e))
  {
    PreparedKeeps(c, e);
    match t
    case Static => StaticIsPaired(Prepared(c, e), e.rule, e.order);
    case DynamicVanilla => VanillaIsPaired(Prepared(c, e), e.order);
    case DynamicLeftover =>
      StatisticsSuffice(c, e);
      AsksAreObserved(Prepared(c, e), e.order, e.locals, e.replies);
      LeftoverIsPaired(Prepared(c, e), e.order, Asks(Prepared(c, e), e.order, e.locals, e.replies));
  }

  lemma {:induction false} RequestedOn(locals: seq<string>, s: string)
    ensures Submitted(Requested(locals), s) != [] <==> s in locals
    ensures forall r | r in Submitted(Requested(locals), s) :: r == C.AGGREGATED_RULE
    decreases |locals|
  {
    if locals == [] {
    } else {
      var n := |locals| - 1;
      assert Requested(locals)[..n] == Requested(locals[..n]);
      assert locals == locals[..n] + [locals[n]];
      RequestedOn(locals[..n], s);
    }
  }

  /** Each local controller has one request, whatever their order. */
  lemma {:induction false} RequestedOnce(locals: seq<string>, s: string)
    requires NoDuplicates(locals)
    ensures Submitted(Requested(locals), s) == if s in locals then [C.AGGREGATED_RULE] else []
    decreases |locals|
  {
    if locals == [] {
    } else {
      var n := |locals| - 1;
      assert Requested(locals)[..n] == Requested(locals[..n]);
      assert locals == locals[..n] + [locals[n]];
      RequestedOnce(locals[..n], s);
    }
  }

  /** Requests may be waited for in another order than they were made in. */
  lemma OwesSame(done: seq<Call>, asked: seq<string>, collected: seq<string>)
    requires Owes(done, Requested(asked)) && NoDuplicates(asked) && NoDuplicates(collected) && Same(asked, collected)
    ensures Owes(done, Requested(collected))
  {
    forall s
      ensures Submitted(Requested(asked), s) == Submitted(Requested(collected), s)
    {
      RequestedOnce(asked, s);
      RequestedOnce(collected, s);
    }
  }

  /** Asked local controllers get exactly one request and one wait each. */
  lemma {:induction false} AllAsked(c: Core, locals: seq<string>)
    requires forall l | l in locals :: Asked(c, l)
    ensures C.StatisticsSends(c, locals, C.AGGREGATED_RULE) == Requested(locals)
    decreases |locals|
  {
    if locals == [] {
    } else {
      var n := |locals| - 1;
      assert forall l | l in locals[..n] :: l in locals;
      assert locals[n] in locals;
      AllAsked(c, locals[..n]);
      assert Requested(locals) == Requested(locals[..n]) + [Submit(locals[n], C.AGGREGATED_RULE)];
    }
  }

  /** Whoever has an outstanding request keeps a stage until it is collected. */
  ghost predicate StillAsked(c: Core, w: Window) {
    w.Some? ==> NoDuplicates(w.value) && forall l | l in w.value :: Asked(c, l)
  }

  lemma WindowKeeps(t: ControlType, c: Core, w: Window, a: Action)
    requires Base(c) && Fits(t, c, w, a) && StillAsked(c, w)
    ensures StillAsked(StateAfter(t, c, a), WindowAfterOne(w, a))
  {
    hide Consistent, SessionsAgree, Received, Visits, IterationResult;
  }

  lemma ReadyIsNoRequest(s: Stage)
    ensures C.ReadyRule(s) != C.AGGREGATED_RULE
  {
    assert C.ReadyRule(s)[0] == '1' && C.AGGREGATED_RULE[0] == '3';
  }

  /** A registration in a window mispairs exactly when its local controller was asked. */
  lemma JoinInWindow(done: seq<Call>, locals: seq<string>, i: StageInfo)
    requires Owes(done, Requested(locals))
    ensures var next := done + Pair(i.address, C.ReadyRule(i.stage));
      if i.address in locals then !WellPaired(next) else Owes(next, Requested(locals))
  {
    RequestedOn(locals, i.address);
    if i.address in locals {
      ReadyIsNoRequest(i.stage);
      assert Submitted(Requested(locals), i.address)[0] in Submitted(Requested(locals), i.address);
      PairMispairs(done, Requested(locals), i.address, C.ReadyRule(i.stage));
    } else {
      OwesPair(done, Requested(locals), i.address, C.ReadyRule(i.stage));
    }
  }

  lemma NoneSubmitted(s: string)
    ensures Submitted([], s) == []
  {
  }

  /** Requests, if they are made now, then waits for all of them, then a block of its own. */
  lemma BlocksOwe(done: seq<Call>, asked: seq<Call>, sends: seq<Call>, awaits: seq<Call>, enforced: seq<Call>)
    requires Mirrors(sends, awaits) && WellPaired(enforced) && Balanced(enforced)
    requires if asked == [] then Owes(done, sends) else Owes(done, []) && asked == sends
    ensures Owes(done + (asked + awaits + enforced), [])
  {
    hide Owes, WellPaired, Balanced;
    if asked == [] {
      assert done + asked == done;
    } else {
      OwesRequests(done, sends);
    }
    OwesAwaits(done + asked, sends, awaits);
    AnythingApart(enforced);
    OwesBlock(done + asked + awaits, [], enforced);
    assert done + asked + awaits + enforced == done + (asked + awaits + enforced);
  }

  /** An iteration collects what was requested, and enforces. */
  lemma IterationOwes(t: ControlType, rules: seq<string>, c: Core, w: Window, e: Event, done: seq<Call>)
    requires Base(c) && Fits(t, c, w, Happens(e)) && e.Iteration? && StillAsked(c, w) && Owes(done, Owed(w))
    ensures Owes(done + EventCalls(t, rules, c, e), [])
  {
    var sends, awaits := C.StatisticsSends(c, e.locals, Request(t)), C.StatisticsAwaits(c, e.locals, Request(t));
    StatisticsMirror(c, e.locals, Request(t));
    EnforcementIsPaired(t, c, e);
    if t == DynamicLeftover {
      AllAsked(c, e.locals);
      OwesSame(done, w.value, e.locals);
    }
    hide Consistent, SessionsAgree, Received, Visits, EnforcementCalls, Owes, WellPaired, Balanced, Mirrors;
    BlocksOwe(done, if t == DynamicLeftover then [] else sends, sends, awaits, EnforcementCalls(t, c, e));
  }

  lemma AnythingApart(block: seq<Call>)
    ensures Apart(block, [])
  {
  }

  lemma JoinOwes(w: Window, i: StageInfo, done: seq<Call>)
    requires Owes(done, Owed(w))
    ensures var next := done + Pair(i.address, C.ReadyRule(i.stage));
      if w.Some? && i.address in w.value then !WellPaired(next) else Owes(next, Owed(w))
  {
    if w.Some? {
      JoinInWindow(done, w.value, i);
    } else {
      OwesPair(done, [], i.address, C.ReadyRule(i.stage));
    }
  }

  lemma LocalOwes(w: Window, address: string, rule: string, done: seq<Call>)
    requires Owes(done, Owed(w)) && (w.Some? ==> address !in w.value)
    ensures Owes(done + Pair(address, rule), Owed(w))
  {
    if w.Some? {
      RequestedOn(w.value, address);
    }
    OwesPair(done, Owed(w), address, rule);
  }

  /** One action keeps the program paired exactly when it avoids the window. */
  lemma ActionOwes(t: ControlType, rules: seq<string>, c: Core, w: Window, a: Action, done: seq<Call>)
    requires Base(c) && Fits(t, c, w, a) && StillAsked(c, w) && Owes(done, Owed(w))
    ensures var next := done + ActionCalls(t, rules, c, a);
      if Avoids(w, a) then Owes(next, Owed(WindowAfterOne(w, a))) else !WellPaired(next)
  {
    hide Consistent, Owes, WellPaired, Received, Visits, EnforcementCalls;
    match a
    case Requests(locals) => OwesRequests(done, Requested(locals));
    case Happens(e) =>
      match e
      case LocalJoins(address) => LocalOwes(w, address, HousekeepingWire.Handshake(rules), done);
      case StageJoins(i) => JoinOwes(w, i, done);
      case IdleIteration => assert done + [] == done;
      case Iteration(_, _, _, _) => IterationOwes(t, rules, c, w, e, done);
  }

  lemma {:induction false} PairedFrom(t: ControlType, rules: seq<string>, c: Core, w: Window, actions: seq<Action>,
                                      done: seq<Call>)
    requires Base(c) && Allowed(t, c, w, actions) && StillAsked(c, w) && Owes(done, Owed(w))
    ensures var all := done + RunCalls(t, rules, c, w, actions);
      if Clean(w, actions) then Owes(all, Owed(WindowAfter(w, actions))) else !WellPaired(all)
    decreases |actions|
  {
    hide Base, Feasible, InWindow, StateAfter, ActionCalls, Owes, WellPaired, StillAsked, Owed, Avoids, WindowAfterOne;
    if actions == [] {
      assert done + [] == done;
    } else {
      var a := actions[0];
      ActionKeeps(t, c, a);
      WindowKeeps(t, c, w, a);
      ActionOwes(t, rules, c, w, a, done);
      var d, v := StateAfter(t, c, a), WindowAfterOne(w, a);
      var next := done + ActionCalls(t, rules, c, a);
      var rest := RunCalls(t, rules, d, v, actions[1..]);
      assert done + (ActionCalls(t, rules, c, a) + rest) == next + rest;
      if Avoids(w, a) {
        PairedFrom(t, rules, d, v, actions[1..], next);
      } else if WellPaired(next + rest) {
        PairedPrefix(next, rest);
      }
    }
  }

  lemma OwesIsPaired(done: seq<Call>, sends: seq<Call>)
    requires Owes(done, sends)
    ensures WellPaired(done) && (sends == [] ==> Balanced(done))
  {
    forall s
      ensures sends == [] ==> Awaited(done, s) == Submitted(done, s)
    {
      NoneSubmitted(s);
    }
  }

  /**
   * Every run of every control type: its calls pair up exactly when no stage
   * registers, between a statistics request and its collection, at a local
   * controller that was asked. Outside a window nothing is left to wait for.
   */
  lemma RunIsPairedExactly(t: ControlType, rules: seq<string>, c: Core, actions: seq<Action>)
    requires Base(c) && Allowed(t, c, Decimal.None, actions)
    ensures WellPaired(RunCalls(t, rules, c, Decimal.None, actions)) <==> Clean(Decimal.None, actions)
    ensures Clean(Decimal.None, actions) && WindowAfter(Decimal.None, actions).None? ==>
      Balanced(RunCalls(t, rules, c, Decimal.None, actions))
  {
    NothingIsPaired();
    var calls := RunCalls(t, rules, c, Decimal.None, actions);
    assert [] + calls == calls;
    PairedFrom(t, rules, c, Decimal.None, actions, []);
    hide Base, Allowed, RunCalls, Clean, WindowAfter, Owes, WellPaired, Balanced;
    if Clean(Decimal.None, actions) {
      OwesIsPaired(calls, Owed(WindowAfter(Decimal.None, actions)));
    }
  }

  /** Static and vanilla control have no windows: every run is paired. */
  lemma {:induction false} NoWindowNoHarm(t: ControlType, c: Core, actions: seq<Action>)
    requires Base(c) && t != DynamicLeftover && Allowed(t, c, Decimal.None, actions)
    ensures Clean(Decimal.None, actions) && WindowAfter(Decimal.None, actions).None?
    decreases |actions|
  {
    if actions == [] {
    } else {
      ActionKeeps(t, c, actions[0]);
      NoWindowNoHarm(t, StateAfter(t, c, actions[0]), actions[1..]);
    }
  }

  /**
   * Any control type, any run that avoids the windows, and any interleaving with
   * the workers: every wait returns the response to its own rule, no wait is
   * deadlocked, and all queues are empty when the calls of the run are done.
   */
  lemma EveryWaitIsAnswered(t: ControlType, rules: seq<string>, c: Core, actions: seq<Action>, steps: seq<Step>)
    requires Base(c) && Allowed(t, c, Decimal.None, actions) && Clean(Decimal.None, actions)
    requires IsSchedule(RunCalls(t, rules, c, Decimal.None, actions), Start(), steps)
    ensures var calls := RunCalls(t, rules, c, Decimal.None, actions);
      var w := Sessions.After(calls, Start(), steps);
      && w.pc <= |calls| && |w.got| == w.pc
      && (forall i | 0 <= i < w.pc && calls[i].Await? :: w.got[i].Some? && w.got[i].value.rule == calls[i].rule)
      && (w.pc < |calls| ==> exists step :: Sessions.Enabled(calls, w, step))
      && (w.pc == |calls| && WindowAfter(Decimal.None, actions).None? ==>
            forall s :: QueuesOf(w, s) == Queues([], Decimal.None, []))
  {
    var calls := RunCalls(t, rules, c, Decimal.None, actions);
    var w := Sessions.After(calls, Start(), steps);
    RunIsPairedExactly(t, rules, c, actions);
    hide Base, Allowed, RunCalls, Clean, WindowAfter;
    StartHolds(calls);
    ScheduleKeeps(calls, Start(), steps);
    forall i | 0 <= i < w.pc && calls[i].Await?
      ensures w.got[i].Some? && w.got[i].value.rule == calls[i].rule
    {
      WaitsGetTheirResponse(calls, steps, i);
    }
    if w.pc < |calls| {
      NeverStuck(calls, steps);
    } else if WindowAfter(Decimal.None, actions).None? {
      forall s
        ensures QueuesOf(w, s) == Queues([], Decimal.None, [])
      {
        QueuesEndEmpty(calls, steps, s);
      }
    }
  }

  // ------------------------------------------------------------------
  // One window on its own
  // ------------------------------------------------------------------

  function Pairs(stages: seq<StageInfo>): seq<Call> {
    if stages == [] then [] else Pair(stages[0].address, C.ReadyRule(stages[0].stage)) + Pairs(stages[1..])
  }

  predicate NoneAmong(stages: seq<StageInfo>, locals: seq<string>) {
    forall i | i in stages :: i.address !in locals
  }

  lemma NoneAmongStep(stages: seq<StageInfo>, locals: seq<string>)
    requires stages != []
    ensures NoneAmong(stages, locals) <==> stages[0].address !in locals && NoneAmong(stages[1..], locals)
  {
    assert stages == [stages[0]] + stages[1..];
  }

  lemma {:induction false} PairsInWindow(done: seq<Call>, locals: seq<string>, stages: seq<StageInfo>)
    requires Owes(done, Requested(locals))
    ensures var next := done + Pairs(stages);
      if NoneAmong(stages, locals) then Owes(next, Requested(locals)) else !WellPaired(next)
    decreases |stages|
  {
    hide Owes, WellPaired, Requested, Pair;
    if stages == [] {
      assert done + [] == done;
    } else {
      var first, rest := Pair(stages[0].address, C.ReadyRule(stages[0].stage)), Pairs(stages[1..]);
      JoinInWindow(done, locals, stages[0]);
      NoneAmongStep(stages, locals);
      hide NoneAmong;
      assert done + (first + rest) == done + first + rest;
      if stages[0].address !in locals {
        PairsInWindow(done + first, locals, stages[1..]);
      } else if WellPaired(done + first + rest) {
        PairedPrefix(done + first, rest);
      }
    }
  }

  /** Requests, registrations, collection: paired exactly when no registered stage's local controller was asked. */
  lemma WindowIsPairedExactly(c: Core, locals: seq<string>, stages: seq<StageInfo>)
    requires forall l | l in locals :: Asked(c, l)
    ensures WellPaired(C.StatisticsSends(c, locals, C.AGGREGATED_RULE) + Pairs(stages)
                       + C.StatisticsAwaits(c, locals, C.AGGREGATED_RULE))
       <==> NoneAmong(stages, locals)
  {
    var sends, awaits := C.StatisticsSends(c, locals, C.AGGREGATED_RULE), C.StatisticsAwaits(c, locals, C.AGGREGATED_RULE);
    AllAsked(c, locals);
    StatisticsMirror(c, locals, C.AGGREGATED_RULE);
    NothingIsPaired();
    OwesRequests([], sends);
    assert [] + sends == sends;
    PairsInWindow(sends, locals, stages);
    hide NoneAmong;
    if NoneAmong(stages, locals) {
      OwesAwaits(sends + Pairs(stages), sends, awaits);
    } else if WellPaired(sends + Pairs(stages) + awaits) {
      PairedPrefix(sends + Pairs(stages), awaits);
    }
  }

  // ------------------------------------------------------------------
  // Every rule submitted is one that workers answer
  // ------------------------------------------------------------------

  predicate AllAnswered(calls: seq<Call>) {
    forall i | 0 <= i < |calls| :: IsAnswered(calls[i].rule)
  }

  /** Text with a number before its first bar is a rule of that kind. */
  lemma KindOf(kind: int, rest: string)
    ensures OperationType(Decimal.Text(kind) + "|" + rest) == Decimal.Some(kind)
  {
    var rule := Decimal.Text(kind) + "|" + rest;
    Decimal.TextIsFree(kind, '|');
    Tokenizer.RunLengthIs(rule, '|', |Decimal.Text(kind)|);
    assert rule[..|Decimal.Text(kind)|] == Decimal.Text(kind);
    Decimal.ParseText(kind);
  }

  lemma HandshakeIsAnswered(rules: seq<string>)
    ensures IsAnswered(HousekeepingWire.Handshake(rules))
  {
    KindOf(LOCAL_HANDSHAKE, HousekeepingWire.Colons(rules));
  }

  lemma ReadyIsAnswered(s: Stage)
    ensures IsAnswered(C.ReadyRule(s))
  {
    assert Decimal.Text(1) == "1";
    KindOf(STAGE_READY, Key(s) + "|");
    assert C.ReadyRule(s) == Decimal.Text(1) + "|" + (Key(s) + "|");
  }

  lemma EnforcementIsAnswered(app: string, operation: string, envs: seq<int>, limit: int)
    ensures IsAnswered(EnforcementWire.Print(app, operation, envs, limit))
  {
    var body := EnforcementWire.Body(app, operation, envs, limit);
    KindOf(Sessions.CREATE_ENF_RULE, "." + body + ".");
    assert EnforcementWire.Print(app, operation, envs, limit) == Decimal.Text(6) + "|" + ("." + body + ".");
  }

  lemma StatisticsIsAnswered(kind: int)
    requires kind in {COLLECT_GLOBAL_STATS, COLLECT_GLOBAL_STATS_AGGREGATED}
    ensures IsAnswered("3|" + Decimal.Text(kind) + "|")
  {
    var text := Decimal.Text(kind);
    assert Decimal.Text(3) == "3";
    Decimal.TextIsFree(kind, '|');
    Decimal.ParseText(kind);
    assert "3|" + text + "|" == Decimal.Text(3) + "|" + (text + "|") == "3" + (['|'] + (text + "|"));
    KindOf(COLLECT_DETAILED_STATS, text + "|");
    Tokenizer.FirstToken("3", ['|'] + (text + "|"), '|');
    Tokenizer.DropDelimiter(text + "|", '|');
    Tokenizer.FirstToken(text, "|", '|');
  }

  lemma RequestIsAnswered(t: ControlType)
    ensures IsAnswered(Request(t))
  {
    assert Decimal.Text(5) == "5" && Decimal.Text(6) == "6";
    StatisticsIsAnswered(if t == DynamicLeftover then 6 else 5);
    assert Request(t) == "3|" + Decimal.Text(if t == DynamicLeftover then 6 else 5) + "|";
  }

  lemma JobIsAnswered(c: Core, o: Order, job: string, rate: int)
    requires Routable(c, o) && job in o.jobs
    ensures AllAnswered(JobSends(c, o, job, rate))
  {
    forall a | a in o.addresses[job]
      ensures IsAnswered(RuleFor(c, o, job, rate, a))
    {
      EnforcementIsAnswered(job, c.activeOperation, c.locations[job][a], LimitPerStage(c, o, job, rate));
    }
  }

  lemma AnsweredAppend(s: seq<Call>, t: seq<Call>, sent: bool)
    requires AllAnswered(s) && AllAnswered(t)
    ensures AllAnswered(s + if sent then t else [])
  {
  }

  lemma {:induction false} SendsAreAnswered(c: Core, o: Order, rates: seq<int>, sent: seq<bool>, k: nat)
    requires Routable(c, o) && |rates| == |sent| == |o.jobs| && k <= |o.jobs|
    ensures AllAnswered(Sends(c, o, rates, sent, k))
  {
    hide IsAnswered;
    if k == 0 {
    } else {
      SendsAreAnswered(c, o, rates, sent, k - 1);
      var job, rate := o.jobs[k - 1], rates[k - 1];
      assert job in o.jobs;
      JobIsAnswered(c, o, job, rate);
      AnsweredAppend(Sends(c, o, rates, sent, k - 1), JobSends(c, o, job, rate), sent[k - 1]);
    }
  }

  lemma MirrorIsAnswered(sends: seq<Call>, awaits: seq<Call>)
    requires Mirrors(sends, awaits) && AllAnswered(sends)
    ensures AllAnswered(awaits)
  {
  }

  lemma RoundIsAnswered(c: Core, o: Order, rates: seq<int>, sent: seq<bool>)
    requires Routable(c, o) && |rates| == |sent| == |o.jobs|
    ensures AllAnswered(RoundCalls(c, o, rates, sent))
  {
    var n := |o.jobs|;
    SendsAreAnswered(c, o, rates, sent, n);
    RoundMirror(c, o, rates, sent, n);
    MirrorIsAnswered(Sends(c, o, rates, sent, n), Awaits(c, o, rates, sent, n));
  }

  lemma {:induction false} StatisticsAreAnswered(c: Core, locals: seq<string>, rule: string)
    requires IsAnswered(rule)
    ensures AllAnswered(C.StatisticsSends(c, locals, rule)) && AllAnswered(C.StatisticsAwaits(c, locals, rule))
    decreases |locals|
  {
    hide IsAnswered;
    if locals == [] {
    } else {
      StatisticsAreAnswered(c, locals[..|locals| - 1], rule);
    }
  }

  lemma EventIsAnswered(t: ControlType, rules: seq<string>, c: Core, e: Event)
    requires Base(c) && Runs.Enabled(t, c, e)
    ensures AllAnswered(EventCalls(t, rules, c, e))
  {
    hide IsAnswered, Consistent, SessionsAgree, Received, Visits, EnforcementCalls;
    match e
    case LocalJoins(_) => HandshakeIsAnswered(rules);
    case StageJoins(i) => ReadyIsAnswered(i.stage);
    case IdleIteration =>
    case Iteration(locals, _, _, _) =>
      RequestIsAnswered(t);
      StatisticsAreAnswered(c, locals, Request(t));
      EnforcementIsPaired(t, c, e);
  }

  lemma ActionIsAnswered(t: ControlType, rules: seq<string>, c: Core, a: Action)
    requires Base(c) && Feasible(t, c, a)
    ensures AllAnswered(ActionCalls(t, rules, c, a))
  {
    hide IsAnswered, Consistent, SessionsAgree, Received, Visits, EventCalls;
    match a
    case Requests(_) => RequestIsAnswered(DynamicLeftover);
    case Happens(e) => EventIsAnswered(t, rules, c, e);
  }

  /** SendRule posts exactly one response for every rule of a run, as the workers here do. */
  lemma {:induction false} RunIsAnswered(t: ControlType, rules: seq<string>, c: Core, w: Window, actions: seq<Action>)
    requires Base(c) && Allowed(t, c, w, actions)
    ensures AllAnswered(RunCalls(t, rules, c, w, actions))
    decreases |actions|
  {
    if actions == [] {
    } else {
      ActionKeeps(t, c, actions[0]);
      ActionIsAnswered(t, rules, c, actions[0]);
      hide IsAnswered, Base, Fits, ActionCalls;
      RunIsAnswered(t, rules, StateAfter(t, c, actions[0]), WindowAfterOne(w, actions[0]), actions[1..]);
    }
  }

  // ------------------------------------------------------------------
  // Leftover: a registration inside the statistics window
  // ------------------------------------------------------------------

  /**
   * Under leftover control a statistics request stays outstanding over several
   * iterations. A stage registered meanwhile gets the statistics as the answer
   * to its STAGE_READY rule.
   */
  lemma RegistrationInWindowMispairs(address: string, s: Stage) returns (calls: seq<Call>, steps: seq<Step>)
    ensures calls == [Submit(address, C.AGGREGATED_RULE), Submit(address, C.ReadyRule(s)),
                      Await(address, C.ReadyRule(s)), Await(address, C.AGGREGATED_RULE)]
    ensures IsSchedule(calls, Start(), steps)
    ensures var w := Sessions.After(calls, Start(), steps);
      && w.pc == 3 && |w.got| == 3 && w.got[2].Some?
      && w.got[2].value.rule == C.AGGREGATED_RULE != C.ReadyRule(s)
    ensures !WellPaired(calls)
  {
    var ready := C.ReadyRule(s);
    calls := [Submit(address, C.AGGREGATED_RULE), Submit(address, ready),
              Await(address, ready), Await(address, C.AGGREGATED_RULE)];
    var w1 := Next(calls, Start(), Controller);
    var w2 := Next(calls, w1, Controller);
    var w3 := Next(calls, w2, WorkerTakes(address));
    var w4 := Next(calls, w3, WorkerPosts(address, 0));
    var w5 := Next(calls, w4, Controller);
    steps := [Controller, Controller, WorkerTakes(address), WorkerPosts(address, 0), Controller];
    Prefixed(calls, w4, Controller, []);
    Prefixed(calls, w3, WorkerPosts(address, 0), [Controller]);
    Prefixed(calls, w2, WorkerTakes(address), [WorkerPosts(address, 0), Controller]);
    Prefixed(calls, w1, Controller, [WorkerTakes(address), WorkerPosts(address, 0), Controller]);
    Prefixed(calls, Start(), Controller, [Controller, WorkerTakes(address), WorkerPosts(address, 0), Controller]);
    assert ready[0] != C.AGGREGATED_RULE[0];
    if WellPaired(calls) {
      WaitsGetTheirResponse(calls, steps, 2);
    }
  }

  lemma Prefixed(calls: seq<Call>, w: World, step: Step, rest: seq<Step>)
    requires Sessions.Enabled(calls, w, step) && IsSchedule(calls, Next(calls, w, step), rest)
    ensures IsSchedule(calls, w, [step] + rest)
    ensures Sessions.After(calls, w, [step] + rest) == Sessions.After(calls, Next(calls, w, step), rest)
  {
    assert ([step] + rest)[1..] == rest;
  }
}
