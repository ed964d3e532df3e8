/** The core controller: its fields, and the methods of its feedback loop. */
module CoreController {
  import opened Arithmetic
  import opened Sequences
  import opened Registry
  import opened Statistics
  import opened Rounds
  import opened RoundLaws
  import opened Sessions
  import Decimal
  import Tokenizer
  import EnforcementWire
  import Vanilla
  import Leftover

  /** Statistics requests: of static and vanilla control, and of leftover control. */
  const COLLECT_RULE := "3|5|"
  const AGGREGATED_RULE := "3|6|"

  function ReadyRule(s: Stage): string {
    "1|" + Key(s) + "|"
  }

  /** Requests and replies of one statistics round. */
  function StatisticsSends(c: Core, locals: seq<string>, rule: string): seq<Call> {
    if locals == [] then []
    else
      var rest, last := StatisticsSends(c, locals[..|locals| - 1], rule), locals[|locals| - 1];
      if Asked(c, last) then rest + [Submit(last, rule)] else rest
  }

  function StatisticsAwaits(c: Core, locals: seq<string>, rule: string): seq<Call> {
    if locals == [] then []
    else
      var rest, last := StatisticsAwaits(c, locals[..|locals| - 1], rule), locals[|locals| - 1];
      if Asked(c, last) then rest + [Await(last, rule)] else rest
  }

  class CoreController {
    const limit: int
    var sessions: set<string>
    var localToStages: map<string, seq<Stage>>
    var info: map<Stage, StageInfo>
    var locations: map<string, map<string, seq<int>>>
    var demands: map<string, int>
    var rates: map<string, int>
    var previous: map<string, int>
    var changed: bool
    var activeLocals: int
    var activeOperation: string
    /** Everything done on the sessions so far, in order. */
    ghost var calls: seq<Call>

    ghost function State(): Core
      reads this
    {
      Core(limit, sessions, localToStages, info, locations, demands, rates, previous,
           changed, activeLocals, activeOperation)
    }

    constructor (limit: int, operation: string)
      ensures State() == Initial(limit, operation) && calls == []
    {
      this.limit := limit;
      sessions, localToStages, info, locations := {}, map[], map[], map[];
      demands, rates, previous := map[], map[], map[];
      changed, activeLocals, activeOperation := false, 0, operation;
      calls := [];
    }

    // ----------------------------------------------------------------
    // Registration
    // ----------------------------------------------------------------

    method HandleLocalControllerSession(address: string, handshake: string)
      modifies this
      ensures State() == RegisterLocal(old(State()), address)
      ensures calls == old(calls) + [Submit(address, handshake), Await(address, handshake)]
    {
      sessions := sessions + {address};
      if address !in localToStages {
        localToStages := localToStages[address := []];
      }
      calls := calls + [Submit(address, handshake)];
      calls := calls + [Await(address, handshake)];
      activeLocals := activeLocals + 1;
    }

    method TrackJob(job: string, address: string, env: int)
      modifies this`locations, this`demands, this`previous, this`rates
      ensures var known := job in old(locations);
        && locations == old(locations)[job := AddEnv(if known then old(locations)[job] else map[], address, env)]
        && demands == (if known then old(demands) else Emplace(old(demands), job, -1))
        && previous == (if known then old(previous) else Emplace(old(previous), job, 0))
        && rates == (if known then old(rates) else Emplace(old(rates), job, -1))
    {
      if job !in locations {
        locations := locations[job := map[][address := [env]]];
        if job !in demands { demands := demands[job := -1]; }
        if job !in previous { previous := previous[job := 0]; }
        if job !in rates { rates := rates[job := -1]; }
      } else if address !in locations[job] {
        locations := locations[job := locations[job][address := [env]]];
      } else {
        locations := locations[job := locations[job][address := locations[job][address] + [env]]];
      }
    }

    method ListStage(address: string, s: Stage)
      modifies this`localToStages
      ensures localToStages == Registry.ListStage(old(localToStages), address, s)
    {
      if address !in localToStages {
        localToStages := localToStages[address := [s]];
      } else {
        localToStages := localToStages[address := localToStages[address] + [s]];
      }
    }

    /** The local controller must still have a session: its lookup throws otherwise. */
    method HandleDataPlaneSession(i: StageInfo)
      requires i.address in sessions
      modifies this
      ensures State() == RegisterStage(old(State()), i)
      ensures calls == old(calls) + [Submit(i.address, ReadyRule(i.stage)), Await(i.address, ReadyRule(i.stage))]
    {
      hide AddEnv, Emplace, Registry.ListStage, ReadyRule;
      changed := true;
      TrackJob(i.stage.job, i.address, i.stage.env);
      ListStage(i.address, i.stage);
      calls := calls + [Submit(i.address, ReadyRule(i.stage))];
      calls := calls + [Await(i.address, ReadyRule(i.stage))];
      info := info[i.stage := i];
    }

    // ----------------------------------------------------------------
    // Removal and statistics
    // ----------------------------------------------------------------

    method RemoveStage(s: Stage)
      requires Removable(State(), s)
      modifies this
      ensures State() == Registry.RemoveStage(old(State()), s) && calls == old(calls)
    {
      var i := info[s];
      var job := i.stage.job;
      ghost var none: set<string> := {};
      assert rates - none == rates && previous - none == previous && demands - none == demands;
      var envs := Without(locations[job][i.address], i.stage.env);
      if envs != [] {
        assert i.address in locations[job][i.address := envs];
        locations := locations[job := locations[job][i.address := envs]];
      } else {
        var addresses := locations[job] - {i.address};
        if addresses == map[] {
          locations := locations - {job};
          rates := rates - {job};
          previous := previous - {job};
          demands := demands - {job};
        } else {
          locations := locations[job := addresses];
        }
      }
      info := info - {s};
      changed := true;
    }

    method UnlistStage(address: string, s: Stage)
      requires address in localToStages
      modifies this`localToStages
      ensures localToStages == Unlist(old(localToStages), address, s)
    {
      var stages := Without(localToStages[address], s);
      if stages == [] {
        localToStages := localToStages - {address};
      } else {
        localToStages := localToStages[address := stages];
      }
    }

    method DropFailedStage(address: string, s: Stage)
      requires Removable(State(), s) && address in localToStages
      modifies this
      ensures State() == DropStage(old(State()), address, s) && calls == old(calls)
    {
      RemoveStage(s);
      UnlistStage(address, s);
    }

    method DropFailedStages(address: string, reply: seq<Sample>)
      requires Consistent(State()) && FromLocal(State(), address, reply)
      modifies this
      ensures State() == DropFailed(old(State()), address, reply) && calls == old(calls)
    {
      ghost var start := State();
      for k := 0 to |reply|
        invariant Pending(start, State(), address, reply, k)
        invariant calls == old(calls)
      {
        ProcessOne(start, State(), address, reply, k);
        if reply[k].rate == -1 {
          DropFailedStage(address, reply[k].stage);
        }
      }
    }

    method DropLocalController(address: string)
      requires Consistent(State()) && Asked(State(), address)
      modifies this
      ensures State() == CollectResult(old(State()), address, []) && calls == old(calls)
    {
      ghost var start := State();
      ghost var shadow := start;
      var stages := localToStages[address];
      ghost var all := AllFailed(stages);
      ListedAreFromLocal(start, address);
      for k := 0 to |stages|
        invariant Pending(start, shadow, address, all, k)
        invariant State() == shadow.(localToStages := start.localToStages)
        invariant calls == old(calls)
      {
        ProcessOne(start, shadow, address, all, k);
        RemoveIgnoresLists(shadow, start.localToStages, address, stages[k]);
        RemoveStage(stages[k]);
        shadow := DropStage(shadow, address, stages[k]);
      }
      DroppedList(start, shadow, address);
      localToStages := localToStages - {address};
    }

    /** Waits for the statistics of one local controller; tells whether it is left without stages. */
    method CollectStatisticsResult(address: string, reply: seq<Sample>, ghost rule: string) returns (dropped: bool)
      requires Consistent(State()) && FromLocal(State(), address, reply) && Asked(State(), address)
      modifies this
      ensures State() == CollectResult(old(State()), address, reply)
      ensures calls == old(calls) + [Await(address, rule)]
      ensures dropped <==> address !in localToStages
    {
      calls := calls + [Await(address, rule)];
      if reply != [] {
        DropFailedStages(address, reply);
      } else {
        DropLocalController(address);
      }
      dropped := address !in localToStages;
    }

    /** Requests the statistics of every local controller with stages, and tells whom it asked. */
    method CollectStatisticsGlobalSend(locals: seq<string>, rule: string) returns (sent: seq<string>)
      modifies this`calls
      ensures calls == old(calls) + StatisticsSends(State(), locals, rule)
      ensures sent == WithStages(localToStages, locals)
    {
      sent := [];
      for k := 0 to |locals|
        invariant calls == old(calls) + StatisticsSends(State(), locals[..k], rule)
        invariant sent == WithStages(localToStages, locals[..k])
      {
        assert locals[..k + 1][..k] == locals[..k];
        if locals[k] in localToStages && localToStages[locals[k]] != [] {
          calls := calls + [Submit(locals[k], rule)];
          sent := sent + [locals[k]];
        }
      }
      assert locals[..|locals|] == locals;
    }

    method DeleteSessions(gone: seq<string>)
      requires NoDuplicates(gone)
      modifies this`sessions, this`activeLocals
      ensures forall keys: set<string> :: Enumerates(gone, keys) ==>
        State() == Statistics.DeleteSessions(old(State()), keys)
    {
      for k := 0 to |gone|
        invariant forall a :: a in sessions <==> a in old(sessions) && a !in gone[..k]
        invariant activeLocals == old(activeLocals) - k
      {
        activeLocals := activeLocals - 1;
        sessions := sessions - {gone[k]};
        assert gone[..k + 1] == gone[..k] + [gone[k]];
      }
      assert gone[..|gone|] == gone;
      forall keys: set<string> | Enumerates(gone, keys)
        ensures State() == Statistics.DeleteSessions(old(State()), keys)
      {
        EnumerationSize(gone, keys);
        assert sessions == old(sessions) - keys;
      }
    }

    /** One pass of the collecting loop: remembers the local controller if it is left without stages. */
    method CollectFrom(locals: seq<string>, replies: map<string, seq<Sample>>, k: nat, gone: seq<string>,
                       ghost start: Core, ghost rule: string)
      returns (left: seq<string>)
      requires k < |locals| && PendingLocals(start, State(), locals, replies, gone, k)
      modifies this
      ensures PendingLocals(start, State(), locals, replies, left, k + 1)
      ensures calls == old(calls) + if Asked(old(State()), locals[k]) then [Await(locals[k], rule)] else []
    {
      ProcessLocal(start, State(), locals, replies, gone, k);
      left := gone;
      if locals[k] in localToStages && localToStages[locals[k]] != [] {
        var dropped := CollectStatisticsResult(locals[k], replies[locals[k]], rule);
        if dropped {
          left := gone + [locals[k]];
        }
      }
    }

    /** Collects the replies in order, and deletes the sessions left without stages. */
    method CollectStatisticsGlobalCollect(locals: seq<string>, replies: map<string, seq<Sample>>, ghost rule: string)
      requires Consistent(State()) && Answered(State(), locals, replies)
      modifies this
      ensures State() == CollectAll(old(State()), locals, replies)
      ensures calls == old(calls) + StatisticsAwaits(old(State()), locals, rule)
    {
      ghost var start, submitted := State(), calls;
      PendingStart(start, locals, replies);
      hide Consistent, Answered, PendingLocals, CollectAll, Asked;
      var gone: seq<string> := [];
      for k := 0 to |locals|
        invariant PendingLocals(start, State(), locals, replies, gone, k)
        invariant calls == submitted + StatisticsAwaits(start, locals[..k], rule)
      {
        StillAsked(start, State(), locals, replies, gone, k, rule);
        Regroup(submitted, StatisticsAwaits(start, locals[..k], rule),
                if Asked(start, locals[k]) then [Await(locals[k], rule)] else []);
        gone := CollectFrom(locals, replies, k, gone, start, rule);
      }
      assert locals[..|locals|] == locals;
      PendingEnd(start, State(), locals, replies, gone);
      DeleteSessions(gone);
    }

    /** Static and vanilla control: asks every local controller with stages, then collects at once. */
    method CollectStatisticsGlobal(locals: seq<string>, replies: map<string, seq<Sample>>)
      requires Consistent(State()) && Answered(State(), locals, replies)
      modifies this
      ensures State() == CollectAll(old(State()), locals, replies)
      ensures calls == old(calls) + StatisticsSends(old(State()), locals, COLLECT_RULE)
                       + StatisticsAwaits(old(State()), locals, COLLECT_RULE)
    {
      var asked := CollectStatisticsGlobalSend(locals, COLLECT_RULE);
      CollectStatisticsGlobalCollect(locals, replies, COLLECT_RULE);
    }

    // ----------------------------------------------------------------
    // Policies and enforcement
    // ----------------------------------------------------------------

    method UpdateJobDemands(rule: string) returns (operation: string)
      requires PolicyReadable(rule)
      modifies this`demands, this`activeOperation
      ensures State() == UpdateDemands(old(State()), rule) && operation == PolicyOperation(rule)
    {
      operation := "";
      if rule != "" {
        var tokens := Tokenizer.ParseRule(rule, '|');
        if tokens[1] == "demand" || tokens[1] == "job" {
          operation := tokens[3];
          demands := demands[tokens[2] := Decimal.Parse(tokens[4]).value];
        }
        activeOperation := operation;
      }
    }

    method CountStages(job: string, addresses: seq<string>) returns (total: nat)
      requires job in locations && forall a | a in addresses :: a in locations[job]
      ensures total == StageCount(locations[job], addresses)
    {
      total := 0;
      for k := 0 to |addresses|
        invariant StageCount(locations[job], addresses) == total + StageCount(locations[job], addresses[k..])
      {
        assert addresses[k..][0] == addresses[k] && addresses[k..][1..] == addresses[k + 1..];
        total := total + |locations[job][addresses[k]]|;
      }
    }

    /** Records the rate as enforced and submits one rule to each local controller of the job. */
    method SendEnforcementRule(job: string, o: Order, operation: string, updated: set<string>, ghost c: Core)
      returns (marked: set<string>)
      requires Routable(c, o) && job in o.jobs && job in rates
      requires locations == c.locations && operation == c.activeOperation
      modifies this`previous, this`calls
      ensures previous == old(previous)[job := rates[job]]
      ensures calls == old(calls) + JobSends(c, o, job, rates[job])
      ensures marked == updated + Marks(o, job)
    {
      previous := previous[job := rates[job]];
      var total := CountStages(job, o.addresses[job]);
      var limitPerStage := TruncDiv(rates[job], total);
      marked := SubmitRules(job, o.addresses[job], operation, limitPerStage, updated, JobSends(c, o, job, rates[job]));
    }

    method SubmitRules(job: string, addresses: seq<string>, operation: string, limitPerStage: int,
                       updated: set<string>, ghost sends: seq<Call>)
      returns (marked: set<string>)
      requires job in locations && forall a | a in addresses :: a in locations[job]
      requires |sends| == |addresses|
      requires forall i | 0 <= i < |addresses| ::
        sends[i] == Submit(addresses[i],
                           EnforcementWire.Print(job, operation, locations[job][addresses[i]], limitPerStage))
      modifies this`calls
      ensures calls == old(calls) + sends
      ensures marked == updated + set a | a in addresses :: Mark(job, a)
    {
      hide EnforcementWire.Print;
      marked := updated;
      for k := 0 to |addresses|
        invariant calls == old(calls) + sends[..k]
        invariant marked == updated + set a | a in addresses[..k] :: Mark(job, a)
      {
        var rule := EnforcementWire.PrintRule(job, operation, locations[job][addresses[k]], limitPerStage);
        assert addresses[..k + 1] == addresses[..k] + [addresses[k]];
        assert sends[..k + 1] == sends[..k] + [sends[k]];
        marked := marked + {Mark(job, addresses[k])};
        calls := calls + [Submit(addresses[k], rule)];
      }
      assert addresses[..|addresses|] == addresses && sends[..|sends|] == sends;
    }

    /** Waits once for every rule that was submitted, in the order of submission to each session. */
    method CollectEnforcementRuleResults(o: Order, updated: set<string>,
                                         ghost c: Core, ghost sentRates: seq<int>, ghost sent: seq<bool>)
      requires Routable(c, o) && |sentRates| == |sent| == |o.jobs|
      requires Marked(updated, o, sent, |o.jobs|)
      modifies this`calls
      ensures calls == old(calls) + Awaits(c, o, sentRates, sent, |o.jobs|)
    {
      for k := 0 to |o.jobs|
        invariant calls == old(calls) + Awaits(c, o, sentRates, sent, k)
      {
        ghost var awaits := AwaitsStep(updated, c, o, sentRates, sent, k);
        AwaitRules(o.jobs[k], o.addresses[o.jobs[k]], updated, sent[k], awaits);
        Regroup(old(calls), Awaits(c, o, sentRates, sent, k), if sent[k] then awaits else []);
      }
    }

    method AwaitRules(job: string, addresses: seq<string>, updated: set<string>, ghost sent: bool, ghost awaits: seq<Call>)
      requires |awaits| == |addresses|
      requires forall i | 0 <= i < |awaits| :: awaits[i].Await?
      requires forall a | a in addresses :: Mark(job, a) in updated <==> sent
      modifies this`calls
      ensures calls == old(calls) + if sent then awaits else []
    {
      for k := 0 to |addresses|
        invariant calls == old(calls) + if sent then awaits[..k] else []
      {
        assert awaits[..k + 1] == awaits[..k] + [awaits[k]];
        if Mark(job, addresses[k]) in updated {
          calls := calls + [awaits[k]];
        }
      }
      assert awaits[..|awaits|] == awaits;
    }

    /** One job of the enforcing loop: too small a difference withdraws the rate, otherwise it is sent. */
    method EnforceOrWithdraw(o: Order, operation: string, k: nat, significant: bool, updated: set<string>,
                             ghost c: Core, ghost start: seq<Call>, ghost vs: seq<int>, ghost sent: seq<bool>)
      returns (marked: set<string>)
      requires k < |o.jobs| && Routable(c, o) && |vs| == |sent| == |o.jobs|
      requires locations == c.locations && operation == c.activeOperation && significant == sent[k]
      requires o.jobs[k] in rates && rates[o.jobs[k]] == vs[k]
      requires calls == start + Sends(c, o, vs, sent, k)
      modifies this`rates, this`previous, this`calls
      ensures rates == if sent[k] then old(rates) else old(rates)[o.jobs[k] := -1]
      ensures previous == if sent[k] then old(previous)[o.jobs[k] := vs[k]] else old(previous)
      ensures calls == start + Sends(c, o, vs, sent, k + 1)
      ensures marked == if sent[k] then updated + Marks(o, o.jobs[k]) else updated
    {
      SendsStep(c, o, vs, sent, k, start);
      if significant {
        marked := SendEnforcementRule(o.jobs[k], o, operation, updated, c);
      } else {
        rates := rates[o.jobs[k] := -1];
        marked := updated;
      }
    }

    /** One pass of the enforcing loop, with its effect on the maps of rates. */
    method EnforceJob(o: Order, operation: string, bonus: int, always: bool, k: nat, updated: set<string>,
                      ghost c: Core, ghost start: seq<Call>, ghost vs: seq<int>, ghost sent: seq<bool>,
                      ghost rates0: map<string, int>, ghost previous0: map<string, int>,
                      ghost rs: seq<int>, ghost ps: seq<int>)
      returns (marked: set<string>)
      requires k < |o.jobs| && Routable(c, o) && NoDuplicates(o.jobs) && PlainAddresses(o)
      requires |vs| == |sent| == |rs| == |ps| == |o.jobs|
      requires locations == c.locations && operation == c.activeOperation
      requires PlannedAt(rates0, previous0, o.jobs, bonus, always, vs, sent, rs, ps, k)
      requires Progress(rates, previous, calls, updated, c, o, vs, sent, rates0, previous0, start, rs, ps, k)
      modifies this`rates, this`previous, this`calls
      ensures Progress(rates, previous, calls, marked, c, o, vs, sent, rates0, previous0, start, rs, ps, k + 1)
    {
      var job := o.jobs[k];
      LoopStep(rates0, previous0, o.jobs, rs, ps, k, vs[k]);
      MarkStep(updated, o, sent, k);
      rates := rates[job := rates[job] + bonus];
      var significant := always || IOPS_THRESHOLD <= Abs(rates[job] - previous[job]);
      marked := EnforceOrWithdraw(o, operation, k, significant, updated, c, start, vs, sent);
    }

    /**
     * The enforcing loop of static and vanilla control: each job gets its bonus,
     * then the rate is sent or, when it hardly differs from the enforced one, withdrawn.
     */
    method EnforceLoop(o: Order, operation: string, bonus: int, always: bool,
                       ghost c: Core, ghost vs: seq<int>, ghost sent: seq<bool>, ghost rs: seq<int>, ghost ps: seq<int>)
      returns (updated: set<string>)
      requires Routable(c, o) && NoDuplicates(o.jobs) && PlainAddresses(o)
      requires |vs| == |sent| == |rs| == |ps| == |o.jobs|
      requires locations == c.locations && operation == c.activeOperation
      requires Planned(rates, previous, o.jobs, bonus, always, vs, sent, rs, ps)
      modifies this`rates, this`previous, this`calls
      ensures rates == Assign(old(rates), o.jobs, rs)
      ensures previous == Assign(old(previous), o.jobs, ps)
      ensures calls == old(calls) + Sends(c, o, vs, sent, |o.jobs|) && Marked(updated, o, sent, |o.jobs|)
    {
      updated := {};
      hide Routable, PlainAddresses, Marked, Sends, Assign, NoDuplicates, PlannedAt, Progress;
      LoopStart(c, o, vs, sent, rates, previous, calls, rs, ps);
      for k := 0 to |o.jobs|
        invariant Progress(rates, previous, calls, updated, c, o, vs, sent, old(rates), old(previous), old(calls), rs, ps, k)
      {
        updated := EnforceJob(o, operation, bonus, always, k, updated, c, old(calls), vs, sent,
                              old(rates), old(previous), rs, ps);
      }
      LoopEnd(rates, previous, calls, updated, c, o, vs, sent, old(rates), old(previous), old(calls), rs, ps);
    }

    method EnforceRates(o: Order, operation: string, bonus: int, always: bool,
                        ghost c: Core, ghost vs: seq<int>, ghost sent: seq<bool>)
      requires Routable(c, o) && NoDuplicates(o.jobs) && PlainAddresses(o) && |vs| == |sent| == |o.jobs|
      requires locations == c.locations && operation == c.activeOperation
      requires Bonused(rates, o.jobs, bonus, vs)
      requires forall j | j in o.jobs :: j in previous
      requires sent == Significant(vs, Values(previous, o.jobs), always)
      modifies this`rates, this`previous, this`calls
      ensures rates == Assign(old(rates), o.jobs, Choose(sent, vs, Unset(|o.jobs|)))
      ensures previous == Assign(old(previous), o.jobs, Choose(sent, vs, Values(old(previous), o.jobs)))
      ensures calls == old(calls) + RoundCalls(c, o, vs, sent)
    {
      ghost var n := |o.jobs|;
      ghost var rs, ps := Choose(sent, vs, Unset(n)), Choose(sent, vs, Values(previous, o.jobs));
      assert forall i | 0 <= i < n :: o.jobs[i] in o.jobs;
      var updated := EnforceLoop(o, operation, bonus, always, c, vs, sent, rs, ps);
      CollectEnforcementRuleResults(o, updated, c, vs, sent);
      Regroup(old(calls), Sends(c, o, vs, sent, n), Awaits(c, o, vs, sent, n));
    }

    /** Copies every demand that was set over the rate of its job. */
    method CopyDemands()
      modifies this`rates
      ensures rates == Overlay(old(State()))
    {
      var pending := demands.Keys;
      ghost var done: set<string> := {};
      while pending != {}
        invariant done + pending == demands.Keys && done !! pending
        invariant rates == old(rates) + map j | j in done && demands[j] != -1 :: demands[j]
        decreases pending
      {
        var job :| job in pending;
        if demands[job] != -1 {
          rates := rates[job := demands[job]];
        }
        pending := pending - {job};
        done := done + {job};
      }
      assert done == demands.Keys;
    }

    method CopyAndEnforce(o: Order, ghost c: Core, ghost vs: seq<int>, ghost sent: seq<bool>)
      requires Routable(c, o) && NoDuplicates(o.jobs) && PlainAddresses(o) && |vs| == |sent| == |o.jobs|
      requires locations == c.locations && activeOperation == c.activeOperation
      requires forall i | 0 <= i < |o.jobs| ::
        o.jobs[i] in Overlay(State()) && Overlay(State())[o.jobs[i]] == vs[i]
      requires forall j | j in o.jobs :: j in previous
      requires sent == Significant(vs, Values(previous, o.jobs), false)
      modifies this`rates, this`previous, this`calls
      ensures rates == Assign(Overlay(old(State())), o.jobs, Choose(sent, vs, Unset(|o.jobs|)))
      ensures previous == Assign(old(previous), o.jobs, Choose(sent, vs, Values(old(previous), o.jobs)))
      ensures calls == old(calls) + RoundCalls(c, o, vs, sent)
    {
      CopyDemands();
      EnforceRates(o, activeOperation, 0, false, c, vs, sent);
    }

    method EnforceStatic(o: Order, ghost m: Core)
      requires State() == m && Ready(m, o) && Routable(m, o) && PlainAddresses(o)
      modifies this`rates, this`previous, this`calls
      ensures State() == StaticRound(m, o)
      ensures calls == old(calls) + if m.changed && o.jobs != []
                                    then RoundCalls(m, o, StaticRates(m, o), StaticSent(m, o)) else []
    {
      if changed && o.jobs != [] {
        hide Ready, Routable, PlainAddresses, StaticRates, StaticSent, RoundCalls, Assign, Choose, Significant, StaticRound;
        ghost var vs, sent := StaticPlan(m, o);
        CopyAndEnforce(o, m, vs, sent);
        StaticDone(m, o, State(), vs, sent);
      }
    }

    method ComputeAndEnforceStaticRules(rule: string, o: Order)
      requires PolicyReadable(rule) && Consistent(State()) && Visits(o, State()) && PlainAddresses(o)
      modifies this
      ensures var m := MarkPolicy(UpdateDemands(old(State()), rule), rule);
        && Ready(m, o) && Routable(m, o) && State() == StaticRound(m, o)
        && calls == old(calls) + if m.changed && o.jobs != []
                                 then RoundCalls(m, o, StaticRates(m, o), StaticSent(m, o)) else []
    {
      PolicyKeepsReady(State(), rule, o);
      var newOperation := UpdateJobDemands(rule);
      if newOperation != "" {
        changed := true;
      }
      EnforceStatic(o, State());
    }

    // ----------------------------------------------------------------
    // Dynamic, vanilla
    // ----------------------------------------------------------------

    method ServeJob(job: string, left: int, currentJobs: nat) returns (remaining: int)
      requires job in demands && 0 < currentJobs
      modifies this`demands, this`rates
      ensures demands == old(demands)[job := Vanilla.Rewritten(left, currentJobs, old(demands)[job])]
      ensures rates == old(rates)[job := Vanilla.Grant(left, currentJobs, old(demands)[job])]
      ensures remaining == left - Vanilla.Grant(left, currentJobs, old(demands)[job])
    {
      var share := TruncDiv(left, currentJobs);
      if demands[job] <= share {
        if demands[job] == -1 {
          demands := demands[job := 1];
        }
        rates := rates[job := demands[job]];
      } else {
        rates := rates[job := share];
      }
      remaining := left - rates[job];
    }

    /** First phase: every job gets its demand or the share of what is left; unset demands become one. */
    method ShareOut(o: Order) returns (left: int)
      requires NoDuplicates(o.jobs) && forall j | j in o.jobs :: j in demands
      modifies this`demands, this`rates
      ensures var ds := Values(old(demands), o.jobs);
        && demands == Assign(old(demands), o.jobs, Vanilla.RewrittenDemands(limit, ds))
        && rates == Assign(old(rates), o.jobs, Vanilla.FirstPhase(limit, ds))
        && left == Vanilla.Leftover(limit, ds)
    {
      ghost var ds := Values(demands, o.jobs);
      ghost var rs, ws := Vanilla.FirstPhase(limit, ds), Vanilla.RewrittenDemands(limit, ds);
      hide Vanilla.FirstPhase, Vanilla.RewrittenDemands;
      left := limit;
      var currentJobs := |o.jobs|;
      for k := 0 to |o.jobs|
        invariant currentJobs == |o.jobs| - k && left == limit - Sum(rs[..k])
        invariant rs[k..] == Vanilla.FirstPhase(left, ds[k..])
        invariant ws[k..] == Vanilla.RewrittenDemands(left, ds[k..])
        invariant demands == Assign(old(demands), o.jobs[..k], ws[..k])
        invariant rates == Assign(old(rates), o.jobs[..k], rs[..k])
      {
        left := ServeNext(o.jobs, k, left, currentJobs, old(demands), old(rates), ds, rs, ws);
        currentJobs := currentJobs - 1;
      }
      assert o.jobs[..|o.jobs|] == o.jobs && rs[..|o.jobs|] == rs && ws[..|o.jobs|] == ws;
    }

    /** One pass of the first phase, with its effect on the maps of demands and rates. */
    method ServeNext(jobs: seq<string>, k: nat, left: int, currentJobs: nat,
                     ghost demands0: map<string, int>, ghost rates0: map<string, int>,
                     ghost ds: seq<int>, ghost rs: seq<int>, ghost ws: seq<int>)
      returns (remaining: int)
      requires NoDuplicates(jobs) && (forall j | j in jobs :: j in demands0) && ds == Values(demands0, jobs)
      requires k < |jobs| == |rs| == |ws| && currentJobs == |jobs| - k
      requires rs[k..] == Vanilla.FirstPhase(left, ds[k..]) && ws[k..] == Vanilla.RewrittenDemands(left, ds[k..])
      requires demands == Assign(demands0, jobs[..k], ws[..k]) && rates == Assign(rates0, jobs[..k], rs[..k])
      modifies this`demands, this`rates
      ensures remaining == left - rs[k] && Sum(rs[..k + 1]) == Sum(rs[..k]) + rs[k]
      ensures rs[k + 1..] == Vanilla.FirstPhase(remaining, ds[k + 1..])
      ensures ws[k + 1..] == Vanilla.RewrittenDemands(remaining, ds[k + 1..])
      ensures demands == Assign(demands0, jobs[..k + 1], ws[..k + 1]) && rates == Assign(rates0, jobs[..k + 1], rs[..k + 1])
    {
      assert jobs[k] in jobs;
      ServeStep(left, ds, rs, ws, k);
      AssignPending(demands0, jobs, ws, k);
      AssignStep(demands0, jobs, ws, k);
      AssignStep(rates0, jobs, rs, k);
      hide Vanilla.FirstPhase, Vanilla.RewrittenDemands, Vanilla.Grant, Vanilla.Rewritten, Assign, Sum;
      remaining := ServeJob(jobs[k], left, currentJobs);
    }

    method ShareAndEnforce(o: Order, ghost c: Core, ghost vs: seq<int>, ghost sent: seq<bool>)
      requires Routable(c, o) && NoDuplicates(o.jobs) && PlainAddresses(o) && |vs| == |sent| == |o.jobs|
      requires locations == c.locations && activeOperation == c.activeOperation && o.jobs != []
      requires forall j | j in o.jobs :: j in demands && j in previous
      requires vs == Vanilla.Computed(limit, Values(demands, o.jobs))
      requires sent == Significant(vs, Values(previous, o.jobs), changed)
      modifies this`demands, this`rates, this`previous, this`calls
      ensures demands == Assign(old(demands), o.jobs, Vanilla.RewrittenDemands(limit, Values(old(demands), o.jobs)))
      ensures rates == Assign(old(rates), o.jobs, Choose(sent, vs, Unset(|o.jobs|)))
      ensures previous == Assign(old(previous), o.jobs, Choose(sent, vs, Values(old(previous), o.jobs)))
      ensures calls == old(calls) + RoundCalls(c, o, vs, sent)
    {
      ghost var first := Vanilla.FirstPhase(limit, Values(demands, o.jobs));
      BonusPlan(limit, Values(demands, o.jobs), rates, o.jobs);
      hide Routable, PlainAddresses, Vanilla.FirstPhase, Vanilla.RewrittenDemands, Vanilla.Computed, Vanilla.Leftover,
           Assign, RoundCalls, Significant, Choose, TruncDiv, NoDuplicates, Unset;
      var left := ShareOut(o);
      EnforceRates(o, activeOperation, TruncDiv(left, |o.jobs|), changed, c, vs, sent);
      AssignTwice(old(rates), o.jobs, first, Choose(sent, vs, Unset(|o.jobs|)));
    }

    method ComputeAndEnforceVanillaRules(rule: string, o: Order)
      requires PolicyReadable(rule) && Consistent(State()) && Visits(o, State()) && PlainAddresses(o)
      modifies this
      ensures var p := UpdateDemands(old(State()), rule);
        && Ready(p, o) && Routable(p, o) && State() == VanillaRound(p, o)
        && calls == old(calls) + if o.jobs != []
                                 then RoundCalls(p, o, VanillaRates(p, o), VanillaSent(p, o)) else []
    {
      UpdateKeepsReady(State(), rule, o);
      var operation := UpdateJobDemands(rule);
      EnforceVanilla(o, State());
    }

    method EnforceVanilla(o: Order, ghost p: Core)
      requires State() == p && Ready(p, o) && Routable(p, o) && PlainAddresses(o)
      modifies this`demands, this`rates, this`previous, this`calls
      ensures State() == VanillaRound(p, o)
      ensures calls == old(calls) + if o.jobs != []
                                    then RoundCalls(p, o, VanillaRates(p, o), VanillaSent(p, o)) else []
    {
      hide Ready, Routable, PlainAddresses, VanillaRates, VanillaSent, RoundCalls, Assign, Choose,
           Vanilla.Computed, Vanilla.RewrittenDemands, Significant;
      if o.jobs != [] {
        hide VanillaRound;
        ghost var vs, sent := VanillaPlan(p, o);
        ShareAndEnforce(o, p, vs, sent);
        VanillaDone(p, o, State(), vs, sent);
      }
    }

    // ----------------------------------------------------------------
    // Dynamic, leftover
    // ----------------------------------------------------------------

    /** Usage of a job: the statistics of its stages, local controller by local controller. */
    method ObserveUsage(job: string, addresses: seq<string>, asked: seq<string>, replies: map<string, seq<Sample>>)
      returns (usage: int)
      requires job in locations
      requires forall a | a in addresses :: a in locations[job] && (a in asked ==> a in replies)
      ensures usage == JobUsage(limit * |locations|, asked, replies, job, locations[job], addresses)
    {
      var unasked := limit * |locations|;
      var located := locations[job];
      usage := 0;
      for k := 0 to |addresses|
        invariant JobUsage(unasked, asked, replies, job, located, addresses)
               == usage + JobUsage(unasked, asked, replies, job, located, addresses[k..])
      {
        var a := addresses[k];
        assert addresses[k..][0] == a && addresses[k..][1..] == addresses[k + 1..];
        var here := ObserveAt(job, a, located[a], unasked, asked, replies);
        usage := usage + here;
      }
    }

    method ObserveAt(job: string, address: string, envs: seq<int>, unasked: int,
                     asked: seq<string>, replies: map<string, seq<Sample>>)
      returns (usage: int)
      requires address in asked ==> address in replies
      ensures usage == EnvsUsage(unasked, asked, replies, job, address, envs)
    {
      usage := 0;
      for k := 0 to |envs|
        invariant EnvsUsage(unasked, asked, replies, job, address, envs)
               == usage + EnvsUsage(unasked, asked, replies, job, address, envs[k..])
      {
        assert envs[k..][0] == envs[k] && envs[k..][1..] == envs[k + 1..];
        if address in asked {
          usage := usage + SampledUsage(replies[address], Stage(job, envs[k]));
        } else {
          usage := usage + unasked;
        }
      }
    }

    method GrantByUsage(job: string, usage: int, left: int, currentJobs: nat) returns (remaining: int)
      requires job in demands && 0 < currentJobs
      modifies this`rates
      ensures var r := Leftover.Grant(left, currentJobs, Leftover.Ask(demands[job], usage, 0));
        rates == old(rates)[job := r] && remaining == left - r
    {
      var fairShare := TruncDiv(left, currentJobs);
      var demand := demands[job];
      if 20 * usage <= 19 * demand {
        if 4 * usage + (demand - usage) < 4 * fairShare {
          rates := rates[job := TruncDiv(4 * usage + (demand - usage), 4)];
        } else {
          rates := rates[job := fairShare];
        }
      } else {
        if demand < fairShare {
          rates := rates[job := demand];
        } else {
          rates := rates[job := fairShare];
        }
      }
      remaining := left - rates[job];
    }

    method GrantJob(o: Order, k: nat, left: int, currentJobs: nat, asked: seq<string>, replies: map<string, seq<Sample>>,
                    ghost asks: seq<Leftover.Ask>, ghost rs: seq<int>)
      returns (usage: int, remaining: int)
      requires k < |o.jobs| == |asks| == |rs| && currentJobs == |o.jobs| - k
      requires rs[k..] == Leftover.FirstPhase(left, asks[k..])
      requires var j := o.jobs[k];
        && j in demands && j in locations && j in o.addresses
        && (forall a | a in o.addresses[j] :: a in locations[j] && (a in asked ==> a in replies))
        && asks[k].demand == demands[j]
        && asks[k].usage == JobUsage(limit * |locations|, asked, replies, j, locations[j], o.addresses[j])
      modifies this`rates
      ensures usage == asks[k].usage && remaining == left - rs[k] && rates == old(rates)[o.jobs[k] := rs[k]]
      ensures rs[k + 1..] == Leftover.FirstPhase(remaining, asks[k + 1..])
      ensures Sum(rs[..k + 1]) == Sum(rs[..k]) + rs[k]
    {
      GrantStep(left, asks, rs, k);
      usage := ObserveUsage(o.jobs[k], o.addresses[o.jobs[k]], asked, replies);
      remaining := GrantByUsage(o.jobs[k], usage, left, currentJobs);
    }

    /** First phase of the leftover allocator; remembers the usage of each job and their sum. */
    method GrantAll(o: Order, asked: seq<string>, replies: map<string, seq<Sample>>, ghost asks: seq<Leftover.Ask>)
      returns (left: int, usages: seq<int>, total: int)
      requires |asks| == |o.jobs| && NoDuplicates(o.jobs)
      requires forall i | 0 <= i < |o.jobs| :: var j := o.jobs[i];
        && j in demands && j in locations && j in o.addresses
        && (forall a | a in o.addresses[j] :: a in locations[j] && (a in asked ==> a in replies))
        && asks[i].demand == demands[j]
        && asks[i].usage == JobUsage(limit * |locations|, asked, replies, j, locations[j], o.addresses[j])
      modifies this`rates
      ensures rates == Assign(old(rates), o.jobs, Leftover.FirstPhase(limit, asks))
      ensures left == Leftover.Remaining(limit, asks)
      ensures usages == Leftover.Usages(asks) && total == Leftover.TotalUsage(asks)
    {
      ghost var rs := Leftover.FirstPhase(limit, asks);
      left, usages, total := limit, [], 0;
      var currentJobs := |o.jobs|;
      for k := 0 to |o.jobs|
        invariant currentJobs == |o.jobs| - k && left == limit - Sum(rs[..k])
        invariant rs[k..] == Leftover.FirstPhase(left, asks[k..])
        invariant usages == Leftover.Usages(asks)[..k] && total == Sum(usages)
        invariant rates == Assign(old(rates), o.jobs[..k], rs[..k])
      {
        AssignStep(old(rates), o.jobs, rs, k);
        var usage: int;
        usage, left := GrantJob(o, k, left, currentJobs, asked, replies, asks, rs);
        UsageStep(asks, usages, k);
        usages := usages + [usage];
        total := total + usage;
        currentJobs := currentJobs - 1;
      }
      assert o.jobs[..|o.jobs|] == o.jobs && rs[..|o.jobs|] == rs;
      assert Leftover.Usages(asks)[..|o.jobs|] == Leftover.Usages(asks);
    }

    /** Second phase: what is left goes out in proportion to usage. */
    method DistributeByUsage(o: Order, left: int, usages: seq<int>, total: int, ghost first: seq<int>)
      requires NoDuplicates(o.jobs) && |usages| == |first| == |o.jobs| && 0 < total
      requires forall i | 0 <= i < |o.jobs| :: o.jobs[i] in rates && rates[o.jobs[i]] == first[i]
      modifies this`rates
      ensures rates == Assign(old(rates), o.jobs,
                              if 0 < left then Plus(first, Split(usages, left, total)) else first)
    {
      ghost var rs := if 0 < left then Plus(first, Split(usages, left, total)) else first;
      if 0 < left {
        for k := 0 to |o.jobs|
          invariant rates == Assign(old(rates), o.jobs[..k], rs[..k])
        {
          AssignStep(old(rates), o.jobs, rs, k);
          AssignPending(old(rates), o.jobs, rs, k);
          rates := rates[o.jobs[k] := rates[o.jobs[k]] + usages[k] * left / total];
        }
        assert o.jobs[..|o.jobs|] == o.jobs && rs[..|o.jobs|] == rs;
      } else {
        AssignSame(rates, o.jobs, first);
      }
    }

    /** Separates the jobs whose enforced rate is close enough from those to update, and sums both sides. */
    method Classify(o: Order, total: int, ghost asks: seq<Leftover.Ask>)
      returns (maintain: set<string>, maintained: int, updated: int)
      requires NoDuplicates(o.jobs) && |asks| == |o.jobs| && Leftover.Observed(asks)
      requires total == Leftover.TotalUsage(asks)
      requires forall i | 0 <= i < |o.jobs| :: var j := o.jobs[i];
        && j in rates && rates[j] == Leftover.Computed(limit, asks)[i]
        && j in previous && previous[j] == asks[i].previous
      ensures forall i | 0 <= i < |o.jobs| ::
        o.jobs[i] in maintain <==> Leftover.MaintainsAll(limit, asks, changed)[i]
      ensures maintained == Sum(Leftover.Kept(limit, asks, changed))
      ensures updated == Sum(Leftover.Updated(limit, asks, changed))
    {
      hide Leftover.Computed, Leftover.TotalUsage, Leftover.Kept, Leftover.Updated, Leftover.MaintainsAll, Leftover.Observed;
      maintain, maintained, updated := {}, 0, 0;
      ghost var m := Leftover.MaintainsAll(limit, asks, changed);
      ghost var kept, renewed := Leftover.Kept(limit, asks, changed), Leftover.Updated(limit, asks, changed);
      for k := 0 to |o.jobs|
        invariant forall i | 0 <= i < |o.jobs| :: o.jobs[i] in maintain <==> i < k && m[i]
        invariant maintained == Sum(kept[..k]) && updated == Sum(renewed[..k])
      {
        var job := o.jobs[k];
        var difference := Abs(rates[job] - previous[job]);
        SumStep(kept, k);
        SumStep(renewed, k);
        if !changed && (100 * difference < rates[job]
                        || (20 * total < 19 * limit && 20 * difference < rates[job])) {
          maintained := maintained + previous[job];
          maintain := maintain + {job};
        } else {
          updated := updated + rates[job];
        }
      }
      assert kept[..|o.jobs|] == kept && renewed[..|o.jobs|] == renewed;
    }

    /** One pass of the last loop: a maintained job is left alone, any other is scaled and sent. */
    method UpdateJob(o: Order, operation: string, k: nat, maintains: bool, rate: int, updated: set<string>,
                     ghost c: Core, ghost start: seq<Call>, ghost enforced: seq<int>, ghost sent: seq<bool>,
                     ghost rates0: map<string, int>, ghost previous0: map<string, int>, ghost rs: seq<int>)
      returns (marked: set<string>)
      requires k < |o.jobs| && Routable(c, o) && NoDuplicates(o.jobs) && PlainAddresses(o)
      requires |enforced| == |sent| == |rs| == |o.jobs|
      requires locations == c.locations && operation == c.activeOperation
      requires o.jobs[k] in rates0 && o.jobs[k] in previous0
      requires sent[k] == !maintains
      requires !maintains ==> rate == enforced[k] == rs[k]
      requires maintains ==> rs[k] == rates0[o.jobs[k]] && enforced[k] == previous0[o.jobs[k]]
      requires Progress(rates, previous, calls, updated, c, o, enforced, sent, rates0, previous0, start, rs, enforced, k)
      modifies this`rates, this`previous, this`calls
      ensures Progress(rates, previous, calls, marked, c, o, enforced, sent, rates0, previous0, start, rs, enforced, k + 1)
    {
      LoopStep(rates0, previous0, o.jobs, rs, enforced, k, rs[k]);
      MarkStep(updated, o, sent, k);
      SendsStep(c, o, enforced, sent, k, start);
      marked := updated;
      if !maintains {
        rates := rates[o.jobs[k] := rate];
        marked := SendEnforcementRule(o.jobs[k], o, operation, updated, c);
      } else {
        assert rates[o.jobs[k] := rs[k]] == rates;
      }
    }

    method UpdateLoop(o: Order, scaled: bool, allowed: int, updated: int, maintain: set<string>,
                      ghost c: Core, ghost enforced: seq<int>, ghost sent: seq<bool>, ghost rs: seq<int>)
      returns (marked: set<string>)
      requires Routable(c, o) && NoDuplicates(o.jobs) && PlainAddresses(o)
      requires |enforced| == |sent| == |rs| == |o.jobs|
      requires locations == c.locations && activeOperation == c.activeOperation
      requires forall i | 0 <= i < |o.jobs| ::
        UpdatesAt(rates, previous, o.jobs, scaled, allowed, updated, maintain, enforced, sent, rs, i)
      modifies this`rates, this`previous, this`calls
      ensures rates == Assign(old(rates), o.jobs, rs) && previous == Assign(old(previous), o.jobs, enforced)
      ensures calls == old(calls) + Sends(c, o, enforced, sent, |o.jobs|) && Marked(marked, o, sent, |o.jobs|)
    {
      marked := {};
      hide Routable, PlainAddresses, Marked, Sends, Assign, Leftover.Rescaled, NoDuplicates, Progress;
      LoopStart(c, o, enforced, sent, rates, previous, calls, rs, enforced);
      for k := 0 to |o.jobs|
        invariant Progress(rates, previous, calls, marked, c, o, enforced, sent,
                           old(rates), old(previous), old(calls), rs, enforced, k)
      {
        var job := o.jobs[k];
        assert UpdatesAt(old(rates), old(previous), o.jobs, scaled, allowed, updated, maintain, enforced, sent, rs, k);
        Untouched(rates, previous, calls, marked, c, o, enforced, sent, old(rates), old(previous), old(calls), rs, enforced, k);
        var rate := if scaled then Leftover.Rescaled(rates[job], allowed, updated) else rates[job];
        marked := UpdateJob(o, activeOperation, k, job in maintain, rate, marked,
                            c, old(calls), enforced, sent, old(rates), old(previous), rs);
      }
      LoopEnd(rates, previous, calls, marked, c, o, enforced, sent, old(rates), old(previous), old(calls), rs, enforced);
    }

    method RescaleAndEnforce(o: Order, total: int, maintain: set<string>, maintained: int, updated: int,
                             ghost c: Core, ghost asks: seq<Leftover.Ask>, ghost sent: seq<bool>)
      requires Routable(c, o) && NoDuplicates(o.jobs) && PlainAddresses(o)
      requires |asks| == |sent| == |o.jobs| && Leftover.Observed(asks) && sent == LeftoverSent(State(), asks)
      requires locations == c.locations && activeOperation == c.activeOperation
      requires total == Leftover.TotalUsage(asks)
      requires forall i | 0 <= i < |o.jobs| :: var j := o.jobs[i];
        && j in rates && rates[j] == Leftover.Computed(limit, asks)[i]
        && j in previous && previous[j] == asks[i].previous
        && (j in maintain <==> Leftover.MaintainsAll(limit, asks, changed)[i])
      requires maintained == Sum(Leftover.Kept(limit, asks, changed))
      requires updated == Sum(Leftover.Updated(limit, asks, changed))
      modifies this`rates, this`previous, this`calls
      ensures var enforced := Leftover.Enforced(limit, asks, changed);
        && rates == Assign(old(rates), o.jobs, Choose(sent, enforced, Leftover.Computed(limit, asks)))
        && previous == Assign(old(previous), o.jobs, enforced)
        && calls == old(calls) + RoundCalls(c, o, enforced, sent)
    {
      var scaled := 20 * total < 19 * limit && limit < maintained + updated;
      var allowed := limit - maintained;
      ghost var enforced, rs := UpdatePlan(limit, asks, changed, scaled, allowed, updated);
      UpdateAndCollect(o, scaled, allowed, updated, maintain, c, enforced, sent, rs);
    }

    method UpdateAndCollect(o: Order, scaled: bool, allowed: int, updated: int, maintain: set<string>,
                            ghost c: Core, ghost enforced: seq<int>, ghost sent: seq<bool>, ghost rs: seq<int>)
      requires Routable(c, o) && NoDuplicates(o.jobs) && PlainAddresses(o)
      requires |enforced| == |sent| == |rs| == |o.jobs|
      requires locations == c.locations && activeOperation == c.activeOperation
      requires forall i | 0 <= i < |o.jobs| ::
        UpdatesAt(rates, previous, o.jobs, scaled, allowed, updated, maintain, enforced, sent, rs, i)
      modifies this`rates, this`previous, this`calls
      ensures rates == Assign(old(rates), o.jobs, rs) && previous == Assign(old(previous), o.jobs, enforced)
      ensures calls == old(calls) + RoundCalls(c, o, enforced, sent)
    {
      var marked := UpdateLoop(o, scaled, allowed, updated, maintain, c, enforced, sent, rs);
      CollectEnforcementRuleResults(o, marked, c, enforced, sent);
      Regroup(old(calls), Sends(c, o, enforced, sent, |o.jobs|), Awaits(c, o, enforced, sent, |o.jobs|));
    }

    /** The leftover round on the asks of the visited jobs. */
    method LeftoverPhases(o: Order, asked: seq<string>, replies: map<string, seq<Sample>>,
                          ghost c: Core, ghost asks: seq<Leftover.Ask>)
      requires Routable(c, o) && NoDuplicates(o.jobs) && PlainAddresses(o) && o.jobs != []
      requires Leftover.Observed(asks) && Surveyed(State(), o, asked, replies, asks)
      requires locations == c.locations && activeOperation == c.activeOperation
      modifies this`rates, this`previous, this`calls
      ensures var enforced, sent := Leftover.Enforced(limit, asks, changed), LeftoverSent(State(), asks);
        && rates == Assign(old(rates), o.jobs, Choose(sent, enforced, Leftover.Computed(limit, asks)))
        && previous == Assign(old(previous), o.jobs, enforced)
        && calls == old(calls) + RoundCalls(c, o, enforced, sent)
    {
      ghost var computed := Leftover.Computed(limit, asks);
      Leftover.UsageIsPositive(asks);
      hide Routable, PlainAddresses, RoundCalls, JobUsage, Choose, Assign, Leftover.Computed, Leftover.Enforced,
           Leftover.MaintainsAll, Leftover.Kept, Leftover.Updated, Leftover.TotalUsage, Leftover.Observed;
      var total := ComputeLeftover(o, asked, replies, asks);
      Assigned(old(rates), o.jobs, computed);
      var maintain, maintained, updated := Classify(o, total, asks);
      RescaleAndEnforce(o, total, maintain, maintained, updated, c, asks, LeftoverSent(State(), asks));
      AssignTwice(old(rates), o.jobs, computed,
                  Choose(LeftoverSent(State(), asks), Leftover.Enforced(limit, asks, changed), computed));
    }

    method ComputeLeftover(o: Order, asked: seq<string>, replies: map<string, seq<Sample>>, ghost asks: seq<Leftover.Ask>)
      returns (total: int)
      requires NoDuplicates(o.jobs) && Leftover.Observed(asks) && o.jobs != []
      requires Surveyed(State(), o, asked, replies, asks)
      modifies this`rates
      ensures rates == Assign(old(rates), o.jobs, Leftover.Computed(limit, asks))
      ensures total == Leftover.TotalUsage(asks)
    {
      ghost var first := Leftover.FirstPhase(limit, asks);
      Leftover.UsageIsPositive(asks);
      var left, usages: seq<int>;
      left, usages, total := GrantAll(o, asked, replies, asks);
      Assigned(old(rates), o.jobs, first);
      DistributeByUsage(o, left, usages, total, first);
      AssignTwice(old(rates), o.jobs, first, Leftover.Computed(limit, asks));
    }

    method ComputeAndEnforceLeftoverRules(rule: string, o: Order, asked: seq<string>, replies: map<string, seq<Sample>>)
      requires PolicyReadable(rule) && Consistent(State()) && Visits(o, State()) && PlainAddresses(o)
      requires StatisticsAtHand(State(), asked, replies) && Reported(State(), replies) && 1 <= limit
      modifies this
      ensures var p := UpdateDemands(old(State()), rule);
        && Ready(p, o) && Routable(p, o) && StatisticsAtHand(p, asked, replies)
        && var asks := Asks(p, o, asked, replies);
           && Leftover.Observed(asks) && State() == LeftoverRound(p, o, asks)
           && calls == old(calls) + if o.jobs != []
                                    then RoundCalls(p, o, Leftover.Enforced(limit, asks, p.changed), LeftoverSent(p, asks))
                                    else []
    {
      UpdateKeepsReady(State(), rule, o);
      var operation := UpdateJobDemands(rule);
      ghost var asks := LeftoverPlan(State(), o, asked, replies);
      EnforceLeftover(o, asked, replies, State(), asks);
    }

    method EnforceLeftover(o: Order, asked: seq<string>, replies: map<string, seq<Sample>>,
                           ghost p: Core, ghost asks: seq<Leftover.Ask>)
      requires State() == p && Ready(p, o) && Routable(p, o) && PlainAddresses(o)
      requires Leftover.Observed(asks) && Surveyed(p, o, asked, replies, asks)
      modifies this`rates, this`previous, this`calls
      ensures State() == LeftoverRound(p, o, asks)
      ensures calls == old(calls) + if o.jobs != []
                                    then RoundCalls(p, o, Leftover.Enforced(limit, asks, p.changed), LeftoverSent(p, asks))
                                    else []
    {
      hide Ready, Routable, PlainAddresses, Surveyed, RoundCalls, Leftover.Observed, Leftover.Enforced, Leftover.MaintainsAll,
           Leftover.Computed, Choose, Assign;
      assert |asks| == |o.jobs| && NoDuplicates(o.jobs) by { SurveyedJobs(p, o, asked, replies, asks); }
      if o.jobs != [] {
        hide LeftoverRound;
        LeftoverPhases(o, asked, replies, p, asks);
        LeftoverDone(p, o, State(), asks);
      }
    }
  }

  /** The asks are what the controller knows of the visited jobs. */
  ghost predicate Surveyed(p: Core, o: Order, asked: seq<string>, replies: map<string, seq<Sample>>,
                           asks: seq<Leftover.Ask>)
  {
    && |asks| == |o.jobs|
    && forall i | 0 <= i < |o.jobs| :: var j := o.jobs[i];
      && j in p.demands && j in p.rates && j in p.previous && j in p.locations && j in o.addresses
      && (forall a | a in o.addresses[j] :: a in p.locations[j] && (a in asked ==> a in replies))
      && asks[i].demand == p.demands[j] && asks[i].previous == p.previous[j]
      && asks[i].usage == JobUsage(Unasked(p), asked, replies, j, p.locations[j], o.addresses[j])
  }

  lemma SurveyedJobs(p: Core, o: Order, asked: seq<string>, replies: map<string, seq<Sample>>, asks: seq<Leftover.Ask>)
    requires Ready(p, o) && Surveyed(p, o, asked, replies, asks)
    ensures |asks| == |o.jobs| && NoDuplicates(o.jobs)
  {
  }

  /** The facts the leftover phases need of the controller state. */
  lemma LeftoverPlan(p: Core, o: Order, asked: seq<string>, replies: map<string, seq<Sample>>)
    returns (asks: seq<Leftover.Ask>)
    requires Ready(p, o) && StatisticsAtHand(p, asked, replies) && Reported(p, replies) && 1 <= p.limit
    ensures asks == Asks(p, o, asked, replies) && Leftover.Observed(asks) && |asks| == |o.jobs| && NoDuplicates(o.jobs)
    ensures Surveyed(p, o, asked, replies, asks)
  {
    asks := Asks(p, o, asked, replies);
    AsksAreObserved(p, o, asked, replies);
    assert forall i | 0 <= i < |o.jobs| :: o.jobs[i] in o.jobs;
  }

  lemma LeftoverDone(p: Core, o: Order, d: Core, asks: seq<Leftover.Ask>)
    requires Ready(p, o) && o.jobs != [] && |asks| == |o.jobs| && Leftover.Observed(asks)
    requires d == p.(rates := d.rates, previous := d.previous)
    requires d.rates == Assign(p.rates, o.jobs,
      Choose(LeftoverSent(p, asks), Leftover.Enforced(p.limit, asks, p.changed), Leftover.Computed(p.limit, asks)))
    requires d.previous == Assign(p.previous, o.jobs, Leftover.Enforced(p.limit, asks, p.changed))
    ensures d == LeftoverRound(p, o, asks)
  {
  }

  /** What the last loop does to a job: maintain it, or send its computed rate, scaled or as it is. */
  ghost predicate UpdatesAt(rates: map<string, int>, previous: map<string, int>, jobs: seq<string>, scaled: bool,
                            allowed: int, updated: int, maintain: set<string>,
                            enforced: seq<int>, sent: seq<bool>, rs: seq<int>, i: nat)
    requires |enforced| == |sent| == |rs| == |jobs| && i < |jobs|
  {
    var j := jobs[i];
    && j in rates && j in previous && sent[i] == (j !in maintain)
    && (sent[i] ==> enforced[i] == rs[i] == if scaled then Leftover.Rescaled(rates[j], allowed, updated) else rates[j])
    && (!sent[i] ==> rs[i] == rates[j] && enforced[i] == previous[j])
  }

  /** The facts the last loop needs of a leftover round, job by job. */
  lemma UpdatePlan(limit: int, asks: seq<Leftover.Ask>, changed: bool, scaled: bool, allowed: int, updated: int)
    returns (enforced: seq<int>, rs: seq<int>)
    requires Leftover.Observed(asks)
    requires scaled == Leftover.Rescales(limit, asks, changed)
    requires allowed == limit - Sum(Leftover.Kept(limit, asks, changed))
    requires updated == Sum(Leftover.Updated(limit, asks, changed))
    ensures |enforced| == |rs| == |asks| && enforced == Leftover.Enforced(limit, asks, changed)
    ensures rs == Choose(Negate(Leftover.MaintainsAll(limit, asks, changed)), enforced, Leftover.Computed(limit, asks))
    ensures forall i | 0 <= i < |asks| ::
      var rate := Leftover.Computed(limit, asks)[i];
      if Leftover.MaintainsAll(limit, asks, changed)[i]
      then rs[i] == rate && enforced[i] == asks[i].previous
      else enforced[i] == rs[i] == if scaled then Leftover.Rescaled(rate, allowed, updated) else rate
  {
    enforced := Leftover.Enforced(limit, asks, changed);
    rs := Choose(Negate(Leftover.MaintainsAll(limit, asks, changed)), enforced, Leftover.Computed(limit, asks));
  }

  lemma SumStep(s: seq<int>, k: nat)
    requires k < |s|
    ensures Sum(s[..k + 1]) == Sum(s[..k]) + s[k]
  {
    assert s[..k + 1] == s[..k] + [s[k]];
    SumAppend(s[..k], [s[k]]);
  }

  lemma UsageStep(asks: seq<Leftover.Ask>, usages: seq<int>, k: nat)
    requires k < |asks| && usages == Leftover.Usages(asks)[..k]
    ensures usages + [asks[k].usage] == Leftover.Usages(asks)[..k + 1]
    ensures Sum(usages + [asks[k].usage]) == Sum(usages) + asks[k].usage
  {
    SumAppend(usages, [asks[k].usage]);
  }

  /** Granting to job `k` in the loop is one step of the allocator. */
  lemma GrantStep(left: int, asks: seq<Leftover.Ask>, rs: seq<int>, k: nat)
    requires k < |asks| == |rs| && rs[k..] == Leftover.FirstPhase(left, asks[k..])
    ensures rs[k] == Leftover.Grant(left, |asks| - k, Leftover.Ask(asks[k].demand, asks[k].usage, 0))
    ensures rs[k + 1..] == Leftover.FirstPhase(left - rs[k], asks[k + 1..])
    ensures Sum(rs[..k + 1]) == Sum(rs[..k]) + rs[k]
  {
    assert asks[k..][1..] == asks[k + 1..] && asks[k..][0] == asks[k];
    assert rs[k..][0] == rs[k] && rs[k..][1..] == rs[k + 1..];
    assert rs[..k + 1] == rs[..k] + [rs[k]];
    SumAppend(rs[..k], [rs[k]]);
  }

  lemma UpdateKeepsReady(c: Core, rule: string, o: Order)
    requires PolicyReadable(rule) && Consistent(c) && Visits(o, c)
    ensures Ready(UpdateDemands(c, rule), o) && Routable(UpdateDemands(c, rule), o)
  {
    UpdateDemandsKeeps(c, rule);
    ReadyIsRoutable(UpdateDemands(c, rule), o);
  }

  /** What the enforcing loop of static and vanilla control sends, and what it leaves behind. */
  ghost predicate Planned(rates: map<string, int>, previous: map<string, int>, jobs: seq<string>, bonus: int, always: bool,
                          vs: seq<int>, sent: seq<bool>, rs: seq<int>, ps: seq<int>) {
    && |vs| == |sent| == |rs| == |ps| == |jobs|
    && forall i | 0 <= i < |jobs| :: PlannedAt(rates, previous, jobs, bonus, always, vs, sent, rs, ps, i)
  }

  ghost predicate PlannedAt(rates: map<string, int>, previous: map<string, int>, jobs: seq<string>, bonus: int, always: bool,
                            vs: seq<int>, sent: seq<bool>, rs: seq<int>, ps: seq<int>, i: nat)
    requires |vs| == |sent| == |rs| == |ps| == |jobs| && i < |jobs|
  {
    && jobs[i] in rates && rates[jobs[i]] + bonus == vs[i] && jobs[i] in previous
    && sent[i] == (always || IOPS_THRESHOLD <= Abs(vs[i] - previous[jobs[i]]))
    && rs[i] == (if sent[i] then vs[i] else -1)
    && ps[i] == (if sent[i] then vs[i] else previous[jobs[i]])
  }

  /** With the same bonus each, the jobs' rates become `vs`. */
  ghost predicate Bonused(rates: map<string, int>, jobs: seq<string>, bonus: int, vs: seq<int>) {
    && |vs| == |jobs|
    && forall i | 0 <= i < |jobs| :: jobs[i] in rates && rates[jobs[i]] + bonus == vs[i]
  }

  /** After the first phase every rate lacks exactly the equal part of what is left. */
  lemma BonusPlan(limit: int, ds: seq<int>, rates: map<string, int>, jobs: seq<string>)
    requires jobs != [] && |ds| == |jobs| && NoDuplicates(jobs)
    ensures Bonused(Assign(rates, jobs, Vanilla.FirstPhase(limit, ds)), jobs,
                    TruncDiv(Vanilla.Leftover(limit, ds), |jobs|), Vanilla.Computed(limit, ds))
  {
    Assigned(rates, jobs, Vanilla.FirstPhase(limit, ds));
  }

  lemma VanillaPlan(p: Core, o: Order) returns (vs: seq<int>, sent: seq<bool>)
    requires Ready(p, o) && o.jobs != []
    ensures NoDuplicates(o.jobs) && forall j | j in o.jobs :: j in p.demands && j in p.previous
    ensures vs == VanillaRates(p, o) == Vanilla.Computed(p.limit, Values(p.demands, o.jobs))
    ensures sent == VanillaSent(p, o) == Significant(vs, Values(p.previous, o.jobs), p.changed)
  {
    vs, sent := VanillaRates(p, o), VanillaSent(p, o);
  }

  lemma VanillaDone(p: Core, o: Order, d: Core, vs: seq<int>, sent: seq<bool>)
    requires Ready(p, o) && o.jobs != [] && vs == VanillaRates(p, o) && sent == VanillaSent(p, o)
    requires d == p.(demands := d.demands, rates := d.rates, previous := d.previous)
    requires d.demands == Assign(p.demands, o.jobs, Vanilla.RewrittenDemands(p.limit, Values(p.demands, o.jobs)))
    requires d.rates == Assign(p.rates, o.jobs, Choose(sent, vs, Unset(|o.jobs|)))
    requires d.previous == Assign(p.previous, o.jobs, Choose(sent, vs, Values(p.previous, o.jobs)))
    ensures d == VanillaRound(p, o)
  {
  }

  /** Serving job `k` in the loop is one step of the allocator. */
  lemma ServeStep(left: int, ds: seq<int>, rs: seq<int>, ws: seq<int>, k: nat)
    requires k < |ds| == |rs| == |ws|
    requires rs[k..] == Vanilla.FirstPhase(left, ds[k..]) && ws[k..] == Vanilla.RewrittenDemands(left, ds[k..])
    ensures rs[k] == Vanilla.Grant(left, |ds| - k, ds[k]) && ws[k] == Vanilla.Rewritten(left, |ds| - k, ds[k])
    ensures rs[k + 1..] == Vanilla.FirstPhase(left - rs[k], ds[k + 1..])
    ensures ws[k + 1..] == Vanilla.RewrittenDemands(left - rs[k], ds[k + 1..])
    ensures Sum(rs[..k + 1]) == Sum(rs[..k]) + rs[k]
  {
    assert ds[k..][1..] == ds[k + 1..] && ds[k..][0] == ds[k];
    assert rs[k..][0] == rs[k] && rs[k..][1..] == rs[k + 1..];
    assert ws[k..][0] == ws[k] && ws[k..][1..] == ws[k + 1..];
    assert rs[..k + 1] == rs[..k] + [rs[k]];
    SumAppend(rs[..k], [rs[k]]);
  }

  /** The facts the enforcing loop needs of a static round. */
  lemma StaticPlan(m: Core, o: Order) returns (vs: seq<int>, sent: seq<bool>)
    requires Ready(m, o)
    ensures NoDuplicates(o.jobs) && |vs| == |sent| == |o.jobs|
    ensures vs == StaticRates(m, o) && sent == StaticSent(m, o)
    ensures forall i | 0 <= i < |o.jobs| :: o.jobs[i] in Overlay(m) && Overlay(m)[o.jobs[i]] == vs[i]
    ensures forall j | j in o.jobs :: j in m.previous
    ensures sent == Significant(vs, Values(m.previous, o.jobs), false)
  {
    vs, sent := StaticRates(m, o), StaticSent(m, o);
    assert forall i | 0 <= i < |o.jobs| :: o.jobs[i] in o.jobs;
  }

  lemma StaticDone(m: Core, o: Order, d: Core, vs: seq<int>, sent: seq<bool>)
    requires Ready(m, o) && m.changed && o.jobs != [] && vs == StaticRates(m, o) && sent == StaticSent(m, o)
    requires d == m.(rates := d.rates, previous := d.previous)
    requires d.rates == Assign(Overlay(m), o.jobs, Choose(sent, vs, Unset(|o.jobs|)))
    requires d.previous == Assign(m.previous, o.jobs, Choose(sent, vs, Values(m.previous, o.jobs)))
    ensures d == StaticRound(m, o)
  {
    OverlayKeeps(m, o);
  }

  lemma PolicyKeepsReady(c: Core, rule: string, o: Order)
    requires PolicyReadable(rule) && Consistent(c) && Visits(o, c)
    ensures var m := MarkPolicy(UpdateDemands(c, rule), rule); Ready(m, o) && Routable(m, o)
  {
    UpdateDemandsKeeps(c, rule);
    PolicyFrame(c, rule);
    hide UpdateDemands, PolicyReadable, PolicyOperation, Consistent, Routable;
    SameLocations(UpdateDemands(c, rule), MarkPolicy(UpdateDemands(c, rule), rule));
    ReadyIsRoutable(MarkPolicy(UpdateDemands(c, rule), rule), o);
  }

  /** The state of an enforcing loop after its first `k` jobs, started from `rates0`, `previous0` and `start`. */
  ghost predicate Progress(rates: map<string, int>, previous: map<string, int>, calls: seq<Call>, updated: set<string>,
                           c: Core, o: Order, vs: seq<int>, sent: seq<bool>,
                           rates0: map<string, int>, previous0: map<string, int>, start: seq<Call>,
                           rs: seq<int>, ps: seq<int>, k: nat) {
    && Routable(c, o) && k <= |vs| == |sent| == |rs| == |ps| == |o.jobs|
    && rates == Assign(rates0, o.jobs[..k], rs[..k]) && previous == Assign(previous0, o.jobs[..k], ps[..k])
    && calls == start + Sends(c, o, vs, sent, k) && Marked(updated, o, sent, k)
  }

  lemma LoopStart(c: Core, o: Order, vs: seq<int>, sent: seq<bool>, rates: map<string, int>, previous: map<string, int>,
                  calls: seq<Call>, rs: seq<int>, ps: seq<int>)
    requires Routable(c, o) && |vs| == |sent| == |rs| == |ps| == |o.jobs|
    ensures Progress(rates, previous, calls, {}, c, o, vs, sent, rates, previous, calls, rs, ps, 0)
  {
    assert forall i | 0 <= i < |o.jobs| :: o.jobs[i] in o.jobs;
  }

  lemma LoopEnd(rates: map<string, int>, previous: map<string, int>, calls: seq<Call>, updated: set<string>,
                c: Core, o: Order, vs: seq<int>, sent: seq<bool>,
                rates0: map<string, int>, previous0: map<string, int>, start: seq<Call>, rs: seq<int>, ps: seq<int>)
    requires Progress(rates, previous, calls, updated, c, o, vs, sent, rates0, previous0, start, rs, ps, |o.jobs|)
    ensures Routable(c, o) && |vs| == |sent| == |rs| == |ps| == |o.jobs|
    ensures rates == Assign(rates0, o.jobs, rs) && previous == Assign(previous0, o.jobs, ps)
    ensures calls == start + Sends(c, o, vs, sent, |o.jobs|) && Marked(updated, o, sent, |o.jobs|)
  {
    hide Assign, Sends, Marked, Routable;
    assert o.jobs[..|o.jobs|] == o.jobs && rs[..|o.jobs|] == rs && ps[..|o.jobs|] == ps;
  }

  /** The rate of a job not yet visited is still its old one. */
  lemma Untouched(rates: map<string, int>, previous: map<string, int>, calls: seq<Call>, updated: set<string>,
                  c: Core, o: Order, vs: seq<int>, sent: seq<bool>,
                  rates0: map<string, int>, previous0: map<string, int>, start: seq<Call>,
                  rs: seq<int>, ps: seq<int>, k: nat)
    requires Progress(rates, previous, calls, updated, c, o, vs, sent, rates0, previous0, start, rs, ps, k)
    requires k < |o.jobs| && NoDuplicates(o.jobs) && o.jobs[k] in rates0
    ensures o.jobs[k] in rates && rates[o.jobs[k]] == rates0[o.jobs[k]]
  {
    hide Assign, Sends, Marked, Routable;
    AssignPending(rates0, o.jobs, rs, k);
  }

  lemma LoopStep(rates: map<string, int>, previous: map<string, int>, jobs: seq<string>,
                 rs: seq<int>, ps: seq<int>, k: nat, v: int)
    requires k < |jobs| == |rs| == |ps| && NoDuplicates(jobs)
    requires jobs[k] in rates && jobs[k] in previous
    ensures var r, p := Assign(rates, jobs[..k], rs[..k]), Assign(previous, jobs[..k], ps[..k]);
      && jobs[k] in r && r[jobs[k]] == rates[jobs[k]]
      && jobs[k] in p && p[jobs[k]] == previous[jobs[k]]
      && r[jobs[k] := v][jobs[k] := rs[k]] == Assign(rates, jobs[..k + 1], rs[..k + 1])
      && p[jobs[k] := ps[k]] == Assign(previous, jobs[..k + 1], ps[..k + 1])
      && (ps[k] == previous[jobs[k]] ==> p == Assign(previous, jobs[..k + 1], ps[..k + 1]))
  {
    AssignStep(rates, jobs, rs, k);
    AssignStep(previous, jobs, ps, k);
    AssignPending(rates, jobs, rs, k);
    AssignPending(previous, jobs, ps, k);
    var r := Assign(rates, jobs[..k], rs[..k]);
    assert r[jobs[k] := v][jobs[k] := rs[k]] == r[jobs[k] := rs[k]];
  }

  /** Key under which a job and one of its local controllers are remembered as updated. */
  function Mark(job: string, address: string): string {
    job + "+" + address
  }

  function Marks(o: Order, job: string): set<string>
    requires job in o.addresses
  {
    set a | a in o.addresses[job] :: Mark(job, a)
  }

  /** Addresses do not contain the separator of the update marks. */
  ghost predicate PlainAddresses(o: Order) {
    forall j, a | j in o.addresses && a in o.addresses[j] :: '+' !in a
  }

  /** Exactly the local controllers of the jobs sent among the first `k` are marked. */
  ghost predicate Marked(updated: set<string>, o: Order, sent: seq<bool>, k: nat) {
    && k <= |o.jobs| == |sent|
    && (forall i | 0 <= i < |o.jobs| :: o.jobs[i] in o.addresses)
    && forall i, a | 0 <= i < |o.jobs| && a in o.addresses[o.jobs[i]] ::
         Mark(o.jobs[i], a) in updated <==> i < k && sent[i]
  }

  lemma MarkIsInjective(j: string, a: string, k: string, b: string)
    requires Mark(j, a) == Mark(k, b) && '+' !in a && '+' !in b
    ensures j == k && a == b
  {
    LastSeparator(j, a, k, b);
  }

  lemma MarkStep(updated: set<string>, o: Order, sent: seq<bool>, k: nat)
    requires k < |o.jobs| && NoDuplicates(o.jobs) && PlainAddresses(o)
    requires Marked(updated, o, sent, k)
    ensures Marked(if sent[k] then updated + Marks(o, o.jobs[k]) else updated, o, sent, k + 1)
  {
    forall i, a | 0 <= i < |o.jobs| && a in o.addresses[o.jobs[i]]
      ensures Mark(o.jobs[i], a) in Marks(o, o.jobs[k]) <==> i == k
    {
      if b :| b in o.addresses[o.jobs[k]] && Mark(o.jobs[k], b) == Mark(o.jobs[i], a) {
        MarkIsInjective(o.jobs[k], b, o.jobs[i], a);
      }
    }
  }

  lemma SendsStep(c: Core, o: Order, rates: seq<int>, sent: seq<bool>, k: nat, start: seq<Call>)
    requires Routable(c, o) && |rates| == |sent| == |o.jobs| && k < |o.jobs|
    ensures o.jobs[k] in o.jobs && o.jobs[k] in o.addresses
    ensures start + Sends(c, o, rates, sent, k + 1)
         == (start + Sends(c, o, rates, sent, k)) + if sent[k] then JobSends(c, o, o.jobs[k], rates[k]) else []
  {
    assert o.jobs[k] in o.jobs;
    var more := if sent[k] then JobSends(c, o, o.jobs[k], rates[k]) else [];
    Regroup(start, Sends(c, o, rates, sent, k), more);
  }

  lemma AwaitsStep(updated: set<string>, c: Core, o: Order, rates: seq<int>, sent: seq<bool>, k: nat)
    returns (awaits: seq<Call>)
    requires Routable(c, o) && |rates| == |sent| == |o.jobs| && k < |o.jobs|
    requires Marked(updated, o, sent, |o.jobs|)
    ensures o.jobs[k] in o.addresses && |awaits| == |o.addresses[o.jobs[k]]|
    ensures forall i | 0 <= i < |awaits| :: awaits[i].Await?
    ensures forall a | a in o.addresses[o.jobs[k]] :: Mark(o.jobs[k], a) in updated <==> sent[k]
    ensures Awaits(c, o, rates, sent, k + 1) == Awaits(c, o, rates, sent, k) + if sent[k] then awaits else []
  {
    assert o.jobs[k] in o.jobs;
    awaits := JobAwaits(c, o, o.jobs[k], rates[k]);
  }

  /** Collecting from entry `k` on gives what collecting from everyone gives; `gone` lost their last stage. */
  ghost predicate PendingLocals(start: Core, now: Core, locals: seq<string>, replies: map<string, seq<Sample>>,
                                gone: seq<string>, k: nat)
  {
    && Consistent(start) && Answered(start, locals, replies)
    && k <= |locals|
    && Consistent(now) && Answered(now, locals[k..], replies)
    && Collect(start, locals, replies) == Collect(now, locals[k..], replies)
    && now.localToStages.Keys <= start.localToStages.Keys
    && Enumerates(gone, start.localToStages.Keys - now.localToStages.Keys)
    && (forall a | a in gone :: a in locals[..k])
    && (forall i | k <= i < |locals| :: Asked(now, locals[i]) <==> Asked(start, locals[i]))
  }

  lemma PendingStart(start: Core, locals: seq<string>, replies: map<string, seq<Sample>>)
    requires Consistent(start) && Answered(start, locals, replies)
    ensures PendingLocals(start, start, locals, replies, [], 0)
  {
    assert locals[0..] == locals;
  }

  lemma StillAsked(start: Core, now: Core, locals: seq<string>, replies: map<string, seq<Sample>>, gone: seq<string>,
                   k: nat, rule: string)
    requires PendingLocals(start, now, locals, replies, gone, k) && k < |locals|
    ensures Asked(now, locals[k]) == Asked(start, locals[k])
    ensures StatisticsAwaits(start, locals[..k + 1], rule)
         == StatisticsAwaits(start, locals[..k], rule) + if Asked(start, locals[k]) then [Await(locals[k], rule)] else []
  {
    hide Consistent, Answered, Asked;
    assert locals[..k + 1][..k] == locals[..k];
  }

  lemma PendingEnd(start: Core, now: Core, locals: seq<string>, replies: map<string, seq<Sample>>, gone: seq<string>)
    requires PendingLocals(start, now, locals, replies, gone, |locals|)
    requires Consistent(start) && Answered(start, locals, replies)
    ensures exists keys: set<string> ::
      Enumerates(gone, keys) && CollectAll(start, locals, replies) == Statistics.DeleteSessions(now, keys)
    ensures NoDuplicates(gone)
  {
    assert locals[|locals|..] == [];
    assert Enumerates(gone, start.localToStages.Keys - now.localToStages.Keys);
  }

  lemma ProcessLocal(start: Core, now: Core, locals: seq<string>, replies: map<string, seq<Sample>>,
                     gone: seq<string>, k: nat)
    requires PendingLocals(start, now, locals, replies, gone, k) && k < |locals|
    ensures Asked(now, locals[k]) ==>
      && locals[k] in replies && FromLocal(now, locals[k], replies[locals[k]])
      && var next := CollectResult(now, locals[k], replies[locals[k]]);
         PendingLocals(start, next, locals, replies,
                       if locals[k] in next.localToStages then gone else gone + [locals[k]], k + 1)
    ensures !Asked(now, locals[k]) ==> PendingLocals(start, now, locals, replies, gone, k + 1)
  {
    var a := locals[k];
    assert locals[k..][0] == a && locals[k..][1..] == locals[k + 1..];
    assert locals[..k + 1] == locals[..k] + [a];
    assert a in locals[k..];
    AnsweredLater(now, locals[k..], replies);
    if Asked(now, a) {
      CollectResultKeeps(now, a, replies[a]);
      var next := CollectResult(now, a, replies[a]);
      GoneGrows(start.localToStages.Keys, now.localToStages.Keys, next.localToStages.Keys, gone, a);
      AskedLater(now, next, locals, k);
    }
  }

  lemma GoneGrows(all: set<string>, before: set<string>, after: set<string>, gone: seq<string>, a: string)
    requires Enumerates(gone, all - before) && before <= all && a in before
    requires after <= before <= after + {a}
    ensures Enumerates(if a in after then gone else gone + [a], all - after)
  {
    if a in after {
      assert after == before;
    } else {
      AppendKeepsApart(gone, a);
      assert all - after == (all - before) + {a};
    }
  }

  lemma AskedLater(now: Core, next: Core, locals: seq<string>, k: nat)
    requires k < |locals| && NoDuplicates(locals) && OnlyTouches(now, next, locals[k])
    ensures forall i | k < i < |locals| :: Asked(next, locals[i]) <==> Asked(now, locals[i])
  {
  }

  /** Processing a reply from entry `k` on, in state `now`, gives what processing it all gives from `start`. */
  ghost predicate Pending(start: Core, now: Core, address: string, reply: seq<Sample>, k: nat) {
    && Consistent(start) && FromLocal(start, address, reply)
    && k <= |reply|
    && Consistent(now) && FromLocal(now, address, reply[k..])
    && DropFailed(start, address, reply) == DropFailed(now, address, reply[k..])
  }

  lemma ProcessOne(start: Core, now: Core, address: string, reply: seq<Sample>, k: nat)
    requires Pending(start, now, address, reply, k) && k < |reply|
    ensures if reply[k].rate == -1
            then && Removable(now, reply[k].stage) && address in now.localToStages
                 && Pending(start, DropStage(now, address, reply[k].stage), address, reply, k + 1)
            else Pending(start, now, address, reply, k + 1)
  {
    assert reply[k..][0] == reply[k] && reply[k..][1..] == reply[k + 1..];
    if reply[k].rate == -1 {
      DropStageKeeps(now, address, reply[k].stage);
    }
  }

  lemma RemoveIgnoresLists(c: Core, lists: map<string, seq<Stage>>, address: string, s: Stage)
    requires Removable(c, s) && address in c.localToStages
    ensures Removable(c.(localToStages := lists), s)
    ensures Registry.RemoveStage(c.(localToStages := lists), s)
         == DropStage(c, address, s).(localToStages := lists)
  {
  }

  lemma DroppedList(c: Core, d: Core, address: string)
    requires Consistent(c) && Asked(c, address)
    requires Pending(c, d, address, AllFailed(c.localToStages[address]), |c.localToStages[address]|)
    ensures d == CollectResult(c, address, [])
    ensures d.localToStages == c.localToStages - {address}
  {
    CollectResultKeeps(c, address, []);
    hide Consistent, DropStage;
  }
}
