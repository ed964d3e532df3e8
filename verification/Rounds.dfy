/**
 * One compute-and-enforce round of the core controller, for each control type,
 * as its effect on the controller state and its calls on the sessions.
 */
module Rounds {
  import opened Arithmetic
  import opened Sequences
  import opened Registry
  import opened Statistics
  import opened Sessions
  import Decimal
  import Tokenizer
  import EnforcementWire
  import Vanilla
  import Leftover

  /** Differences below this threshold are not enforced. */
  const IOPS_THRESHOLD := 10

  /** The order in which a round visits the jobs, and for each job its local controllers. */
  datatype Order = Order(jobs: seq<string>, addresses: map<string, seq<string>>)

  ghost predicate Visits(o: Order, c: Core) {
    && Enumerates(o.jobs, c.locations.Keys)
    && forall j | j in c.locations :: j in o.addresses && Enumerates(o.addresses[j], c.locations[j].Keys)
  }

  ghost predicate Ready(c: Core, o: Order) {
    Consistent(c) && Visits(o, c)
  }

  // ------------------------------------------------------------------
  // Policies of the administrator
  // ------------------------------------------------------------------

  /** The kinds of policy that set a demand. */
  predicate SetsDemand(kind: string) {
    kind in ["demand", "job"]
  }

  /** The queued policy can be processed: enough fields, and a numeric limit. */
  predicate PolicyReadable(rule: string) {
    rule == "" ||
    var tokens := Tokenizer.Tokens(rule, '|');
    && 2 <= |tokens|
    && (SetsDemand(tokens[1]) ==> 5 <= |tokens| && Decimal.Parse(tokens[4]).Some?)
  }

  /** The operation named by a policy that sets a demand; empty otherwise. */
  function PolicyOperation(rule: string): string
    requires PolicyReadable(rule)
  {
    if rule == "" then ""
    else
      var tokens := Tokenizer.Tokens(rule, '|');
      if SetsDemand(tokens[1]) then tokens[3] else ""
  }

  function UpdateDemands(c: Core, rule: string): Core
    requires PolicyReadable(rule)
  {
    if rule == "" then c
    else
      var tokens := Tokenizer.Tokens(rule, '|');
      if SetsDemand(tokens[1]) then
        c.(demands := c.demands[tokens[2] := Decimal.Parse(tokens[4]).value], activeOperation := tokens[3])
      else c.(activeOperation := "")
  }

  /** A policy sets one demand and the operation, and touches nothing else. */
  lemma PolicyFrame(c: Core, rule: string)
    requires PolicyReadable(rule)
    ensures var p := UpdateDemands(c, rule);
      && p == c.(demands := p.demands, activeOperation := p.activeOperation)
      && c.demands.Keys <= p.demands.Keys
  {
    if rule != "" {
      var tokens := Tokenizer.Tokens(rule, '|');
      hide Tokenizer.Tokens, Decimal.Parse, SetsDemand;
      if SetsDemand(tokens[1]) {
        var value := Decimal.Parse(tokens[4]).value;
        assert UpdateDemands(c, rule) == c.(demands := c.demands[tokens[2] := value], activeOperation := tokens[3]);
      } else {
        assert UpdateDemands(c, rule) == c.(activeOperation := "");
      }
    }
  }

  /** Static: a new demand counts as a change. */
  function MarkPolicy(c: Core, rule: string): Core
    requires PolicyReadable(rule)
  {
    if PolicyOperation(rule) != "" then c.(changed := true) else c
  }

  /** A policy line as the administrator submits it. */
  function PolicyText(id: string, kind: string, job: string, operation: string, limit: int): string {
    "|" + Tokenizer.Terminated([id, kind, job, operation, Decimal.Text(limit)], '|')
  }

  // ------------------------------------------------------------------
  // Calls on the sessions
  // ------------------------------------------------------------------

  function StageCount(envs: map<string, seq<int>>, addresses: seq<string>): nat
    requires forall a | a in addresses :: a in envs
  {
    if addresses == [] then 0 else |envs[addresses[0]]| + StageCount(envs, addresses[1..])
  }

  lemma StageCountPositive(envs: map<string, seq<int>>, addresses: seq<string>)
    requires addresses != [] && forall a | a in addresses :: a in envs && envs[a] != []
    ensures 1 <= StageCount(envs, addresses)
  {
    assert addresses[0] in addresses;
  }

  /** Every visited job is located where it is visited, and has a stage: the per-stage division is defined. */
  ghost predicate Routable(c: Core, o: Order) {
    forall j | j in o.jobs ::
      && j in c.locations && j in o.addresses
      && (forall a | a in o.addresses[j] :: a in c.locations[j])
      && 1 <= StageCount(c.locations[j], o.addresses[j])
  }

  /** total_stages is never zero in a consistent registry. */
  lemma ReadyIsRoutable(c: Core, o: Order)
    requires Ready(c, o)
    ensures Routable(c, o)
  {
    forall j | j in o.jobs
      ensures 1 <= StageCount(c.locations[j], o.addresses[j])
    {
      var a :| a in c.locations[j];
      assert a in o.addresses[j];
      StageCountPositive(c.locations[j], o.addresses[j]);
    }
  }

  ghost function LimitPerStage(c: Core, o: Order, job: string, rate: int): int
    requires Routable(c, o) && job in o.jobs
  {
    TruncDiv(rate, StageCount(c.locations[job], o.addresses[job]))
  }

  /** The enforcement rule of a job for one of its local controllers. */
  ghost function RuleFor(c: Core, o: Order, job: string, rate: int, address: string): string
    requires Routable(c, o) && job in o.jobs && address in o.addresses[job]
  {
    EnforcementWire.Print(job, c.activeOperation, c.locations[job][address], LimitPerStage(c, o, job, rate))
  }

  ghost function JobSends(c: Core, o: Order, job: string, rate: int): (r: seq<Call>)
    requires Routable(c, o) && job in o.jobs
    ensures |r| == |o.addresses[job]|
    ensures forall i | 0 <= i < |r| ::
      r[i] == Submit(o.addresses[job][i], RuleFor(c, o, job, rate, o.addresses[job][i]))
  {
    var addresses := o.addresses[job];
    seq(|addresses|, i requires 0 <= i < |addresses| => Submit(addresses[i], RuleFor(c, o, job, rate, addresses[i])))
  }

  ghost function JobAwaits(c: Core, o: Order, job: string, rate: int): (r: seq<Call>)
    requires Routable(c, o) && job in o.jobs
    ensures |r| == |o.addresses[job]|
    ensures forall i | 0 <= i < |r| ::
      r[i] == Await(o.addresses[job][i], RuleFor(c, o, job, rate, o.addresses[job][i]))
  {
    var addresses := o.addresses[job];
    seq(|addresses|, i requires 0 <= i < |addresses| => Await(addresses[i], RuleFor(c, o, job, rate, addresses[i])))
  }

  /** Submissions for the first `k` jobs; `sent` tells which of them are enforced. */
  ghost function Sends(c: Core, o: Order, rates: seq<int>, sent: seq<bool>, k: nat): seq<Call>
    requires Routable(c, o) && |rates| == |sent| == |o.jobs| && k <= |o.jobs|
  {
    if k == 0 then []
    else Sends(c, o, rates, sent, k - 1) + if sent[k - 1] then JobSends(c, o, o.jobs[k - 1], rates[k - 1]) else []
  }

  ghost function Awaits(c: Core, o: Order, rates: seq<int>, sent: seq<bool>, k: nat): seq<Call>
    requires Routable(c, o) && |rates| == |sent| == |o.jobs| && k <= |o.jobs|
  {
    if k == 0 then []
    else Awaits(c, o, rates, sent, k - 1) + if sent[k - 1] then JobAwaits(c, o, o.jobs[k - 1], rates[k - 1]) else []
  }

  ghost function RoundCalls(c: Core, o: Order, rates: seq<int>, sent: seq<bool>): seq<Call>
    requires Routable(c, o) && |rates| == |sent| == |o.jobs|
  {
    Sends(c, o, rates, sent, |o.jobs|) + Awaits(c, o, rates, sent, |o.jobs|)
  }

  // ------------------------------------------------------------------
  // Threshold
  // ------------------------------------------------------------------

  /** Which of the rates are far enough from the enforced ones; all of them after a change. */
  function Significant(rates: seq<int>, previous: seq<int>, changed: bool): (r: seq<bool>)
    requires |rates| == |previous|
    ensures |r| == |rates|
    ensures forall i | 0 <= i < |r| :: r[i] == (changed || IOPS_THRESHOLD <= Abs(rates[i] - previous[i]))
  {
    seq(|rates|, i requires 0 <= i < |rates| => changed || IOPS_THRESHOLD <= Abs(rates[i] - previous[i]))
  }

  function Choose(which: seq<bool>, s: seq<int>, t: seq<int>): (r: seq<int>)
    requires |which| == |s| == |t|
    ensures |r| == |s|
    ensures forall i | 0 <= i < |r| :: r[i] == if which[i] then s[i] else t[i]
  {
    seq(|s|, i requires 0 <= i < |s| => if which[i] then s[i] else t[i])
  }

  function Unset(n: nat): (r: seq<int>)
    ensures |r| == n && forall i | 0 <= i < n :: r[i] == -1
  {
    seq(n, _ => -1)
  }

  /** Enforce the significant rates; the others are withdrawn (-1) and leave the enforced rate alone. */
  ghost function Enforce(c: Core, o: Order, rates: seq<int>, sent: seq<bool>): Core
    requires Ready(c, o) && |rates| == |sent| == |o.jobs|
  {
    c.(rates := Assign(c.rates, o.jobs, Choose(sent, rates, Unset(|o.jobs|))),
       previous := Assign(c.previous, o.jobs, Choose(sent, rates, Values(c.previous, o.jobs))))
  }

  // ------------------------------------------------------------------
  // Static
  // ------------------------------------------------------------------

  /** Rates after every set demand was copied over. */
  function Overlay(c: Core): map<string, int> {
    c.rates + map j | j in c.demands && c.demands[j] != -1 :: c.demands[j]
  }

  ghost function StaticRates(c: Core, o: Order): (r: seq<int>)
    requires Ready(c, o)
    ensures |r| == |o.jobs|
  {
    Values(Overlay(c), o.jobs)
  }

  ghost function StaticSent(c: Core, o: Order): (r: seq<bool>)
    requires Ready(c, o)
    ensures |r| == |o.jobs|
  {
    Significant(StaticRates(c, o), Values(c.previous, o.jobs), false)
  }

  lemma OverlayKeeps(c: Core, o: Order)
    requires Ready(c, o)
    ensures Ready(c.(rates := Overlay(c)), o)
  {
    SameRegistry(c, c.(rates := Overlay(c)));
  }

  ghost function StaticRound(c: Core, o: Order): Core
    requires Ready(c, o)
  {
    if c.changed && o.jobs != [] then
      OverlayKeeps(c, o);
      Enforce(c.(rates := Overlay(c)), o, StaticRates(c, o), StaticSent(c, o))
    else c
  }

  // ------------------------------------------------------------------
  // Dynamic, vanilla
  // ------------------------------------------------------------------

  ghost function VanillaRates(c: Core, o: Order): (r: seq<int>)
    requires Ready(c, o)
    ensures |r| == |o.jobs|
  {
    Vanilla.Computed(c.limit, Values(c.demands, o.jobs))
  }

  ghost function VanillaSent(c: Core, o: Order): (r: seq<bool>)
    requires Ready(c, o)
    ensures |r| == |o.jobs|
  {
    Significant(VanillaRates(c, o), Values(c.previous, o.jobs), c.changed)
  }

  ghost function VanillaRound(c: Core, o: Order): Core
    requires Ready(c, o)
  {
    if o.jobs != [] then
      var ds := Vanilla.RewrittenDemands(c.limit, Values(c.demands, o.jobs));
      Enforce(c, o, VanillaRates(c, o), VanillaSent(c, o)).(demands := Assign(c.demands, o.jobs, ds))
    else c
  }

  // ------------------------------------------------------------------
  // Dynamic, leftover
  // ------------------------------------------------------------------

  /** Usage counted for a stage of an asked local controller: never zero. */
  function SampledUsage(reply: seq<Sample>, s: Stage): int {
    if reply == [] then 1
    else if reply[0].stage == s then if reply[0].rate == 0 then 1 else reply[0].rate
    else SampledUsage(reply[1..], s)
  }

  /** Usage of the stages of a job at one address; `unasked` counts for each stage of a controller not asked. */
  function EnvsUsage(unasked: int, asked: seq<string>, replies: map<string, seq<Sample>>,
                     job: string, address: string, envs: seq<int>): int
    requires address in asked ==> address in replies
  {
    if envs == [] then 0
    else
      (if address in asked then SampledUsage(replies[address], Stage(job, envs[0])) else unasked)
      + EnvsUsage(unasked, asked, replies, job, address, envs[1..])
  }

  function JobUsage(unasked: int, asked: seq<string>, replies: map<string, seq<Sample>>,
                    job: string, located: map<string, seq<int>>, addresses: seq<string>): int
    requires forall a | a in addresses :: a in located && (a in asked ==> a in replies)
  {
    if addresses == [] then 0
    else
      EnvsUsage(unasked, asked, replies, job, addresses[0], located[addresses[0]])
      + JobUsage(unasked, asked, replies, job, located, addresses[1..])
  }

  /** A local controller that was not asked counts as if each of its stages used everything. */
  function Unasked(c: Core): int {
    c.limit * |c.locations|
  }

  /** Every local controller holding a stage was either not asked, or its statistics are at hand. */
  ghost predicate StatisticsAtHand(c: Core, asked: seq<string>, replies: map<string, seq<Sample>>) {
    forall j, a | j in c.locations && a in c.locations[j] && a in asked :: a in replies
  }

  ghost function Asks(c: Core, o: Order, asked: seq<string>, replies: map<string, seq<Sample>>): (r: seq<Leftover.Ask>)
    requires Ready(c, o) && StatisticsAtHand(c, asked, replies)
    ensures |r| == |o.jobs|
    ensures forall i | 0 <= i < |r| :: var j := o.jobs[i];
      r[i] == Leftover.Ask(c.demands[j], JobUsage(Unasked(c), asked, replies, j, c.locations[j], o.addresses[j]), c.previous[j])
  {
    seq(|o.jobs|, i requires 0 <= i < |o.jobs| =>
      var j := o.jobs[i];
      Leftover.Ask(c.demands[j], JobUsage(Unasked(c), asked, replies, j, c.locations[j], o.addresses[j]), c.previous[j]))
  }

  function Negate(s: seq<bool>): (r: seq<bool>)
    ensures |r| == |s| && forall i | 0 <= i < |s| :: r[i] == !s[i]
  {
    seq(|s|, i requires 0 <= i < |s| => !s[i])
  }

  ghost function LeftoverSent(c: Core, asks: seq<Leftover.Ask>): (r: seq<bool>)
    requires Leftover.Observed(asks)
    ensures |r| == |asks|
  {
    Negate(Leftover.MaintainsAll(c.limit, asks, c.changed))
  }

  ghost function LeftoverRound(c: Core, o: Order, asks: seq<Leftover.Ask>): Core
    requires Ready(c, o) && |asks| == |o.jobs| && Leftover.Observed(asks)
  {
    if o.jobs != [] then
      var enforced := Leftover.Enforced(c.limit, asks, c.changed);
      c.(rates := Assign(c.rates, o.jobs, Choose(LeftoverSent(c, asks), enforced, Leftover.Computed(c.limit, asks))),
         previous := Assign(c.previous, o.jobs, enforced))
    else c
  }
}
