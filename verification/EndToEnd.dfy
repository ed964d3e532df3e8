/**
 * From the rate of a job in the core controller to the limits its stages
 * receive: printed and parsed twice, divided by stages and then by channels.
 */
module EndToEnd {
  import opened Arithmetic
  import opened Decimal
  import opened Sequences
  import opened Registry
  import opened Rounds
  import L = Local
  import EnforcementWire
  import RoundLaws
  import Tokenizer
  import Vanilla

  /** The channels of a local controller, by the operation they serve. */
  type Channels = map<string, seq<(int, int)>>

  // ------------------------------------------------------------------
  // What the stages receive
  // ------------------------------------------------------------------

  /** The limit a stage reads out of the rule text it is sent. */
  function ReceivedLimit(i: L.Install): int {
    match L.FillEnforcement(Tokenizer.Tokens(L.StageRule(i), '|'))
    case None => 0
    case Some(raw) => raw.first
  }

  function ReceivedTotal(done: seq<L.Install>): int {
    if done == [] then 0 else ReceivedLimit(done[0]) + ReceivedTotal(done[1..])
  }

  lemma {:induction false} ReceivedEqual(done: seq<L.Install>, limit: int)
    requires forall i | 0 <= i < |done| :: done[i].limit == limit
    ensures ReceivedTotal(done) == |done| * limit
  {
    if done == [] {
    } else {
      L.StageRuleRoundTrip(done[0]);
      ReceivedEqual(done[1..], limit);
      Distribute(1, |done| - 1, limit);
    }
  }

  /**
   * The local controller takes the rule text apart and installs the rates of
   * its operation, visiting the stages in some order.
   */
  ghost predicate Delivers(channels: Channels, text: string, done: seq<L.Install>) {
    var rules := EnforcementWire.ParseEnforcement(text);
    exists operation, envs: seq<int> ::
      && rules.Some? && rules.value.Keys == {operation}
      && Enumerates(envs, rules.value[operation].rates.Keys)
      && done == L.OperationInstalls(channels, operation, rules.value[operation], envs)
  }

  predicate Serves(channels: Channels, operation: string) {
    operation in channels && channels[operation] != []
  }

  lemma {:induction false} EnvInstallsShape(job: string, channels: seq<(int, int)>, rates: map<int, int>, envs: seq<int>, rate: int)
    requires forall e | e in envs :: e in rates && rates[e] == rate
    ensures var all := L.EnvInstalls(job, 0, channels, rates, envs);
      && |all| == |envs| * |channels|
      && forall i | 0 <= i < |all| :: all[i].limit == L.LimitPerChannel(rate, |channels|)
  {
    if envs == [] {
    } else {
      EnvInstallsShape(job, channels, rates, envs[1..], rate);
      Distribute(1, |envs| - 1, |channels|);
    }
  }

  /** What a printed rule makes a local controller install: the same limit at every channel. */
  lemma DeliveredShape(channels: Channels, app: string, operation: string, envs: seq<int>, rate: int, done: seq<L.Install>)
    requires EnforcementWire.Printable(app) && EnforcementWire.Printable(operation) && NoDuplicates(envs)
    requires Delivers(channels, EnforcementWire.Print(app, operation, envs, rate), done)
    ensures operation in channels ==>
      && |done| == |envs| * |channels[operation]|
      && forall i | 0 <= i < |done| :: done[i].limit == L.LimitPerChannel(rate, |channels[operation]|)
    ensures operation !in channels ==> done == []
  {
    EnforcementWire.RoundTrips(app, operation, envs, rate);
    var rule := EnforcementWire.OperationRule(0, app, EnforcementWire.Uniform(envs, rate));
    var op, order: seq<int> :| map[operation := rule].Keys == {op}
      && Enumerates(order, map[operation := rule][op].rates.Keys)
      && done == L.OperationInstalls(channels, op, map[operation := rule][op], order);
    assert op in map[operation := rule].Keys;
    EnumerationSize(order, rule.rates.Keys);
    EnumerationSize(envs, rule.rates.Keys);
    if operation in channels {
      EnvInstallsShape(app, channels[operation], rule.rates, order, rate);
    }
  }

  /**
   * Each channel of each stage named in the rule is set, to the limit of the stage
   * divided by its channels. By `DeliveredShape` nothing else is installed.
   */
  lemma EachChannelIsSet(channels: Channels, app: string, operation: string, envs: seq<int>, rate: int,
                         done: seq<L.Install>, env: int, n: nat)
    requires EnforcementWire.Printable(app) && EnforcementWire.Printable(operation) && NoDuplicates(envs)
    requires Delivers(channels, EnforcementWire.Print(app, operation, envs, rate), done)
    requires env in envs && operation in channels && n < |channels[operation]|
    ensures var objects := channels[operation];
      L.Install(Stage(app, env), 0, objects[n].0, objects[n].1, TruncDiv(rate, |objects|)) in done
  {
    EnforcementWire.RoundTrips(app, operation, envs, rate);
    var rule := EnforcementWire.OperationRule(0, app, EnforcementWire.Uniform(envs, rate));
    var op, order: seq<int> :| map[operation := rule].Keys == {op}
      && Enumerates(order, map[operation := rule][op].rates.Keys)
      && done == L.OperationInstalls(channels, op, map[operation := rule][op], order);
    assert op in map[operation := rule].Keys;
    assert env in rule.rates.Keys;
    var e :| 0 <= e < |order| && order[e] == env;
    hide Enumerates, Delivers;
    L.EnvInstallAt(app, 0, channels[operation], rule.rates, order, e, n);
  }

  lemma ChannelParts(envs: int, channels: int, rate: int)
    requires 0 <= envs && 0 < channels && 0 <= rate
    ensures envs * rate - envs * channels + envs <= (envs * channels) * (rate / channels) <= envs * rate
  {
    var part := rate / channels;
    DivBounds(rate, channels);
    assert (envs * channels) * part == (part * channels) * envs;
    MulMonotone(part * channels, rate, envs);
    MulMonotone(rate - channels + 1, part * channels, envs);
    Distribute(rate - channels, 1, envs);
    Distribute(rate, -channels, envs);
  }

  lemma StageParts(rate: int, stages: int)
    requires 0 < stages && 0 <= rate
    ensures stages * (rate / stages) <= rate < stages * (rate / stages) + stages
  {
    DivBounds(rate, stages);
  }

  /** One local controller: nothing is invented, and a channel loses less than one operation. */
  lemma SiteTotal(channels: Channels, app: string, operation: string, envs: seq<int>, rate: int, done: seq<L.Install>)
    requires EnforcementWire.Printable(app) && EnforcementWire.Printable(operation) && NoDuplicates(envs)
    requires 0 <= rate && Delivers(channels, EnforcementWire.Print(app, operation, envs, rate), done)
    ensures ReceivedTotal(done) <= |envs| * rate
    ensures Serves(channels, operation) ==>
      |envs| * rate - |done| + |envs| <= ReceivedTotal(done)
  {
    DeliveredShape(channels, app, operation, envs, rate, done);
    MulMonotone(0, rate, |envs|);
    if operation in channels {
      var n := |channels[operation]|;
      ReceivedEqual(done, L.LimitPerChannel(rate, n));
      if n > 0 {
        ChannelParts(|envs|, n, rate);
      }
    }
  }

  // ------------------------------------------------------------------
  // One job
  // ------------------------------------------------------------------

  /** Every local controller of the job received its rule and installed it. */
  ghost predicate JobDelivers(sites: map<string, Channels>, c: Core, o: Order, job: string, rate: int,
                              done: seq<seq<L.Install>>)
    requires Routable(c, o) && job in o.jobs
  {
    && |done| == |o.addresses[job]|
    && forall i | 0 <= i < |done| :: o.addresses[job][i] in sites
         && Delivers(sites[o.addresses[job][i]], RuleFor(c, o, job, rate, o.addresses[job][i]), done[i])
  }

  function Count(done: seq<seq<L.Install>>): nat {
    if done == [] then 0 else |done[0]| + Count(done[1..])
  }

  function Received(done: seq<seq<L.Install>>): int {
    if done == [] then 0 else ReceivedTotal(done[0]) + Received(done[1..])
  }

  /** The bounds of one local controller, as they add up over several. */
  ghost predicate Bounded(envs: seq<int>, rate: int, done: seq<L.Install>, served: bool) {
    && ReceivedTotal(done) <= |envs| * rate
    && (served ==> |envs| * rate - |done| + |envs| <= ReceivedTotal(done))
  }

  lemma {:induction false} SitesTotal(located: map<string, seq<int>>, addresses: seq<string>, rate: int,
                                      done: seq<seq<L.Install>>, served: bool)
    requires |done| == |addresses| && forall a | a in addresses :: a in located
    requires forall i | 0 <= i < |done| :: Bounded(located[addresses[i]], rate, done[i], served)
    ensures var n := StageCount(located, addresses);
      && Received(done) <= n * rate
      && (served ==> n * rate - Count(done) + n <= Received(done))
  {
    if done == [] {
    } else {
      SitesTotal(located, addresses[1..], rate, done[1..], served);
      assert Bounded(located[addresses[0]], rate, done[0], served);
      Distribute(|located[addresses[0]]|, StageCount(located, addresses[1..]), rate);
    }
  }

  ghost predicate AllServe(sites: map<string, Channels>, addresses: seq<string>, operation: string) {
    forall a | a in addresses :: a in sites && Serves(sites[a], operation)
  }

  predicate Nameable(c: Core, job: string) {
    EnforcementWire.Printable(job) && EnforcementWire.Printable(c.activeOperation)
  }

  /** The share of one stage, and that it is printed for the stages of each local controller. */
  lemma JobSite(sites: map<string, Channels>, c: Core, o: Order, job: string, rate: int, done: seq<seq<L.Install>>, i: nat)
    requires Tidy(c) && Routable(c, o) && job in o.jobs && Nameable(c, job)
    requires 0 <= rate && JobDelivers(sites, c, o, job, rate, done) && i < |done|
    ensures var a := o.addresses[job][i];
      var share := rate / StageCount(c.locations[job], o.addresses[job]);
      && NoDuplicates(c.locations[job][a]) && 0 <= share
      && Delivers(sites[a], EnforcementWire.Print(job, c.activeOperation, c.locations[job][a], share), done[i])
      && Bounded(c.locations[job][a], share, done[i], AllServe(sites, o.addresses[job], c.activeOperation))
  {
    var a := o.addresses[job][i];
    var k := StageCount(c.locations[job], o.addresses[job]);
    DivMonotone(0, rate, k);
    assert LimitPerStage(c, o, job, rate) == rate / k;
    assert Delivers(sites[a], RuleFor(c, o, job, rate, a), done[i]);
    SiteTotal(sites[a], job, c.activeOperation, c.locations[job][a], rate / k, done[i]);
  }

  /**
   * The limits received for a job add up to at most its rate; when every local
   * controller serves the operation, to more than the rate minus the number of
   * channels.
   */
  lemma JobTotal(sites: map<string, Channels>, c: Core, o: Order, job: string, rate: int, done: seq<seq<L.Install>>)
    requires Tidy(c) && Routable(c, o) && job in o.jobs && Nameable(c, job)
    requires 0 <= rate && JobDelivers(sites, c, o, job, rate, done)
    ensures Received(done) <= rate
    ensures AllServe(sites, o.addresses[job], c.activeOperation) ==> rate - Count(done) < Received(done)
  {
    var addresses, located := o.addresses[job], c.locations[job];
    var k := StageCount(located, addresses);
    var share := rate / k;
    var served := AllServe(sites, addresses, c.activeOperation);
    forall i | 0 <= i < |done|
      ensures Bounded(located[addresses[i]], share, done[i], served)
    {
      JobSite(sites, c, o, job, rate, done, i);
    }
    SitesTotal(located, addresses, share, done, served);
    StageParts(rate, k);
  }

  /** Dividing by the stages and then by the channels is dividing once by all the channels. */
  lemma JobLimits(sites: map<string, Channels>, c: Core, o: Order, job: string, rate: int, done: seq<seq<L.Install>>,
                  i: nat, n: nat)
    requires Tidy(c) && Routable(c, o) && job in o.jobs && Nameable(c, job)
    requires 0 <= rate && JobDelivers(sites, c, o, job, rate, done)
    requires i < |done| && n < |done[i]|
    ensures var channels := sites[o.addresses[job][i]];
      && Serves(channels, c.activeOperation)
      && var all := StageCount(c.locations[job], o.addresses[job]) * |channels[c.activeOperation]|;
      && 0 < all && ReceivedLimit(done[i][n]) == rate / all
  {
    var a := o.addresses[job][i];
    var k := StageCount(c.locations[job], o.addresses[job]);
    JobSite(sites, c, o, job, rate, done, i);
    DeliveredShape(sites[a], job, c.activeOperation, c.locations[job][a], rate / k, done[i]);
    L.StageRuleRoundTrip(done[i][n]);
    DivDiv(rate, k, |sites[a][c.activeOperation]|);
  }

  // ------------------------------------------------------------------
  // All jobs
  // ------------------------------------------------------------------

  function CountAll(done: seq<seq<seq<L.Install>>>): nat {
    if done == [] then 0 else Count(done[0]) + CountAll(done[1..])
  }

  function ReceivedAll(done: seq<seq<seq<L.Install>>>): int {
    if done == [] then 0 else Received(done[0]) + ReceivedAll(done[1..])
  }

  lemma {:induction false} RatesTotal(rates: seq<int>, done: seq<seq<seq<L.Install>>>, served: bool)
    requires |done| == |rates|
    requires forall i | 0 <= i < |rates| ::
      Received(done[i]) <= rates[i] && (served ==> rates[i] - Count(done[i]) < Received(done[i]))
    ensures ReceivedAll(done) <= Sum(rates)
    ensures served ==> Sum(rates) - CountAll(done) + |rates| <= ReceivedAll(done)
  {
    if done == [] {
    } else {
      RatesTotal(rates[1..], done[1..], served);
    }
  }

  /** The rates of a vanilla round, enforced for every job and installed by every local controller. */
  ghost predicate RoundDelivers(sites: map<string, Channels>, c: Core, o: Order, done: seq<seq<seq<L.Install>>>)
    requires Ready(c, o) && Routable(c, o)
  {
    && |done| == |o.jobs|
    && forall i | 0 <= i < |done| :: JobDelivers(sites, c, o, o.jobs[i], VanillaRates(c, o)[i], done[i])
  }

  lemma FirstPhaseNonNegative(limit: int, demands: seq<int>, i: nat)
    requires Vanilla.Shareable(limit, demands) && i < |demands| && -1 <= demands[i]
    ensures 0 <= Vanilla.FirstPhase(limit, demands)[i]
  {
    Vanilla.GuaranteedShare(limit, demands, i);
    DivMonotone(0, limit, |demands|);
    assert 0 <= limit / |demands|;
  }

  lemma ComputedNonNegative(limit: int, demands: seq<int>, i: nat)
    requires Vanilla.Shareable(limit, demands) && i < |demands| && -1 <= demands[i]
    ensures 0 <= Vanilla.Computed(limit, demands)[i]
  {
    FirstPhaseNonNegative(limit, demands, i);
    Vanilla.LeftoverNonNegative(limit, demands);
    DivMonotone(0, Vanilla.Leftover(limit, demands), |demands|);
  }

  /**
   * Freshly computed vanilla rates: over all channels of all stages of all jobs
   * the stages receive at most the limit, and less than one operation a channel
   * is lost when every local controller serves the operation.
   */
  lemma VanillaInstallsTheLimit(sites: map<string, Channels>, c: Core, o: Order, done: seq<seq<seq<L.Install>>>)
    requires Ready(c, o) && Routable(c, o) && RoundDelivers(sites, c, o, done) && o.jobs != []
    requires forall j | j in o.jobs :: Nameable(c, j) && -1 <= c.demands[j]
    requires Vanilla.Shareable(c.limit, Values(c.demands, o.jobs))
    ensures ReceivedAll(done) <= c.limit
    ensures (forall j | j in o.jobs :: AllServe(sites, o.addresses[j], c.activeOperation)) ==>
      c.limit - CountAll(done) < ReceivedAll(done)
  {
    var demands := Values(c.demands, o.jobs);
    var rates := VanillaRates(c, o);
    var served := forall j | j in o.jobs :: AllServe(sites, o.addresses[j], c.activeOperation);
    Vanilla.Conservation(c.limit, demands);
    forall i | 0 <= i < |rates|
      ensures Received(done[i]) <= rates[i] && (served ==> rates[i] - Count(done[i]) < Received(done[i]))
    {
      assert o.jobs[i] in o.jobs;
      ComputedNonNegative(c.limit, demands, i);
      JobTotal(sites, c, o, o.jobs[i], rates[i], done[i]);
    }
    RatesTotal(rates, done, served);
  }
}
