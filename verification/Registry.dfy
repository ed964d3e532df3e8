/**
 * The core controller's registry of stages: three redundant indexes of one set
 * of live stages, the sessions of the local controllers and the per-job maps.
 * The functions are the effect of each operation on the whole state.
 */
module Registry {
  import opened Arithmetic
  import opened Decimal
  import opened Sequences

  /** A data plane stage: the job it belongs to and its environment number. */
  datatype Stage = Stage(job: string, env: int)

  datatype StageInfo = StageInfo(stage: Stage, address: string)

  /** The string under which a stage is indexed. */
  function Key(s: Stage): string {
    s.job + "+" + Text(s.env)
  }

  /** Distinct stages have distinct keys, whatever the job name. */
  lemma KeyIsInjective(s: Stage, t: Stage)
    requires Key(s) == Key(t)
    ensures s == t
  {
    TextIsFree(s.env, '+');
    TextIsFree(t.env, '+');
    LastSeparator(s.job, Text(s.env), t.job, Text(t.env));
    ParseText(s.env);
    ParseText(t.env);
  }

  /** A name and a plus-free suffix are recovered from their concatenation. */
  lemma LastSeparator(a: string, b: string, c: string, d: string)
    requires a + "+" + b == c + "+" + d && '+' !in b && '+' !in d
    ensures a == c && b == d
  {
    var s := a + "+" + b;
    SeparatorIsLast(a, b);
    SeparatorIsLast(c, d);
    assert s[|a|] == '+' && s[|c|] == '+';
    assert a == s[..|a|] && c == s[..|c|];
    assert b == s[|a| + 1..] && d == s[|c| + 1..];
  }

  lemma SeparatorIsLast(a: string, b: string)
    requires '+' !in b
    ensures var s := a + "+" + b;
      s[|a|] == '+' && forall k | |a| < k < |s| :: s[k] != '+'
  {
    var s := a + "+" + b;
    forall k | |a| < k < |s|
      ensures s[k] != '+'
    {
      assert s[k] == b[k - |a| - 1];
    }
  }

  datatype Core = Core(
    limit: int,
    sessions: set<string>,
    localToStages: map<string, seq<Stage>>,
    info: map<Stage, StageInfo>,
    locations: map<string, map<string, seq<int>>>,
    demands: map<string, int>,
    rates: map<string, int>,
    previous: map<string, int>,
    changed: bool,
    activeLocals: int,
    activeOperation: string)

  function Initial(limit: int, operation: string): Core {
    Core(limit, {}, map[], map[], map[], map[], map[], map[], false, 0, operation)
  }

  // ------------------------------------------------------------------
  // Operations
  // ------------------------------------------------------------------

  /** unordered_map::emplace: an existing entry is kept. */
  function Emplace<K, V>(m: map<K, V>, k: K, v: V): map<K, V> {
    if k in m then m else m[k := v]
  }

  function RegisterLocal(c: Core, address: string): Core {
    c.(sessions := c.sessions + {address},
       localToStages := Emplace(c.localToStages, address, []),
       activeLocals := c.activeLocals + 1)
  }

  function AddEnv(addresses: map<string, seq<int>>, address: string, env: int): map<string, seq<int>> {
    if address in addresses
    then addresses[address := addresses[address] + [env]]
    else addresses[address := [env]]
  }

  function ListStage(lists: map<string, seq<Stage>>, address: string, s: Stage): map<string, seq<Stage>> {
    if address in lists
    then lists[address := lists[address] + [s]]
    else lists[address := [s]]
  }

  function RegisterStage(c: Core, i: StageInfo): Core {
    var job := i.stage.job;
    var known := job in c.locations;
    c.(locations := c.locations[job := AddEnv(if known then c.locations[job] else map[], i.address, i.stage.env)],
       demands := if known then c.demands else Emplace(c.demands, job, -1),
       previous := if known then c.previous else Emplace(c.previous, job, 0),
       rates := if known then c.rates else Emplace(c.rates, job, -1),
       localToStages := ListStage(c.localToStages, i.address, i.stage),
       info := c.info[i.stage := i],
       changed := true)
  }

  /** The map lookups that would throw in remove_stage. */
  predicate Removable(c: Core, s: Stage) {
    && s in c.info
    && c.info[s].stage.job in c.locations
    && c.info[s].address in c.locations[c.info[s].stage.job]
  }

  function RemoveEnv(addresses: map<string, seq<int>>, address: string, env: int): map<string, seq<int>>
    requires address in addresses
  {
    var envs := Without(addresses[address], env);
    if envs == [] then addresses - {address} else addresses[address := envs]
  }

  function RemoveStage(c: Core, s: Stage): Core
    requires Removable(c, s)
  {
    var i := c.info[s];
    var job := i.stage.job;
    var addresses := RemoveEnv(c.locations[job], i.address, i.stage.env);
    var gone := if addresses == map[] then {job} else {};
    c.(locations := if addresses == map[] then c.locations - {job} else c.locations[job := addresses],
       rates := c.rates - gone,
       previous := c.previous - gone,
       demands := c.demands - gone,
       info := c.info - {s},
       changed := true)
  }

  function Unlist(lists: map<string, seq<Stage>>, address: string, s: Stage): map<string, seq<Stage>>
    requires address in lists
  {
    var stages := Without(lists[address], s);
    if stages == [] then lists - {address} else lists[address := stages]
  }

  /** A failed stage (-1 in the statistics) leaves the registry and the list of its local controller. */
  function DropStage(c: Core, address: string, s: Stage): Core
    requires Removable(c, s) && address in c.localToStages
  {
    var c' := RemoveStage(c, s);
    c'.(localToStages := Unlist(c'.localToStages, address, s))
  }

  // ------------------------------------------------------------------
  // Consistency
  // ------------------------------------------------------------------

  predicate Located(c: Core, s: Stage, address: string) {
    s.job in c.locations && address in c.locations[s.job] && s.env in c.locations[s.job][address]
  }

  predicate Listed(c: Core, s: Stage, address: string) {
    address in c.localToStages && s in c.localToStages[address]
  }

  predicate Informed(c: Core, s: Stage, address: string) {
    s in c.info && c.info[s] == StageInfo(s, address)
  }

  /** The three indexes describe the same stages at the same local controllers. */
  ghost predicate IndexesAgree(c: Core) {
    && (forall s, a :: Located(c, s, a) <==> Informed(c, s, a))
    && (forall s, a :: Listed(c, s, a) <==> Informed(c, s, a))
    && (forall s | s in c.info :: c.info[s].stage == s)
  }

  /** No empty vector, no empty map, no stage listed twice. */
  ghost predicate Tidy(c: Core) {
    && (forall j | j in c.locations :: c.locations[j] != map[])
    && (forall j, a | j in c.locations && a in c.locations[j] ::
          c.locations[j][a] != [] && NoDuplicates(c.locations[j][a]))
    && (forall a | a in c.localToStages :: NoDuplicates(c.localToStages[a]))
  }

  /** Every tracked job has its demand and rates; previous rates exist for no other job. */
  ghost predicate JobsTracked(c: Core) {
    && c.previous.Keys == c.locations.Keys
    && c.locations.Keys <= c.demands.Keys
    && c.locations.Keys <= c.rates.Keys
  }

  ghost predicate Consistent(c: Core) {
    IndexesAgree(c) && Tidy(c) && JobsTracked(c)
  }

  /** Sessions and stage lists are kept for the same local controllers, and counted. */
  ghost predicate SessionsAgree(c: Core) {
    c.sessions == c.localToStages.Keys && c.activeLocals == |c.sessions|
  }

  lemma InitialIsConsistent(limit: int, operation: string)
    ensures Consistent(Initial(limit, operation)) && SessionsAgree(Initial(limit, operation))
  {
  }

  lemma RegisterLocalKeeps(c: Core, address: string)
    requires Consistent(c) && SessionsAgree(c) && address !in c.sessions
    ensures Consistent(RegisterLocal(c, address)) && SessionsAgree(RegisterLocal(c, address))
  {
    RegisterLocalIndexes(c, address);
    RegisterLocalTidy(c, address);
    RegisterLocalSessions(c, address);
  }

  lemma RegisterLocalIndexes(c: Core, address: string)
    requires IndexesAgree(c)
    ensures IndexesAgree(RegisterLocal(c, address))
  {
    var d := RegisterLocal(c, address);
    forall s, a
      ensures Listed(d, s, a) <==> Listed(c, s, a)
    {
    }
    assert forall s, a :: Informed(d, s, a) == Informed(c, s, a);
    assert forall s, a :: Located(d, s, a) == Located(c, s, a);
  }

  /** The counter of active local controllers stays exact only for an address not yet registered. */
  lemma RegisterLocalSessions(c: Core, address: string)
    requires SessionsAgree(c)
    ensures SessionsAgree(RegisterLocal(c, address)) <==> address !in c.sessions
  {
    var d := RegisterLocal(c, address);
    assert d.localToStages.Keys == c.localToStages.Keys + {address};
    assert address in c.sessions ==> d.sessions == c.sessions;
  }

  lemma RegisterLocalTidy(c: Core, address: string)
    requires Tidy(c) && address !in c.localToStages
    ensures Tidy(RegisterLocal(c, address))
  {
  }

  lemma RegisteredLocated(c: Core, i: StageInfo, s: Stage, a: string)
    ensures Located(RegisterStage(c, i), s, a) <==> (Located(c, s, a) || (s == i.stage && a == i.address))
  {
  }

  lemma RegisteredListed(c: Core, i: StageInfo, s: Stage, a: string)
    ensures Listed(RegisterStage(c, i), s, a) <==> (Listed(c, s, a) || (s == i.stage && a == i.address))
  {
  }

  lemma RegisteredInformed(c: Core, i: StageInfo, s: Stage, a: string)
    requires i.stage !in c.info
    ensures Informed(RegisterStage(c, i), s, a) <==> (Informed(c, s, a) || (s == i.stage && a == i.address))
  {
  }

  lemma RegisterStageIndexes(c: Core, i: StageInfo)
    requires IndexesAgree(c) && i.stage !in c.info
    ensures IndexesAgree(RegisterStage(c, i))
  {
    var d := RegisterStage(c, i);
    assert d.info == c.info[i.stage := i];
    forall s, a
      ensures Located(d, s, a) <==> Informed(d, s, a)
      ensures Listed(d, s, a) <==> Informed(d, s, a)
    {
      RegisteredLocated(c, i, s, a);
      RegisteredListed(c, i, s, a);
      RegisteredInformed(c, i, s, a);
    }
  }

  lemma RegisterStageTidy(c: Core, i: StageInfo)
    requires Tidy(c) && !Located(c, i.stage, i.address) && !Listed(c, i.stage, i.address)
    ensures Tidy(RegisterStage(c, i))
  {
    var d := RegisterStage(c, i);
    forall j, a | j in d.locations && a in d.locations[j]
      ensures d.locations[j][a] != [] && NoDuplicates(d.locations[j][a])
    {
      if j == i.stage.job && a == i.address && j in c.locations && a in c.locations[j] {
        AppendKeepsApart(c.locations[j][a], i.stage.env);
      }
    }
    forall a | a in d.localToStages
      ensures NoDuplicates(d.localToStages[a])
    {
      if a == i.address && a in c.localToStages {
        AppendKeepsApart(c.localToStages[a], i.stage);
      }
    }
    assert i.address in d.locations[i.stage.job];
  }

  lemma RegisterStageTracks(c: Core, i: StageInfo)
    requires JobsTracked(c)
    ensures JobsTracked(RegisterStage(c, i))
  {
  }

  lemma RegisterStageKeeps(c: Core, i: StageInfo)
    requires Consistent(c) && i.stage !in c.info
    ensures Consistent(RegisterStage(c, i))
  {
    assert !Informed(c, i.stage, i.address);
    RegisterStageIndexes(c, i);
    RegisterStageTidy(c, i);
    RegisterStageTracks(c, i);
  }

  lemma RegisterStageSessions(c: Core, i: StageInfo)
    requires SessionsAgree(c)
    ensures SessionsAgree(RegisterStage(c, i)) <==> i.address in c.sessions
  {
    assert i.address in RegisterStage(c, i).localToStages;
  }

  /** Removing an env from the addresses of a job removes exactly that entry. */
  lemma RemoveEnvMembers(addresses: map<string, seq<int>>, address: string, env: int)
    requires address in addresses
    ensures var r := RemoveEnv(addresses, address, env);
      forall a, e :: (a in r && e in r[a]) <==> (a in addresses && e in addresses[a] && !(a == address && e == env))
  {
    var envs := Without(addresses[address], env);
    assert forall e :: e in addresses[address] && e != env ==> e in envs;
  }

  lemma DropStageLocated(c: Core, address: string, s: Stage)
    requires Consistent(c) && Informed(c, s, address) && Removable(c, s) && address in c.localToStages
    ensures forall t, a :: Located(DropStage(c, address, s), t, a) <==> Located(c, t, a) && t != s
  {
    var d := DropStage(c, address, s);
    RemoveEnvMembers(c.locations[s.job], address, s.env);
    var r := RemoveEnv(c.locations[s.job], address, s.env);
    forall t, a
      ensures Located(d, t, a) <==> Located(c, t, a) && t != s
    {
      assert Located(c, s, a) ==> Informed(c, s, a);
      if t.job == s.job {
        assert (a in r && t.env in r[a]) <==> (a in c.locations[s.job] && t.env in c.locations[s.job][a] && !(a == address && t.env == s.env));
      }
    }
  }

  lemma DropStageListed(c: Core, address: string, s: Stage)
    requires Consistent(c) && Informed(c, s, address) && Removable(c, s) && address in c.localToStages
    ensures forall t, a :: Listed(DropStage(c, address, s), t, a) <==> Listed(c, t, a) && t != s
  {
    var d := DropStage(c, address, s);
    forall t, a
      ensures Listed(d, t, a) <==> Listed(c, t, a) && t != s
    {
      assert Listed(c, s, a) ==> Informed(c, s, a);
    }
  }

  lemma DropStageIndexes(c: Core, address: string, s: Stage)
    requires Consistent(c) && Informed(c, s, address)
    ensures Removable(c, s) && address in c.localToStages
    ensures IndexesAgree(DropStage(c, address, s))
    ensures forall t, a :: Informed(DropStage(c, address, s), t, a) <==> Informed(c, t, a) && t != s
  {
    assert Located(c, s, address) && Listed(c, s, address);
    DropStageLocated(c, address, s);
    DropStageListed(c, address, s);
  }

  lemma DropStageTidy(c: Core, address: string, s: Stage)
    requires Tidy(c) && Removable(c, s) && address in c.localToStages
    ensures Tidy(DropStage(c, address, s))
  {
    var d := DropStage(c, address, s);
    var i := c.info[s];
    forall j, a | j in d.locations && a in d.locations[j]
      ensures d.locations[j][a] != [] && NoDuplicates(d.locations[j][a])
    {
      if j == i.stage.job && a == i.address {
        WithoutKeepsApart(c.locations[j][a], i.stage.env);
      }
    }
    forall a | a in d.localToStages
      ensures NoDuplicates(d.localToStages[a])
    {
      if a == address {
        WithoutKeepsApart(c.localToStages[a], s);
      }
    }
  }

  /** Dropping a failed stage keeps the registry consistent; no lookup of the removal can fail. */
  lemma DropStageKeeps(c: Core, address: string, s: Stage)
    requires Consistent(c) && Informed(c, s, address)
    ensures Removable(c, s) && address in c.localToStages
    ensures Consistent(DropStage(c, address, s))
    ensures forall t, a :: Informed(DropStage(c, address, s), t, a) <==> Informed(c, t, a) && t != s
  {
    DropStageIndexes(c, address, s);
    DropStageTidy(c, address, s);
  }

  // ------------------------------------------------------------------
  // Demands and rates of jobs that come and go
  // ------------------------------------------------------------------

  /** Two maps agree on a key: both have it, with the same value, or neither has it. */
  predicate SameAt(m: map<string, int>, n: map<string, int>, k: string) {
    (k in m <==> k in n) && (k in m ==> m[k] == n[k])
  }

  predicate AllSameAt(c: Core, d: Core, j: string) {
    SameAt(c.demands, d.demands, j) && SameAt(c.rates, d.rates, j) && SameAt(c.previous, d.previous, j)
  }

  predicate Forgotten(c: Core, j: string) {
    j !in c.demands && j !in c.rates && j !in c.previous
  }

  /** The stage is the only one of its job. */
  ghost predicate OnlyStage(c: Core, s: Stage) {
    forall t, a | Located(c, t, a) :: t.job == s.job ==> t == s
  }

  /** After a removal the job is tracked exactly if a stage of it is left. */
  lemma LastStageLeaves(c: Core, address: string, s: Stage)
    requires Consistent(c) && Informed(c, s, address)
    ensures Removable(c, s) && address in c.localToStages
    ensures var d := DropStage(c, address, s);
      && (s.job in d.locations <==> !OnlyStage(c, s))
      && (forall j | j != s.job :: j in d.locations <==> j in c.locations)
  {
    DropStageKeeps(c, address, s);
    var d := DropStage(c, address, s);
    if s.job in d.locations {
      var a :| a in d.locations[s.job];
      var t := Stage(s.job, d.locations[s.job][a][0]);
      assert Located(d, t, a);
      assert Informed(d, t, a) && Informed(c, t, a) && t != s;
      assert Located(c, t, a);
    }
    if !OnlyStage(c, s) {
      var t, a :| Located(c, t, a) && t.job == s.job && t != s;
      assert Informed(c, t, a) && Informed(d, t, a);
      assert Located(d, t, a);
    }
  }

  /**
   * Removing the only stage of a job forgets its demand, its rate and its enforced
   * rate; removing another stage leaves all three alone, and other jobs are never
   * concerned.
   */
  lemma DropStageMaps(c: Core, address: string, s: Stage)
    requires Consistent(c) && Informed(c, s, address)
    ensures Removable(c, s) && address in c.localToStages
    ensures var d := DropStage(c, address, s);
      && (OnlyStage(c, s) ==> Forgotten(d, s.job))
      && (!OnlyStage(c, s) ==> d.demands == c.demands && d.rates == c.rates && d.previous == c.previous)
      && (forall j | j != s.job :: AllSameAt(c, d, j))
      && d.sessions == c.sessions && d.limit == c.limit && d.activeLocals == c.activeLocals
      && d.activeOperation == c.activeOperation && d.changed
  {
    LastStageLeaves(c, address, s);
    hide IndexesAgree, Tidy, JobsTracked, OnlyStage, Located;
  }

  /** A job that lost its last stage and comes back has no demand, and nothing is enforced. */
  lemma ComesBackUnset(c: Core, address: string, s: Stage, i: StageInfo)
    requires Consistent(c) && Informed(c, s, address) && OnlyStage(c, s) && i.stage.job == s.job
    ensures Removable(c, s) && address in c.localToStages
    ensures var d := RegisterStage(DropStage(c, address, s), i);
      && s.job in d.demands && d.demands[s.job] == -1
      && s.job in d.rates && d.rates[s.job] == -1
      && s.job in d.previous && d.previous[s.job] == 0
  {
    LastStageLeaves(c, address, s);
    DropStageMaps(c, address, s);
    hide IndexesAgree, Tidy, JobsTracked, OnlyStage, Located, DropStage;
  }

  /** What a registration stores: a new job keeps what was stored for it, or starts with -1, 0 and -1. */
  lemma RegisterStageMaps(c: Core, i: StageInfo)
    ensures var d, job := RegisterStage(c, i), i.stage.job;
      && (job in c.locations ==> d.demands == c.demands && d.rates == c.rates && d.previous == c.previous)
      && (job !in c.locations ==>
            && job in d.demands && d.demands[job] == (if job in c.demands then c.demands[job] else -1)
            && job in d.rates && d.rates[job] == (if job in c.rates then c.rates[job] else -1)
            && job in d.previous && d.previous[job] == (if job in c.previous then c.previous[job] else 0))
      && (forall j | j != job :: AllSameAt(c, d, j))
      && d.limit == c.limit && d.sessions == c.sessions && d.activeLocals == c.activeLocals
      && d.activeOperation == c.activeOperation && d.changed
  {
  }

  /** A local controller that joins gets a session and an empty list, keeps a list it had, and nothing else changes. */
  lemma RegisterLocalPlaces(c: Core, address: string, l: string)
    ensures var d := RegisterLocal(c, address);
      && (l in d.sessions <==> l in c.sessions || l == address)
      && (l in d.localToStages <==> l in c.localToStages || l == address)
      && (l in d.localToStages ==> d.localToStages[l] == if l in c.localToStages then c.localToStages[l] else [])
      && d == c.(sessions := d.sessions, localToStages := d.localToStages, activeLocals := c.activeLocals + 1)
  {
  }

  /** Where a registration stores the stage: last at its address, in both indexes. */
  lemma RegisterStagePlaces(c: Core, i: StageInfo)
    ensures var d, job, a := RegisterStage(c, i), i.stage.job, i.address;
      && job in d.locations && a in d.locations[job]
      && d.locations[job][a] == (if job in c.locations && a in c.locations[job] then c.locations[job][a] else []) + [i.stage.env]
      && a in d.localToStages
      && d.localToStages[a] == (if a in c.localToStages then c.localToStages[a] else []) + [i.stage]
      && i.stage in d.info && d.info[i.stage] == i
  {
  }
}
