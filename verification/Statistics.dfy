/** Collecting statistics in the core controller: failed stages and silent local controllers leave the registry. */
module Statistics {
  import opened Sequences
  import opened Registry

  /** One entry of a statistics reply; rate -1 reports a failed stage. */
  datatype Sample = Sample(stage: Stage, rate: int)

  /** A reply of local controller `address` names stages registered for it, each once. */
  ghost predicate FromLocal(c: Core, address: string, reply: seq<Sample>) {
    && (forall i | 0 <= i < |reply| :: Informed(c, reply[i].stage, address))
    && (forall i, j | 0 <= i < j < |reply| :: reply[i].stage != reply[j].stage)
  }

  predicate Failed(reply: seq<Sample>, s: Stage) {
    Sample(s, -1) in reply
  }

  ghost predicate SubMap(m: map<string, int>, n: map<string, int>) {
    forall k | k in m :: k in n && m[k] == n[k]
  }

  /** Of the stage lists only that of `address` may differ; jobs may only disappear. */
  ghost predicate OnlyTouches(c: Core, d: Core, address: string) {
    && d.localToStages.Keys <= c.localToStages.Keys <= d.localToStages.Keys + {address}
    && (forall a | a in d.localToStages && a != address :: d.localToStages[a] == c.localToStages[a])
    && d.sessions == c.sessions && d.activeLocals == c.activeLocals
    && d.limit == c.limit && d.activeOperation == c.activeOperation
    && (d == c || d.changed)
    && SubMap(d.previous, c.previous) && SubMap(d.demands, c.demands)
  }

  ghost function DropFailed(c: Core, address: string, reply: seq<Sample>): Core
    requires Consistent(c) && FromLocal(c, address, reply)
    decreases |reply|
  {
    if reply == [] then c
    else if reply[0].rate == -1 then
      DropStageKeeps(c, address, reply[0].stage);
      DropFailed(DropStage(c, address, reply[0].stage), address, reply[1..])
    else
      DropFailed(c, address, reply[1..])
  }

  /** An empty reply stands for a lost local controller: all its stages are dropped. */
  function AllFailed(stages: seq<Stage>): (r: seq<Sample>)
    ensures |r| == |stages|
    ensures forall i | 0 <= i < |r| :: r[i] == Sample(stages[i], -1)
  {
    seq(|stages|, i requires 0 <= i < |stages| => Sample(stages[i], -1))
  }

  lemma ListedAreFromLocal(c: Core, address: string)
    requires Consistent(c) && address in c.localToStages
    ensures FromLocal(c, address, AllFailed(c.localToStages[address]))
  {
    forall i | 0 <= i < |c.localToStages[address]|
      ensures Informed(c, c.localToStages[address][i], address)
    {
      assert Listed(c, c.localToStages[address][i], address);
    }
  }

  ghost function CollectResult(c: Core, address: string, reply: seq<Sample>): Core
    requires Consistent(c) && FromLocal(c, address, reply) && address in c.localToStages
  {
    if reply == [] then
      ListedAreFromLocal(c, address);
      DropFailed(c, address, AllFailed(c.localToStages[address]))
    else
      DropFailed(c, address, reply)
  }

  lemma FailedStep(reply: seq<Sample>, t: Stage)
    requires reply != []
    ensures Failed(reply, t) <==> reply[0] == Sample(t, -1) || Failed(reply[1..], t)
  {
    assert reply == [reply[0]] + reply[1..];
  }

  /** Processing a reply removes exactly the failed stages. */
  lemma {:induction false} DropFailedKeeps(c: Core, address: string, reply: seq<Sample>)
    requires Consistent(c) && FromLocal(c, address, reply)
    ensures Consistent(DropFailed(c, address, reply))
    ensures forall t, a :: Informed(DropFailed(c, address, reply), t, a) <==> Informed(c, t, a) && !Failed(reply, t)
    decreases |reply|
  {
    if reply == [] {
    } else {
      var c' := c;
      if reply[0].rate == -1 {
        DropStageKeeps(c, address, reply[0].stage);
        c' := DropStage(c, address, reply[0].stage);
      }
      DropFailedKeeps(c', address, reply[1..]);
      forall t, a
        ensures Informed(DropFailed(c, address, reply), t, a) <==> Informed(c, t, a) && !Failed(reply, t)
      {
        FailedStep(reply, t);
      }
    }
  }

  /** What processing a reply leaves alone. */
  lemma {:induction false} DropFailedFrame(c: Core, address: string, reply: seq<Sample>)
    requires Consistent(c) && FromLocal(c, address, reply)
    ensures OnlyTouches(c, DropFailed(c, address, reply), address)
    decreases |reply|
  {
    if reply == [] {
    } else {
      if reply[0].rate == -1 {
        DropStageKeeps(c, address, reply[0].stage);
        var c' := DropStage(c, address, reply[0].stage);
        DropFailedFrame(c', address, reply[1..]);
        DropFailedChanges(c', address, reply[1..]);
      } else {
        DropFailedFrame(c, address, reply[1..]);
      }
    }
  }

  lemma {:induction false} DropFailedChanges(c: Core, address: string, reply: seq<Sample>)
    requires Consistent(c) && FromLocal(c, address, reply) && c.changed
    ensures DropFailed(c, address, reply).changed
    decreases |reply|
  {
    if reply == [] {
    } else {
      if reply[0].rate == -1 {
        DropStageKeeps(c, address, reply[0].stage);
        DropFailedChanges(DropStage(c, address, reply[0].stage), address, reply[1..]);
      } else {
        DropFailedChanges(c, address, reply[1..]);
      }
    }
  }

  /** A stage list is erased as soon as it is empty. */
  lemma {:induction false} DropFailedErases(c: Core, address: string, reply: seq<Sample>)
    requires Consistent(c) && FromLocal(c, address, reply)
    requires address in c.localToStages ==> c.localToStages[address] != []
    ensures var d := DropFailed(c, address, reply);
      address in d.localToStages ==> d.localToStages[address] != []
    decreases |reply|
  {
    if reply == [] {
    } else {
      if reply[0].rate == -1 {
        DropStageKeeps(c, address, reply[0].stage);
        DropFailedErases(DropStage(c, address, reply[0].stage), address, reply[1..]);
      } else {
        DropFailedErases(c, address, reply[1..]);
      }
    }
  }

  lemma AllFailedExactly(c: Core, address: string)
    requires Consistent(c) && address in c.localToStages
    ensures forall t, a | Informed(c, t, a) :: Failed(AllFailed(c.localToStages[address]), t) <==> a == address
  {
    var stages := c.localToStages[address];
    forall t, a | Informed(c, t, a)
      ensures Failed(AllFailed(stages), t) <==> a == address
    {
      assert Listed(c, t, a);
      if t in stages {
        var k :| 0 <= k < |stages| && stages[k] == t;
        assert AllFailed(stages)[k] == Sample(t, -1);
        assert Listed(c, t, address);
      }
    }
  }

  lemma PresentWithStages(d: Core, address: string)
    requires Consistent(d) && (address in d.localToStages ==> d.localToStages[address] != [])
    ensures address in d.localToStages <==> exists t :: Informed(d, t, address)
  {
    if address in d.localToStages {
      assert Listed(d, d.localToStages[address][0], address);
    }
    forall t | Informed(d, t, address)
      ensures address in d.localToStages
    {
      assert Listed(d, t, address);
    }
  }

  predicate Removed(reply: seq<Sample>, address: string, t: Stage, a: string) {
    if reply == [] then a == address else Failed(reply, t)
  }

  /** The outcome of one reply: who leaves, and when the local controller is dropped. */
  lemma CollectResultKeeps(c: Core, address: string, reply: seq<Sample>)
    requires Consistent(c) && FromLocal(c, address, reply)
    requires address in c.localToStages && c.localToStages[address] != []
    ensures var d := CollectResult(c, address, reply);
      && Consistent(d) && OnlyTouches(c, d, address)
      && (forall t, a :: Informed(d, t, a) <==> Informed(c, t, a) && !Removed(reply, address, t, a))
      && (address in d.localToStages <==> exists t :: Informed(d, t, address))
      && (address in d.localToStages ==> d.localToStages[address] != [])
  {
    ListedAreFromLocal(c, address);
    AllFailedExactly(c, address);
    var samples := if reply == [] then AllFailed(c.localToStages[address]) else reply;
    DropFailedKeeps(c, address, samples);
    DropFailedFrame(c, address, samples);
    DropFailedErases(c, address, samples);
    PresentWithStages(CollectResult(c, address, reply), address);
  }

  // ------------------------------------------------------------------
  // All local controllers of a round
  // ------------------------------------------------------------------

  /** Only local controllers with stages are asked for statistics. */
  predicate Asked(c: Core, address: string) {
    address in c.localToStages && c.localToStages[address] != []
  }

  /** The sessions with stages, in the order they are walked over. */
  function WithStages(lists: map<string, seq<Stage>>, sessions: seq<string>): seq<string> {
    if sessions == [] then []
    else
      var rest, last := WithStages(lists, sessions[..|sessions| - 1]), sessions[|sessions| - 1];
      if last in lists && lists[last] != [] then rest + [last] else rest
  }

  ghost predicate Answered(c: Core, locals: seq<string>, replies: map<string, seq<Sample>>) {
    NoDuplicates(locals)
    && forall a | a in locals && Asked(c, a) :: a in replies && FromLocal(c, a, replies[a])
  }

  lemma AnsweredLater(c: Core, locals: seq<string>, replies: map<string, seq<Sample>>)
    requires Consistent(c) && Answered(c, locals, replies) && locals != []
    ensures Asked(c, locals[0]) ==>
      Answered(CollectResult(c, locals[0], replies[locals[0]]), locals[1..], replies)
    ensures Answered(c, locals[1..], replies)
  {
    var address := locals[0];
    if Asked(c, address) {
      var reply := replies[address];
      var d := CollectResult(c, address, reply);
      CollectResultKeeps(c, address, reply);
      forall a | a in locals[1..] && Asked(d, a)
        ensures a in replies && FromLocal(d, a, replies[a])
      {
        TailMembers(locals, a);
        assert Asked(c, a);
        forall i | 0 <= i < |replies[a]|
          ensures Informed(d, replies[a][i].stage, a)
        {
          StillInformed(c, address, reply, replies[a][i].stage, a);
        }
      }
    }
    forall a | a in locals[1..]
      ensures a in locals
    {
      TailMembers(locals, a);
    }
  }

  lemma StillInformed(c: Core, address: string, reply: seq<Sample>, s: Stage, a: string)
    requires Consistent(c) && FromLocal(c, address, reply)
    requires Informed(c, s, a) && a != address
    ensures !Removed(reply, address, s, a)
  {
    assert forall k | 0 <= k < |reply| :: Informed(c, reply[k].stage, address);
  }

  ghost function Collect(c: Core, locals: seq<string>, replies: map<string, seq<Sample>>): Core
    requires Consistent(c) && Answered(c, locals, replies)
    decreases |locals|
  {
    if locals == [] then c
    else
      AnsweredLater(c, locals, replies);
      if Asked(c, locals[0]) then
        CollectResultKeeps(c, locals[0], replies[locals[0]]);
        Collect(CollectResult(c, locals[0], replies[locals[0]]), locals[1..], replies)
      else
        Collect(c, locals[1..], replies)
  }

  /** The sessions of the local controllers left without stages are deleted at the end. */
  function DeleteSessions(c: Core, gone: set<string>): Core {
    c.(sessions := c.sessions - gone, activeLocals := c.activeLocals - |gone|)
  }

  ghost function CollectAll(c: Core, locals: seq<string>, replies: map<string, seq<Sample>>): Core
    requires Consistent(c) && Answered(c, locals, replies)
  {
    var d := Collect(c, locals, replies);
    DeleteSessions(d, c.localToStages.Keys - d.localToStages.Keys)
  }

  ghost predicate Shrinks(c: Core, d: Core) {
    && d.localToStages.Keys <= c.localToStages.Keys
    && d.limit == c.limit && d.activeOperation == c.activeOperation
    && (d.changed || (d.locations == c.locations && d.previous == c.previous && d.demands == c.demands && d.rates == c.rates))
    && SubMap(d.previous, c.previous) && SubMap(d.demands, c.demands)
  }

  lemma {:induction false} CollectKeeps(c: Core, locals: seq<string>, replies: map<string, seq<Sample>>)
    requires Consistent(c) && Answered(c, locals, replies)
    ensures var d := Collect(c, locals, replies);
      Consistent(d) && Shrinks(c, d) && d.sessions == c.sessions && d.activeLocals == c.activeLocals
    ensures c.changed ==> Collect(c, locals, replies).changed
    decreases |locals|
  {
    if locals == [] {
    } else {
      AnsweredLater(c, locals, replies);
      if Asked(c, locals[0]) {
        CollectResultKeeps(c, locals[0], replies[locals[0]]);
        CollectKeeps(CollectResult(c, locals[0], replies[locals[0]]), locals[1..], replies);
      } else {
        CollectKeeps(c, locals[1..], replies);
      }
    }
  }

  /** A round of statistics keeps the indexes, the sessions and the counter in agreement. */
  lemma CollectAllKeeps(c: Core, locals: seq<string>, replies: map<string, seq<Sample>>)
    requires Consistent(c) && SessionsAgree(c) && Answered(c, locals, replies)
    ensures Consistent(CollectAll(c, locals, replies)) && SessionsAgree(CollectAll(c, locals, replies))
    ensures Shrinks(c, CollectAll(c, locals, replies))
  {
    CollectKeeps(c, locals, replies);
    var d := Collect(c, locals, replies);
    var gone := c.localToStages.Keys - d.localToStages.Keys;
    DeletedAgree(d, gone);
    SameRegistry(d, DeleteSessions(d, gone));
  }

  lemma DeletedAgree(d: Core, gone: set<string>)
    requires gone <= d.sessions && d.activeLocals == |d.sessions| && d.localToStages.Keys == d.sessions - gone
    ensures SessionsAgree(DeleteSessions(d, gone))
  {
    assert d.sessions == (d.sessions - gone) + gone;
  }

  lemma SameRegistry(d: Core, e: Core)
    requires Consistent(d)
    requires e.localToStages == d.localToStages && e.info == d.info && e.locations == d.locations
    requires e.previous == d.previous && e.demands.Keys >= d.demands.Keys && e.rates.Keys >= d.rates.Keys
    ensures Consistent(e)
  {
    assert forall s, a :: Located(e, s, a) == Located(d, s, a);
    assert forall s, a :: Listed(e, s, a) == Listed(d, s, a);
    assert forall s, a :: Informed(e, s, a) == Informed(d, s, a);
  }

  /** Collecting never adds a stage, and leaves no stage that a processed reply reports as failed. */
  lemma {:induction false} CollectRemoves(c: Core, locals: seq<string>, replies: map<string, seq<Sample>>)
    requires Consistent(c) && Answered(c, locals, replies)
    ensures forall t, a :: Informed(Collect(c, locals, replies), t, a) ==> Informed(c, t, a)
    ensures forall t, a | a in locals && Asked(c, a) && Failed(replies[a], t) ::
      !Informed(Collect(c, locals, replies), t, a)
    decreases |locals|
  {
    if locals == [] {
    } else {
      AnsweredLater(c, locals, replies);
      var c' := c;
      if Asked(c, locals[0]) {
        c' := CollectResult(c, locals[0], replies[locals[0]]);
        CollectResultKeeps(c, locals[0], replies[locals[0]]);
      }
      CollectRemoves(c', locals[1..], replies);
      forall t, a | a in locals && Asked(c, a) && Failed(replies[a], t)
        ensures !Informed(Collect(c, locals, replies), t, a)
      {
        TailMembers(locals, a);
        if a == locals[0] {
          assert Removed(replies[a], a, t, a);
          assert !Informed(c', t, a);
        } else {
          assert a in locals[1..] && Asked(c', a);
        }
      }
    }
  }

  // ------------------------------------------------------------------
  // What collecting does to demands and rates
  // ------------------------------------------------------------------

  /** Jobs may disappear. Those that do are forgotten, and all others keep what is stored for them. */
  ghost predicate JobsLeave(c: Core, d: Core) {
    && d.locations.Keys <= c.locations.Keys
    && forall j {:trigger Forgotten(d, j)} {:trigger AllSameAt(c, d, j)} ::
         if j in c.locations && j !in d.locations then Forgotten(d, j) else AllSameAt(c, d, j)
  }

  lemma NobodyLeaves(c: Core)
    ensures JobsLeave(c, c)
  {
  }

  lemma LeaveInTurn(c: Core, d: Core, e: Core)
    requires JobsLeave(c, d) && JobsLeave(d, e)
    ensures JobsLeave(c, e)
  {
    forall j
      ensures if j in c.locations && j !in e.locations then Forgotten(e, j) else AllSameAt(c, e, j)
    {
      assert if j in c.locations && j !in d.locations then Forgotten(d, j) else AllSameAt(c, d, j);
      assert if j in d.locations && j !in e.locations then Forgotten(e, j) else AllSameAt(d, e, j);
    }
  }

  lemma DropLeaves(c: Core, address: string, s: Stage)
    requires Consistent(c) && Informed(c, s, address)
    ensures Removable(c, s) && address in c.localToStages
    ensures JobsLeave(c, DropStage(c, address, s))
  {
    LastStageLeaves(c, address, s);
    DropStageMaps(c, address, s);
    assert Located(c, s, address);
    hide IndexesAgree, Tidy, JobsTracked, OnlyStage, DropStage;
  }

  lemma {:induction false} DropFailedLeaves(c: Core, address: string, reply: seq<Sample>)
    requires Consistent(c) && FromLocal(c, address, reply)
    ensures JobsLeave(c, DropFailed(c, address, reply))
    decreases |reply|
  {
    if reply == [] {
      NobodyLeaves(c);
    } else if reply[0].rate == -1 {
      DropStageKeeps(c, address, reply[0].stage);
      DropLeaves(c, address, reply[0].stage);
      var d := DropStage(c, address, reply[0].stage);
      DropFailedLeaves(d, address, reply[1..]);
      hide JobsLeave, Consistent, DropStage;
      LeaveInTurn(c, d, DropFailed(d, address, reply[1..]));
    } else {
      DropFailedLeaves(c, address, reply[1..]);
    }
  }

  lemma ResultLeaves(c: Core, address: string, reply: seq<Sample>)
    requires Consistent(c) && FromLocal(c, address, reply) && address in c.localToStages
    ensures JobsLeave(c, CollectResult(c, address, reply))
  {
    ListedAreFromLocal(c, address);
    hide Consistent, FromLocal, DropFailed, JobsLeave;
    DropFailedLeaves(c, address, if reply == [] then AllFailed(c.localToStages[address]) else reply);
  }

  lemma {:induction false} CollectLeaves(c: Core, locals: seq<string>, replies: map<string, seq<Sample>>)
    requires Consistent(c) && Answered(c, locals, replies)
    ensures JobsLeave(c, Collect(c, locals, replies))
    decreases |locals|
  {
    if locals == [] {
      NobodyLeaves(c);
    } else {
      AnsweredLater(c, locals, replies);
      if Asked(c, locals[0]) {
        CollectResultKeeps(c, locals[0], replies[locals[0]]);
        ResultLeaves(c, locals[0], replies[locals[0]]);
        var d := CollectResult(c, locals[0], replies[locals[0]]);
        CollectLeaves(d, locals[1..], replies);
        hide JobsLeave, Consistent, CollectResult, FromLocal;
        LeaveInTurn(c, d, Collect(d, locals[1..], replies));
      } else {
        CollectLeaves(c, locals[1..], replies);
      }
    }
  }

  /** A round of statistics forgets exactly the jobs it leaves without a stage. */
  lemma CollectAllLeaves(c: Core, locals: seq<string>, replies: map<string, seq<Sample>>)
    requires Consistent(c) && Answered(c, locals, replies)
    ensures JobsLeave(c, CollectAll(c, locals, replies))
  {
    CollectLeaves(c, locals, replies);
    var d := Collect(c, locals, replies);
    NobodyLeaves(d);
    hide Consistent, Answered, Collect;
    assert CollectAll(c, locals, replies) == DeleteSessions(d, c.localToStages.Keys - d.localToStages.Keys);
    SameMaps(c, d, CollectAll(c, locals, replies));
  }

  lemma SameMaps(c: Core, d: Core, e: Core)
    requires JobsLeave(c, d) && e.locations == d.locations
    requires e.demands == d.demands && e.rates == d.rates && e.previous == d.previous
    ensures JobsLeave(c, e)
  {
    forall j
      ensures if j in c.locations && j !in e.locations then Forgotten(e, j) else AllSameAt(c, e, j)
    {
      assert if j in c.locations && j !in d.locations then Forgotten(d, j) else AllSameAt(c, d, j);
    }
  }

  // ------------------------------------------------------------------
  // Replies without a failure
  // ------------------------------------------------------------------

  ghost predicate Healthy(reply: seq<Sample>) {
    reply != [] && forall i | 0 <= i < |reply| :: reply[i].rate != -1
  }

  lemma {:induction false} HealthyDropsNothing(c: Core, address: string, reply: seq<Sample>)
    requires Consistent(c) && FromLocal(c, address, reply)
    requires forall i | 0 <= i < |reply| :: reply[i].rate != -1
    ensures DropFailed(c, address, reply) == c
    decreases |reply|
  {
    if reply == [] {
    } else {
      HealthyDropsNothing(c, address, reply[1..]);
    }
  }

  ghost predicate AllHealthy(c: Core, locals: seq<string>, replies: map<string, seq<Sample>>)
    requires Answered(c, locals, replies)
  {
    forall a | a in locals && Asked(c, a) :: Healthy(replies[a])
  }

  lemma HealthyResult(c: Core, address: string, reply: seq<Sample>)
    requires Consistent(c) && FromLocal(c, address, reply) && address in c.localToStages && Healthy(reply)
    ensures CollectResult(c, address, reply) == c
  {
    HealthyDropsNothing(c, address, reply);
  }

  lemma HealthyTail(c: Core, locals: seq<string>, replies: map<string, seq<Sample>>)
    requires Answered(c, locals, replies) && AllHealthy(c, locals, replies) && locals != []
    ensures Answered(c, locals[1..], replies) && AllHealthy(c, locals[1..], replies)
  {
    forall a | a in locals[1..]
      ensures a in locals
    {
      TailMembers(locals, a);
    }
  }

  lemma {:induction false} HealthyCollect(c: Core, locals: seq<string>, replies: map<string, seq<Sample>>)
    requires Consistent(c) && Answered(c, locals, replies) && AllHealthy(c, locals, replies)
    ensures Collect(c, locals, replies) == c
    decreases |locals|
  {
    if locals == [] {
    } else {
      AnsweredLater(c, locals, replies);
      HealthyTail(c, locals, replies);
      assert locals[0] in locals;
      if Asked(c, locals[0]) {
        HealthyResult(c, locals[0], replies[locals[0]]);
      }
      hide Consistent, FromLocal, CollectResult, Healthy;
      HealthyCollect(c, locals[1..], replies);
    }
  }

  /** Statistics in which no stage failed change nothing: no live stage is ever dropped. */
  lemma HealthyChangesNothing(c: Core, locals: seq<string>, replies: map<string, seq<Sample>>)
    requires Consistent(c) && Answered(c, locals, replies) && AllHealthy(c, locals, replies)
    ensures CollectAll(c, locals, replies) == c
  {
    HealthyCollect(c, locals, replies);
    hide Consistent, Answered, AllHealthy, Collect;
    assert c.localToStages.Keys - c.localToStages.Keys == {};
    assert c.sessions - {} == c.sessions;
  }
}
