/**
 * The core controller and its local controllers as one system: registration,
 * statistics and enforcement take several steps, and the local controllers
 * prepare stages meanwhile. RPCs are not lost; stage keys are fresh.
 */
module Agreement {
  import opened Sequences
  import opened Registry
  import opened Statistics
  import L = Local

  /** What the core controller is in the middle of. */
  datatype Phase =
    | Idle
    | Marking(info: StageInfo, delivered: bool)
    | Collecting(waiting: seq<string>, replies: map<string, seq<Sample>>, gone: set<string>)
    | Enforcing(pending: set<(string, Stage)>)

  /** `connects` are the stages whose registration request is queued at the core. */
  datatype System = System(
    core: Core,
    nodes: map<string, L.Local>,
    connects: seq<StageInfo>,
    used: set<Stage>,
    phase: Phase)

  datatype Step =
    | LocalConnects(address: string)
    | StagePrepares(address: string, stage: Stage)
    | StageRejected(address: string, stage: Stage)
    | StageConnects(address: string, stage: Stage)
    | CoreRegisters
    | LocalMarksReady
    | CoreGetsReadyAck
    | CoreAsks(locals: seq<string>)
    | LocalReports(address: string, samples: map<Stage, int>, reply: seq<Sample>)
    | CoreCollects
    | CoreEndsCollection
    | CoreEnforces(rules: set<(string, Stage)>)
    | LocalEnforces(address: string, stage: Stage)
    | CoreEndsEnforcement

  function Start(limit: int, operation: string): System {
    System(Initial(limit, operation), map[], [], {}, Idle)
  }

  predicate Queued(sys: System, s: Stage) {
    exists i | 0 <= i < |sys.connects| :: sys.connects[i].stage == s
  }

  /** The reply lists the samples of the sessions, each once. */
  ghost predicate Lists(reply: seq<Sample>, samples: map<Stage, int>) {
    && (forall i, j | 0 <= i < j < |reply| :: reply[i].stage != reply[j].stage)
    && (forall i | 0 <= i < |reply| :: reply[i].stage in samples && reply[i].rate == samples[reply[i].stage])
    && (forall s | s in samples :: Sample(s, samples[s]) in reply)
  }

  ghost predicate Enabled(sys: System, step: Step) {
    match step
    case LocalConnects(a) => sys.phase.Idle? && a !in sys.nodes
    case StagePrepares(a, s) => a in sys.nodes && s !in sys.used
    case StageRejected(a, s) =>
      a in sys.nodes && s in sys.nodes[a].preparing && !Queued(sys, s) && s !in sys.core.info
    case StageConnects(a, s) =>
      a in sys.nodes && s in sys.nodes[a].preparing && !Queued(sys, s) && s !in sys.core.info
    case CoreRegisters =>
      sys.phase.Idle? && sys.connects != [] && sys.connects[0].address in sys.core.sessions
    case LocalMarksReady => sys.phase.Marking? && !sys.phase.delivered
    case CoreGetsReadyAck => sys.phase.Marking? && sys.phase.delivered
    case CoreAsks(locals) =>
      sys.phase.Idle? && NoDuplicates(locals) && forall a :: a in locals <==> Asked(sys.core, a)
    case LocalReports(a, samples, reply) =>
      && sys.phase.Collecting? && a in sys.phase.waiting && a !in sys.phase.replies
      && a in sys.nodes && samples.Keys == sys.nodes[a].active && Lists(reply, samples)
    case CoreCollects =>
      sys.phase.Collecting? && sys.phase.waiting != [] && sys.phase.waiting[0] in sys.phase.replies
    case CoreEndsCollection => sys.phase.Collecting? && sys.phase.waiting == []
    case CoreEnforces(rules) =>
      sys.phase.Idle? && forall r | r in rules :: Located(sys.core, r.1, r.0)
    case LocalEnforces(a, s) => sys.phase.Enforcing? && (a, s) in sys.phase.pending
    case CoreEndsEnforcement => sys.phase.Enforcing? && sys.phase.pending == {}
  }

  // ------------------------------------------------------------------
  // Agreement
  // ------------------------------------------------------------------

  /** A STAGE_READY for the stage, or its failure report, is on its way. */
  predicate InFlight(phase: Phase, s: Stage, a: string) {
    match phase
    case Marking(i, delivered) => !delivered && i == StageInfo(s, a)
    case Collecting(waiting, replies, _) => a in replies && Failed(replies[a], s)
    case _ => false
  }

  /** Sessions of local controllers are the registered stages, up to messages in flight. */
  ghost predicate Agrees(sys: System) {
    && (forall a, s | a in sys.nodes ::
          s in sys.nodes[a].active <==> Informed(sys.core, s, a) && !InFlight(sys.phase, s, a))
    && (forall a, s | Informed(sys.core, s, a) :: a in sys.nodes)
  }

  /** Stages waiting to be registered are prepared at their local controller and unknown to the core. */
  ghost predicate QueueSound(sys: System) {
    && (forall i | 0 <= i < |sys.connects| :: var c := sys.connects[i];
          c.address in sys.nodes && c.stage in sys.nodes[c.address].preparing && c.stage !in sys.core.info)
    && (forall i, j | 0 <= i < j < |sys.connects| :: sys.connects[i].stage != sys.connects[j].stage)
  }

  ghost predicate KeysUsed(sys: System) {
    && (forall a, s | a in sys.nodes && s in sys.nodes[a].preparing :: s in sys.used)
    && (forall s | s in sys.core.info :: s in sys.used)
  }

  /** A stage is prepared at one local controller only, and no longer once it is registered and marked. */
  ghost predicate PreparedOnce(sys: System) {
    && (forall a, b, s | a in sys.nodes && b in sys.nodes && s in sys.nodes[a].preparing && s in sys.nodes[b].preparing ::
          a == b)
    && (forall a, s | a in sys.nodes && s in sys.nodes[a].preparing && s in sys.core.info ::
          sys.phase.Marking? && sys.phase.info.stage == s)
  }

  ghost predicate CoreSound(sys: System) {
    && Consistent(sys.core) && sys.core.sessions <= sys.nodes.Keys
    && sys.core.activeLocals == |sys.core.sessions|
    && sys.core.sessions == sys.core.localToStages.Keys + (if sys.phase.Collecting? then sys.phase.gone else {})
    && (sys.phase.Collecting? ==> sys.phase.gone !! sys.core.localToStages.Keys)
  }

  /** A reply covers exactly the registered stages of its local controller. */
  ghost predicate ReplySound(c: Core, a: string, reply: seq<Sample>) {
    && FromLocal(c, a, reply)
    && forall s | Informed(c, s, a) :: exists i | 0 <= i < |reply| :: reply[i].stage == s
  }

  ghost predicate PhaseSound(sys: System) {
    match sys.phase
    case Marking(i, delivered) =>
      && Informed(sys.core, i.stage, i.address) && i.address in sys.nodes
      && (!delivered ==> i.stage in sys.nodes[i.address].preparing)
      && (delivered ==> forall a | a in sys.nodes :: i.stage !in sys.nodes[a].preparing)
    case Collecting(waiting, replies, gone) =>
      && NoDuplicates(waiting)
      && (forall a | a in waiting :: Asked(sys.core, a))
      && (forall a | a in replies :: a in waiting && ReplySound(sys.core, a, replies[a]))
    case Enforcing(pending) => forall r | r in pending :: Informed(sys.core, r.1, r.0)
    case Idle => true
  }

  ghost predicate Sound(sys: System) {
    CoreSound(sys) && Agrees(sys) && QueueSound(sys) && KeysUsed(sys) && PreparedOnce(sys) && PhaseSound(sys)
  }

  // ------------------------------------------------------------------
  // Steps
  // ------------------------------------------------------------------

  function UpdateNode(sys: System, a: string, l: L.Local): System {
    sys.(nodes := sys.nodes[a := l])
  }

  function AfterConnects(sys: System, a: string): System {
    sys.(core := RegisterLocal(sys.core, a), nodes := sys.nodes[a := L.Local([], map[], {}, {})])
  }

  function AfterPrepares(sys: System, a: string, s: Stage): System
    requires a in sys.nodes
  {
    UpdateNode(sys, a, L.Prepare(sys.nodes[a], s)).(used := sys.used + {s})
  }

  function AfterRejected(sys: System, a: string, s: Stage): System
    requires a in sys.nodes
  {
    UpdateNode(sys, a, sys.nodes[a].(preparing := sys.nodes[a].preparing - {s}))
  }

  function AfterRegisters(sys: System): System
    requires sys.connects != []
  {
    sys.(core := RegisterStage(sys.core, sys.connects[0]), connects := sys.connects[1..],
         phase := Marking(sys.connects[0], false))
  }

  function AfterMarksReady(sys: System): System
    requires sys.phase.Marking? && sys.phase.info.address in sys.nodes
  {
    var i := sys.phase.info;
    UpdateNode(sys, i.address, L.MarkReady(sys.nodes[i.address], i.stage)).(phase := Marking(i, true))
  }

  function AfterReports(sys: System, a: string, samples: map<Stage, int>, reply: seq<Sample>): System
    requires sys.phase.Collecting? && a in sys.nodes
  {
    UpdateNode(sys, a, L.Collect(sys.nodes[a], samples)).(
      phase := sys.phase.(replies := sys.phase.replies[a := reply]))
  }

  ghost predicate CanCollect(sys: System) {
    && sys.phase.Collecting? && sys.phase.waiting != [] && sys.phase.waiting[0] in sys.phase.replies
    && Consistent(sys.core) && Asked(sys.core, sys.phase.waiting[0])
    && ReplySound(sys.core, sys.phase.waiting[0], sys.phase.replies[sys.phase.waiting[0]])
  }

  ghost function AfterCollects(sys: System): System
    requires CanCollect(sys)
  {
    var a := sys.phase.waiting[0];
    var core := CollectResult(sys.core, a, sys.phase.replies[a]);
    sys.(core := core,
         phase := Collecting(sys.phase.waiting[1..], sys.phase.replies - {a},
                             if a in core.localToStages then sys.phase.gone else sys.phase.gone + {a}))
  }

  function AfterCollection(sys: System): System
    requires sys.phase.Collecting?
  {
    sys.(core := DeleteSessions(sys.core, sys.phase.gone), phase := Idle)
  }

  lemma CollectsSoundly(sys: System)
    requires Sound(sys) && Enabled(sys, CoreCollects)
    ensures CanCollect(sys)
  {
    assert sys.phase.waiting[0] in sys.phase.waiting;
    hide Consistent, ReplySound, Agrees, QueueSound, KeysUsed, PreparedOnce;
  }

  ghost function Next(sys: System, step: Step): System
    requires Sound(sys) && Enabled(sys, step)
  {
    match step
    case LocalConnects(a) => AfterConnects(sys, a)
    case StagePrepares(a, s) => AfterPrepares(sys, a, s)
    case StageRejected(a, s) => AfterRejected(sys, a, s)
    case StageConnects(a, s) => sys.(connects := sys.connects + [StageInfo(s, a)])
    case CoreRegisters => AfterRegisters(sys)
    case LocalMarksReady => AfterMarksReady(sys)
    case CoreGetsReadyAck => sys.(phase := Idle)
    case CoreAsks(locals) => sys.(phase := Collecting(locals, map[], {}))
    case LocalReports(a, samples, reply) => AfterReports(sys, a, samples, reply)
    case CoreCollects =>
      CollectsSoundly(sys);
      AfterCollects(sys)
    case CoreEndsCollection => AfterCollection(sys)
    case CoreEnforces(rules) => sys.(phase := Enforcing(rules))
    case LocalEnforces(a, s) => sys.(phase := Enforcing(sys.phase.pending - {(a, s)}))
    case CoreEndsEnforcement => sys.(phase := Idle)
  }

  // ------------------------------------------------------------------
  // Every step keeps the system sound
  // ------------------------------------------------------------------

  lemma StartIsSound(limit: int, operation: string)
    ensures Sound(Start(limit, operation))
  {
    InitialIsConsistent(limit, operation);
  }

  /** Preparing stages does not touch what the core and the local controllers agree on. */
  lemma PreparingKeepsAgreement(sys: System, next: System)
    requires CoreSound(sys) && Agrees(sys)
    requires next.core == sys.core && next.phase == sys.phase && next.nodes.Keys == sys.nodes.Keys
    requires forall a | a in sys.nodes :: next.nodes[a].active == sys.nodes[a].active
    ensures CoreSound(next) && Agrees(next)
  {
  }

  lemma ConnectsAgrees(sys: System, a: string)
    requires CoreSound(sys) && Agrees(sys) && sys.phase.Idle? && a !in sys.nodes
    ensures CoreSound(AfterConnects(sys, a)) && Agrees(AfterConnects(sys, a))
  {
    RegisterLocalKeeps(sys.core, a);
    var next := AfterConnects(sys, a);
    assert forall s, b :: Informed(next.core, s, b) == Informed(sys.core, s, b);
  }

  lemma ConnectsKeys(sys: System, a: string)
    requires QueueSound(sys) && KeysUsed(sys) && PreparedOnce(sys) && a !in sys.nodes
    ensures var next := AfterConnects(sys, a); QueueSound(next) && KeysUsed(next) && PreparedOnce(next)
  {
  }

  lemma PreparesKeys(sys: System, a: string, s: Stage)
    requires QueueSound(sys) && KeysUsed(sys) && PreparedOnce(sys) && a in sys.nodes && s !in sys.used
    ensures var next := AfterPrepares(sys, a, s); QueueSound(next) && KeysUsed(next) && PreparedOnce(next)
  {
    var next := AfterPrepares(sys, a, s);
    forall b, t | b in next.nodes && t in next.nodes[b].preparing
      ensures (b in sys.nodes && t in sys.nodes[b].preparing) || (b == a && t == s)
    {
    }
  }

  lemma PreparesPhase(sys: System, a: string, s: Stage)
    requires PhaseSound(sys) && KeysUsed(sys) && a in sys.nodes && s !in sys.used
    ensures PhaseSound(AfterPrepares(sys, a, s))
  {
    if sys.phase.Marking? {
      var i := sys.phase.info;
      assert i.stage in sys.used;
    }
  }

  lemma RejectedKeys(sys: System, a: string, s: Stage)
    requires QueueSound(sys) && KeysUsed(sys) && PreparedOnce(sys) && a in sys.nodes && !Queued(sys, s)
    ensures var next := AfterRejected(sys, a, s); QueueSound(next) && KeysUsed(next) && PreparedOnce(next)
  {
    var next := AfterRejected(sys, a, s);
    forall i | 0 <= i < |next.connects|
      ensures next.connects[i].stage in next.nodes[next.connects[i].address].preparing
    {
      assert next.connects[i].stage != s;
    }
  }

  lemma RejectedPhase(sys: System, a: string, s: Stage)
    requires PhaseSound(sys) && a in sys.nodes && s !in sys.core.info
    ensures PhaseSound(AfterRejected(sys, a, s))
  {
  }

  lemma QueueGrows(sys: System, a: string, s: Stage)
    requires QueueSound(sys) && a in sys.nodes && s in sys.nodes[a].preparing && !Queued(sys, s) && s !in sys.core.info
    ensures QueueSound(sys.(connects := sys.connects + [StageInfo(s, a)]))
  {
    assert forall i | 0 <= i < |sys.connects| :: sys.connects[i].stage != s;
  }

  lemma RegistersInformed(sys: System)
    requires sys.connects != [] && sys.connects[0].stage !in sys.core.info
    ensures forall s, a ::
      Informed(AfterRegisters(sys).core, s, a) <==> (Informed(sys.core, s, a) || StageInfo(s, a) == sys.connects[0])
  {
  }

  lemma RegistersAgrees(sys: System)
    requires CoreSound(sys) && Agrees(sys) && QueueSound(sys) && sys.phase.Idle? && sys.connects != []
    requires sys.connects[0].address in sys.core.sessions
    ensures CoreSound(AfterRegisters(sys)) && Agrees(AfterRegisters(sys))
  {
    RegistersInformed(sys);
    RegistersCore(sys);
    AgreesWhileMarking(sys, AfterRegisters(sys));
  }

  /** A stage just registered is known to the core only, and its STAGE_READY is in flight. */
  lemma AgreesWhileMarking(sys: System, next: System)
    requires Agrees(sys) && sys.phase.Idle? && sys.connects != [] && next.nodes == sys.nodes
    requires sys.connects[0].address in sys.nodes && sys.connects[0].stage !in sys.core.info
    requires next.phase == Marking(sys.connects[0], false)
    requires forall s, a ::
      Informed(next.core, s, a) <==> (Informed(sys.core, s, a) || StageInfo(s, a) == sys.connects[0])
    ensures Agrees(next)
  {
    var i := sys.connects[0];
    assert !Informed(sys.core, i.stage, i.address);
    hide Informed;
  }

  lemma RegistersCore(sys: System)
    requires CoreSound(sys) && QueueSound(sys) && sys.phase.Idle? && sys.connects != []
    requires sys.connects[0].address in sys.core.sessions
    ensures CoreSound(AfterRegisters(sys))
  {
    RegisterStageKeeps(sys.core, sys.connects[0]);
    RegisterStageSessions(sys.core, sys.connects[0]);
    hide Consistent, Registry.Informed;
  }

  lemma RegistersKeys(sys: System)
    requires QueueSound(sys) && KeysUsed(sys) && PreparedOnce(sys) && sys.phase.Idle? && sys.connects != []
    ensures var next := AfterRegisters(sys); QueueSound(next) && KeysUsed(next) && PreparedOnce(next)
  {
    var next := AfterRegisters(sys);
    assert forall i | 0 <= i < |next.connects| :: next.connects[i] == sys.connects[i + 1];
    assert sys.connects[0].stage in sys.nodes[sys.connects[0].address].preparing;
  }

  lemma RegistersPhase(sys: System)
    requires QueueSound(sys) && sys.connects != []
    ensures PhaseSound(AfterRegisters(sys))
  {
    assert sys.connects[0].stage in sys.nodes[sys.connects[0].address].preparing;
  }

  ghost predicate MarkingNow(sys: System) {
    && sys.phase.Marking? && !sys.phase.delivered
    && sys.phase.info.address in sys.nodes
    && sys.phase.info.stage in sys.nodes[sys.phase.info.address].preparing
    && Informed(sys.core, sys.phase.info.stage, sys.phase.info.address)
  }

  lemma MarksAgrees(sys: System)
    requires CoreSound(sys) && Agrees(sys) && MarkingNow(sys)
    ensures CoreSound(AfterMarksReady(sys)) && Agrees(AfterMarksReady(sys))
  {
  }

  lemma MarksKeys(sys: System)
    requires QueueSound(sys) && KeysUsed(sys) && PreparedOnce(sys) && MarkingNow(sys)
    ensures var next := AfterMarksReady(sys); QueueSound(next) && KeysUsed(next) && PreparedOnce(next)
  {
  }

  lemma MarksPhase(sys: System)
    requires PreparedOnce(sys) && MarkingNow(sys)
    ensures PhaseSound(AfterMarksReady(sys))
  {
    var i := sys.phase.info;
    var next := AfterMarksReady(sys);
    forall a | a in next.nodes
      ensures i.stage !in next.nodes[a].preparing
    {
      assert a != i.address ==> next.nodes[a] == sys.nodes[a];
    }
  }

  lemma AckKeeps(sys: System)
    requires Sound(sys) && sys.phase.Marking? && sys.phase.delivered
    ensures Sound(sys.(phase := Idle))
  {
  }

  lemma AsksKeeps(sys: System, locals: seq<string>)
    requires Sound(sys) && sys.phase.Idle? && NoDuplicates(locals) && forall a | a in locals :: Asked(sys.core, a)
    ensures Sound(sys.(phase := Collecting(locals, map[], {})))
  {
  }

  lemma ReportedFailures(samples: map<Stage, int>, reply: seq<Sample>)
    requires Lists(reply, samples)
    ensures forall s :: Failed(reply, s) <==> s in L.FailedIn(samples)
  {
    forall s
      ensures Failed(reply, s) <==> s in L.FailedIn(samples)
    {
      if Failed(reply, s) {
        var k :| 0 <= k < |reply| && reply[k] == Sample(s, -1);
      }
    }
  }

  ghost predicate ReportingNow(sys: System, a: string, samples: map<Stage, int>, reply: seq<Sample>) {
    && sys.phase.Collecting? && a in sys.phase.waiting && a !in sys.phase.replies
    && a in sys.nodes && samples.Keys == sys.nodes[a].active && Lists(reply, samples)
  }

  lemma ReportsAgrees(sys: System, a: string, samples: map<Stage, int>, reply: seq<Sample>)
    requires CoreSound(sys) && Agrees(sys) && ReportingNow(sys, a, samples, reply)
    ensures CoreSound(AfterReports(sys, a, samples, reply)) && Agrees(AfterReports(sys, a, samples, reply))
  {
    ReportedFailures(samples, reply);
  }

  lemma ReportsCover(sys: System, a: string, samples: map<Stage, int>, reply: seq<Sample>)
    requires Agrees(sys) && ReportingNow(sys, a, samples, reply)
    ensures ReplySound(sys.core, a, reply)
  {
    forall i | 0 <= i < |reply|
      ensures Informed(sys.core, reply[i].stage, a)
    {
      assert reply[i].stage in sys.nodes[a].active;
    }
    forall s | Informed(sys.core, s, a)
      ensures exists i | 0 <= i < |reply| :: reply[i].stage == s
    {
      assert s in sys.nodes[a].active;
      assert Sample(s, samples[s]) in reply;
      var k :| 0 <= k < |reply| && reply[k] == Sample(s, samples[s]);
      assert reply[k].stage == s;
    }
  }

  lemma ReportsKeys(sys: System, a: string, samples: map<Stage, int>, reply: seq<Sample>)
    requires QueueSound(sys) && KeysUsed(sys) && PreparedOnce(sys) && ReportingNow(sys, a, samples, reply)
    ensures var next := AfterReports(sys, a, samples, reply); QueueSound(next) && KeysUsed(next) && PreparedOnce(next)
  {
  }

  lemma ReportsPhase(sys: System, a: string, samples: map<Stage, int>, reply: seq<Sample>)
    requires PhaseSound(sys) && Agrees(sys) && ReportingNow(sys, a, samples, reply)
    ensures PhaseSound(AfterReports(sys, a, samples, reply))
  {
    ReportsCover(sys, a, samples, reply);
  }

  /** A local controller with registered stages never sends an empty reply. */
  lemma ReplyIsNotEmpty(c: Core, a: string, reply: seq<Sample>)
    requires Consistent(c) && Asked(c, a) && ReplySound(c, a, reply)
    ensures reply != []
  {
    assert Listed(c, c.localToStages[a][0], a);
    assert Informed(c, c.localToStages[a][0], a);
  }

  /** The core after processing a reply: the failed stages are gone, other replies stay sound. */
  lemma CollectsInformed(sys: System)
    requires CanCollect(sys)
    ensures var a := sys.phase.waiting[0];
      var next := AfterCollects(sys);
      && Consistent(next.core) && OnlyTouches(sys.core, next.core, a)
      && forall s, b :: Informed(next.core, s, b)
           <==> Informed(sys.core, s, b) && !(b == a && Failed(sys.phase.replies[a], s))
  {
    var a := sys.phase.waiting[0];
    var reply := sys.phase.replies[a];
    ReplyIsNotEmpty(sys.core, a, reply);
    CollectResultKeeps(sys.core, a, reply);
    forall s, b
      ensures Informed(sys.core, s, b) && !Removed(reply, a, s, b)
         <==> Informed(sys.core, s, b) && !(b == a && Failed(reply, s))
    {
      if Informed(sys.core, s, b) && b != a {
        StillInformed(sys.core, a, reply, s, b);
      }
    }
  }

  lemma CollectsCore(sys: System)
    requires CoreSound(sys) && CanCollect(sys)
    ensures CoreSound(AfterCollects(sys))
  {
    var a := sys.phase.waiting[0];
    CollectsInformed(sys);
    CollectsLists(sys.core.localToStages.Keys, AfterCollects(sys).core.localToStages.Keys, sys.phase.gone, a);
  }

  lemma CollectsLists(before: set<string>, after: set<string>, gone: set<string>, a: string)
    requires a in before && after <= before <= after + {a} && gone !! before
    ensures var left := if a in after then gone else gone + {a};
      before + gone == after + left && left !! after
  {
  }

  lemma CollectsAgrees(sys: System)
    requires Agrees(sys) && CanCollect(sys)
    ensures Agrees(AfterCollects(sys))
  {
    CollectsInformed(sys);
    var a := sys.phase.waiting[0];
    var next := AfterCollects(sys);
    forall s, b
      ensures InFlight(next.phase, s, b) <==> InFlight(sys.phase, s, b) && b != a
    {
    }
  }

  lemma CollectsKeys(sys: System)
    requires QueueSound(sys) && KeysUsed(sys) && PreparedOnce(sys) && CanCollect(sys)
    ensures var next := AfterCollects(sys); QueueSound(next) && KeysUsed(next) && PreparedOnce(next)
  {
    CollectsInformed(sys);
    var next := AfterCollects(sys);
    forall s | s in next.core.info
      ensures s in sys.core.info
    {
      assert Informed(next.core, s, next.core.info[s].address);
    }
  }

  lemma CollectsPhase(sys: System)
    requires PhaseSound(sys) && CanCollect(sys)
    ensures PhaseSound(AfterCollects(sys))
  {
    CollectsInformed(sys);
    var a := sys.phase.waiting[0];
    var next := AfterCollects(sys);
    forall b | b in next.phase.waiting
      ensures b != a && Asked(next.core, b)
    {
      TailMembers(sys.phase.waiting, b);
    }
    forall b | b in next.phase.replies
      ensures b in next.phase.waiting && ReplySound(next.core, b, next.phase.replies[b])
    {
      TailMembers(sys.phase.waiting, b);
      OtherReplies(sys, b);
    }
  }

  lemma OtherReplies(sys: System, b: string)
    requires CanCollect(sys) && b in sys.phase.replies && b != sys.phase.waiting[0]
    requires ReplySound(sys.core, b, sys.phase.replies[b])
    ensures ReplySound(AfterCollects(sys).core, b, sys.phase.replies[b])
  {
    CollectsInformed(sys);
  }

  lemma EndsAgrees(sys: System)
    requires CoreSound(sys) && Agrees(sys) && PhaseSound(sys) && sys.phase.Collecting? && sys.phase.waiting == []
    ensures CoreSound(AfterCollection(sys)) && Agrees(AfterCollection(sys))
  {
    DeletedAgree(sys.core, sys.phase.gone);
    SameRegistry(sys.core, DeleteSessions(sys.core, sys.phase.gone));
    var next := AfterCollection(sys);
    assert forall s, b :: Informed(next.core, s, b) == Informed(sys.core, s, b);
  }

  lemma EnforcementKeeps(sys: System, step: Step)
    requires Sound(sys) && Enabled(sys, step)
    requires step.CoreEnforces? || step.LocalEnforces? || step.CoreEndsEnforcement?
    ensures Sound(Next(sys, step))
  {
  }

  lemma EndsKeys(sys: System)
    requires QueueSound(sys) && KeysUsed(sys) && PreparedOnce(sys) && sys.phase.Collecting?
    ensures var next := AfterCollection(sys); QueueSound(next) && KeysUsed(next) && PreparedOnce(next)
  {
  }

  lemma ConnectsPhase(sys: System, a: string)
    requires sys.phase.Idle?
    ensures PhaseSound(AfterConnects(sys, a))
  {
  }

  /** Steps in which stages are prepared, rejected or queued. */
  lemma PreparationKeeps(sys: System, step: Step)
    requires Sound(sys) && Enabled(sys, step)
    requires step.StagePrepares? || step.StageRejected? || step.StageConnects?
    ensures Sound(Next(sys, step))
  {
    PreparingKeepsAgreement(sys, Next(sys, step));
    match step
    case StagePrepares(a, s) =>
      PreparesKeys(sys, a, s);
      PreparesPhase(sys, a, s);
    case StageRejected(a, s) =>
      RejectedKeys(sys, a, s);
      RejectedPhase(sys, a, s);
    case StageConnects(a, s) =>
      QueueGrows(sys, a, s);
  }

  /** Steps in which the core controller registers a session or a stage. */
  lemma RegistrationKeeps(sys: System, step: Step)
    requires Sound(sys) && Enabled(sys, step)
    requires step.LocalConnects? || step.CoreRegisters? || step.LocalMarksReady? || step.CoreGetsReadyAck?
    ensures Sound(Next(sys, step))
  {
    match step
    case LocalConnects(a) =>
      ConnectsAgrees(sys, a);
      ConnectsKeys(sys, a);
      ConnectsPhase(sys, a);
    case CoreRegisters =>
      RegistersAgrees(sys);
      RegistersKeys(sys);
      RegistersPhase(sys);
    case LocalMarksReady =>
      MarksAgrees(sys);
      MarksKeys(sys);
      MarksPhase(sys);
    case CoreGetsReadyAck => AckKeeps(sys);
  }

  lemma CollectionKeeps(sys: System, step: Step)
    requires Sound(sys) && Enabled(sys, step)
    requires step.CoreAsks? || step.LocalReports? || step.CoreCollects? || step.CoreEndsCollection?
    ensures Sound(Next(sys, step))
  {
    match step
    case CoreAsks(locals) => AsksKeeps(sys, locals);
    case LocalReports(a, samples, reply) =>
      ReportsAgrees(sys, a, samples, reply);
      ReportsKeys(sys, a, samples, reply);
      ReportsPhase(sys, a, samples, reply);
    case CoreCollects =>
      CollectsCore(sys);
      CollectsAgrees(sys);
      CollectsKeys(sys);
      CollectsPhase(sys);
    case CoreEndsCollection =>
      EndsAgrees(sys);
      EndsKeys(sys);
  }

  lemma StepKeeps(sys: System, step: Step)
    requires Sound(sys) && Enabled(sys, step)
    ensures Sound(Next(sys, step))
  {
    if step.StagePrepares? || step.StageRejected? || step.StageConnects? {
      PreparationKeeps(sys, step);
    } else if step.LocalConnects? || step.CoreRegisters? || step.LocalMarksReady? || step.CoreGetsReadyAck? {
      RegistrationKeeps(sys, step);
    } else if step.CoreAsks? || step.LocalReports? || step.CoreCollects? || step.CoreEndsCollection? {
      CollectionKeeps(sys, step);
    } else {
      EnforcementKeeps(sys, step);
    }
  }

  // ------------------------------------------------------------------
  // Every run
  // ------------------------------------------------------------------

  ghost predicate Possible(sys: System, steps: seq<Step>)
    requires Sound(sys)
    decreases |steps|
  {
    steps == [] ||
    (Enabled(sys, steps[0]) &&
     (StepKeeps(sys, steps[0]);
      Possible(Next(sys, steps[0]), steps[1..])))
  }

  ghost function After(sys: System, steps: seq<Step>): System
    requires Sound(sys) && Possible(sys, steps)
    decreases |steps|
  {
    if steps == [] then sys
    else
      StepKeeps(sys, steps[0]);
      After(Next(sys, steps[0]), steps[1..])
  }

  lemma {:induction false} RunKeeps(sys: System, steps: seq<Step>)
    requires Sound(sys) && Possible(sys, steps)
    ensures Sound(After(sys, steps))
    decreases |steps|
  {
    if steps == [] {
    } else {
      StepKeeps(sys, steps[0]);
      RunKeeps(Next(sys, steps[0]), steps[1..]);
    }
  }

  /** The steps can be taken one after the other from the start of the system. */
  ghost predicate FromStart(limit: int, operation: string, steps: seq<Step>) {
    StartIsSound(limit, operation);
    Possible(Start(limit, operation), steps)
  }

  ghost function StateAfter(limit: int, operation: string, steps: seq<Step>): System
    requires FromStart(limit, operation, steps)
  {
    StartIsSound(limit, operation);
    After(Start(limit, operation), steps)
  }

  lemma EveryStateIsSound(limit: int, operation: string, steps: seq<Step>)
    requires FromStart(limit, operation, steps)
    ensures Sound(StateAfter(limit, operation, steps))
  {
    StartIsSound(limit, operation);
    RunKeeps(Start(limit, operation), steps);
  }

  /**
   * In every state of every run the sessions of a local controller are
   * registered for it, and the core's extra entries are the stages whose
   * STAGE_READY or failure report is in flight.
   */
  lemma ExtrasAreInFlight(limit: int, operation: string, steps: seq<Step>)
    requires FromStart(limit, operation, steps)
    ensures var sys := StateAfter(limit, operation, steps);
      && (forall a, s | a in sys.nodes && s in sys.nodes[a].active :: Informed(sys.core, s, a))
      && (forall a, s | Informed(sys.core, s, a) ::
            a in sys.nodes && (s in sys.nodes[a].active <==> !InFlight(sys.phase, s, a)))
  {
    EveryStateIsSound(limit, operation, steps);
    assert Agrees(StateAfter(limit, operation, steps));
  }

  /** While rules are being enforced, every rule under way reaches a present session. */
  lemma RulesReachSessions(limit: int, operation: string, steps: seq<Step>, a: string, s: Stage)
    requires FromStart(limit, operation, steps)
    requires var sys := StateAfter(limit, operation, steps); sys.phase.Enforcing? && (a, s) in sys.phase.pending
    ensures var sys := StateAfter(limit, operation, steps); a in sys.nodes && s in sys.nodes[a].active
  {
    EveryStateIsSound(limit, operation, steps);
    var sys := StateAfter(limit, operation, steps);
    assert Agrees(sys) && PhaseSound(sys);
  }

  /**
   * A processed reply is never empty, so a local controller loses its entry
   * exactly when it reported every stage registered for it as failed.
   */
  lemma DroppedOnlyWhenAllFailed(limit: int, operation: string, steps: seq<Step>)
    requires FromStart(limit, operation, steps)
    requires Enabled(StateAfter(limit, operation, steps), CoreCollects)
    ensures var sys := StateAfter(limit, operation, steps);
      var a := sys.phase.waiting[0];
      && Sound(sys) && sys.phase.replies[a] != []
      && (a !in Next(sys, CoreCollects).core.localToStages <==> AllReportedFailed(sys, a))
  {
    EveryStateIsSound(limit, operation, steps);
    DroppedExactly(StateAfter(limit, operation, steps));
  }

  ghost predicate AllReportedFailed(sys: System, a: string)
    requires sys.phase.Collecting? && a in sys.phase.replies
  {
    forall s | Informed(sys.core, s, a) :: Failed(sys.phase.replies[a], s)
  }

  lemma DroppedExactly(sys: System)
    requires CanCollect(sys)
    ensures var a := sys.phase.waiting[0];
      && sys.phase.replies[a] != []
      && (a !in AfterCollects(sys).core.localToStages <==> AllReportedFailed(sys, a))
  {
    var a := sys.phase.waiting[0];
    var reply := sys.phase.replies[a];
    ReplyIsNotEmpty(sys.core, a, reply);
    CollectResultKeeps(sys.core, a, reply);
  }

  // ------------------------------------------------------------------
  // A queued stage whose local controller is collected meanwhile
  // ------------------------------------------------------------------

  /** What one asked local controller's fate depends on: its report while it waits, its stages afterwards. */
  ghost predicate Survives(sys: System, a: string)
    requires sys.phase.Collecting?
  {
    if a in sys.phase.waiting then a in sys.phase.replies && !AllReportedFailed(sys, a)
    else a in sys.core.localToStages
  }

  ghost predicate Reported(sys: System, a: string) {
    sys.phase.Collecting? && (a in sys.phase.waiting ==> a in sys.phase.replies)
  }

  /** Steps of other local controllers leave the registered stages and the report of `a` alone. */
  lemma OtherStepSurvives(sys: System, next: System, a: string)
    requires Reported(sys, a) && next.phase.Collecting? && next.core == sys.core
    requires next.phase.waiting == sys.phase.waiting
    requires a in sys.phase.replies ==> a in next.phase.replies && next.phase.replies[a] == sys.phase.replies[a]
    ensures Reported(next, a) && (Survives(next, a) <==> Survives(sys, a))
  {
  }

  lemma CollectSurvives(sys: System, a: string)
    requires CanCollect(sys) && NoDuplicates(sys.phase.waiting) && Reported(sys, a)
    ensures var next := AfterCollects(sys); Reported(next, a) && (Survives(next, a) <==> Survives(sys, a))
  {
    var next := AfterCollects(sys);
    TailMembers(sys.phase.waiting, a);
    if a == sys.phase.waiting[0] {
      DroppedExactly(sys);
    } else {
      CollectsInformed(sys);
      hide Consistent, CanCollect, AfterCollects, ReplySound, FromLocal;
    }
  }

  lemma CollectingStepSurvives(sys: System, step: Step, a: string)
    requires Sound(sys) && Enabled(sys, step) && Reported(sys, a) && !step.CoreEndsCollection?
    ensures Reported(Next(sys, step), a) && (Survives(Next(sys, step), a) <==> Survives(sys, a))
  {
    if step.CoreCollects? {
      assert CanCollect(sys) && NoDuplicates(sys.phase.waiting);
      CollectSurvives(sys, a);
    } else {
      OtherStepSurvives(sys, Next(sys, step), a);
    }
  }

  /** The steps of the rest of one collection. */
  predicate WithinCollection(steps: seq<Step>) {
    forall i | 0 <= i < |steps| :: !steps[i].CoreEndsCollection?
  }

  lemma {:induction false} CollectionSurvives(sys: System, steps: seq<Step>, a: string)
    requires Sound(sys) && Possible(sys, steps) && Reported(sys, a) && WithinCollection(steps)
    ensures var end := After(sys, steps); Sound(end) && Reported(end, a) && (Survives(end, a) <==> Survives(sys, a))
    decreases |steps|
  {
    hide Sound, Enabled, Survives, Reported, Next;
    if steps == [] {
    } else {
      FirstStep(sys, steps);
      hide Possible, After;
      CollectingStepSurvives(sys, steps[0], a);
      CollectionSurvives(Next(sys, steps[0]), steps[1..], a);
    }
  }

  /** At the end of a collection the sessions left are those with an entry in the stage lists. */
  lemma SessionsLeft(sys: System)
    requires CoreSound(sys) && sys.phase.Collecting?
    ensures AfterCollection(sys).core.sessions == sys.core.localToStages.Keys
  {
  }

  /**
   * For every local controller that has reported and every continuation of the
   * collection, whatever else happens meanwhile: when the collection ends, its
   * session is there exactly when some stage registered for it was not reported
   * as failed.
   */
  lemma SessionSurvivesExactly(sys: System, steps: seq<Step>, end: System, a: string)
    requires Sound(sys) && sys.phase.Collecting? && a in sys.phase.waiting && a in sys.phase.replies
    requires Possible(sys, steps) && WithinCollection(steps) && end == After(sys, steps)
    requires end.phase.Collecting? && end.phase.waiting == []
    ensures a in AfterCollection(end).core.sessions <==> !AllReportedFailed(sys, a)
  {
    CollectionSurvives(sys, steps, a);
    hide Sound, AllReportedFailed, After;
    SessionsLeft(end);
  }

  // ------------------------------------------------------------------
  // Which sessions are gone, over every run
  // ------------------------------------------------------------------

  /**
   * What a run did to the sessions: the local controllers that reported all their
   * stages as failed in the collection under way, and in those that ended.
   */
  datatype History = History(failing: set<string>, deleted: set<string>)

  ghost function Record(h: History, sys: System, step: Step): History
    requires Sound(sys) && Enabled(sys, step)
  {
    match step
    case CoreAsks(_) => h.(failing := {})
    case CoreCollects =>
      if AllReportedFailed(sys, sys.phase.waiting[0]) then h.(failing := h.failing + {sys.phase.waiting[0]}) else h
    case CoreEndsCollection => History({}, h.deleted + h.failing)
    case _ => h
  }

  ghost function Recorded(h: History, sys: System, steps: seq<Step>): History
    requires Sound(sys) && Possible(sys, steps)
    decreases |steps|
  {
    if steps == [] then h
    else
      StepKeeps(sys, steps[0]);
      Recorded(Record(h, sys, steps[0]), Next(sys, steps[0]), steps[1..])
  }

  /** The sessions missing are those of the local controllers recorded. */
  ghost predicate Explains(h: History, sys: System) {
    && h.deleted <= sys.nodes.Keys && sys.core.sessions == sys.nodes.Keys - h.deleted
    && (sys.phase.Collecting? ==> sys.phase.gone == h.failing)
  }

  lemma CollectsExplained(h: History, sys: System)
    requires CanCollect(sys) && Explains(h, sys)
    ensures Explains(if AllReportedFailed(sys, sys.phase.waiting[0]) then h.(failing := h.failing + {sys.phase.waiting[0]})
                     else h, AfterCollects(sys))
  {
    var a := sys.phase.waiting[0];
    DroppedExactly(sys);
    CollectResultKeeps(sys.core, a, sys.phase.replies[a]);
    hide Consistent, CollectResult, FromLocal, ReplySound, AllReportedFailed, Removed, Informed;
  }

  lemma ConnectsExplained(h: History, sys: System, a: string)
    requires Explains(h, sys) && a !in sys.nodes && sys.phase.Idle?
    ensures Explains(h, AfterConnects(sys, a))
  {
  }

  lemma EndsExplained(h: History, sys: System)
    requires Explains(h, sys) && sys.phase.Collecting? && h.failing <= sys.nodes.Keys
    ensures Explains(History({}, h.deleted + h.failing), AfterCollection(sys))
  {
  }

  /** The sessions, and those about to lose theirs, are as before. */
  ghost predicate Unmoved(sys: System, next: System) {
    && next.nodes.Keys == sys.nodes.Keys && next.core.sessions == sys.core.sessions
    && (next.phase.Collecting? ==> if sys.phase.Collecting? then next.phase.gone == sys.phase.gone else next.phase.gone == {})
  }

  /** Steps of a local controller leave the sessions alone. */
  lemma LocalUnmoved(sys: System, step: Step)
    requires Sound(sys) && Enabled(sys, step)
    requires step.StagePrepares? || step.StageRejected? || step.StageConnects? || step.LocalMarksReady? || step.LocalReports?
    ensures Unmoved(sys, Next(sys, step))
  {
    MarkedAtNode(sys);
    hide Sound, Lists, Queued, CanCollect, L.Prepare, L.MarkReady, L.Collect;
  }

  /** Steps of the core controller that neither register a local controller nor collect leave them alone. */
  lemma CoreUnmoved(sys: System, step: Step)
    requires Sound(sys) && Enabled(sys, step)
    requires step.CoreRegisters? || step.CoreGetsReadyAck? || step.CoreAsks? || step.CoreEnforces? || step.LocalEnforces?
          || step.CoreEndsEnforcement?
    ensures Unmoved(sys, Next(sys, step))
  {
    hide Sound, Located, CanCollect, Asked;
  }

  lemma UnmovedExplains(h: History, sys: System, next: System, g: History)
    requires Explains(h, sys) && Unmoved(sys, next) && g.deleted == h.deleted
    requires sys.phase.Collecting? ==> g == h
    requires next.phase.Collecting? && !sys.phase.Collecting? ==> g.failing == {}
    ensures Explains(g, next)
  {
  }

  lemma MarkedAtNode(sys: System)
    requires Sound(sys)
    ensures sys.phase.Marking? ==> sys.phase.info.address in sys.nodes
  {
    hide Agrees, KeysUsed, PreparedOnce, QueueSound, Consistent;
  }

  lemma FailingAreNodes(h: History, sys: System)
    requires Sound(sys) && sys.phase.Collecting? && Explains(h, sys)
    ensures h.failing <= sys.nodes.Keys
  {
    hide Consistent, Agrees, QueueSound, KeysUsed, PreparedOnce, PhaseSound;
  }

  lemma OpensOnlyByAsking(sys: System, step: Step)
    requires Sound(sys) && Enabled(sys, step) && !step.CoreCollects? && !step.CoreEndsCollection?
    ensures sys.phase.Collecting? ==> !step.CoreAsks?
    ensures Next(sys, step).phase.Collecting? && !sys.phase.Collecting? ==> step.CoreAsks?
  {
    hide Sound, CanCollect, Located, Lists, Asked;
  }

  lemma RecordExplains(h: History, sys: System, step: Step)
    requires Sound(sys) && Enabled(sys, step) && Explains(h, sys)
    ensures Explains(Record(h, sys, step), Next(sys, step))
  {
    hide Sound, AllReportedFailed, AfterCollects, AfterConnects, AfterCollection, CanCollect;
    if step.CoreCollects? {
      CollectsSoundly(sys);
      CollectsExplained(h, sys);
    } else if step.CoreEndsCollection? {
      FailingAreNodes(h, sys);
      EndsExplained(h, sys);
    } else if step.LocalConnects? {
      ConnectsExplained(h, sys, step.address);
    } else {
      if step.CoreRegisters? || step.CoreGetsReadyAck? || step.CoreAsks? || step.CoreEnforces? || step.LocalEnforces?
         || step.CoreEndsEnforcement? {
        CoreUnmoved(sys, step);
      } else {
        LocalUnmoved(sys, step);
      }
      OpensOnlyByAsking(sys, step);
      hide Next, Unmoved, Explains, Enabled;
      UnmovedExplains(h, sys, Next(sys, step), Record(h, sys, step));
    }
  }

  lemma {:induction false} RunExplains(h: History, sys: System, steps: seq<Step>)
    requires Sound(sys) && Possible(sys, steps) && Explains(h, sys)
    ensures Explains(Recorded(h, sys, steps), After(sys, steps))
    decreases |steps|
  {
    hide Sound, Enabled, Next, Record, Explains;
    if steps == [] {
    } else {
      FirstStep(sys, steps);
      RecordExplains(h, sys, steps[0]);
      RunExplains(Record(h, sys, steps[0]), Next(sys, steps[0]), steps[1..]);
    }
  }

  /** The history of a run from the start of the system. */
  ghost function HistoryOf(limit: int, operation: string, steps: seq<Step>): History
    requires FromStart(limit, operation, steps)
  {
    StartIsSound(limit, operation);
    Recorded(History({}, {}), Start(limit, operation), steps)
  }

  /**
   * In every state of every run a connected local controller has no session
   * exactly when some collection that ended had all its stages reported failed.
   */
  lemma SessionsLostExactly(limit: int, operation: string, steps: seq<Step>)
    requires FromStart(limit, operation, steps)
    ensures var sys := StateAfter(limit, operation, steps);
      forall a | a in sys.nodes :: a in sys.core.sessions <==> a !in HistoryOf(limit, operation, steps).deleted
  {
    StartIsSound(limit, operation);
    RunExplains(History({}, {}), Start(limit, operation), steps);
    hide Possible, After, Recorded;
  }

  /**
   * Every run: the registration at the head of the queue finds the session of its
   * local controller exactly when no collection that ended had all stages of that
   * local controller reported failed.
   */
  lemma QueuedStageSurvivesExactly(limit: int, operation: string, steps: seq<Step>)
    requires FromStart(limit, operation, steps)
    requires var sys := StateAfter(limit, operation, steps); sys.phase.Idle? && sys.connects != []
    ensures var sys := StateAfter(limit, operation, steps);
      Enabled(sys, CoreRegisters) <==> sys.connects[0].address !in HistoryOf(limit, operation, steps).deleted
  {
    EveryStateIsSound(limit, operation, steps);
    SessionsLostExactly(limit, operation, steps);
    var sys := StateAfter(limit, operation, steps);
    assert QueueSound(sys);
    hide Agrees, KeysUsed, PreparedOnce, PhaseSound, CoreSound, FromStart, HistoryOf, StateAfter;
  }

  // ------------------------------------------------------------------
  // A run in which the session is gone
  // ------------------------------------------------------------------

  lemma FirstStep(sys: System, steps: seq<Step>)
    requires Sound(sys) && steps != [] && Possible(sys, steps)
    ensures Enabled(sys, steps[0])
    ensures Sound(Next(sys, steps[0])) && Possible(Next(sys, steps[0]), steps[1..])
    ensures After(sys, steps) == After(Next(sys, steps[0]), steps[1..])
  {
    hide Sound, Enabled, Next;
    assert Enabled(sys, steps[0]);
    StepKeeps(sys, steps[0]);
  }

  lemma StepFirst(sys: System, step: Step, rest: seq<Step>)
    requires Sound(sys) && Enabled(sys, step) && Sound(Next(sys, step)) && Possible(Next(sys, step), rest)
    ensures Possible(sys, [step] + rest) && After(sys, [step] + rest) == After(Next(sys, step), rest)
  {
    hide Sound, Enabled, Next;
    assert ([step] + rest)[1..] == rest;
  }

  lemma {:induction false} AppendStep(sys: System, steps: seq<Step>, step: Step)
    requires Sound(sys) && Possible(sys, steps) && Sound(After(sys, steps)) && Enabled(After(sys, steps), step)
    ensures Possible(sys, steps + [step]) && After(sys, steps + [step]) == Next(After(sys, steps), step)
    decreases |steps|
  {
    hide Sound, Enabled, Next;
    if steps == [] {
      assert steps + [step] == [step] == [step] + [];
      StepKeeps(sys, step);
      StepFirst(sys, step, []);
    } else {
      FirstStep(sys, steps);
      hide Possible, After;
      AppendStep(Next(sys, steps[0]), steps[1..], step);
      StepFirst(sys, steps[0], steps[1..] + [step]);
      assert steps + [step] == [steps[0]] + (steps[1..] + [step]);
    }
  }

  /** The steps lead from the start of the system to `sys`. */
  ghost predicate Leads(steps: seq<Step>, sys: System) {
    FromStart(0, "", steps) && StateAfter(0, "", steps) == sys && Sound(sys)
  }

  lemma NothingLeads()
    ensures Leads([], Start(0, ""))
  {
    StartIsSound(0, "");
  }

  lemma StepLeads(steps: seq<Step>, sys: System, step: Step)
    requires Leads(steps, sys) && Enabled(sys, step)
    ensures Leads(steps + [step], Next(sys, step))
  {
    StartIsSound(0, "");
    StepKeeps(sys, step);
    hide Sound, Enabled;
    AppendStep(Start(0, ""), steps, step);
  }

  const FIRST := StageInfo(Stage("job", 0), "node")
  const SECOND := StageInfo(Stage("job", 1), "node")

  /** The local controller and its first stage are registered. */
  lemma FirstRegisters() returns (steps: seq<Step>, sys: System)
    ensures Leads(steps, sys) && sys.phase.Idle? && sys.connects == [] && sys.used == {FIRST.stage}
    ensures sys.nodes == map["node" := L.Local([], map[], {}, {FIRST.stage})]
    ensures sys.core == RegisterStage(RegisterLocal(Initial(0, ""), "node"), FIRST)
  {
    var s := FIRST.stage;
    NothingLeads();
    hide Leads, Sound;
    var y0 := Start(0, "");
    var y1 := AfterConnects(y0, "node");
    StepLeads([], y0, LocalConnects("node"));
    var y2 := AfterPrepares(y1, "node", s);
    StepLeads([] + [LocalConnects("node")], y1, StagePrepares("node", s));
    steps, sys := [] + [LocalConnects("node")] + [StagePrepares("node", s)], y2;
    steps, sys := FirstConnects(steps, sys);
  }

  lemma FirstConnects(before: seq<Step>, y2: System) returns (steps: seq<Step>, sys: System)
    requires Leads(before, y2) && y2 == AfterPrepares(AfterConnects(Start(0, ""), "node"), "node", FIRST.stage)
    ensures Leads(steps, sys) && sys.phase.Idle? && sys.connects == [] && sys.used == {FIRST.stage}
    ensures sys.nodes == map["node" := L.Local([], map[], {}, {FIRST.stage})]
    ensures sys.core == RegisterStage(RegisterLocal(Initial(0, ""), "node"), FIRST)
  {
    var s := FIRST.stage;
    hide Leads, Sound;
    var y3 := y2.(connects := y2.connects + [FIRST]);
    StepLeads(before, y2, StageConnects("node", s));
    assert y3.connects == [FIRST];
    var y4 := AfterRegisters(y3);
    StepLeads(before + [StageConnects("node", s)], y3, CoreRegisters);
    var y5 := AfterMarksReady(y4);
    StepLeads(before + [StageConnects("node", s)] + [CoreRegisters], y4, LocalMarksReady);
    sys := y5.(phase := Idle);
    StepLeads(before + [StageConnects("node", s)] + [CoreRegisters] + [LocalMarksReady], y5, CoreGetsReadyAck);
    steps := before + [StageConnects("node", s)] + [CoreRegisters] + [LocalMarksReady] + [CoreGetsReadyAck];
  }

  /** The second stage waits in the queue while the first is reported as failed. */
  lemma SecondQueues() returns (steps: seq<Step>, sys: System)
    ensures Leads(steps, sys) && sys.connects == [SECOND] && "node" in sys.nodes
    ensures sys.phase == Collecting(["node"], map["node" := [Sample(FIRST.stage, -1)]], {})
    ensures sys.core == RegisterStage(RegisterLocal(Initial(0, ""), "node"), FIRST)
  {
    var s, t := FIRST.stage, SECOND.stage;
    var before, x0 := FirstRegisters();
    hide Leads, Sound;
    var x1 := AfterPrepares(x0, "node", t);
    StepLeads(before, x0, StagePrepares("node", t));
    var x2 := x1.(connects := x1.connects + [SECOND]);
    assert t !in x1.core.info;
    StepLeads(before + [StagePrepares("node", t)], x1, StageConnects("node", t));
    steps, sys := FirstFails(before + [StagePrepares("node", t)] + [StageConnects("node", t)], x2);
  }

  lemma OnlyAsked(c: Core)
    requires c == RegisterStage(RegisterLocal(Initial(0, ""), "node"), FIRST)
    ensures forall a :: a in ["node"] <==> Asked(c, a)
  {
    assert c.localToStages == map["node" := [] + [FIRST.stage]];
  }

  lemma FirstFails(before: seq<Step>, x2: System) returns (steps: seq<Step>, sys: System)
    requires Leads(before, x2) && x2.phase.Idle? && x2.connects == [SECOND]
    requires "node" in x2.nodes && x2.nodes["node"].active == {FIRST.stage}
    requires x2.core == RegisterStage(RegisterLocal(Initial(0, ""), "node"), FIRST)
    ensures Leads(steps, sys) && sys.connects == [SECOND] && "node" in sys.nodes && sys.core == x2.core
    ensures sys.phase == Collecting(["node"], map["node" := [Sample(FIRST.stage, -1)]], {})
  {
    hide Leads, Sound, RegisterStage, Asked;
    var x3 := x2.(phase := Collecting(["node"], map[], {}));
    assert Enabled(x2, CoreAsks(["node"])) by { OnlyAsked(x2.core); }
    StepLeads(before, x2, CoreAsks(["node"]));
    steps, sys := FirstReports(before + [CoreAsks(["node"])], x3);
  }

  lemma FirstReports(before: seq<Step>, x: System) returns (steps: seq<Step>, sys: System)
    requires Leads(before, x) && x.phase == Collecting(["node"], map[], {})
    requires "node" in x.nodes && x.nodes["node"].active == {FIRST.stage}
    ensures Leads(steps, sys) && sys.connects == x.connects && "node" in sys.nodes && sys.core == x.core
    ensures sys.phase == Collecting(["node"], map["node" := [Sample(FIRST.stage, -1)]], {})
  {
    hide Leads, Sound;
    var samples, reply := map[FIRST.stage := -1], [Sample(FIRST.stage, -1)];
    assert Lists(reply, samples);
    sys := AfterReports(x, "node", samples, reply);
    StepLeads(before, x, LocalReports("node", samples, reply));
    steps := before + [LocalReports("node", samples, reply)];
    assert map[]["node" := reply] == map["node" := reply];
  }

  lemma NextCollects(x: System)
    requires Sound(x) && CanCollect(x)
    ensures Enabled(x, CoreCollects) && Next(x, CoreCollects) == AfterCollects(x)
  {
    hide Sound, AfterCollects;
  }

  lemma CollectedShape(x: System)
    requires CanCollect(x) && |x.phase.waiting| == 1
    ensures var y := AfterCollects(x);
      y.phase.Collecting? && y.phase.waiting == [] && y.connects == x.connects && y.nodes == x.nodes
  {
    hide CollectResult;
  }

  /** The report is collected, and takes the entry of the local controller with it. */
  lemma ReportIsCollected(before: seq<Step>, x: System) returns (steps: seq<Step>, sys: System)
    requires Leads(before, x) && x.phase.Collecting? && x.phase.waiting == ["node"] && CanCollect(x)
    requires AllReportedFailed(x, "node")
    ensures Leads(steps, sys) && sys.phase.Collecting? && sys.phase.waiting == []
    ensures sys.connects == x.connects && sys.nodes == x.nodes && "node" !in sys.core.localToStages
  {
    SoundWhenLed(before, x);
    hide Leads, Sound, CanCollect, AllReportedFailed, AfterCollects, Next, Enabled;
    DroppedExactly(x);
    NextCollects(x);
    CollectedShape(x);
    StepLeads(before, x, CoreCollects);
    steps, sys := before + [CoreCollects], AfterCollects(x);
  }

  lemma CollectionEnds(before: seq<Step>, y: System) returns (steps: seq<Step>, sys: System)
    requires Leads(before, y) && y.phase.Collecting? && y.phase.waiting == []
    ensures Leads(steps, sys) && sys.phase.Idle? && sys.connects == y.connects && sys.nodes == y.nodes
    ensures sys.core.sessions == y.core.localToStages.Keys
  {
    SoundWhenLed(before, y);
    SessionsLeft(y);
    hide Leads, Sound, CoreSound;
    sys := AfterCollection(y);
    StepLeads(before, y, CoreEndsCollection);
    steps := before + [CoreEndsCollection];
  }

  /** A run that ends with a live local controller, its stage at the head of the queue, and no session for it. */
  lemma StageIsStranded() returns (steps: seq<Step>, sys: System)
    ensures Leads(steps, sys) && sys.phase.Idle?
    ensures sys.connects == [SECOND] && SECOND.address in sys.nodes && SECOND.address !in sys.core.sessions
  {
    var before, x := SecondQueues();
    OnlyFirstIsLost(x);
    SoundWhenLed(before, x);
    assert CanCollect(x);
    hide Leads, Sound, CanCollect, AllReportedFailed, RegisterStage;
    steps, sys := ReportIsCollected(before, x);
    steps, sys := CollectionEnds(steps, sys);
  }

  lemma SoundWhenLed(steps: seq<Step>, sys: System)
    requires Leads(steps, sys)
    ensures Sound(sys)
  {
  }

  lemma OnlyFirstIsLost(sys: System)
    requires sys.phase == Collecting(["node"], map["node" := [Sample(FIRST.stage, -1)]], {})
    requires sys.core == RegisterStage(RegisterLocal(Initial(0, ""), "node"), FIRST)
    ensures AllReportedFailed(sys, "node")
  {
    assert sys.core.info == map[FIRST.stage := FIRST];
  }
}
