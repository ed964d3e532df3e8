/**
 * A local controller: housekeeping rules, the channels they create, and the
 * sessions of stages being prepared or active.
 */
module Local {
  import opened Arithmetic
  import opened Sequences
  import opened Decimal
  import opened Tokenizer
  import opened Registry
  import EnforcementWire

  datatype Local = Local(
    rules: seq<string>,
    channels: map<string, seq<(int, int)>>,
    preparing: set<Stage>,
    active: set<Stage>)

  // ------------------------------------------------------------------
  // Handshake with the core controller
  // ------------------------------------------------------------------

  /** A housekeeping rule the handshake can process. */
  predicate RuleReadable(rule: string) {
    var tokens := Tokens(rule, '|');
    && 3 <= |tokens|
    && (tokens[2] == "create_channel" ==>
          && 7 <= |tokens| && Parse(tokens[3]).Some?
          && (tokens[6] == "no_op" ==> 8 <= |tokens|))
  }

  /** The operation a channel serves: its type, or its context when the type is no_op. */
  function ChannelOperation(tokens: seq<string>): string
    requires 7 <= |tokens| && (tokens[6] == "no_op" ==> 8 <= |tokens|)
  {
    if tokens[6] == "no_op" then tokens[7] else tokens[6]
  }

  function AddChannel(channels: map<string, seq<(int, int)>>, rule: string): map<string, seq<(int, int)>>
    requires RuleReadable(rule)
  {
    var tokens := Tokens(rule, '|');
    if tokens[2] != "create_channel" then channels
    else
      var operation := ChannelOperation(tokens);
      var channel := (Parse(tokens[3]).value, 1);
      if operation in channels then channels[operation := channels[operation] + [channel]]
      else channels[operation := [channel]]
  }

  function AddChannels(channels: map<string, seq<(int, int)>>, rules: seq<string>): map<string, seq<(int, int)>>
    requires forall r | r in rules :: RuleReadable(r)
    decreases |rules|
  {
    if rules == [] then channels else AddChannels(AddChannel(channels, rules[0]), rules[1..])
  }

  function Handshake(l: Local, rules: seq<string>): Local
    requires forall r | r in rules :: RuleReadable(r)
  {
    l.(rules := l.rules + rules, channels := AddChannels(l.channels, rules))
  }

  // ------------------------------------------------------------------
  // Admission of stages
  // ------------------------------------------------------------------

  /** Rules counted as installed: an answer that is an error voids the count, a missing one is skipped. */
  function Installed(acks: seq<Option<int>>): nat {
    if acks == [] then 0
    else if exists i | 0 <= i < |acks| :: acks[i].Some? && acks[i].value != 1 then 0
    else CountOk(acks)
  }

  function CountOk(acks: seq<Option<int>>): (n: nat)
    ensures n <= |acks|
  {
    if acks == [] then 0 else (if acks[0] == Some(1) then 1 else 0) + CountOk(acks[1..])
  }

  predicate AllOk(acks: seq<Option<int>>) {
    forall i | 0 <= i < |acks| :: acks[i] == Some(1)
  }

  lemma {:induction false} CountOkAll(acks: seq<Option<int>>)
    ensures CountOk(acks) == |acks| <==> AllOk(acks)
  {
    if acks == [] {
    } else {
      CountOkAll(acks[1..]);
      assert forall i | 0 < i < |acks| :: acks[i] == acks[1..][i - 1];
    }
  }

  /** An answer other than 1 voids the count; otherwise the answers are counted, and the missing ones are not. */
  lemma {:induction false} InstalledExactly(acks: seq<Option<int>>, ones: seq<int>)
    requires |ones| == |acks| && forall i | 0 <= i < |acks| :: ones[i] == if acks[i] == None then 0 else 1
    ensures if exists i :: 0 <= i < |acks| && acks[i] != None && acks[i] != Some(1)
            then Installed(acks) == 0 else Installed(acks) == Sum(ones)
  {
    if acks == [] {
    } else {
      InstalledExactly(acks[1..], ones[1..]);
      if forall i | 0 <= i < |acks| :: acks[i] == None || acks[i] == Some(1) {
        assert forall i | 0 <= i < |acks[1..]| :: acks[1..][i] == acks[i + 1];
        assert Installed(acks[1..]) == CountOk(acks[1..]);
      }
    }
  }

  function Prepare(l: Local, s: Stage): Local {
    l.(preparing := l.preparing + {s})
  }

  /** Connects the stage to the core when as many rules were installed as are held by now. */
  predicate Admits(l: Local, acks: seq<Option<int>>) {
    Installed(acks) == |l.rules|
  }

  function Decide(l: Local, s: Stage, acks: seq<Option<int>>): Local {
    if Admits(l, acks) then l else l.(preparing := l.preparing - {s})
  }

  /** A stage stays prepared exactly if it is admitted, and no other stage is concerned. */
  lemma DecidedFor(l: Local, s: Stage, acks: seq<Option<int>>, t: Stage)
    requires |acks| == |l.rules|
    ensures var d := Decide(Prepare(l, s), s, acks);
      && (t in d.preparing <==> if t == s then AllOk(acks) else t in l.preparing)
      && d.active == l.active && d.rules == l.rules && d.channels == l.channels
  {
    assert l.rules == l.rules + [];
    AdmittedExactly(Prepare(l, s), l.rules, [], acks);
    hide AllOk, Admits;
  }

  /**
   * `held` were submitted, `late` arrived before the count was compared: the
   * stage is admitted exactly when nothing arrived late and every rule was acknowledged.
   */
  lemma AdmittedExactly(l: Local, held: seq<string>, late: seq<string>, acks: seq<Option<int>>)
    requires l.rules == held + late && |acks| == |held|
    ensures Admits(l, acks) <==> late == [] && AllOk(acks)
  {
    CountOkAll(acks);
  }

  // ------------------------------------------------------------------
  // Requests of the core controller
  // ------------------------------------------------------------------

  /** extract and insert: a stage that is not being prepared is ignored. */
  function MarkReady(l: Local, s: Stage): Local {
    l.(active := if s in l.preparing then l.active + {s} else l.active, preparing := l.preparing - {s})
  }

  /** Stages whose statistics report the failure of their session. */
  function FailedIn(samples: map<Stage, int>): set<Stage> {
    set s | s in samples && samples[s] == -1
  }

  /** Every active stage reports; failed ones lose their session. */
  function Collect(l: Local, samples: map<Stage, int>): Local {
    l.(active := l.active - FailedIn(samples))
  }

  /** STAGE_READY activates the stage if it is being prepared, and concerns no other stage. */
  lemma MarkReadyOf(l: Local, s: Stage, t: Stage)
    ensures var d := MarkReady(l, s);
      && (t in d.active <==> t in l.active || (t == s && t in l.preparing))
      && (t in d.preparing <==> t in l.preparing && t != s)
      && d.rules == l.rules && d.channels == l.channels
  {
  }

  // ------------------------------------------------------------------
  // Admission over every run
  // ------------------------------------------------------------------

  datatype Event =
    | CoreHandshake(rules: seq<string>)
    | StageArrives(stage: Stage, acks: seq<Option<int>>, late: seq<string>)
    | StageReady(stage: Stage)
    | Statistics(samples: map<Stage, int>)

  /** What was submitted to a stage that was connected to the core, and how it answered. */
  datatype Admission = Admission(held: seq<string>, acks: seq<Option<int>>)

  datatype History = History(local: Local, seen: set<Stage>, admitted: map<Stage, Admission>)

  predicate Enabled(h: History, e: Event) {
    match e
    case CoreHandshake(rules) => forall r | r in rules :: RuleReadable(r)
    case StageArrives(s, acks, late) =>
      s !in h.seen && |acks| == |h.local.rules| && forall r | r in late :: RuleReadable(r)
    case StageReady(_) => true
    case Statistics(samples) => samples.Keys == h.local.active
  }

  function Next(h: History, e: Event): History
    requires Enabled(h, e)
  {
    match e
    case CoreHandshake(rules) => h.(local := Handshake(h.local, rules))
    case StageArrives(s, acks, late) =>
      var l := Handshake(Prepare(h.local, s), late);
      History(Decide(l, s, acks), h.seen + {s},
              if Admits(l, acks) then h.admitted[s := Admission(h.local.rules, acks)] else h.admitted)
    case StageReady(s) => h.(local := MarkReady(h.local, s))
    case Statistics(samples) => h.(local := Collect(h.local, samples))
  }

  predicate IsRun(h: History, events: seq<Event>)
    decreases |events|
  {
    events == [] || (Enabled(h, events[0]) && IsRun(Next(h, events[0]), events[1..]))
  }

  function After(h: History, events: seq<Event>): History
    requires IsRun(h, events)
    decreases |events|
  {
    if events == [] then h else After(Next(h, events[0]), events[1..])
  }

  /** Admitted stages acknowledged every rule held at their submission; sessions are in one map only. */
  ghost predicate Invariant(h: History) {
    && h.local.preparing !! h.local.active
    && h.local.preparing + h.local.active <= h.admitted.Keys <= h.seen
    && forall s | s in h.admitted :: |h.admitted[s].acks| == |h.admitted[s].held| && AllOk(h.admitted[s].acks)
  }

  lemma EventKeeps(h: History, e: Event)
    requires Invariant(h) && Enabled(h, e)
    ensures Invariant(Next(h, e))
  {
    if e.StageArrives? {
      var l := Handshake(Prepare(h.local, e.stage), e.late);
      AdmittedExactly(l, h.local.rules, e.late, e.acks);
    }
  }

  lemma {:induction false} RunKeeps(h: History, events: seq<Event>)
    requires Invariant(h) && IsRun(h, events)
    ensures Invariant(After(h, events))
    decreases |events|
  {
    if events == [] {
    } else {
      EventKeeps(h, events[0]);
      RunKeeps(Next(h, events[0]), events[1..]);
    }
  }

  const NEW_LOCAL := History(Local([], map[], {}, {}), {}, map[])

  /** Every run: a session connected to the core, or active, answered OK to each rule held at its submission. */
  lemma AdmissionIsEarned(events: seq<Event>)
    requires IsRun(NEW_LOCAL, events)
    ensures var h := After(NEW_LOCAL, events);
      && h.local.preparing !! h.local.active
      && forall s | s in h.local.preparing || s in h.local.active ::
           s in h.admitted && |h.admitted[s].acks| == |h.admitted[s].held| && AllOk(h.admitted[s].acks)
  {
    RunKeeps(NEW_LOCAL, events);
  }

  // ------------------------------------------------------------------
  // Enforcement towards the stages
  // ------------------------------------------------------------------

  /** One rule installed at a channel of a stage. */
  datatype Install = Install(stage: Stage, ruleId: int, channel: int, objectId: int, limit: int)

  /** Limit of one channel: an equal part of the limit of the stage. */
  function LimitPerChannel(rate: int, channels: nat): int {
    if 0 < channels then TruncDiv(rate, channels) else 0
  }

  function ChannelInstalls(s: Stage, ruleId: int, channels: seq<(int, int)>, limit: int): (r: seq<Install>)
    ensures |r| == |channels|
    ensures forall i | 0 <= i < |r| :: r[i] == Install(s, ruleId, channels[i].0, channels[i].1, limit)
  {
    seq(|channels|, i requires 0 <= i < |channels| => Install(s, ruleId, channels[i].0, channels[i].1, limit))
  }

  function EnvInstalls(job: string, ruleId: int, channels: seq<(int, int)>, rates: map<int, int>, envs: seq<int>): seq<Install>
    requires forall e | e in envs :: e in rates
  {
    if envs == [] then []
    else
      ChannelInstalls(Stage(job, envs[0]), ruleId, channels, LimitPerChannel(rates[envs[0]], |channels|))
      + EnvInstalls(job, ruleId, channels, rates, envs[1..])
  }

  /** Everything a rule for `operation` asks to install; nothing when no channel serves the operation. */
  function OperationInstalls(channels: map<string, seq<(int, int)>>, operation: string,
                             rule: EnforcementWire.OperationRule, envs: seq<int>): seq<Install>
    requires forall e | e in envs :: e in rule.rates
  {
    if operation in channels then EnvInstalls(rule.stage, rule.ruleId, channels[operation], rule.rates, envs) else []
  }

  /**
   * The installs of one operation, in order: stage by stage, and for each stage
   * one at each channel and object, of an equal part of the limit of that stage.
   */
  lemma {:induction false} EnvInstallAt(job: string, ruleId: int, channels: seq<(int, int)>, rates: map<int, int>,
                                        envs: seq<int>, e: nat, n: nat)
    requires (forall x | x in envs :: x in rates) && e < |envs| && n < |channels|
    ensures var all := EnvInstalls(job, ruleId, channels, rates, envs);
      && |all| == |envs| * |channels| && 0 <= e * |channels| + n < |all|
      && all[e * |channels| + n]
         == Install(Stage(job, envs[e]), ruleId, channels[n].0, channels[n].1, TruncDiv(rates[envs[e]], |channels|))
  {
    EnvInstallsCount(job, ruleId, channels, rates, envs);
    EnvInstallsCount(job, ruleId, channels, rates, envs[1..]);
    Distribute(1, |envs| - 1, |channels|);
    if e == 0 {
    } else {
      EnvInstallAt(job, ruleId, channels, rates, envs[1..], e - 1, n);
      Distribute(1, e - 1, |channels|);
    }
  }

  lemma {:induction false} EnvInstallsCount(job: string, ruleId: int, channels: seq<(int, int)>, rates: map<int, int>,
                                            envs: seq<int>)
    requires forall x | x in envs :: x in rates
    ensures |EnvInstalls(job, ruleId, channels, rates, envs)| == |envs| * |channels|
  {
    if envs == [] {
    } else {
      EnvInstallsCount(job, ruleId, channels, rates, envs[1..]);
      Distribute(1, |envs| - 1, |channels|);
    }
  }

  // ------------------------------------------------------------------
  // A whole request
  // ------------------------------------------------------------------

  /** One operation of a request, with its stages in the order in which they are visited. */
  datatype Section = Section(operation: string, rule: EnforcementWire.OperationRule, envs: seq<int>)

  predicate HasRates(section: Section) {
    forall e | e in section.envs :: e in section.rule.rates
  }

  predicate Rated(sections: seq<Section>) {
    forall x | x in sections :: HasRates(x)
  }

  function RequestInstalls(channels: map<string, seq<(int, int)>>, sections: seq<Section>): seq<Install>
    requires Rated(sections)
  {
    if sections == [] then []
    else
      assert sections[0] in sections;
      assert HasRates(sections[0]);
      OperationInstalls(channels, sections[0].operation, sections[0].rule, sections[0].envs)
      + RequestInstalls(channels, sections[1..])
  }

  /** The installs carried out when the stages answer one after the other: up to the first refusal. */
  function Carried(all: seq<Install>, answers: seq<bool>): (done: seq<Install>)
    requires |all| <= |answers|
    ensures done <= all
  {
    if all == [] then []
    else if answers[0] then [all[0]] + Carried(all[1..], answers[1..])
    else [all[0]]
  }

  predicate AllAccepted(answers: seq<bool>, n: nat)
    requires n <= |answers|
  {
    forall i | 0 <= i < n :: answers[i]
  }

  /** A request is carried out part by part. */
  lemma {:induction false} CarriedParts(first: seq<Install>, rest: seq<Install>, answers: seq<bool>)
    requires |first| + |rest| <= |answers|
    ensures Carried(first + rest, answers)
         == if AllAccepted(answers, |first|) then first + Carried(rest, answers[|first|..]) else Carried(first, answers)
    decreases |first|
  {
    if first == [] {
      assert first + rest == rest && answers[0..] == answers;
    } else {
      assert (first + rest)[1..] == first[1..] + rest;
      assert answers[1..][|first| - 1..] == answers[|first|..];
      AcceptedStep(answers, |first|);
      hide AllAccepted;
      CarriedParts(first[1..], rest, answers[1..]);
      assert first == [first[0]] + first[1..];
    }
  }

  /** Everything is carried out exactly when nothing before the last install is refused. */
  lemma {:induction false} CarriedAll(all: seq<Install>, answers: seq<bool>)
    requires |all| <= |answers|
    ensures Carried(all, answers) == all <==> all == [] || AllAccepted(answers, |all| - 1)
    ensures AllAccepted(answers, |all|) ==> Carried(all, answers) == all
    decreases |all|
  {
    if all == [] {
    } else {
      CarriedAll(all[1..], answers[1..]);
      assert all == [all[0]] + all[1..];
      AcceptedStep(answers, |all|);
      if |all| > 1 {
        AcceptedStep(answers, |all| - 1);
      }
      hide AllAccepted;
      assert answers[0] ==> (Carried(all, answers) == all <==> Carried(all[1..], answers[1..]) == all[1..]);
    }
  }

  /** What is carried out ends with the first refusal, or with the last install. */
  lemma {:induction false} CarriedExactly(all: seq<Install>, answers: seq<bool>)
    requires |all| <= |answers|
    ensures var n := |Carried(all, answers)|;
      && n <= |all| && Carried(all, answers) == all[..n] && (all != [] ==> 1 <= n)
      && (forall i | 0 <= i < n - 1 :: answers[i])
      && (n < |all| ==> !answers[n - 1])
  {
    if all == [] {
    } else {
      CarriedExactly(all[1..], answers[1..]);
      var n := |Carried(all[1..], answers[1..])|;
      assert forall i | 0 < i < n :: answers[i] == answers[1..][i - 1];
      assert answers[0] && n < |all| - 1 ==> answers[n] == answers[1..][n - 1];
      assert all[..n + 1] == [all[0]] + all[1..][..n];
    }
  }

  lemma AcceptedStep(answers: seq<bool>, n: nat)
    requires 0 < n <= |answers|
    ensures AllAccepted(answers, n) <==> answers[0] && AllAccepted(answers[1..], n - 1)
    ensures AllAccepted(answers, 0)
  {
    assert forall i | 0 <= i < n - 1 :: answers[1..][i] == answers[i + 1];
    assert forall i | 0 < i < n :: answers[i] == answers[1..][i - 1];
  }

  /** The acknowledgement: a message, and whether the call as a whole is reported as ok. */
  datatype Ack = Ack(message: int, ok: bool)

  /**
   * Without a refusal the last visited operation with something to install
   * decides: 0 and an error when no channel serves it.
   */
  function LastAck(channels: map<string, seq<(int, int)>>, sections: seq<Section>, before: Ack): Ack
    decreases |sections|
  {
    if sections == [] then before
    else LastAck(channels, sections[1..], SectionAck(channels, sections[0], before))
  }

  function SectionAck(channels: map<string, seq<(int, int)>>, section: Section, before: Ack): Ack {
    if section.envs == [] then before
    else if section.operation !in channels then Ack(0, false)
    else if channels[section.operation] == [] then before
    else Ack(1, true)
  }

  /** The operation has something to say: it is for some stage, and served by a channel or by no entry at all. */
  predicate Speaks(channels: map<string, seq<(int, int)>>, section: Section) {
    section.envs != [] && (section.operation in channels ==> channels[section.operation] != [])
  }

  /** The last operation that has something to say decides: 1 if it is served, 0 and an error if not. */
  lemma {:induction false} LastAckExactly(channels: map<string, seq<(int, int)>>, sections: seq<Section>, before: Ack, k: nat)
    requires k < |sections| && Speaks(channels, sections[k])
    requires forall i | k < i < |sections| :: !Speaks(channels, sections[i])
    ensures LastAck(channels, sections, before)
         == if sections[k].operation in channels then Ack(1, true) else Ack(0, false)
    decreases |sections|
  {
    if k == 0 {
      NobodySpeaks(channels, sections[1..], SectionAck(channels, sections[0], before));
    } else {
      LastAckExactly(channels, sections[1..], SectionAck(channels, sections[0], before), k - 1);
    }
  }

  lemma {:induction false} NobodySpeaks(channels: map<string, seq<(int, int)>>, sections: seq<Section>, before: Ack)
    requires forall i | 0 <= i < |sections| :: !Speaks(channels, sections[i])
    ensures LastAck(channels, sections, before) == before
    decreases |sections|
  {
    if sections == [] {
    } else {
      assert !Speaks(channels, sections[0]);
      NobodySpeaks(channels, sections[1..], before);
    }
  }

  lemma RequestFirst(channels: map<string, seq<(int, int)>>, sections: seq<Section>)
    requires Rated(sections) && sections != []
    ensures HasRates(sections[0]) && Rated(sections[1..])
    ensures RequestInstalls(channels, sections)
         == OperationInstalls(channels, sections[0].operation, sections[0].rule, sections[0].envs)
            + RequestInstalls(channels, sections[1..])
  {
    assert sections[0] in sections;
    hide HasRates, OperationInstalls;
  }

  lemma RatedParts(sections: seq<Section>, k: nat)
    requires k <= |sections| && Rated(sections)
    ensures Rated(sections[..k]) && Rated(sections[k..])
  {
    assert forall x | x in sections[..k] :: x in sections;
    assert forall x | x in sections[k..] :: x in sections;
  }

  /** A request is one operation after the other; one without an entry in the channels asks for nothing. */
  lemma {:induction false} RequestParts(channels: map<string, seq<(int, int)>>, sections: seq<Section>, k: nat)
    requires k <= |sections| && Rated(sections)
    ensures Rated(sections[..k]) && Rated(sections[k..])
    ensures RequestInstalls(channels, sections)
         == RequestInstalls(channels, sections[..k]) + RequestInstalls(channels, sections[k..])
    decreases |sections|
  {
    RatedParts(sections, k);
    if k == 0 {
      assert sections[..0] == [] && sections[0..] == sections;
    } else {
      RequestFirst(channels, sections);
      RequestFirst(channels, sections[..k]);
      assert sections[..k][1..] == sections[1..][..k - 1] && sections[k..] == sections[1..][k - 1..];
      hide RequestInstalls, OperationInstalls, Rated, HasRates;
      RequestParts(channels, sections[1..], k - 1);
      Regroup(OperationInstalls(channels, sections[0].operation, sections[0].rule, sections[0].envs),
              RequestInstalls(channels, sections[1..][..k - 1]), RequestInstalls(channels, sections[k..]));
    }
  }

  lemma OneSection(channels: map<string, seq<(int, int)>>, section: Section)
    requires HasRates(section)
    ensures Rated([section])
    ensures var rule := section.rule;
      RequestInstalls(channels, [section])
      == if section.operation in channels
         then EnvInstalls(rule.stage, rule.ruleId, channels[section.operation], rule.rates, section.envs) else []
  {
    assert [section][1..] == [];
    hide EnvInstalls;
  }

  // ------------------------------------------------------------------
  // The rule text sent to a stage
  // ------------------------------------------------------------------

  /** What the stage receives: the operation code of "rate" is 2. */
  datatype EnforcementRaw = EnforcementRaw(ruleId: int, channel: int, objectId: int, operation: int, first: int)

  function StageRule(i: Install): string {
    Barred(["6", Text(i.ruleId), Text(i.channel), Text(i.objectId), "drl", "rate", Text(i.limit)])
  }

  /** Fields with a bar between neighbours. */
  function Barred(fields: seq<string>): string {
    if fields == [] then ""
    else if |fields| == 1 then fields[0]
    else fields[0] + ("|" + Barred(fields[1..]))
  }

  function OperationCode(objectType: string, operation: string): int {
    if objectType != "drl" then 0
    else if operation == "init" then 1
    else if operation == "rate" then 2
    else if operation == "refill" then 4
    else 0
  }

  /** fill_enforcement_rule for operations other than init, which carries one property more. */
  function FillEnforcement(tokens: seq<string>): Option<EnforcementRaw> {
    if |tokens| < 7 then None
    else
      match (Parse(tokens[1]), Parse(tokens[2]), Parse(tokens[3]), Parse(tokens[6]))
      case (Some(id), Some(channel), Some(objectId), Some(first)) =>
        Some(EnforcementRaw(id, channel, objectId, OperationCode(tokens[4], tokens[5]), first))
      case _ => None
  }

  lemma {:induction false} BarredTokens(fields: seq<string>)
    requires fields != [] && forall f | f in fields :: IsToken(f, '|')
    ensures Tokens(Barred(fields), '|') == fields
  {
    assert fields[0] in fields;
    if |fields| == 1 {
      OneToken(fields[0], '|');
      assert fields == [fields[0]];
    } else {
      var rest := Barred(fields[1..]);
      FirstToken(fields[0], "|" + rest, '|');
      DropDelimiter(rest, '|');
      BarredTokens(fields[1..]);
      assert fields == [fields[0]] + fields[1..];
    }
  }

  lemma NumberIsToken(n: int)
    ensures IsToken(Text(n), '|') && Parse(Text(n)) == Some(n)
  {
    TextIsFree(n, '|');
    ParseText(n);
  }

  lemma StageRuleTokens(i: Install)
    ensures Tokens(StageRule(i), '|')
         == ["6", Text(i.ruleId), Text(i.channel), Text(i.objectId), "drl", "rate", Text(i.limit)]
  {
    NumberIsToken(i.ruleId);
    NumberIsToken(i.channel);
    NumberIsToken(i.objectId);
    NumberIsToken(i.limit);
    hide Tokens, Text, Barred;
    BarredTokens(["6", Text(i.ruleId), Text(i.channel), Text(i.objectId), "drl", "rate", Text(i.limit)]);
  }

  /** The stage installs exactly the limit the local controller computed. */
  lemma StageRuleRoundTrip(i: Install)
    ensures FillEnforcement(Tokens(StageRule(i), '|'))
         == Some(EnforcementRaw(i.ruleId, i.channel, i.objectId, 2, i.limit))
  {
    StageRuleTokens(i);
    NumberIsToken(i.ruleId);
    NumberIsToken(i.channel);
    NumberIsToken(i.objectId);
    NumberIsToken(i.limit);
    hide Tokens, Text, Parse, StageRule;
  }
}
