/** The local controller: its fields, and the handlers of the core controller's requests. */
module LocalController {
  import opened Arithmetic
  import opened Sequences
  import opened Decimal
  import opened Tokenizer
  import opened Registry
  import A = Aggregation
  import L = Local
  import EnforcementWire

  class LocalController {
    var rules: seq<string>
    var channels: map<string, seq<(int, int)>>
    var preparing: set<Stage>
    var active: set<Stage>

    ghost function State(): L.Local
      reads this
    {
      L.Local(rules, channels, preparing, active)
    }

    constructor ()
      ensures State() == L.Local([], map[], {}, {})
    {
      rules, channels, preparing, active := [], map[], {}, {};
    }

    // ----------------------------------------------------------------
    // Handshake
    // ----------------------------------------------------------------

    method AddChannel(rule: string)
      requires L.RuleReadable(rule)
      modifies this`channels
      ensures channels == L.AddChannel(old(channels), rule)
    {
      var tokens := ParseRule(rule, '|');
      if tokens[2] == "create_channel" {
        var channel := (Parse(tokens[3]).value, 1);
        var operation := tokens[6];
        if tokens[6] == "no_op" {
          operation := tokens[7];
        }
        if operation !in channels {
          channels := channels[operation := [channel]];
        } else {
          channels := channels[operation := channels[operation] + [channel]];
        }
      }
    }

    method LocalHandshake(received: seq<string>)
      requires forall r | r in received :: L.RuleReadable(r)
      modifies this`rules, this`channels
      ensures State() == L.Handshake(old(State()), received)
    {
      for k := 0 to |received|
        invariant rules == old(rules) + received[..k]
        invariant L.AddChannels(old(channels), received) == L.AddChannels(channels, received[k..])
      {
        assert received[k..][0] == received[k] && received[k..][1..] == received[k + 1..];
        assert received[..k + 1] == received[..k] + [received[k]];
        rules := rules + [received[k]];
        AddChannel(received[k]);
      }
      assert received[..|received|] == received;
    }

    // ----------------------------------------------------------------
    // Admission
    // ----------------------------------------------------------------

    /** Counts the acknowledged rules; the first error ends the count at zero. */
    method SubmitHousekeepingRules(acks: seq<Option<int>>) returns (installed: nat)
      ensures installed == L.Installed(acks)
    {
      installed := 0;
      for k := 0 to |acks|
        invariant forall i | 0 <= i < k :: acks[i] == None || acks[i] == Some(1)
        invariant L.CountOk(acks) == installed + L.CountOk(acks[k..])
      {
        assert acks[k..][0] == acks[k] && acks[k..][1..] == acks[k + 1..];
        if acks[k].Some? {
          if acks[k].value == 1 {
            installed := installed + 1;
          } else {
            return 0;
          }
        }
      }
    }

    /** Prepares a stage, submits the held rules, and tells whether to connect it to the core. */
    method AdmitStage(s: Stage, acks: seq<Option<int>>) returns (connect: bool)
      requires |acks| == |rules|
      modifies this`preparing
      ensures connect == L.Admits(old(State()), acks)
      ensures State() == L.Decide(L.Prepare(old(State()), s), s, acks)
      ensures connect <==> L.AllOk(acks)
    {
      preparing := preparing + {s};
      var installed := SubmitHousekeepingRules(acks);
      connect := installed == |rules|;
      if !connect {
        preparing := preparing - {s};
      }
      assert rules + [] == rules;
      L.AdmittedExactly(State(), rules, [], acks);
    }

    method MarkStageReady(s: Stage)
      modifies this`preparing, this`active
      ensures State() == L.MarkReady(old(State()), s)
    {
      if s in preparing {
        preparing := preparing - {s};
        active := active + {s};
      }
      preparing := preparing - {s};
    }

    // ----------------------------------------------------------------
    // Statistics
    // ----------------------------------------------------------------

    /** Reports the sample of every active stage; failed stages lose their session afterwards. */
    method CollectGlobalStatistics(samples: map<Stage, int>) returns (stats: map<Stage, int>)
      requires samples.Keys == active
      modifies this`active
      ensures stats == samples && State() == L.Collect(old(State()), samples)
    {
      stats := map[];
      var failed: set<Stage> := {};
      var pending := active;
      while pending != {}
        invariant pending <= active == samples.Keys
        invariant stats.Keys == active - pending && forall s | s in stats :: stats[s] == samples[s]
        invariant failed == set s | s in stats && samples[s] == -1
        decreases pending
      {
        var s :| s in pending;
        if samples[s] == -1 {
          failed := failed + {s};
        }
        stats := stats[s := samples[s]];
        pending := pending - {s};
      }
      active := active - failed;
    }

    // ----------------------------------------------------------------
    // Enforcement
    // ----------------------------------------------------------------

    /** Installs one limit at each channel; stops at the first answer that is not ok. */
    method InstallAtChannels(s: Stage, ruleId: int, objects: seq<(int, int)>, limit: int, answers: seq<bool>)
      returns (done: seq<L.Install>, ok: bool)
      requires s in active && |objects| <= |answers|
      ensures done == L.Carried(L.ChannelInstalls(s, ruleId, objects, limit), answers)
      ensures ok == L.AllAccepted(answers, |objects|)
    {
      done, ok := [], true;
      ghost var all := L.ChannelInstalls(s, ruleId, objects, limit);
      for k := 0 to |objects|
        invariant ok && done == all[..k] && L.AllAccepted(answers, k)
      {
        done := done + [L.Install(s, ruleId, objects[k].0, objects[k].1, limit)];
        assert all[..k + 1] == all[..k] + [all[k]];
        if !answers[k] {
          assert all == all[..k] + all[k..];
          L.CarriedParts(all[..k], all[k..], answers);
          return done, false;
        }
      }
      L.CarriedAll(all, answers);
      assert all[..|objects|] == all;
    }

    /** One operation, stage by stage in the given order. */
    method InstallOperation(section: L.Section, answers: seq<bool>) returns (done: seq<L.Install>, ok: bool)
      requires section.operation in channels && L.HasRates(section)
      requires forall e | e in section.envs :: Stage(section.rule.stage, e) in active
      requires |L.OperationInstalls(channels, section.operation, section.rule, section.envs)| <= |answers|
      ensures var all := L.OperationInstalls(channels, section.operation, section.rule, section.envs);
        done == L.Carried(all, answers) && ok == L.AllAccepted(answers, |all|)
    {
      done, ok := [], true;
      var objects, rule, envs := channels[section.operation], section.rule, section.envs;
      ghost var all := L.EnvInstalls(rule.stage, rule.ruleId, objects, rule.rates, envs);
      assert all == [] + all;
      for k := 0 to |envs|
        invariant all == done + L.EnvInstalls(rule.stage, rule.ruleId, objects, rule.rates, envs[k..])
        invariant ok && L.AllAccepted(answers, |done|)
      {
        assert envs[k] in envs;
        EnvStep(rule, objects, envs, k);
        hide L.EnvInstalls, L.ChannelInstalls;
        var limit := if |objects| > 0 then TruncDiv(rule.rates[envs[k]], |objects|) else 0;
        ghost var here := L.ChannelInstalls(Stage(rule.stage, envs[k]), rule.ruleId, objects, limit);
        ghost var rest := L.EnvInstalls(rule.stage, rule.ruleId, objects, rule.rates, envs[k + 1..]);
        PartDone(done, here, rest, answers);
        var more, fine := InstallAtChannels(Stage(rule.stage, envs[k]), rule.ruleId, objects, limit, answers[|done|..]);
        done := done + more;
        if !fine {
          return done, false;
        }
      }
      L.CarriedAll(all, answers);
      assert done + [] == done;
    }

    /**
     * A request of the core controller, operation by operation. A refusal ends
     * the work, and is acknowledged like success; an operation that no channel
     * serves is not.
     */
    method CreateEnforcementRule(sections: seq<L.Section>, answers: seq<bool>)
      returns (done: seq<L.Install>, ack: L.Ack)
      requires L.Rated(sections)
      requires forall x | x in sections :: forall e | e in x.envs :: Stage(x.rule.stage, e) in active
      requires |L.RequestInstalls(channels, sections)| <= |answers|
      ensures done == L.Carried(L.RequestInstalls(channels, sections), answers)
      ensures ack == if L.AllAccepted(answers, |L.RequestInstalls(channels, sections)|)
                     then L.LastAck(channels, sections, L.Ack(0, true)) else L.Ack(1, true)
    {
      done, ack := [], L.Ack(0, true);
      ghost var all := L.RequestInstalls(channels, sections);
      assert all == [] + all && sections[0..] == sections;
      for k := 0 to |sections|
        invariant L.Rated(sections[k..])
        invariant all == done + L.RequestInstalls(channels, sections[k..]) && L.AllAccepted(answers, |done|)
        invariant L.LastAck(channels, sections, L.Ack(0, true)) == L.LastAck(channels, sections[k..], ack)
      {
        var section := sections[k];
        assert section in sections;
        RequestStep(channels, sections, k, ack);
        hide L.OperationInstalls, L.RequestInstalls, L.Rated, L.HasRates, L.Carried, L.LastAck;
        ghost var here := L.OperationInstalls(channels, section.operation, section.rule, section.envs);
        PartDone(done, here, L.RequestInstalls(channels, sections[k + 1..]), answers);
        if section.operation in channels {
          var more, fine := InstallOperation(section, answers[|done|..]);
          done := done + more;
          if !fine {
            return done, L.Ack(1, true);
          }
        } else {
          NothingServed(channels, section);
          assert done + [] == done;
        }
        if section.envs != [] {
          if section.operation !in channels {
            ack := L.Ack(0, false);
          } else if channels[section.operation] != [] {
            ack := L.Ack(1, true);
          }
        }
      }
      L.CarriedAll(all, answers);
      assert done + [] == done;
    }

    // ----------------------------------------------------------------
    // Aggregated statistics
    // ----------------------------------------------------------------

    /** One round: averages the samples of the sessions, then drops the failed ones. */
    method AggregateRound(stats: map<Stage, real>, i: nat, samples: map<Stage, real>) returns (next: map<Stage, real>)
      requires samples.Keys == active
      modifies this`active
      ensures next == A.RoundStats(stats, i, samples) && active == old(active) - A.FailedIn(samples)
    {
      A.AnsweredNone(stats, i, samples);
      hide A.Answered, A.Average, A.RoundStats;
      next := stats;
      var failed: set<Stage> := {};
      var pending := active;
      assert active - pending == {};
      while pending != {}
        invariant pending <= active == samples.Keys
        invariant failed == A.FailedIn(samples) - pending
        invariant next == A.Answered(stats, i, samples, active - pending)
        decreases pending
      {
        var s :| s in pending;
        A.AnsweredStep(stats, i, samples, active - pending, s);
        assert active - (pending - {s}) == active - pending + {s};
        if samples[s] == A.FAILED {
          failed := failed + {s};
        } else if s !in stats {
          next := next[s := samples[s]];
        } else {
          next := next[s := A.Average(samples[s], stats[s], i)];
        }
        pending := pending - {s};
      }
      assert active - pending == samples.Keys;
      A.RoundIsAnswersAndFailures(stats, i, samples);
      next := MarkFailed(next, failed);
      active := active - failed;
    }

    method MarkFailed(stats: map<Stage, real>, failed: set<Stage>) returns (next: map<Stage, real>)
      ensures next == stats + map s | s in failed :: A.FAILED
    {
      next := stats;
      var pending := failed;
      while pending != {}
        invariant pending <= failed
        invariant next == stats + map s | s in failed - pending :: A.FAILED
        decreases pending
      {
        var s :| s in pending;
        next := next[s := A.FAILED];
        pending := pending - {s};
      }
      assert failed - pending == failed;
    }

    /** Collects `rounds` in turn; the stages of `joins[i]` are made ready while round `i` is collected. */
    method CollectGlobalStatisticsAggregated(rounds: seq<map<Stage, real>>, joins: seq<set<Stage>>)
      returns (stats: map<Stage, real>)
      requires A.Collected(active, rounds, joins)
      modifies this`active
      ensures stats == A.Aggregate(rounds)
      ensures active == A.SessionsAt(old(active), rounds, joins, |rounds|)
    {
      stats := map[];
      for i := 0 to |rounds|
        invariant stats == A.Aggregate(rounds[..i])
        invariant active == A.SessionsAt(old(active), rounds, joins, i)
      {
        assert rounds[i].Keys == A.SessionsAt(old(active), rounds, joins, i);
        AggregateStep(rounds, i);
        stats := AggregateRound(stats, i, rounds[i]);
        active := active + joins[i];
      }
      assert rounds[..|rounds|] == rounds;
    }
  }

  /** One operation after the other. */
  lemma RequestStep(channels: map<string, seq<(int, int)>>, sections: seq<L.Section>, k: nat, ack: L.Ack)
    requires k < |sections| && L.Rated(sections[k..])
    ensures L.Rated(sections[k + 1..]) && L.HasRates(sections[k])
    ensures L.RequestInstalls(channels, sections[k..])
         == L.OperationInstalls(channels, sections[k].operation, sections[k].rule, sections[k].envs)
            + L.RequestInstalls(channels, sections[k + 1..])
    ensures L.LastAck(channels, sections[k..], ack)
         == L.LastAck(channels, sections[k + 1..], L.SectionAck(channels, sections[k], ack))
  {
    assert sections[k..][0] == sections[k] && sections[k..][1..] == sections[k + 1..];
    assert sections[k] in sections[k..];
    forall x | x in sections[k + 1..]
      ensures L.HasRates(x)
    {
      assert sections[k..] == [sections[k]] + sections[k + 1..];
    }
  }

  lemma NothingServed(channels: map<string, seq<(int, int)>>, section: L.Section)
    requires section.operation !in channels && L.HasRates(section)
    ensures L.OperationInstalls(channels, section.operation, section.rule, section.envs) == []
  {
  }

  /** After `done`, all accepted, the next part is carried out with the answers that follow. */
  lemma PartDone(done: seq<L.Install>, here: seq<L.Install>, rest: seq<L.Install>, answers: seq<bool>)
    requires |done + (here + rest)| <= |answers| && L.AllAccepted(answers, |done|)
    ensures |here| <= |answers[|done|..]|
    ensures done + (here + rest) == (done + here) + rest
    ensures L.AllAccepted(answers[|done|..], |here|) <==> L.AllAccepted(answers, |done + here|)
    ensures L.AllAccepted(answers[|done|..], |here|) ==> L.Carried(here, answers[|done|..]) == here
    ensures !L.AllAccepted(answers[|done|..], |here|) ==>
      && L.Carried(done + (here + rest), answers) == done + L.Carried(here, answers[|done|..])
      && !L.AllAccepted(answers, |done + (here + rest)|)
  {
    var later := answers[|done|..];
    L.CarriedParts(done, here + rest, answers);
    L.CarriedParts(here, rest, later);
    L.CarriedAll(here, later);
    assert forall i | 0 <= i < |here| :: later[i] == answers[|done| + i];
    assert forall i | |done| <= i < |done| + |here| :: answers[i] == later[i - |done|];
  }

  /** One stage after the other. */
  lemma EnvStep(rule: EnforcementWire.OperationRule, objects: seq<(int, int)>, envs: seq<int>, k: nat)
    requires k < |envs| && forall e | e in envs :: e in rule.rates
    ensures L.EnvInstalls(rule.stage, rule.ruleId, objects, rule.rates, envs[k..])
         == L.ChannelInstalls(Stage(rule.stage, envs[k]), rule.ruleId, objects,
                              L.LimitPerChannel(rule.rates[envs[k]], |objects|))
            + L.EnvInstalls(rule.stage, rule.ruleId, objects, rule.rates, envs[k + 1..])
  {
    assert envs[k..][0] == envs[k] && envs[k..][1..] == envs[k + 1..];
  }

  lemma AggregateStep(rounds: seq<map<Stage, real>>, i: nat)
    requires i < |rounds|
    ensures A.Aggregate(rounds[..i + 1]) == A.RoundStats(A.Aggregate(rounds[..i]), i, rounds[i])
  {
    assert rounds[..i + 1][..i] == rounds[..i];
  }
}
