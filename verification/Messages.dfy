/** What the rules of a run say: their kinds, their recipients, and what the other side reads in them. */
module Messages {
  import opened Sequences
  import opened Registry
  import opened Rounds
  import opened Runs
  import opened Sessions
  import opened Statistics
  import C = CoreController
  import Decimal
  import EnforcementWire
  import H = HousekeepingWire
  import Programs
  import Tokenizer

  // ------------------------------------------------------------------
  // Kinds of rules
  // ------------------------------------------------------------------

  lemma SecondToken(kind: int, rest: string)
    ensures Tokenizer.Tokens(Decimal.Text(kind) + "|" + rest, '|') == [Decimal.Text(kind)] + Tokenizer.Tokens(rest, '|')
  {
    Decimal.TextIsFree(kind, '|');
    var text := Decimal.Text(kind);
    assert text + "|" + rest == text + (['|'] + rest);
    hide Tokenizer.Tokens, Decimal.Text;
    Tokenizer.FirstToken(text, ['|'] + rest, '|');
    Tokenizer.DropDelimiter(rest, '|');
  }

  /**
   * Of the rules that start with a number, a worker answers those of kind 0, 1, 6
   * and 11, and those of kind 3 whose next token is the number 5 or 6.
   */
  lemma AnsweredExactly(kind: int, rest: string)
    ensures IsAnswered(Decimal.Text(kind) + "|" + rest)
       <==> kind == 0 || kind == 1 || kind == 6 || kind == 11
            || (kind == 3 && var tokens := Tokenizer.Tokens(rest, '|');
                tokens != [] && (Decimal.Parse(tokens[0]) == Decimal.Some(5) || Decimal.Parse(tokens[0]) == Decimal.Some(6)))
  {
    Programs.KindOf(kind, rest);
    SecondToken(kind, rest);
    hide Tokenizer.Tokens, Decimal.Text, Decimal.Parse, OperationType;
  }

  lemma ReadyKind(s: Stage)
    ensures OperationType(C.ReadyRule(s)) == Decimal.Some(1)
  {
    assert Decimal.Text(1) == "1";
    assert C.ReadyRule(s) == Decimal.Text(1) + "|" + (Key(s) + "|");
    hide C.ReadyRule, Decimal.Text, OperationType, Key;
    Programs.KindOf(1, Key(s) + "|");
  }

  lemma EnforcementKind(app: string, operation: string, envs: seq<int>, limit: int)
    ensures OperationType(EnforcementWire.Print(app, operation, envs, limit)) == Decimal.Some(6)
  {
    var rest := "." + EnforcementWire.Body(app, operation, envs, limit) + ".";
    assert EnforcementWire.Print(app, operation, envs, limit) == Decimal.Text(6) + "|" + rest;
    hide *;
    Programs.KindOf(6, rest);
  }

  lemma HousekeepingKind(r: H.Rule)
    ensures OperationType(H.Print(r)) == Decimal.Some(4)
  {
    var fields := H.Fields(r);
    assert fields != [] && fields[0] == Decimal.Text(4);
    var rest := Tokenizer.Terminated(fields[1..], '|');
    assert H.Print(r) == fields[0] + (['|'] + rest) == Decimal.Text(4) + "|" + rest;
    hide *;
    Programs.KindOf(4, rest);
  }

  /** The kinds of the rules that the core controller sends, and of the housekeeping rules in its handshake. */
  lemma KindsSent(s: Stage, texts: seq<string>, app: string, operation: string, envs: seq<int>, limit: int, r: H.Rule)
    ensures OperationType(C.ReadyRule(s)) == Decimal.Some(1)
    ensures OperationType(H.Handshake(texts)) == Decimal.Some(11)
    ensures OperationType(EnforcementWire.Print(app, operation, envs, limit)) == Decimal.Some(6)
    ensures OperationType(H.Print(r)) == Decimal.Some(4)
  {
    assert H.Handshake(texts) == Decimal.Text(11) + "|" + H.Colons(texts);
    hide *;
    ReadyKind(s);
    Programs.KindOf(11, H.Colons(texts));
    EnforcementKind(app, operation, envs, limit);
    HousekeepingKind(r);
  }

  // ------------------------------------------------------------------
  // STAGE_READY
  // ------------------------------------------------------------------

  /** The local controller reads the stage's key back out of STAGE_READY exactly when the job has no bar in its name. */
  lemma ReadyNamesStage(s: Stage)
    ensures var tokens := Tokenizer.Tokens(C.ReadyRule(s), '|');
      2 <= |tokens| && tokens[1] == Key(s) <==> '|' !in s.job
  {
    var tokens := Tokenizer.Tokens(C.ReadyRule(s), '|');
    Decimal.TextIsFree(s.env, '|');
    assert '|' in Key(s) <==> '|' in s.job;
    if 2 <= |tokens| && tokens[1] == Key(s) {
      assert Tokenizer.IsToken(tokens[1], '|');
    }
    if '|' !in s.job {
      hide Tokenizer.Tokens;
      Tokenizer.FirstToken("1", ['|'] + (Key(s) + "|"), '|');
      Tokenizer.DropDelimiter(Key(s) + "|", '|');
      Tokenizer.FirstToken(Key(s), "|", '|');
      assert C.ReadyRule(s) == "1" + (['|'] + (Key(s) + "|"));
    }
  }

  /** Two stages without a bar in their names are told apart by their STAGE_READY rules. */
  lemma ReadyTellsApart(s: Stage, t: Stage)
    requires '|' !in s.job && '|' !in t.job
    ensures C.ReadyRule(s) == C.ReadyRule(t) <==> s == t
  {
    ReadyNamesStage(s);
    ReadyNamesStage(t);
    if C.ReadyRule(s) == C.ReadyRule(t) {
      KeyIsInjective(s, t);
    }
    hide Key, Tokenizer.Tokens;
  }

  /** A stage that joins makes one rule go to its own local controller, and its answer is awaited. */
  lemma StageJoinsCalls(t: ControlType, rules: seq<string>, c: Core, i: StageInfo)
    requires Base(c) && Runs.Enabled(t, c, StageJoins(i))
    ensures var calls := Programs.EventCalls(t, rules, c, StageJoins(i));
      calls == [Submit(i.address, "1|" + i.stage.job + "+" + Decimal.Text(i.stage.env) + "|"),
                Await(i.address, "1|" + i.stage.job + "+" + Decimal.Text(i.stage.env) + "|")]
  {
    var job, env := i.stage.job, Decimal.Text(i.stage.env);
    assert "1|" + (job + "+" + env) + "|" == "1|" + job + "+" + env + "|";
    hide Consistent, SessionsAgree, Decimal.Text;
  }

  /** A local controller that joins is sent the housekeeping rules, and its answer is awaited. */
  lemma LocalJoinsCalls(t: ControlType, texts: seq<string>, c: Core, address: string)
    requires Base(c) && Runs.Enabled(t, c, LocalJoins(address))
    requires forall x | x in texts :: Tokenizer.IsToken(x, ':')
    ensures var calls := Programs.EventCalls(t, texts, c, LocalJoins(address));
      && |calls| == 2 && calls[0].Submit? && calls[0].session == address
      && calls[1] == Await(address, calls[0].rule)
      && OperationType(calls[0].rule) == Decimal.Some(11) && H.Received(calls[0].rule) == texts
  {
    H.HandshakeRoundTrip(texts);
    assert H.Handshake(texts) == Decimal.Text(11) + "|" + H.Colons(texts);
    Programs.KindOf(11, H.Colons(texts));
    hide Consistent, SessionsAgree, H.Handshake, H.Received, OperationType, Decimal.Text;
  }

  // ------------------------------------------------------------------
  // Statistics requests
  // ------------------------------------------------------------------

  /** Statistics are requested from exactly the local controllers that have stages. */
  lemma {:induction false} RequestsExactly(c: Core, locals: seq<string>, rule: string, call: Call)
    ensures call in C.StatisticsSends(c, locals, rule)
       <==> exists a | a in locals :: a in c.localToStages && c.localToStages[a] != [] && call == Submit(a, rule)
    decreases |locals|
  {
    if locals == [] {
    } else {
      var n := |locals| - 1;
      RequestsExactly(c, locals[..n], rule, call);
      assert locals == locals[..n] + [locals[n]];
      assert forall a :: a in locals <==> a in locals[..n] || a == locals[n];
    }
  }

  /** Leftover control asks for aggregated statistics (6), the others for plain ones (5). */
  lemma RequestTokens(t: ControlType)
    ensures Tokenizer.Tokens(Programs.Request(t), '|') == ["3", if t == DynamicLeftover then "6" else "5"]
  {
    var kind := if t == DynamicLeftover then "6" else "5";
    Tokenizer.FirstToken("3", ['|'] + (kind + "|"), '|');
    Tokenizer.DropDelimiter(kind + "|", '|');
    Tokenizer.FirstToken(kind, "|", '|');
    assert Programs.Request(t) == "3" + (['|'] + (kind + "|"));
    assert Tokenizer.Tokens("|", '|') == Tokenizer.Tokens("", '|') == [];
  }
}
