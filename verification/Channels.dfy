/** The channels a local controller holds after the handshake, for the rules the core controller sent. */
module Channels {
  import opened Sequences
  import opened Decimal
  import opened Definitions
  import opened HousekeepingWire
  import opened Tokenizer
  import L = Local

  type ChannelMap = map<string, seq<(int, int)>>

  /** The channels stored for an operation; none if it has no entry. */
  function At(channels: ChannelMap, operation: string): seq<(int, int)> {
    if operation in channels then channels[operation] else []
  }

  /** The rule creates a channel for the operation: its type, or its context if the type is printed as no_op. */
  predicate Serves(r: Rule, operation: string) {
    && r.CreateChannel?
    && var name := PrintDefinition(r.context, r.operationType);
       if name == "no_op" then operation == PrintDefinition(r.context, r.operationContext) else operation == name
  }

  /** The channels that the rules create for the operation, in order; each holds one object. */
  function CreatedFor(rules: seq<Rule>, operation: string): seq<(int, int)> {
    if rules == [] then []
    else (if Serves(rules[0], operation) then [(rules[0].channel, 1)] else []) + CreatedFor(rules[1..], operation)
  }

  // ------------------------------------------------------------------
  // One rule
  // ------------------------------------------------------------------

  /** A readable rule appends its channel to those of one operation, if it creates one, and changes no other entry. */
  lemma AddChannelAppends(channels: ChannelMap, rule: string, operation: string)
    requires L.RuleReadable(rule)
    ensures var tokens, after := Tokens(rule, '|'), L.AddChannel(channels, rule);
      var mine := tokens[2] == "create_channel" && operation == if tokens[6] == "no_op" then tokens[7] else tokens[6];
      && (operation in after <==> operation in channels || mine)
      && At(after, operation) == At(channels, operation) + if mine then [(Parse(tokens[3]).value, 1)] else []
  {
    hide Tokens, Parse;
  }

  /** Printed rules are readable, and a printed create_channel rule has these fields. */
  lemma PrintedFields(r: Rule)
    requires Valid(r)
    ensures L.RuleReadable(Print(r))
    ensures var tokens := Tokens(Print(r), '|');
      && |tokens| >= 3 && (tokens[2] == "create_channel" <==> r.CreateChannel?)
      && (r.CreateChannel? ==>
            && |tokens| == 8 && Parse(tokens[3]) == Some(r.channel)
            && tokens[6] == PrintDefinition(r.context, r.operationType)
            && tokens[7] == PrintDefinition(r.context, r.operationContext))
  {
    PrintedTokens(r);
    ParseText(r.channel);
    hide Tokens, Parse, Print, Text, PrintDefinition, PrintContext;
  }

  lemma PrintedChannel(channels: ChannelMap, r: Rule, operation: string)
    requires Valid(r)
    ensures L.RuleReadable(Print(r))
    ensures var after := L.AddChannel(channels, Print(r));
      && (operation in after <==> operation in channels || Serves(r, operation))
      && At(after, operation) == At(channels, operation) + if Serves(r, operation) then [(r.channel, 1)] else []
  {
    PrintedFields(r);
    AddChannelAppends(channels, Print(r), operation);
    hide L.AddChannel, L.RuleReadable, Tokens, Parse, Print, PrintDefinition, At;
  }

  // ------------------------------------------------------------------
  // All rules
  // ------------------------------------------------------------------

  lemma PrintedReadable(rules: seq<Rule>)
    requires forall r | r in rules :: Valid(r)
    ensures forall t | t in PrintAll(rules) :: L.RuleReadable(t)
  {
    hide Print, L.RuleReadable;
    forall t | t in PrintAll(rules)
      ensures L.RuleReadable(t)
    {
      var i :| 0 <= i < |rules| && PrintAll(rules)[i] == t;
      assert rules[i] in rules;
      PrintedFields(rules[i]);
    }
  }

  lemma {:induction false} PrintedChannels(channels: ChannelMap, rules: seq<Rule>, operation: string)
    requires forall r | r in rules :: Valid(r)
    ensures forall t | t in PrintAll(rules) :: L.RuleReadable(t)
    ensures var after := L.AddChannels(channels, PrintAll(rules));
      && (operation in after <==> operation in channels || CreatedFor(rules, operation) != [])
      && At(after, operation) == At(channels, operation) + CreatedFor(rules, operation)
    decreases |rules|
  {
    PrintedReadable(rules);
    if rules == [] {
    } else {
      assert rules[0] in rules;
      PrintedChannel(channels, rules[0], operation);
      PrintAllStep(rules);
      var next := L.AddChannel(channels, Print(rules[0]));
      hide L.AddChannel, L.RuleReadable, Print, PrintAll, Valid, Serves, At;
      PrintedChannels(next, rules[1..], operation);
      var first := if Serves(rules[0], operation) then [(rules[0].channel, 1)] else [];
      assert CreatedFor(rules, operation) == first + CreatedFor(rules[1..], operation);
      assert PrintAll(rules)[0] == Print(rules[0]) && PrintAll(rules)[1..] == PrintAll(rules[1..]);
      hide CreatedFor;
      Regroup(At(channels, operation), first, CreatedFor(rules[1..], operation));
    }
  }

  /**
   * For every list of rules: a new local controller that received them holds for
   * each operation exactly the channels created for it, in the order of the rules,
   * and no entry for any other operation.
   */
  lemma HandshakeChannels(rules: seq<Rule>, operation: string)
    requires forall r | r in rules :: Valid(r)
    ensures forall t | t in Received(Handshake(PrintAll(rules))) :: L.RuleReadable(t)
    ensures var l := L.Handshake(L.Local([], map[], {}, {}), Received(Handshake(PrintAll(rules))));
      && l.rules == PrintAll(rules)
      && (operation in l.channels <==> exists i :: 0 <= i < |rules| && Serves(rules[i], operation))
      && (operation in l.channels ==> l.channels[operation] == CreatedFor(rules, operation))
  {
    PrintedReadable(rules);
    PrintedPipe(rules);
    PrintedChannels(map[], rules, operation);
    CreatedExactly(rules, operation);
    hide L.AddChannels, L.RuleReadable, PrintAll, Print, Valid, Serves, Received, Handshake, CreatedFor;
  }

  lemma PrintedPipe(rules: seq<Rule>)
    requires forall r | r in rules :: Valid(r)
    ensures Received(Handshake(PrintAll(rules))) == PrintAll(rules)
  {
    hide Print, Received, Handshake, IsToken;
    forall t | t in PrintAll(rules)
      ensures IsToken(t, ':')
    {
      var i :| 0 <= i < |rules| && PrintAll(rules)[i] == t;
      assert rules[i] in rules;
      PrintedTokens(rules[i]);
    }
    HandshakeRoundTrip(PrintAll(rules));
  }

  lemma {:induction false} CreatedExactly(rules: seq<Rule>, operation: string)
    ensures CreatedFor(rules, operation) != [] <==> exists i :: 0 <= i < |rules| && Serves(rules[i], operation)
  {
    if rules == [] {
    } else {
      CreatedExactly(rules[1..], operation);
      hide Serves;
      if i :| 0 <= i < |rules| && Serves(rules[i], operation) {
        assert i == 0 || rules[1..][i - 1] == rules[i];
      }
      if i :| 0 <= i < |rules[1..]| && Serves(rules[1..][i], operation) {
        assert rules[i + 1] == rules[1..][i];
      }
    }
  }

  lemma CreatedFirst(rules: seq<Rule>, operation: string)
    requires rules != []
    ensures CreatedFor(rules, operation)
         == (if Serves(rules[0], operation) then [(rules[0].channel, 1)] else []) + CreatedFor(rules[1..], operation)
    ensures CreatedFor([], operation) == []
  {
    hide Serves;
  }

  /** The k-th of the channels of an operation is created by the k-th rule that serves it. */
  lemma {:induction false} CreatedInOrder(rules: seq<Rule>, operation: string, i: nat)
    requires i < |rules| && Serves(rules[i], operation)
    ensures var k := |CreatedFor(rules[..i], operation)|;
      k < |CreatedFor(rules, operation)| && CreatedFor(rules, operation)[k] == (rules[i].channel, 1)
    decreases |rules|
  {
    hide CreatedFor, Serves;
    CreatedFirst(rules, operation);
    if i == 0 {
      assert rules[..0] == [];
    } else {
      assert rules[..i][0] == rules[0] && rules[..i][1..] == rules[1..][..i - 1];
      CreatedFirst(rules[..i], operation);
      assert rules[1..][i - 1] == rules[i];
      CreatedInOrder(rules[1..], operation, i - 1);
    }
  }

  /** Rules that all serve one operation leave it one channel each: none replaces another. */
  lemma {:induction false} EachHasAChannel(rules: seq<Rule>, operation: string)
    requires forall i | 0 <= i < |rules| :: Serves(rules[i], operation)
    ensures |CreatedFor(rules, operation)| == |rules|
    ensures forall i | 0 <= i < |rules| :: CreatedFor(rules, operation)[i] == (rules[i].channel, 1)
  {
    if rules == [] {
    } else {
      hide Serves;
      EachHasAChannel(rules[1..], operation);
    }
  }
}
