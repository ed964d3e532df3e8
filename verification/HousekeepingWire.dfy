/**
 * Housekeeping rules from the core controller to a stage: printed, joined into
 * the handshake, split by the local controller, tokenized and refilled.
 */
module HousekeepingWire {
  import opened Sequences
  import opened Tokenizer
  import opened Decimal
  import opened Definitions

  const CREATE_HSK_RULE := 4
  const LOCAL_HANDSHAKE := 11

  datatype Rule =
    | CreateChannel(ruleId: int, channel: int, context: int, workflow: int,
                    operationType: int, operationContext: int)
    | CreateObject(ruleId: int, channel: int, objectId: int, context: int,
                   operationType: int, operationContext: int,
                   objectType: int, first: int, second: int)

  function PrintObjectType(t: int): string {
    if t == 1 then "drl" else "noop"
  }

  function ParseObjectType(s: string): int {
    if s == "drl" then 1 else 0
  }

  /** Fields of a printed rule, in order. */
  function Fields(r: Rule): seq<string> {
    match r
    case CreateChannel(id, channel, context, workflow, t, c) =>
      [Text(CREATE_HSK_RULE), Text(id), "create_channel", Text(channel), PrintContext(context),
       Text(workflow), PrintDefinition(context, t), PrintDefinition(context, c)]
    case CreateObject(id, channel, objectId, context, t, c, o, first, second) =>
      [Text(CREATE_HSK_RULE), Text(id), "create_object", Text(channel), Text(objectId), PrintContext(context),
       PrintDefinition(context, t), PrintDefinition(context, c), PrintObjectType(o), Text(first), Text(second)]
  }

  function Print(r: Rule): string {
    Terminated(Fields(r), '|')
  }

  function PrintAll(rules: seq<Rule>): (texts: seq<string>)
    ensures |texts| == |rules|
    ensures forall i | 0 <= i < |rules| :: texts[i] == Print(rules[i])
  {
    seq(|rules|, i requires 0 <= i < |rules| => Print(rules[i]))
  }

  // ------------------------------------------------------------------
  // Core side: the handshake text
  // ------------------------------------------------------------------

  function Colons(texts: seq<string>): string {
    if texts == [] then "" else ":" + texts[0] + Colons(texts[1..])
  }

  function Handshake(texts: seq<string>): string {
    Text(LOCAL_HANDSHAKE) + "|" + Colons(texts)
  }

  method BuildHandshake(texts: seq<string>) returns (rule: string)
    ensures rule == Handshake(texts)
  {
    rule := Text(LOCAL_HANDSHAKE) + "|";
    ghost var head := rule;
    for i := 0 to |texts|
      invariant rule + Colons(texts[i..]) == head + Colons(texts)
    {
      assert texts[i..][1..] == texts[i + 1..];
      Regroup(rule, ":" + texts[i], Colons(texts[i + 1..]));
      rule := rule + (":" + texts[i]);
    }
    assert rule + "" == rule;
  }

  // ------------------------------------------------------------------
  // Local and stage side
  // ------------------------------------------------------------------

  /** The rules held by a local controller after the handshake. */
  function Received(text: string): seq<string> {
    var tokens := Tokens(text, ':');
    if tokens == [] then [] else tokens[1..]
  }

  method FillHousekeepingRules(text: string) returns (rules: seq<string>)
    ensures rules == Received(text)
  {
    var tokens := ParseRule(text, ':');
    rules := [];
    var first := true;
    for i := 0 to |tokens|
      invariant first <==> i == 0
      invariant rules == if i == 0 then [] else tokens[1..i]
    {
      if first {
        first := false;
      } else {
        rules := rules + [tokens[i]];
      }
    }
    assert tokens != [] ==> tokens[1..|tokens|] == tokens[1..];
  }

  /** The raw object filled from the tokens of a rule; None when the source cannot fill it. */
  function Fill(tokens: seq<string>): Option<Rule> {
    if |tokens| < 3 then None
    else if tokens[2] == "create_channel" then
      if |tokens| < 8 then None
      else
        match (Parse(tokens[1]), Parse(tokens[3]), Parse(tokens[5]))
        case (Some(id), Some(channel), Some(workflow)) =>
          Some(CreateChannel(id, channel, ParseContext(tokens[4]), workflow,
                             ParseDefinition(tokens[4], tokens[6]), ParseDefinition(tokens[4], tokens[7])))
        case _ => None
    else if tokens[2] == "create_object" then
      if |tokens| < 11 then None
      else
        match (Parse(tokens[1]), Parse(tokens[3]), Parse(tokens[4]), Parse(tokens[9]), Parse(tokens[10]))
        case (Some(id), Some(channel), Some(objectId), Some(first), Some(second)) =>
          Some(CreateObject(id, channel, objectId, ParseContext(tokens[5]),
                            ParseDefinition(tokens[5], tokens[6]), ParseDefinition(tokens[5], tokens[7]),
                            ParseObjectType(tokens[8]), first, second))
        case _ => None
    else None
  }

  function FillAll(texts: seq<string>): Option<seq<Rule>> {
    if texts == [] then Some([])
    else
      match (Fill(Tokens(texts[0], '|')), FillAll(texts[1..]))
      case (Some(r), Some(rest)) => Some([r] + rest)
      case _ => None
  }

  /** Print, join, split, tokenize, refill. */
  function Pipeline(rules: seq<Rule>): Option<seq<Rule>> {
    FillAll(Received(Handshake(PrintAll(rules))))
  }

  // ------------------------------------------------------------------
  // What the pipeline keeps
  // ------------------------------------------------------------------

  predicate Valid(r: Rule) {
    ValidContext(r.context)
  }

  predicate Inverted(r: Rule) {
    && Invertible(r.context, r.operationType)
    && Invertible(r.context, r.operationContext)
    && (r.CreateObject? ==> r.objectType in {0, 1})
  }

  /** A rule with the codes that have no inverse replaced by no_op. */
  function Canon(r: Rule): (c: Rule)
    ensures Valid(r) ==> (c == r <==> Inverted(r))
  {
    match r
    case CreateChannel(id, channel, context, workflow, t, c) =>
      CreateChannel(id, channel, context, workflow, Canonical(context, t), Canonical(context, c))
    case CreateObject(id, channel, objectId, context, t, c, o, first, second) =>
      CreateObject(id, channel, objectId, context, Canonical(context, t), Canonical(context, c),
                   if o == 1 then 1 else 0, first, second)
  }

  function CanonAll(rules: seq<Rule>): (r: seq<Rule>)
    ensures |r| == |rules|
    ensures forall i | 0 <= i < |r| :: r[i] == Canon(rules[i])
  {
    seq(|rules|, i requires 0 <= i < |rules| => Canon(rules[i]))
  }

  lemma PlainFields(r: Rule)
    requires Valid(r)
    ensures forall f | f in Fields(r) :: Plain(f)
  {
    PrintedNames(r.context, r.operationType);
    PrintedNames(r.context, r.operationContext);
    NumbersArePlain(r.ruleId);
    NumbersArePlain(r.channel);
    NumbersArePlain(CREATE_HSK_RULE);
    match r
    case CreateChannel(_, _, _, workflow, _, _) =>
      NumbersArePlain(workflow);
    case CreateObject(_, _, objectId, _, _, _, o, first, second) =>
      NumbersArePlain(objectId);
      NumbersArePlain(first);
      NumbersArePlain(second);
  }

  lemma NumbersArePlain(n: int)
    ensures Plain(Text(n))
  {
    TextIsFree(n, ':');
    TextIsFree(n, '|');
  }

  lemma {:induction false} TerminatedIsPlain(fields: seq<string>)
    requires forall f | f in fields :: Plain(f)
    ensures ':' !in Terminated(fields, '|') && (fields != [] ==> Terminated(fields, '|') != "")
  {
    if fields == [] {
    } else {
      assert fields[0] in fields;
      TerminatedIsPlain(fields[1..]);
    }
  }

  /** A printed rule is one token of the handshake, and its fields are found again. */
  lemma PrintedTokens(r: Rule)
    requires Valid(r)
    ensures Tokens(Print(r), '|') == Fields(r) && IsToken(Print(r), ':')
  {
    PlainFields(r);
    hide Fields;
    TerminatedTokens(Fields(r), '|');
    TerminatedIsPlain(Fields(r));
    assert Fields(r) != [] by { HasFields(r); }
  }

  /** The tokens of a printed rule, one by one. */
  lemma TokensOfPrinted(r: Rule)
    requires Valid(r)
    ensures Tokens(Print(r), '|')
         == match r
            case CreateChannel(id, channel, context, workflow, t, c) =>
              ["4", Text(id), "create_channel", Text(channel), PrintContext(context), Text(workflow),
               PrintDefinition(context, t), PrintDefinition(context, c)]
            case CreateObject(id, channel, objectId, context, t, c, o, first, second) =>
              ["4", Text(id), "create_object", Text(channel), Text(objectId), PrintContext(context),
               PrintDefinition(context, t), PrintDefinition(context, c), if o == 1 then "drl" else "noop",
               Text(first), Text(second)]
  {
    PrintedTokens(r);
    assert Text(4) == "4";
    hide Tokens, Print, PrintContext, PrintDefinition;
  }

  lemma HasFields(r: Rule)
    ensures Fields(r) != []
  {
  }

  lemma FillChannel(r: Rule)
    requires Valid(r) && r.CreateChannel?
    ensures Fill(Fields(r)) == Some(Canon(r))
  {
    ContextRoundTrip(r.context);
    DefinitionRoundTrip(r.context, r.operationType);
    DefinitionRoundTrip(r.context, r.operationContext);
    ParseText(r.ruleId);
    ParseText(r.channel);
    ParseText(r.workflow);
    hide Parse, Text, PrintContext, ParseContext, PrintDefinition, ParseDefinition, Canonical;
  }

  lemma FillObject(r: Rule)
    requires Valid(r) && r.CreateObject?
    ensures Fill(Fields(r)) == Some(Canon(r))
  {
    ContextRoundTrip(r.context);
    DefinitionRoundTrip(r.context, r.operationType);
    DefinitionRoundTrip(r.context, r.operationContext);
    ParseText(r.ruleId);
    ParseText(r.channel);
    ParseText(r.objectId);
    ParseText(r.first);
    ParseText(r.second);
    hide Parse, Text, PrintContext, ParseContext, PrintDefinition, ParseDefinition, Canonical;
  }

  lemma FillPrinted(r: Rule)
    requires Valid(r)
    ensures Fill(Tokens(Print(r), '|')) == Some(Canon(r))
  {
    PrintedTokens(r);
    if r.CreateChannel? {
      FillChannel(r);
    } else {
      FillObject(r);
    }
  }

  lemma PrintAllStep(rules: seq<Rule>)
    requires rules != []
    ensures PrintAll(rules) == [Print(rules[0])] + PrintAll(rules[1..])
    ensures CanonAll(rules) == [Canon(rules[0])] + CanonAll(rules[1..])
  {
    hide Print, Canon;
  }

  lemma FillAllStep(first: string, rest: seq<string>)
    ensures FillAll([first] + rest)
         == match (Fill(Tokens(first, '|')), FillAll(rest))
            case (Some(r), Some(rs)) => Some([r] + rs)
            case _ => None
  {
    hide Fill, Tokens;
    assert ([first] + rest)[1..] == rest;
  }

  lemma {:induction false} FillAllPrinted(rules: seq<Rule>)
    requires forall r | r in rules :: Valid(r)
    ensures FillAll(PrintAll(rules)) == Some(CanonAll(rules))
  {
    if rules == [] {
      assert PrintAll(rules) == [] && CanonAll(rules) == [];
    } else {
      hide FillAll, Print, Tokens, Fill, Canon, Valid, PrintAll, CanonAll;
      assert rules[0] in rules;
      FillPrinted(rules[0]);
      FillAllPrinted(rules[1..]);
      PrintAllStep(rules);
      FillAllStep(Print(rules[0]), PrintAll(rules[1..]));
    }
  }

  lemma {:induction false} ColonTokens(texts: seq<string>)
    requires forall t | t in texts :: IsToken(t, ':')
    ensures Tokens(Colons(texts), ':') == texts
    ensures texts == [] || Colons(texts)[0] == ':'
  {
    if texts == [] {
    } else {
      var rest := Colons(texts[1..]);
      ColonTokens(texts[1..]);
      FirstToken(texts[0], rest, ':');
      DropDelimiter(texts[0] + rest, ':');
      assert Colons(texts) == [':'] + (texts[0] + rest);
      assert texts == [texts[0]] + texts[1..];
    }
  }

  /** The local controller holds exactly the texts the core controller sent. */
  lemma HandshakeRoundTrip(texts: seq<string>)
    requires forall t | t in texts :: IsToken(t, ':')
    ensures Received(Handshake(texts)) == texts
  {
    var head := Text(LOCAL_HANDSHAKE) + "|";
    TextIsFree(LOCAL_HANDSHAKE, ':');
    ColonTokens(texts);
    FirstToken(head, Colons(texts), ':');
  }

  /** The pipeline yields every rule in canonical form, in order. */
  lemma PipelineYieldsCanonical(rules: seq<Rule>)
    requires forall r | r in rules :: Valid(r)
    ensures Pipeline(rules) == Some(CanonAll(rules))
  {
    forall t | t in PrintAll(rules)
      ensures IsToken(t, ':')
    {
      var i :| 0 <= i < |rules| && t == Print(rules[i]);
      assert rules[i] in rules;
      PrintedTokens(rules[i]);
    }
    HandshakeRoundTrip(PrintAll(rules));
    FillAllPrinted(rules);
  }

  /** The stage gets the rules unchanged exactly when every code has an inverse. */
  lemma PipelineRoundTripsExactly(rules: seq<Rule>)
    requires forall r | r in rules :: Valid(r)
    ensures Pipeline(rules) == Some(rules) <==> forall r | r in rules :: Inverted(r)
  {
    PipelineYieldsCanonical(rules);
    if forall r | r in rules :: Inverted(r) {
      assert CanonAll(rules) == rules;
    }
    if CanonAll(rules) == rules {
      forall r | r in rules
        ensures Inverted(r)
      {
        var i :| 0 <= i < |rules| && rules[i] == r;
        assert CanonAll(rules)[i] == Canon(r);
      }
    }
  }

  /** Sending the received rules through the pipeline again changes nothing. */
  lemma PipelineIsIdempotent(rules: seq<Rule>)
    requires forall r | r in rules :: Valid(r)
    ensures Pipeline(rules).Some? && Pipeline(Pipeline(rules).value) == Pipeline(rules)
  {
    PipelineYieldsCanonical(rules);
    var once := CanonAll(rules);
    forall r | r in once
      ensures Valid(r) && Inverted(r)
    {
      var i :| 0 <= i < |rules| && r == Canon(rules[i]);
      assert rules[i] in rules;
    }
    PipelineRoundTripsExactly(once);
  }
}
