/**
 * The enforcement rule on its way from the core controller to a local
 * controller: printed as nested delimited text, parsed into a map of operations.
 */
module EnforcementWire {
  import opened Sequences
  import opened Tokenizer
  import opened Decimal

  const CREATE_ENF_RULE := 6

  datatype OperationRule = OperationRule(ruleId: int, stage: string, rates: map<int, int>)

  /** `*env:limit` for every env. */
  function EnvText(envs: seq<int>, limit: int): string {
    if envs == [] then "" else "*" + (Text(envs[0]) + ":" + Text(limit)) + EnvText(envs[1..], limit)
  }

  function Body(app: string, operation: string, envs: seq<int>, limit: int): string {
    "0|" + app + "|" + operation + "|" + EnvText(envs, limit) + "*"
  }

  function Print(app: string, operation: string, envs: seq<int>, limit: int): string {
    Text(CREATE_ENF_RULE) + "|." + Body(app, operation, envs, limit) + "."
  }

  /** The text the core controller accumulates piece by piece. */
  method PrintRule(app: string, operation: string, envs: seq<int>, limit: int) returns (rule: string)
    ensures rule == Print(app, operation, envs, limit)
  {
    rule := Text(CREATE_ENF_RULE);
    rule := rule + ("|.0|" + app + "|" + operation + "|");
    ghost var head := rule;
    for i := 0 to |envs|
      invariant rule + EnvText(envs[i..], limit) == head + EnvText(envs, limit)
    {
      var pair := "*" + (Text(envs[i]) + ":" + Text(limit));
      assert envs[i..][1..] == envs[i + 1..];
      Regroup(rule, pair, EnvText(envs[i + 1..], limit));
      rule := rule + pair;
    }
    Closing(app, operation, head, rule, EnvText(envs, limit));
    rule := rule + "*.";
  }

  lemma Closing(app: string, operation: string, head: string, rule: string, envs: string)
    requires head == Text(CREATE_ENF_RULE) + ("|.0|" + app + "|" + operation + "|")
    requires rule + "" == head + envs
    ensures rule + "*." == Text(CREATE_ENF_RULE) + "|." + ("0|" + app + "|" + operation + "|" + envs + "*") + "."
  {
    var k := Text(CREATE_ENF_RULE);
    var names := app + "|" + operation + "|";
    assert rule == head + envs;
    assert "|.0|" + app + "|" + operation + "|" == "|.0|" + names;
    assert "0|" + app + "|" + operation + "|" + envs + "*" == "0|" + names + (envs + "*");
    assert k + ("|.0|" + names) + envs + "*." == k + "|." + ("0|" + names + (envs + "*")) + ".";
  }

  // ------------------------------------------------------------------
  // Parsing: None stands for a parse that aborts
  // ------------------------------------------------------------------

  function ParsePair(text: string): Option<(int, int)> {
    var tokens := Tokens(text, ':');
    if |tokens| < 2 then None
    else
      match (Parse(tokens[0]), Parse(tokens[1]))
      case (Some(env), Some(limit)) => Some((env, limit))
      case _ => None
  }

  function ParsePairs(pairs: seq<string>, rates: map<int, int>): Option<map<int, int>> {
    if pairs == [] then Some(rates)
    else
      match ParsePair(pairs[0])
      case None => None
      case Some((env, limit)) => ParsePairs(pairs[1..], rates[env := limit])
  }

  function ParseOperation(part: string): Option<(string, OperationRule)> {
    var tokens := Tokens(part, '|');
    if |tokens| < 4 then None
    else
      match (Parse(tokens[0]), ParsePairs(Tokens(tokens[3], '*'), map[]))
      case (Some(id), Some(rates)) => Some((tokens[2], OperationRule(id, tokens[1], rates)))
      case _ => None
  }

  function ParseParts(parts: seq<string>, rules: map<string, OperationRule>): Option<map<string, OperationRule>> {
    if parts == [] then Some(rules)
    else
      match ParseOperation(parts[0])
      case None => None
      case Some((operation, r)) => ParseParts(parts[1..], rules[operation := r])
  }

  /** The first part, before the first dot, only names the kind of rule. */
  function ParseEnforcement(rule: string): Option<map<string, OperationRule>> {
    var parts := Tokens(rule, '.');
    if parts == [] then Some(map[]) else ParseParts(parts[1..], map[])
  }

  method ParseRates(text: string) returns (rates: Option<map<int, int>>)
    ensures rates == ParsePairs(Tokens(text, '*'), map[])
  {
    var pairs := ParseRule(text, '*');
    var acc := map[];
    for i := 0 to |pairs|
      invariant ParsePairs(pairs, map[]) == ParsePairs(pairs[i..], acc)
    {
      var tokens := ParseRule(pairs[i], ':');
      if |tokens| < 2 {
        return None;
      }
      var env, limit := Parse(tokens[0]), Parse(tokens[1]);
      if env.None? || limit.None? {
        return None;
      }
      acc := acc[env.value := limit.value];
      assert pairs[i..][1..] == pairs[i + 1..];
    }
    return Some(acc);
  }

  method ParseEnforcementRule(rule: string) returns (rules: Option<map<string, OperationRule>>)
    ensures rules == ParseEnforcement(rule)
  {
    var parts := ParseRule(rule, '.');
    var acc := map[];
    if parts == [] {
      return Some(acc);
    }
    for i := 1 to |parts|
      invariant ParseParts(parts[1..], map[]) == ParseParts(parts[i..], acc)
    {
      var tokens := ParseRule(parts[i], '|');
      if |tokens| < 4 {
        return None;
      }
      var id := Parse(tokens[0]);
      var rates := ParseRates(tokens[3]);
      if id.None? || rates.None? {
        return None;
      }
      acc := acc[tokens[2] := OperationRule(id.value, tokens[1], rates.value)];
      assert parts[i..][1..] == parts[i + 1..];
    }
    return Some(acc);
  }

  // ------------------------------------------------------------------
  // Which rules can be parsed
  // ------------------------------------------------------------------

  /** Two numbers with a colon between them; more may follow. */
  predicate PairReadable(text: string) {
    var tokens := Tokens(text, ':');
    2 <= |tokens| && Parse(tokens[0]).Some? && Parse(tokens[1]).Some?
  }

  /** A number, a job, an operation and readable pairs; more may follow. */
  predicate PartReadable(part: string) {
    var tokens := Tokens(part, '|');
    && 4 <= |tokens| && Parse(tokens[0]).Some?
    && forall p | p in Tokens(tokens[3], '*') :: PairReadable(p)
  }

  lemma {:induction false} PairsReadable(pairs: seq<string>, rates: map<int, int>)
    ensures ParsePairs(pairs, rates).Some? <==> forall p | p in pairs :: PairReadable(p)
    decreases |pairs|
  {
    if pairs == [] {
    } else {
      hide Tokens, Parse;
      assert pairs == [pairs[0]] + pairs[1..];
      assert ParsePair(pairs[0]).Some? <==> PairReadable(pairs[0]);
      if ParsePair(pairs[0]).Some? {
        var (env, limit) := ParsePair(pairs[0]).value;
        PairsReadable(pairs[1..], rates[env := limit]);
      }
    }
  }

  /** The last pair that names an environment decides its rate. */
  lemma {:induction false} LastPairWins(pairs: seq<string>, rates: map<int, int>, k: nat)
    requires ParsePairs(pairs, rates).Some? && k < |pairs| && PairReadable(pairs[k])
    requires forall i | k < i < |pairs| ::
      PairReadable(pairs[i]) && Parse(Tokens(pairs[i], ':')[0]) != Parse(Tokens(pairs[k], ':')[0])
    ensures var env := Parse(Tokens(pairs[k], ':')[0]).value;
      && env in ParsePairs(pairs, rates).value
      && ParsePairs(pairs, rates).value[env] == Parse(Tokens(pairs[k], ':')[1]).value
    decreases |pairs|
  {
    hide Tokens, Parse;
    var (env, limit) := ParsePair(pairs[0]).value;
    if k == 0 {
      PairStays(pairs[1..], rates[env := limit], env);
    } else {
      LastPairWins(pairs[1..], rates[env := limit], k - 1);
    }
  }

  lemma {:induction false} PairStays(pairs: seq<string>, rates: map<int, int>, env: int)
    requires ParsePairs(pairs, rates).Some? && env in rates
    requires forall p | p in pairs :: PairReadable(p) && Parse(Tokens(p, ':')[0]) != Some(env)
    ensures env in ParsePairs(pairs, rates).value && ParsePairs(pairs, rates).value[env] == rates[env]
    decreases |pairs|
  {
    if pairs == [] {
    } else {
      hide Tokens, Parse;
      assert pairs[0] in pairs;
      var (other, limit) := ParsePair(pairs[0]).value;
      PairStays(pairs[1..], rates[other := limit], env);
    }
  }

  lemma {:induction false} PartsReadable(parts: seq<string>, rules: map<string, OperationRule>)
    ensures ParseParts(parts, rules).Some? <==> forall p | p in parts :: PartReadable(p)
    decreases |parts|
  {
    if parts == [] {
    } else {
      assert parts == [parts[0]] + parts[1..];
      PartIsReadable(parts[0]);
      hide ParseOperation, PartReadable;
      if ParseOperation(parts[0]).Some? {
        var (operation, r) := ParseOperation(parts[0]).value;
        PartsReadable(parts[1..], rules[operation := r]);
      }
    }
  }

  /** The operation named by a readable part. */
  function NamedBy(part: string): string
    requires PartReadable(part)
  {
    Tokens(part, '|')[2]
  }

  /** The last part that names an operation decides its rule. */
  lemma {:induction false} LastPartWins(parts: seq<string>, rules: map<string, OperationRule>, k: nat)
    requires ParseParts(parts, rules).Some? && k < |parts| && PartReadable(parts[k])
    requires forall i | k < i < |parts| :: PartReadable(parts[i]) && NamedBy(parts[i]) != NamedBy(parts[k])
    ensures ParsePairs(Tokens(Tokens(parts[k], '|')[3], '*'), map[]).Some?
    ensures var tokens, parsed := Tokens(parts[k], '|'), ParseParts(parts, rules).value;
      && tokens[2] in parsed
      && parsed[tokens[2]] == OperationRule(Parse(tokens[0]).value, tokens[1], ParsePairs(Tokens(tokens[3], '*'), map[]).value)
    decreases |parts|
  {
    PartIsReadable(parts[k]);
    PartIsReadable(parts[0]);
    hide Tokens, Parse, ParsePairs, PartReadable;
    var (operation, r) := ParseOperation(parts[0]).value;
    if k == 0 {
      PartStays(parts[1..], rules[operation := r], operation);
    } else {
      LastPartWins(parts[1..], rules[operation := r], k - 1);
    }
  }

  lemma {:induction false} PartStays(parts: seq<string>, rules: map<string, OperationRule>, operation: string)
    requires ParseParts(parts, rules).Some? && operation in rules
    requires forall p | p in parts :: PartReadable(p) && NamedBy(p) != operation
    ensures operation in ParseParts(parts, rules).value && ParseParts(parts, rules).value[operation] == rules[operation]
    decreases |parts|
  {
    if parts == [] {
    } else {
      assert parts[0] in parts;
      PartIsReadable(parts[0]);
      hide Tokens, Parse, ParsePairs, PartReadable;
      var (other, r) := ParseOperation(parts[0]).value;
      PartStays(parts[1..], rules[other := r], operation);
    }
  }

  /** An operation that no part names is not in the result. */
  lemma {:induction false} OnlyNamed(parts: seq<string>, rules: map<string, OperationRule>, operation: string)
    requires ParseParts(parts, rules).Some? && operation !in rules
    requires forall p | p in parts :: PartReadable(p) && NamedBy(p) != operation
    ensures operation !in ParseParts(parts, rules).value
    decreases |parts|
  {
    if parts == [] {
    } else {
      assert parts[0] in parts;
      PartIsReadable(parts[0]);
      hide Tokens, Parse, ParsePairs, PartReadable;
      var (other, r) := ParseOperation(parts[0]).value;
      OnlyNamed(parts[1..], rules[other := r], operation);
    }
  }

  lemma PartIsReadable(part: string)
    ensures ParseOperation(part).Some? <==> PartReadable(part)
  {
    var tokens := Tokens(part, '|');
    if 4 <= |tokens| {
      PairsReadable(Tokens(tokens[3], '*'), map[]);
    }
    hide Tokens, Parse, ParsePairs, PairReadable;
  }

  /** A rule is parsed exactly if every part after the first dot is readable: one malformed part is enough to abort. */
  lemma ParsedExactly(rule: string)
    ensures ParseEnforcement(rule).Some?
       <==> forall i | 1 <= i < |Tokens(rule, '.')| :: PartReadable(Tokens(rule, '.')[i])
  {
    var parts := Tokens(rule, '.');
    hide Tokens, PartReadable;
    if parts != [] {
      PartsReadable(parts[1..], map[]);
      assert forall i | 1 <= i < |parts| :: parts[i] == parts[1..][i - 1];
    }
  }

  // ------------------------------------------------------------------
  // Round trip
  // ------------------------------------------------------------------

  /** Names the format can carry. */
  predicate Printable(name: string) {
    name != "" && '.' !in name && '|' !in name
  }

  function Uniform(envs: seq<int>, limit: int): map<int, int> {
    map e | e in envs :: limit
  }

  function PairTexts(envs: seq<int>, limit: int): (r: seq<string>)
    ensures |r| == |envs|
  {
    if envs == [] then [] else [Text(envs[0]) + ":" + Text(limit)] + PairTexts(envs[1..], limit)
  }

  lemma PairRoundTrip(env: int, limit: int)
    ensures ParsePair(Text(env) + ":" + Text(limit)) == Some((env, limit))
    ensures IsToken(Text(env) + ":" + Text(limit), '*')
  {
    TextIsFree(env, ':');
    TextIsFree(limit, ':');
    TextIsFree(env, '*');
    TextIsFree(limit, '*');
    ParseText(env);
    ParseText(limit);
    assert Text(env) + ":" + Text(limit) == Text(env) + ([':'] + Text(limit));
    FirstToken(Text(env), [':'] + Text(limit), ':');
    DropDelimiter(Text(limit), ':');
    OneToken(Text(limit), ':');
  }

  lemma EnvTextStep(envs: seq<int>, limit: int)
    requires envs != []
    ensures EnvText(envs, limit) + "*"
         == ['*'] + ((Text(envs[0]) + ":" + Text(limit)) + (EnvText(envs[1..], limit) + "*"))
    ensures EnvText(envs[1..], limit) + "*" != "" && (EnvText(envs[1..], limit) + "*")[0] == '*'
  {
    hide Text;
  }

  lemma {:induction false} EnvTokens(envs: seq<int>, limit: int)
    ensures Tokens(EnvText(envs, limit) + "*", '*') == PairTexts(envs, limit)
  {
    if envs == [] {
      assert EnvText(envs, limit) + "*" == ['*'] + "";
      DropDelimiter("", '*');
    } else {
      var pair := Text(envs[0]) + ":" + Text(limit);
      var rest := EnvText(envs[1..], limit) + "*";
      PairRoundTrip(envs[0], limit);
      EnvTextStep(envs, limit);
      hide Tokens, EnvText, Text, ParsePair, IsToken;
      DropDelimiter(pair + rest, '*');
      FirstToken(pair, rest, '*');
      EnvTokens(envs[1..], limit);
    }
  }

  lemma {:induction false} PairsRoundTrip(envs: seq<int>, limit: int, rates: map<int, int>)
    ensures ParsePairs(PairTexts(envs, limit), rates) == Some(rates + Uniform(envs, limit))
  {
    if envs == [] {
      assert rates + Uniform(envs, limit) == rates;
    } else {
      PairRoundTrip(envs[0], limit);
      PairsRoundTrip(envs[1..], limit, rates[envs[0] := limit]);
      assert PairTexts(envs, limit)[1..] == PairTexts(envs[1..], limit);
      UniformStep(envs, limit, rates);
    }
  }

  lemma UniformStep(envs: seq<int>, limit: int, rates: map<int, int>)
    requires envs != []
    ensures rates[envs[0] := limit] + Uniform(envs[1..], limit) == rates + Uniform(envs, limit)
  {
    assert envs == [envs[0]] + envs[1..];
  }

  lemma {:induction false} EnvTextIsFree(envs: seq<int>, limit: int, c: char)
    requires !IsDigit(c) && c !in "-*:"
    ensures c !in EnvText(envs, limit)
  {
    if envs == [] {
    } else {
      TextIsFree(envs[0], c);
      TextIsFree(limit, c);
      EnvTextIsFree(envs[1..], limit, c);
    }
  }

  lemma BodyTokens(app: string, operation: string, envs: seq<int>, limit: int)
    requires Printable(app) && Printable(operation)
    ensures Tokens(Body(app, operation, envs, limit), '|') == ["0", app, operation, EnvText(envs, limit) + "*"]
  {
    EnvTextIsFree(envs, limit, '|');
    var e := EnvText(envs, limit) + "*";
    var tokens := ["0", app, operation, e];
    var pads := ["", "|", "|", "|", ""];
    TokensOfJoined(tokens, pads, '|');
    JoinedFour(tokens, pads);
    BodyJoined(app, operation, EnvText(envs, limit));
  }

  lemma BodyJoined(app: string, operation: string, envs: string)
    ensures "0|" + app + "|" + operation + "|" + envs + "*"
         == "" + ("0" + ("|" + (app + ("|" + (operation + ("|" + ((envs + "*") + "")))))))
  {
    assert (envs + "*") + "" == envs + "*";
    assert "" + ("0" + ("|" + (app + ("|" + (operation + ("|" + (envs + "*")))))))
        == ("0|" + app) + ("|" + operation) + ("|" + (envs + "*"));
    assert "0|" + app + "|" + operation + "|" + envs + "*" == ("0|" + app) + ("|" + operation) + ("|" + (envs + "*"));
  }

  lemma BodyIsToken(app: string, operation: string, envs: seq<int>, limit: int)
    requires Printable(app) && Printable(operation)
    ensures IsToken(Body(app, operation, envs, limit), '.')
  {
    EnvTextIsFree(envs, limit, '.');
  }

  lemma JoinedFour(t: seq<string>, p: seq<string>)
    requires |t| == 4 && |p| == 5
    ensures Joined(t, p) == p[0] + (t[0] + (p[1] + (t[1] + (p[2] + (t[2] + (p[3] + (t[3] + p[4])))))))
  {
    assert t[1..][1..] == t[2..] && t[2..][1..] == t[3..] && t[3..][1..] == [];
    assert p[1..][1..] == p[2..] && p[2..][1..] == p[3..] && p[3..][1..] == p[4..];
    assert Joined(t[3..], p[3..]) == p[3] + (t[3] + p[4]);
    assert Joined(t[2..], p[2..]) == p[2] + (t[2] + Joined(t[3..], p[3..]));
    assert Joined(t[1..], p[1..]) == p[1] + (t[1] + Joined(t[2..], p[2..]));
  }

  lemma PrintedParts(app: string, operation: string, envs: seq<int>, limit: int)
    requires Printable(app) && Printable(operation)
    ensures Tokens(Print(app, operation, envs, limit), '.') == ["6|", Body(app, operation, envs, limit)]
  {
    var body := Body(app, operation, envs, limit);
    BodyIsToken(app, operation, envs, limit);
    assert Text(CREATE_ENF_RULE) == "6";
    assert Print(app, operation, envs, limit) == "6|" + (['.'] + (body + "."));
    FirstToken("6|", ['.'] + (body + "."), '.');
    DropDelimiter(body + ".", '.');
    FirstToken(body, ".", '.');
    DropDelimiter("", '.');
    assert ['.'] + "" == ".";
  }

  /** The local controller gets back what was printed. */
  lemma RoundTrips(app: string, operation: string, envs: seq<int>, limit: int)
    requires Printable(app) && Printable(operation)
    ensures ParseEnforcement(Print(app, operation, envs, limit))
         == Some(map[operation := OperationRule(0, app, Uniform(envs, limit))])
  {
    var body := Body(app, operation, envs, limit);
    PrintedParts(app, operation, envs, limit);
    BodyTokens(app, operation, envs, limit);
    EnvTokens(envs, limit);
    PairsRoundTrip(envs, limit, map[]);
    assert map[] + Uniform(envs, limit) == Uniform(envs, limit);
    assert Text(0) == "0";
    ParseText(0);
    assert ["6|", body][1..] == [body];
    assert ParseParts([body], map[]) == ParseParts([body][1..], map[operation := OperationRule(0, app, Uniform(envs, limit))]);
  }

  lemma {:induction false} TokensOmit(s: string, c: char, d: char)
    requires d !in s
    ensures forall t | t in Tokens(s, c) :: d !in t
    decreases |s|
  {
    if s == "" {
    } else {
      if s[0] == c {
        TokensOmit(s[1..], c, d);
      } else {
        TokensOmit(s[RunLength(s, c)..], c, d);
      }
    }
  }

  /** Everything the parser yields is printable. */
  lemma {:induction false} ParsedNamesArePrintable(parts: seq<string>, rules: map<string, OperationRule>)
    requires forall p | p in parts :: '.' !in p
    requires forall k | k in rules :: Printable(k) && Printable(rules[k].stage)
    ensures var r := ParseParts(parts, rules);
      r.Some? ==> forall k | k in r.value :: Printable(k) && Printable(r.value[k].stage)
  {
    if parts == [] {
    } else {
      var tokens := Tokens(parts[0], '|');
      assert parts[0] in parts;
      TokensOmit(parts[0], '|', '.');
      match ParseOperation(parts[0])
      case None =>
      case Some((operation, r)) =>
        assert tokens[1] in tokens && tokens[2] in tokens;
        ParsedNamesArePrintable(parts[1..], rules[operation := r]);
    }
  }

  /** The rule survives the trip exactly when both names are non-empty and free of dots and bars. */
  lemma RoundTripsExactly(app: string, operation: string, envs: seq<int>, limit: int)
    ensures ParseEnforcement(Print(app, operation, envs, limit))
            == Some(map[operation := OperationRule(0, app, Uniform(envs, limit))])
       <==> Printable(app) && Printable(operation)
  {
    if Printable(app) && Printable(operation) {
      RoundTrips(app, operation, envs, limit);
    }
    var parts := Tokens(Print(app, operation, envs, limit), '.');
    if parts != [] {
      ParsedNamesArePrintable(parts[1..], map[]);
    }
    var expected := map[operation := OperationRule(0, app, Uniform(envs, limit))];
    assert operation in expected && expected[operation].stage == app;
  }
}
