/** The tokenizer shared by every parser: split a string at one delimiter, dropping empty tokens. */
module Tokenizer {

  predicate Free(s: string, c: char) {
    c !in s
  }

  predicate OnlyDelimiters(s: string, c: char) {
    forall i | 0 <= i < |s| :: s[i] == c
  }

  /** A token: non-empty and without the delimiter. */
  predicate IsToken(s: string, c: char) {
    s != "" && Free(s, c)
  }

  /** Length of the longest prefix without the delimiter. */
  function RunLength(s: string, c: char): (n: nat)
    ensures n <= |s| && Free(s[..n], c)
    ensures n < |s| ==> s[n] == c
  {
    if s == "" || s[0] == c then 0
    else
      var n := 1 + RunLength(s[1..], c);
      assert s[..n] == [s[0]] + s[1..][..n - 1];
      n
  }

  function Tokens(s: string, c: char): (tokens: seq<string>)
    ensures forall t | t in tokens :: IsToken(t, c)
    decreases |s|
  {
    if s == "" then []
    else if s[0] == c then Tokens(s[1..], c)
    else
      var n := RunLength(s, c);
      [s[..n]] + Tokens(s[n..], c)
  }

  // ------------------------------------------------------------------
  // The find / substr loop
  // ------------------------------------------------------------------

  /** First index from `from` on whose character is not `c`; the length of `s` if there is none. */
  method FindFirstNotOf(s: string, c: char, from: nat) returns (i: nat)
    requires from <= |s|
    ensures from <= i <= |s|
    ensures forall k | from <= k < i :: s[k] == c
    ensures i < |s| ==> s[i] != c
  {
    i := from;
    while i < |s| && s[i] == c
      invariant from <= i <= |s|
      invariant forall k | from <= k < i :: s[k] == c
    {
      i := i + 1;
    }
  }

  /** First index from `from` on whose character is `c`; the length of `s` if there is none. */
  method Find(s: string, c: char, from: nat) returns (i: nat)
    requires from <= |s|
    ensures from <= i <= |s|
    ensures forall k | from <= k < i :: s[k] != c
    ensures i < |s| ==> s[i] == c
  {
    i := from;
    while i < |s| && s[i] != c
      invariant from <= i <= |s|
      invariant forall k | from <= k < i :: s[k] != c
    {
      i := i + 1;
    }
  }

  method ParseRule(rule: string, c: char) returns (tokens: seq<string>)
    ensures tokens == Tokens(rule, c)
  {
    hide Tokens, IsToken, Free;
    tokens := [];
    var end := 0;
    var start := FindFirstNotOf(rule, c, end);
    SkipDelimiters(rule, c, end, start);
    while start < |rule|
      invariant end <= start <= |rule|
      invariant start < |rule| ==> rule[start] != c
      invariant Tokens(rule, c) == tokens + Tokens(rule[start..], c)
      decreases |rule| - start
    {
      end := Find(rule, c, start);
      TakeRun(rule, c, start, end);
      tokens := tokens + [rule[start..end]];
      start := FindFirstNotOf(rule, c, end);
      SkipDelimiters(rule, c, end, start);
    }
    NothingLeft(rule, c);
  }

  lemma NothingLeft(s: string, c: char)
    ensures Tokens(s[|s|..], c) == []
  {
  }

  lemma {:induction false} SkipDelimiters(s: string, c: char, from: nat, to: nat)
    requires from <= to <= |s| && forall k | from <= k < to :: s[k] == c
    ensures Tokens(s[from..], c) == Tokens(s[to..], c)
    ensures s[0..] == s
    decreases |s| - from
  {
    if from < to {
      SkipDelimiters(s, c, from + 1, to);
      assert s[from..][1..] == s[from + 1..];
    }
  }

  lemma {:induction false} RunLengthIs(s: string, c: char, n: nat)
    requires n <= |s| && Free(s[..n], c) && (n < |s| ==> s[n] == c)
    ensures RunLength(s, c) == n
  {
    if n == 0 {
    } else {
      assert s[0] == s[..n][0];
      assert s[1..][..n - 1] == s[..n][1..];
      RunLengthIs(s[1..], c, n - 1);
    }
  }

  lemma TakeRun(s: string, c: char, start: nat, end: nat)
    requires start < |s| && start <= end <= |s| && s[start] != c
    requires forall k | start <= k < end :: s[k] != c
    requires end < |s| ==> s[end] == c
    ensures start < end && Tokens(s[start..], c) == [s[start..end]] + Tokens(s[end..], c)
  {
    var rest := s[start..];
    assert rest[..end - start] == s[start..end] && rest[end - start..] == s[end..];
    RunLengthIs(rest, c, end - start);
  }

  // ------------------------------------------------------------------
  // Exactly the maximal delimiter-free runs, in order
  // ------------------------------------------------------------------

  /** `s[i..j]` is a delimiter-free run that cannot be extended. */
  ghost predicate IsRun(s: string, c: char, i: nat, j: nat) {
    && i < j <= |s|
    && (forall k | i <= k < j :: s[k] != c)
    && (i > 0 ==> s[i - 1] == c)
    && (j < |s| ==> s[j] == c)
  }

  ghost predicate Increasing(spans: seq<(nat, nat)>) {
    forall p, q | 0 <= p < q < |spans| :: spans[p].1 < spans[q].0
  }

  /** The tokens are the maximal runs of the string, each of them once, from left to right. */
  lemma TokensAreMaximalRuns(s: string, c: char) returns (spans: seq<(nat, nat)>)
    ensures |spans| == |Tokens(s, c)| && Increasing(spans)
    ensures forall p | 0 <= p < |spans| ::
      IsRun(s, c, spans[p].0, spans[p].1) && Tokens(s, c)[p] == s[spans[p].0..spans[p].1]
    ensures forall i: nat, j: nat | IsRun(s, c, i, j) :: (i, j) in spans
  {
    spans := RunsFrom(s, c, 0);
    assert s[0..] == s;
  }

  lemma {:induction false} RunsFrom(s: string, c: char, from: nat) returns (spans: seq<(nat, nat)>)
    requires from <= |s| && (from == 0 || from == |s| || s[from - 1] == c || s[from] == c)
    ensures |spans| == |Tokens(s[from..], c)| && Increasing(spans)
    ensures forall p | 0 <= p < |spans| ::
      && from <= spans[p].0 && IsRun(s, c, spans[p].0, spans[p].1)
      && Tokens(s[from..], c)[p] == s[spans[p].0..spans[p].1]
    ensures forall i: nat, j: nat | from <= i && IsRun(s, c, i, j) :: (i, j) in spans
    decreases |s| - from
  {
    hide Tokens, IsToken, Free;
    if from == |s| {
      NothingLeft(s, c);
      spans := [];
    } else if s[from] == c {
      SkipDelimiters(s, c, from, from + 1);
      spans := RunsFrom(s, c, from + 1);
      NoRunAt(s, c, from);
    } else {
      var to := RunFrom(s, c, from);
      TakeRun(s, c, from, to);
      var rest := RunsFrom(s, c, to);
      spans := [(from, to)] + rest;
      forall i: nat, j: nat | from <= i && IsRun(s, c, i, j)
        ensures (i, j) in spans
      {
        RunStarts(s, c, from, to, i, j);
      }
      RunsApart(s, c, from, to, rest);
    }
  }

  lemma NoRunAt(s: string, c: char, from: nat)
    requires from < |s| && s[from] == c
    ensures forall i: nat, j: nat | from <= i && IsRun(s, c, i, j) :: from + 1 <= i
  {
  }

  lemma RunsApart(s: string, c: char, from: nat, to: nat, rest: seq<(nat, nat)>)
    requires from < to <= |s| && Increasing(rest) && (to < |s| ==> s[to] == c)
    requires forall p | 0 <= p < |rest| :: to <= rest[p].0 && IsRun(s, c, rest[p].0, rest[p].1)
    ensures Increasing([(from, to)] + rest)
  {
    forall p | 0 <= p < |rest|
      ensures to < rest[p].0
    {
      assert s[rest[p].0] != c;
    }
  }

  lemma RunFrom(s: string, c: char, from: nat) returns (to: nat)
    requires from < |s| && s[from] != c
    ensures from < to <= |s|
    ensures forall k | from <= k < to :: s[k] != c
    ensures to < |s| ==> s[to] == c
  {
    var n := RunLength(s[from..], c);
    to := from + n;
    forall k | from <= k < to
      ensures s[k] != c
    {
      assert s[k] == s[from..][..n][k - from];
    }
  }

  lemma RunStarts(s: string, c: char, from: nat, to: nat, i: nat, j: nat)
    requires IsRun(s, c, i, j) && from < to <= |s| && from <= i
    requires forall k | from <= k < to :: s[k] != c
    requires to < |s| ==> s[to] == c
    ensures to <= i || (i == from && j == to)
  {
  }

  // ------------------------------------------------------------------
  // Inverse of joining
  // ------------------------------------------------------------------

  lemma DropDelimiter(s: string, c: char)
    ensures Tokens([c] + s, c) == Tokens(s, c)
  {
    assert ([c] + s)[1..] == s;
  }

  /** The first token is split off at its delimiter. */
  lemma FirstToken(t: string, rest: string, c: char)
    requires IsToken(t, c) && (rest == "" || rest[0] == c)
    ensures Tokens(t + rest, c) == [t] + Tokens(rest, c)
  {
    var s := t + rest;
    assert s[..|t|] == t && s[|t|..] == rest;
    RunLengthIs(s, c, |t|);
  }

  lemma OneToken(t: string, c: char)
    requires IsToken(t, c)
    ensures Tokens(t, c) == [t]
  {
    FirstToken(t, "", c);
    assert t + "" == t;
  }

  lemma {:induction false} DropPadding(pad: string, s: string, c: char)
    requires OnlyDelimiters(pad, c)
    ensures Tokens(pad + s, c) == Tokens(s, c)
  {
    if pad == "" {
      assert pad + s == s;
    } else {
      DropPadding(pad[1..], s, c);
      DropDelimiter(pad[1..] + s, c);
      assert pad + s == [c] + (pad[1..] + s);
    }
  }

  /** Tokens with delimiters around them: `pads[i]` precedes token `i`, the last pad closes the string. */
  function Joined(tokens: seq<string>, pads: seq<string>): string
    requires |pads| == |tokens| + 1
  {
    if tokens == [] then pads[0]
    else pads[0] + (tokens[0] + Joined(tokens[1..], pads[1..]))
  }

  /** Joining is inverted, with leading, trailing or repeated delimiters, if neighbours are kept apart. */
  lemma {:induction false} TokensOfJoined(tokens: seq<string>, pads: seq<string>, c: char)
    requires |pads| == |tokens| + 1
    requires forall t | t in tokens :: IsToken(t, c)
    requires forall i | 0 <= i < |pads| :: OnlyDelimiters(pads[i], c)
    requires forall i | 0 < i < |tokens| :: pads[i] != ""
    ensures Tokens(Joined(tokens, pads), c) == tokens
  {
    if tokens == [] {
      DropPadding(pads[0], "", c);
      assert pads[0] + "" == pads[0];
    } else {
      var rest := Joined(tokens[1..], pads[1..]);
      DropPadding(pads[0], tokens[0] + rest, c);
      assert rest == "" || rest[0] == c;
      FirstToken(tokens[0], rest, c);
      TokensOfJoined(tokens[1..], pads[1..], c);
    }
  }

  /** Every field followed by the delimiter. */
  function Terminated(fields: seq<string>, c: char): string {
    if fields == [] then "" else fields[0] + ([c] + Terminated(fields[1..], c))
  }

  lemma {:induction false} TerminatedTokens(fields: seq<string>, c: char)
    requires forall f | f in fields :: IsToken(f, c)
    ensures Tokens(Terminated(fields, c), c) == fields
  {
    if fields == [] {
    } else {
      var rest := Terminated(fields[1..], c);
      assert fields[0] in fields;
      FirstToken(fields[0], [c] + rest, c);
      DropDelimiter(rest, c);
      TerminatedTokens(fields[1..], c);
      assert fields == [fields[0]] + fields[1..];
    }
  }
}
