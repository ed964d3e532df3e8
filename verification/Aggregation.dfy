/** Statistics aggregated by a local controller over several rounds. */
module Aggregation {
  import opened Registry

  /** A reported rate; the failure of a session is reported as -1. */
  const FAILED := -1.0

  /** The running mean of `i` earlier samples and one more. */
  function Average(x: real, mean: real, i: nat): real {
    (x + mean * i as real) / (i + 1) as real
  }

  /** Value of a stage that answered round `i`. */
  function Answer(stats: map<Stage, real>, i: nat, s: Stage, x: real): real {
    if s in stats then Average(x, stats[s], i) else x
  }

  /** Statistics after round `i`, counted from zero, in which `samples` were collected. */
  function RoundStats(stats: map<Stage, real>, i: nat, samples: map<Stage, real>): map<Stage, real> {
    map s | s in stats.Keys + samples.Keys ::
      if s !in samples then stats[s]
      else if samples[s] == FAILED then FAILED
      else Answer(stats, i, s, samples[s])
  }

  /** The part of a round done for the stages of `done`, before failures are recorded. */
  function Answered(stats: map<Stage, real>, i: nat, samples: map<Stage, real>, done: set<Stage>): map<Stage, real>
    requires done <= samples.Keys
  {
    stats + map s | s in done && samples[s] != FAILED :: Answer(stats, i, s, samples[s])
  }

  lemma RoundIsAnswersAndFailures(stats: map<Stage, real>, i: nat, samples: map<Stage, real>)
    ensures RoundStats(stats, i, samples)
         == Answered(stats, i, samples, samples.Keys) + map s | s in FailedIn(samples) :: FAILED
  {
  }

  lemma AnsweredNone(stats: map<Stage, real>, i: nat, samples: map<Stage, real>)
    ensures Answered(stats, i, samples, {}) == stats
  {
  }

  lemma AnsweredStep(stats: map<Stage, real>, i: nat, samples: map<Stage, real>, done: set<Stage>, s: Stage)
    requires done <= samples.Keys && s in samples && s !in done
    ensures Answered(stats, i, samples, done + {s})
         == if samples[s] == FAILED then Answered(stats, i, samples, done)
            else Answered(stats, i, samples, done)[s := Answer(stats, i, s, samples[s])]
  {
  }

  function Aggregate(rounds: seq<map<Stage, real>>): map<Stage, real> {
    if rounds == [] then map[]
    else RoundStats(Aggregate(rounds[..|rounds| - 1]), |rounds| - 1, rounds[|rounds| - 1])
  }

  function FailedIn(samples: map<Stage, real>): set<Stage> {
    set s | s in samples && samples[s] == FAILED
  }

  /** Sessions sampled in round `i`: failed ones are gone, stages made ready meanwhile have joined. */
  function SessionsAt(active: set<Stage>, rounds: seq<map<Stage, real>>, joins: seq<set<Stage>>, i: nat): set<Stage>
    requires i <= |rounds| == |joins|
  {
    if i == 0 then active
    else SessionsAt(active, rounds, joins, i - 1) - FailedIn(rounds[i - 1]) + joins[i - 1]
  }

  /** Every session is sampled in each round, and only fresh stages join. */
  ghost predicate Collected(active: set<Stage>, rounds: seq<map<Stage, real>>, joins: seq<set<Stage>>) {
    && |rounds| == |joins| && FreshJoins(rounds, joins)
    && forall i | 0 <= i < |rounds| :: rounds[i].Keys == SessionsAt(active, rounds, joins, i)
  }

  ghost predicate FreshJoins(rounds: seq<map<Stage, real>>, joins: seq<set<Stage>>)
    requires |rounds| == |joins|
  {
    forall i, k | 0 <= k <= i < |rounds| :: joins[i] !! rounds[k].Keys
  }

  function Total(rounds: seq<map<Stage, real>>, s: Stage): real
    requires forall i | 0 <= i < |rounds| :: s in rounds[i]
  {
    if rounds == [] then 0.0 else Total(rounds[..|rounds| - 1], s) + rounds[|rounds| - 1][s]
  }

  lemma QuotientTimes(x: real, d: real)
    requires d > 0.0
    ensures (x / d) * d == x
  {
  }

  lemma AverageTimes(x: real, mean: real, i: nat)
    ensures Average(x, mean, i) * (i + 1) as real == x + mean * i as real
  {
    QuotientTimes(x + mean * i as real, (i + 1) as real);
  }

  /** A stage that answers every round reports the arithmetic mean of its samples. */
  lemma {:induction false} MeanOfSamples(rounds: seq<map<Stage, real>>, s: Stage)
    requires rounds != []
    requires forall i | 0 <= i < |rounds| :: s in rounds[i] && rounds[i][s] != FAILED
    ensures s in Aggregate(rounds)
    ensures Aggregate(rounds)[s] * |rounds| as real == Total(rounds, s)
    decreases |rounds|
  {
    var n := |rounds| - 1;
    if n == 0 {
      assert Total(rounds[..0], s) == 0.0;
    } else {
      MeanOfSamples(rounds[..n], s);
      AverageTimes(rounds[n][s], Aggregate(rounds[..n])[s], n);
    }
  }

  lemma TimesMonotone(a: real, b: real, n: real)
    requires a <= b && 0.0 <= n
    ensures a * n <= b * n
  {
  }

  lemma TimesOneMore(a: real, n: real)
    ensures a * (n + 1.0) == a * n + a
  {
  }

  lemma WeightedBetween(q: real, x: real, lo: real, hi: real, qr: real, mr: real, lr: real, hr: real)
    requires lo <= x <= hi && lr <= mr <= hr
    requires qr + q == x + mr
    requires (q < lo ==> qr <= lr) && (hi < q ==> hr <= qr)
    ensures lo <= q <= hi
  {
  }

  lemma MeanBetween(q: real, x: real, mean: real, r: real, lo: real, hi: real)
    requires lo <= x <= hi && lo <= mean <= hi && 0.0 <= r
    requires q * r + q == x + mean * r
    ensures lo <= q <= hi
  {
    TimesMonotone(lo, mean, r);
    TimesMonotone(mean, hi, r);
    if q < lo {
      TimesMonotone(q, lo, r);
    }
    if hi < q {
      TimesMonotone(hi, q, r);
    }
    WeightedBetween(q, x, lo, hi, q * r, mean * r, lo * r, hi * r);
  }

  lemma AverageBetween(x: real, mean: real, i: nat, lo: real, hi: real)
    requires lo <= x <= hi && lo <= mean <= hi
    ensures lo <= Average(x, mean, i) <= hi
  {
    var q := Average(x, mean, i);
    AverageTimes(x, mean, i);
    assert (i + 1) as real == i as real + 1.0;
    TimesOneMore(q, i as real);
    MeanBetween(q, x, mean, i as real, lo, hi);
  }

  /** A stage first sampled in round `from` reports a value between its smallest and largest sample. */
  lemma {:induction false} LateJoinerStaysBetween(rounds: seq<map<Stage, real>>, s: Stage, from: nat, lo: real, hi: real)
    requires from < |rounds|
    requires forall i | 0 <= i < from :: s !in rounds[i]
    requires forall i | from <= i < |rounds| :: s in rounds[i] && rounds[i][s] != FAILED && lo <= rounds[i][s] <= hi
    ensures s in Aggregate(rounds) && lo <= Aggregate(rounds)[s] <= hi
    decreases |rounds|
  {
    var n := |rounds| - 1;
    if from == n {
      NotSampled(rounds[..n], s);
    } else {
      LateJoinerStaysBetween(rounds[..n], s, from, lo, hi);
      AverageBetween(rounds[n][s], Aggregate(rounds[..n])[s], n, lo, hi);
    }
  }

  lemma {:induction false} NotSampled(rounds: seq<map<Stage, real>>, s: Stage)
    requires forall i | 0 <= i < |rounds| :: s !in rounds[i]
    ensures s !in Aggregate(rounds)
    decreases |rounds|
  {
    if rounds == [] {
    } else {
      NotSampled(rounds[..|rounds| - 1], s);
    }
  }

  lemma {:induction false} NeverRejoins(active: set<Stage>, rounds: seq<map<Stage, real>>, joins: seq<set<Stage>>,
                                        s: Stage, i: nat, k: nat)
    requires |rounds| == |joins| && FreshJoins(rounds, joins) && i < k <= |rounds|
    requires s in rounds[i] && rounds[i][s] == FAILED
    ensures s !in SessionsAt(active, rounds, joins, k)
    decreases k
  {
    assert joins[k - 1] !! rounds[i].Keys;
    if i < k - 1 {
      NeverRejoins(active, rounds, joins, s, i, k - 1);
    }
  }

  /** A stage that fails in some round ends as -1 and is never sampled again. */
  lemma FailureIsFinal(active: set<Stage>, rounds: seq<map<Stage, real>>, joins: seq<set<Stage>>, s: Stage, i: nat)
    requires Collected(active, rounds, joins) && i < |rounds|
    requires s in rounds[i] && rounds[i][s] == FAILED
    ensures forall k | i < k < |rounds| :: s !in rounds[k]
    ensures s in Aggregate(rounds) && Aggregate(rounds)[s] == FAILED
  {
    forall k | i < k < |rounds|
      ensures s !in rounds[k]
    {
      NeverRejoins(active, rounds, joins, s, i, k);
      assert rounds[k].Keys == SessionsAt(active, rounds, joins, k);
    }
    FailureStays(rounds, s, i);
  }

  lemma {:induction false} FailureStays(rounds: seq<map<Stage, real>>, s: Stage, i: nat)
    requires i < |rounds| && s in rounds[i] && rounds[i][s] == FAILED
    requires forall k | i < k < |rounds| :: s !in rounds[k]
    ensures s in Aggregate(rounds) && Aggregate(rounds)[s] == FAILED
    decreases |rounds|
  {
    if i < |rounds| - 1 {
      FailureStays(rounds[..|rounds| - 1], s, i);
    }
  }

  // ------------------------------------------------------------------
  // Who is sampled
  // ------------------------------------------------------------------

  /** The stage has a session from round `k` on, and does not fail before round `i`. */
  predicate StaysFrom(active: set<Stage>, rounds: seq<map<Stage, real>>, joins: seq<set<Stage>>, s: Stage, k: nat, i: nat)
    requires k <= i <= |rounds| == |joins|
  {
    && (if k == 0 then s in active else s in joins[k - 1])
    && forall m | k <= m < i :: !(s in rounds[m] && rounds[m][s] == -1.0)
  }

  /** Sampled in round `i` are exactly the stages active before or made ready meanwhile that have not failed since. */
  lemma {:induction false} SampledExactly(active: set<Stage>, rounds: seq<map<Stage, real>>, joins: seq<set<Stage>>,
                                          s: Stage, i: nat)
    requires i <= |rounds| == |joins|
    ensures s in SessionsAt(active, rounds, joins, i)
       <==> exists k: nat :: k <= i && StaysFrom(active, rounds, joins, s, k, i)
    decreases i
  {
    if i == 0 {
      assert s in active ==> StaysFrom(active, rounds, joins, s, 0, 0);
    } else {
      var before := i - 1;
      SampledExactly(active, rounds, joins, s, before);
      assert s in joins[before] <==> StaysFrom(active, rounds, joins, s, i, i);
      if k: nat :| k <= before && StaysFrom(active, rounds, joins, s, k, before) {
        OneRoundMore(active, rounds, joins, s, k, i);
      }
      if k: nat :| k <= i && StaysFrom(active, rounds, joins, s, k, i) {
        if k < i {
          OneRoundMore(active, rounds, joins, s, k, i);
        }
      }
    }
  }

  lemma OneRoundMore(active: set<Stage>, rounds: seq<map<Stage, real>>, joins: seq<set<Stage>>, s: Stage, k: nat, i: nat)
    requires k < i <= |rounds| == |joins|
    ensures StaysFrom(active, rounds, joins, s, k, i)
       <==> StaysFrom(active, rounds, joins, s, k, i - 1) && s !in FailedIn(rounds[i - 1])
  {
    assert s in FailedIn(rounds[i - 1]) <==> s in rounds[i - 1] && rounds[i - 1][s] == -1.0;
  }
}
