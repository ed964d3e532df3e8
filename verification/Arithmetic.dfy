/** Integer arithmetic as the controllers use it, and sums of rate vectors. */
module Arithmetic {

  function Min(a: int, b: int): int {
    if a <= b then a else b
  }

  function Max(a: int, b: int): int {
    if a <= b then b else a
  }

  function Abs(a: int): nat {
    if a < 0 then -a else a
  }

  /** Integer division of the source language: truncation toward zero. */
  function TruncDiv(a: int, b: int): (q: int)
    requires b > 0
    ensures 0 <= a ==> q == a / b
  {
    if 0 <= a then a / b else -((-a) / b)
  }

  /** What is cut off has the sign of the dividend, and is smaller than the divisor. */
  lemma TruncDivCutsOff(a: int, b: int)
    requires b > 0
    ensures 0 <= a ==> 0 <= a - TruncDiv(a, b) * b < b
    ensures a < 0 ==> -b < a - TruncDiv(a, b) * b <= 0
  {
    DivBounds(a, b);
    DivBounds(-a, b);
    assert -((-a) / b) * b == -(((-a) / b) * b);
  }

  function Sum(s: seq<int>): int {
    if s == [] then 0 else s[0] + Sum(s[1..])
  }

  lemma {:induction false} SumAppend(s: seq<int>, t: seq<int>)
    ensures Sum(s + t) == Sum(s) + Sum(t)
  {
    if s == [] {
      assert s + t == t;
    } else {
      SumAppend(s[1..], t);
      assert (s + t)[1..] == s[1..] + t;
    }
  }

  lemma {:induction false} SumMonotone(s: seq<int>, t: seq<int>)
    requires |s| == |t|
    requires forall i | 0 <= i < |s| :: s[i] <= t[i]
    ensures Sum(s) <= Sum(t)
  {
    if s == [] {
    } else {
      SumMonotone(s[1..], t[1..]);
    }
  }

  /** Pointwise ordered vectors with equal sums are equal. */
  lemma {:induction false} SumSqueeze(s: seq<int>, t: seq<int>)
    requires |s| == |t|
    requires forall i | 0 <= i < |s| :: s[i] <= t[i]
    requires Sum(t) <= Sum(s)
    ensures s == t
  {
    if s == [] {
    } else {
      SumMonotone(s[1..], t[1..]);
      SumSqueeze(s[1..], t[1..]);
      assert s == [s[0]] + s[1..] && t == [t[0]] + t[1..];
    }
  }

  /** Some entry is smaller when the sum is not larger and another entry is larger. */
  lemma SumWitness(s: seq<int>, t: seq<int>, i: nat)
    requires |s| == |t| && i < |s|
    requires Sum(s) <= Sum(t) && s[i] > t[i]
    ensures exists j | 0 <= j < |s| :: s[j] < t[j]
  {
    if forall j | 0 <= j < |s| :: t[j] <= s[j] {
      SumMonotone(t, s);
      SumSqueeze(t, s);
    }
  }

  function Shift(s: seq<int>, d: int): (r: seq<int>)
    ensures |r| == |s|
    ensures forall i | 0 <= i < |s| :: r[i] == s[i] + d
  {
    seq(|s|, i requires 0 <= i < |s| => s[i] + d)
  }

  lemma {:induction false} SumShift(s: seq<int>, d: int)
    ensures Sum(Shift(s, d)) == Sum(s) + |s| * d
  {
    if s == [] {
    } else {
      assert Shift(s, d)[1..] == Shift(s[1..], d);
      SumShift(s[1..], d);
      assert |s| * d == d + |s[1..]| * d;
    }
  }

  lemma DivBounds(a: int, b: int)
    requires b > 0
    ensures (a / b) * b <= a < (a / b) * b + b
  {
  }

  lemma MulMonotone(a: int, b: int, n: int)
    requires a <= b && 0 <= n
    ensures a * n <= b * n
  {
  }

  lemma MulCancel(x: int, b: int)
    requires b > 0 && x * b < b
    ensures x <= 0
  {
    if x >= 1 {
      MulMonotone(1, x, b);
    }
  }

  /** `q` is the quotient as soon as it brackets the dividend. */
  lemma DivUnique(a: int, b: int, q: int)
    requires b > 0 && q * b <= a < q * b + b
    ensures a / b == q
  {
    var d := a / b;
    DivBounds(a, b);
    assert (d - q) * b == d * b - q * b && (q - d) * b == q * b - d * b;
    MulCancel(d - q, b);
    MulCancel(q - d, b);
  }

  lemma DivMonotone(a: int, b: int, n: int)
    requires n > 0 && a <= b
    ensures a / n <= b / n
  {
    var c, d := a / n, b / n;
    DivBounds(a, n);
    DivBounds(b, n);
    assert (c - d) * n == c * n - d * n;
    MulCancel(c - d, n);
  }

  lemma CancelFactor(x: int, y: int, n: int)
    requires 0 < n && x * n <= y * n
    ensures x <= y
  {
    if y < x {
      MulMonotone(y + 1, x, n);
      Distribute(y, 1, n);
    }
  }

  lemma Reassociate(a: int, b: int, c: int)
    ensures (a * c) * b == a * (b * c)
  {
  }

  lemma NestedQuotients(a: int, b: int, c: int, p: int, q: int)
    requires 0 < b && p * b <= a < p * b + b && q * c <= p < q * c + c
    ensures q * (b * c) <= a < q * (b * c) + b * c
  {
    MulMonotone(q * c, p, b);
    MulMonotone(p + 1, q * c + c, b);
    Distribute(p, 1, b);
    Distribute(q * c, c, b);
    Reassociate(q, b, c);
  }

  /** Nested rounding is rounding once. */
  lemma DivDiv(a: int, b: int, c: int)
    requires 0 <= a && b > 0 && c > 0
    ensures b * c > 0 && (a / b) / c == a / (b * c)
  {
    MulMonotone(1, b, c);
    DivBounds(a, b);
    DivBounds(a / b, c);
    NestedQuotients(a, b, c, a / b, (a / b) / c);
    DivUnique(a, b * c, (a / b) / c);
  }

  function Plus(s: seq<int>, t: seq<int>): (r: seq<int>)
    requires |s| == |t|
    ensures |r| == |s|
    ensures forall i | 0 <= i < |s| :: r[i] == s[i] + t[i]
  {
    seq(|s|, i requires 0 <= i < |s| => s[i] + t[i])
  }

  lemma {:induction false} SumPlus(s: seq<int>, t: seq<int>)
    requires |s| == |t|
    ensures Sum(Plus(s, t)) == Sum(s) + Sum(t)
  {
    if s == [] {
    } else {
      assert Plus(s, t)[1..] == Plus(s[1..], t[1..]);
      SumPlus(s[1..], t[1..]);
    }
  }

  function Scale(s: seq<int>, k: int): (r: seq<int>)
    ensures |r| == |s|
    ensures forall i | 0 <= i < |s| :: r[i] == k * s[i]
  {
    seq(|s|, i requires 0 <= i < |s| => k * s[i])
  }

  lemma {:induction false} SumScale(s: seq<int>, k: int)
    ensures Sum(Scale(s, k)) == k * Sum(s)
  {
    if s == [] {
    } else {
      assert Scale(s, k)[1..] == Scale(s[1..], k);
      SumScale(s[1..], k);
      assert k * Sum(s) == k * s[0] + k * Sum(s[1..]);
    }
  }

  /** Proportional split of `amount` by weights, every part rounded down. */
  function Split(weights: seq<int>, amount: int, total: int): (r: seq<int>)
    requires 0 < total
    ensures |r| == |weights|
    ensures forall i | 0 <= i < |r| :: r[i] == weights[i] * amount / total
  {
    seq(|weights|, i requires 0 <= i < |weights| => weights[i] * amount / total)
  }

  lemma {:induction false} SplitScaled(weights: seq<int>, amount: int, total: int)
    requires 0 < total
    ensures Sum(weights) * amount - |weights| * total <= Sum(Split(weights, amount, total)) * total
    ensures Sum(Split(weights, amount, total)) * total <= Sum(weights) * amount
    ensures weights != [] ==>
      Sum(weights) * amount - |weights| * total < Sum(Split(weights, amount, total)) * total
  {
    if weights == [] {
    } else {
      var w, rest := weights[0], weights[1..];
      SplitScaled(rest, amount, total);
      assert Split(weights, amount, total)[1..] == Split(rest, amount, total);
      DivBounds(w * amount, total);
      Distribute(w, Sum(rest), amount);
      Distribute(1, |rest|, total);
      Distribute(w * amount / total, Sum(Split(rest, amount, total)), total);
    }
  }

  lemma Distribute(a: int, b: int, c: int)
    ensures (a + b) * c == a * c + b * c
  {
  }

  lemma SplitBounds(s: int, n: int, amount: int, total: int)
    requires 0 < total
    requires total * amount - n * total < s * total <= total * amount
    ensures amount - n < s <= amount
  {
    CancelFactor(s, amount, total);
    if s <= amount - n {
      MulMonotone(s, amount - n, total);
      Distribute(amount, -n, total);
    }
  }

  /** A proportional split never exceeds the amount and loses less than one unit a part. */
  lemma SplitConserves(weights: seq<int>, amount: int)
    requires 0 < Sum(weights)
    ensures amount - |weights| < Sum(Split(weights, amount, Sum(weights))) <= amount
  {
    SplitScaled(weights, amount, Sum(weights));
    SplitBounds(Sum(Split(weights, amount, Sum(weights))), |weights|, amount, Sum(weights));
  }

  /** The equal share of `left`, by name: `q` stands for `left / n`. */
  lemma ShareIs(left: int, n: int) returns (q: int)
    requires 0 < n && 0 <= left
    ensures q == left / n && 0 <= q && q * n <= left < q * n + n
  {
    q := left / n;
    DivBounds(left, n);
    DivMonotone(0, left, n);
  }

  /** Taking at most a share leaves something that is not negative. */
  lemma ShareFits(left: int, n: int)
    requires 0 < n && 0 <= left
    ensures 0 <= left / n <= left
  {
    var q := ShareIs(left, n);
    MulMonotone(1, n, q);
  }

  /** With one unit for everyone, a share is at least one, and the others keep one each. */
  lemma ShareLeavesOne(left: int, n: int)
    requires 0 < n <= left
    ensures 1 <= left / n && n - 1 <= left - left / n
  {
    var q := ShareIs(left, n);
    if q < 1 {
      MulMonotone(q, 0, n);
    }
    MulMonotone(1, q, n - 1);
    Distribute(n - 1, 1, q);
  }

  /** Taking at most a share never lowers the share of the others. */
  lemma ShareGrows(left: int, n: int, r: int)
    requires 1 < n && 0 <= left && r <= left / n
    ensures left / n <= (left - r) / (n - 1)
  {
    var q := ShareIs(left, n);
    Distribute(n - 1, 1, q);
    DivUnique(q * (n - 1), n - 1, q);
    DivMonotone(q * (n - 1), left - r, n - 1);
  }

  lemma {:induction false} SumZero(s: seq<int>)
    requires forall i | 0 <= i < |s| :: s[i] == 0
    ensures Sum(s) == 0
  {
    if s == [] {
    } else {
      SumZero(s[1..]);
    }
  }
}
