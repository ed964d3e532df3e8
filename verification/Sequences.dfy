/** Duplicate-free sequences, filtering, and maps updated along a sequence of keys. */
module Sequences {
  import opened Arithmetic

  ghost predicate NoDuplicates<T>(s: seq<T>) {
    forall i, j | 0 <= i < j < |s| :: s[i] != s[j]
  }

  /** `s` lists every key exactly once. */
  ghost predicate Enumerates<T(!new)>(s: seq<T>, keys: set<T>) {
    NoDuplicates(s) && forall x :: x in s <==> x in keys
  }

  lemma Regroup<T>(a: seq<T>, b: seq<T>, c: seq<T>)
    ensures a + (b + c) == (a + b) + c
  {
  }

  /** The erase-remove idiom: every occurrence of `x` is dropped. */
  function Without<T(==,!new)>(s: seq<T>, x: T): (r: seq<T>)
    ensures forall y :: y in r <==> y in s && y != x
  {
    if s == [] then []
    else if s[0] == x then Without(s[1..], x)
    else [s[0]] + Without(s[1..], x)
  }

  lemma {:induction false} WithoutKeepsApart<T(!new)>(s: seq<T>, x: T)
    requires NoDuplicates(s)
    ensures NoDuplicates(Without(s, x))
  {
    if s == [] {
    } else {
      WithoutKeepsApart(s[1..], x);
      assert s[0] !in s[1..] by {
        forall k | 0 <= k < |s[1..]|
          ensures s[1..][k] != s[0]
        {
          assert s[1..][k] == s[k + 1];
        }
      }
    }
  }

  lemma {:induction false} WithoutAbsent<T(!new)>(s: seq<T>, x: T)
    requires x !in s
    ensures Without(s, x) == s
  {
    if s == [] {
    } else {
      WithoutAbsent(s[1..], x);
      assert s[0] in s;
      assert s == [s[0]] + s[1..];
    }
  }

  lemma AppendKeepsApart<T>(s: seq<T>, x: T)
    requires NoDuplicates(s) && x !in s
    ensures NoDuplicates(s + [x])
  {
  }

  lemma {:induction false} EnumerationSize<T(!new)>(s: seq<T>, keys: set<T>)
    requires Enumerates(s, keys)
    ensures |s| == |keys|
  {
    if s == [] {
      assert forall x | x in keys :: x in s;
      assert keys == {};
    } else {
      var rest := keys - {s[0]};
      forall x
        ensures x in s[1..] <==> x in rest
      {
        TailMembers(s, x);
      }
      EnumerationSize(s[1..], rest);
      assert s[0] in keys;
    }
  }

  lemma TailMembers<T(!new)>(s: seq<T>, x: T)
    requires s != [] && NoDuplicates(s)
    ensures x in s[1..] <==> x in s && x != s[0]
  {
    if x in s && x != s[0] {
      var k :| 0 <= k < |s| && s[k] == x;
      assert s[1..][k - 1] == x;
    }
    if x in s[1..] {
      var k :| 0 <= k < |s[1..]| && s[1..][k] == x;
      assert s[k + 1] == x;
    }
  }

  // ------------------------------------------------------------------
  // Maps along a sequence of keys
  // ------------------------------------------------------------------

  /** The map after storing `values[i]` under `keys[i]`, for every index in turn. */
  function Assign<K, V>(m: map<K, V>, keys: seq<K>, values: seq<V>): (r: map<K, V>)
    requires |keys| == |values|
    decreases |keys|
  {
    if keys == [] then m
    else
      var n := |keys| - 1;
      Assign(m, keys[..n], values[..n])[keys[n] := values[n]]
  }

  lemma {:induction false} Assigned<K(!new), V>(m: map<K, V>, keys: seq<K>, values: seq<V>)
    requires |keys| == |values| && NoDuplicates(keys)
    ensures forall k :: k in Assign(m, keys, values) <==> k in m || k in keys
    ensures forall i | 0 <= i < |keys| :: Assign(m, keys, values)[keys[i]] == values[i]
    ensures forall k | k in m && k !in keys :: Assign(m, keys, values)[k] == m[k]
    decreases |keys|
  {
    if keys == [] {
    } else {
      var n := |keys| - 1;
      Assigned(m, keys[..n], values[..n]);
      assert keys == keys[..n] + [keys[n]];
      forall i | 0 <= i < |keys|
        ensures Assign(m, keys, values)[keys[i]] == values[i]
      {
        if i < n {
          assert keys[..n][i] == keys[i] && values[..n][i] == values[i];
        }
      }
    }
  }

  /** One more step of an assignment loop. */
  lemma AssignStep<K, V>(m: map<K, V>, keys: seq<K>, values: seq<V>, i: nat)
    requires i < |keys| == |values|
    ensures Assign(m, keys[..i + 1], values[..i + 1]) == Assign(m, keys[..i], values[..i])[keys[i] := values[i]]
  {
    assert keys[..i + 1][..i] == keys[..i] && values[..i + 1][..i] == values[..i];
  }

  /** Storing again under the same keys forgets the first values. */
  lemma AssignTwice(m: map<string, int>, keys: seq<string>, first: seq<int>, second: seq<int>)
    requires |first| == |second| == |keys| && NoDuplicates(keys)
    ensures Assign(Assign(m, keys, first), keys, second) == Assign(m, keys, second)
  {
    Assigned(m, keys, first);
    Assigned(m, keys, second);
    Assigned(Assign(m, keys, first), keys, second);
    forall k | k in keys
      ensures Assign(Assign(m, keys, first), keys, second)[k] == Assign(m, keys, second)[k]
    {
      var i :| 0 <= i < |keys| && keys[i] == k;
    }
  }

  /** Storing what is already there changes nothing. */
  lemma {:induction false} AssignSame(m: map<string, int>, keys: seq<string>, values: seq<int>)
    requires |values| == |keys|
    requires forall i | 0 <= i < |keys| :: keys[i] in m && m[keys[i]] == values[i]
    ensures Assign(m, keys, values) == m
    decreases |keys|
  {
    if keys == [] {
    } else {
      var n := |keys| - 1;
      AssignSame(m, keys[..n], values[..n]);
      assert m[keys[n] := values[n]] == m;
    }
  }

  /** A key not reached yet still has its old value. */
  lemma AssignPending(m: map<string, int>, keys: seq<string>, values: seq<int>, i: nat)
    requires i < |keys| && |values| == |keys| && NoDuplicates(keys)
    ensures NoDuplicates(keys[..i])
    ensures keys[i] in m ==>
      keys[i] in Assign(m, keys[..i], values[..i]) && Assign(m, keys[..i], values[..i])[keys[i]] == m[keys[i]]
  {
    Assigned(m, keys[..i], values[..i]);
  }

  function Values(m: map<string, int>, keys: seq<string>): (r: seq<int>)
    requires forall k | k in keys :: k in m
    ensures |r| == |keys|
    ensures forall i | 0 <= i < |r| :: r[i] == m[keys[i]]
  {
    seq(|keys|, i requires 0 <= i < |keys| => m[keys[i]])
  }

  // ------------------------------------------------------------------
  // Totals of maps
  // ------------------------------------------------------------------

  /** Sum of all values of a map. */
  ghost function Total(m: map<string, int>): int
    decreases |m|
  {
    if m == map[] then 0
    else
      var k :| k in m;
      m[k] + Total(m - {k})
  }

  lemma {:induction false} TotalRemove(m: map<string, int>, k: string)
    requires k in m
    ensures Total(m) == m[k] + Total(m - {k})
    decreases |m|
  {
    var p :| p in m && Total(m) == m[p] + Total(m - {p});
    if p != k {
      TotalRemove(m - {p}, k);
      TotalRemove(m - {k}, p);
      assert m - {p} - {k} == m - {k} - {p};
    }
  }

  lemma TotalInsert(m: map<string, int>, k: string, v: int)
    requires k !in m
    ensures Total(m[k := v]) == v + Total(m)
  {
    TotalRemove(m[k := v], k);
    assert m[k := v] - {k} == m;
  }

  /** The total is the sum along any enumeration of the keys. */
  lemma {:induction false} TotalAlong(m: map<string, int>, keys: seq<string>)
    requires Enumerates(keys, m.Keys)
    ensures Total(m) == Sum(Values(m, keys))
  {
    if keys == [] {
      assert forall k | k in m.Keys :: k in keys;
      assert m == map[];
    } else {
      hide Total;
      var rest := m - {keys[0]};
      forall x
        ensures x in keys[1..] <==> x in rest.Keys
      {
        TailMembers(keys, x);
      }
      TotalRemove(m, keys[0]);
      hide Enumerates, NoDuplicates;
      TotalAlong(rest, keys[1..]);
      assert Values(m, keys)[1..] == Values(rest, keys[1..]);
    }
  }

  function ClipMap(m: map<string, int>): (r: map<string, int>)
    ensures r.Keys == m.Keys
    ensures forall k | k in m :: r[k] == Max(0, m[k])
  {
    map k | k in m :: Max(0, m[k])
  }

  lemma {:induction false} TotalClip(m: map<string, int>)
    ensures 0 <= Total(ClipMap(m)) && Total(m) <= Total(ClipMap(m))
    decreases |m|
  {
    if m == map[] {
    } else {
      var k :| k in m;
      TotalRemove(m, k);
      TotalRemove(ClipMap(m), k);
      TotalClip(m - {k});
      assert ClipMap(m) - {k} == ClipMap(m - {k});
    }
  }
}
