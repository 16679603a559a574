/** Types and constants shared by the models of the pallets. */
module Primitives {
  const U128_MAX: nat := 0xFFFF_FFFF_FFFF_FFFF_FFFF_FFFF_FFFF_FFFF
  const I128_MAX: nat := 0x7FFF_FFFF_FFFF_FFFF_FFFF_FFFF_FFFF_FFFF

  newtype byte = x: int | 0 <= x < 256

  /** `AccountId32`: a raw 32-byte account identifier. */
  type AccountId = b: seq<byte> | |b| == 32 witness seq(32, _ => 0)

  /** `EthereumAddress` and `H160`: a raw 20-byte address. */
  type EthereumAddress = b: seq<byte> | |b| == 20 witness seq(20, _ => 0)

  datatype Option<+T> = None | Some(value: T)

  /** The outcome of a fallible call; an `Err` leaves storage as it was. */
  datatype Result<+T, +E> = Ok(value: T) | Err(error: E) {
    predicate IsFailure() {
      Err?
    }

    function PropagateFailure<U>(): Result<U, E>
      requires Err?
    {
      Err(error)
    }

    function Extract(): T
      requires Ok?
    {
      value
    }
  }

  function Min(x: nat, y: nat): nat {
    if x <= y then x else y
  }

  /** Reads a storage map whose missing entries are zero. */
  function ReadOrZero<K>(m: map<K, nat>, k: K): nat {
    if k in m then m[k] else 0
  }
}

/** Finite sums over storage maps. */
module MapSum {
  import opened Primitives

  ghost function Sum<K(!new)>(m: map<K, nat>): nat {
    if m == map[] then 0 else
      var k :| k in m;
      m[k] + Sum(m - {k})
  }

  /** Any key can be the one summed first. */
  lemma {:induction false} SumMinus<K(!new)>(m: map<K, nat>, k: K)
    requires k in m
    ensures Sum(m) == m[k] + Sum(m - {k})
    decreases |m|
  {
    var j :| j in m && Sum(m) == m[j] + Sum(m - {j});
    if j != k {
      SumMinus(m - {j}, k);
      SumMinus(m - {k}, j);
      assert m - {j} - {k} == m - {k} - {j};
    }
  }

  /** Writing one entry moves the sum by exactly the change of that entry. */
  lemma SumUpdate<K(!new)>(m: map<K, nat>, k: K, v: nat)
    ensures Sum(m[k := v]) + ReadOrZero(m, k) == Sum(m) + v
  {
    SumMinus(m[k := v], k);
    if k in m {
      SumMinus(m, k);
      assert m[k := v] - {k} == m - {k};
    } else {
      assert m[k := v] - {k} == m;
    }
  }

  /** No entry exceeds the sum. */
  lemma SumBoundsEntry<K(!new)>(m: map<K, nat>, k: K)
    ensures ReadOrZero(m, k) <= Sum(m)
  {
    if k in m {
      SumMinus(m, k);
    }
  }

  lemma {:induction false} SumMonotone<K(!new)>(m: map<K, nat>, n: map<K, nat>)
    requires m.Keys == n.Keys
    requires forall k :: k in m ==> m[k] <= n[k]
    ensures Sum(m) <= Sum(n)
    decreases |m|
  {
    if m == map[] {
      assert n == map[];
    } else {
      var k :| k in m;
      SumMinus(m, k);
      SumMinus(n, k);
      SumMonotone(m - {k}, n - {k});
    }
  }

  lemma UnionWith<K(!new)>(m: map<K, nat>, n: map<K, nat>, k: K)
    requires k in n && k !in m
    ensures m + n == (m + (n - {k}))[k := n[k]]
    ensures ReadOrZero(m + (n - {k}), k) == 0
  {
  }

  lemma SumUnionWith<K(!new)>(m: map<K, nat>, n: map<K, nat>, k: K)
    requires k in n && k !in m
    ensures Sum(m + n) == Sum(m + (n - {k})) + n[k]
  {
    UnionWith(m, n, k);
    SumUpdate(m + (n - {k}), k, n[k]);
  }

  /** The sum over a union of maps with no key in common. */
  lemma {:induction false} SumDisjointUnion<K(!new)>(m: map<K, nat>, n: map<K, nat>)
    requires forall k :: k in n ==> k !in m
    ensures Sum(m + n) == Sum(m) + Sum(n)
    decreases |n|
  {
    if |n| == 0 {
      assert m + n == m;
    } else {
      var k :| k in n;
      SumUnionWith(m, n, k);
      SumMinus(n, k);
      SumDisjointUnion(m, n - {k});
    }
  }
}
