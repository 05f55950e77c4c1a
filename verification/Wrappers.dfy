/** Values that may be missing, and outcomes that may be errors. */
module Wrappers {
  datatype Option<+T> = None | Some(value: T) {
    function GetOr(default: T): T {
      match this
      case Some(v) => v
      case None => default
    }
  }

  datatype Result<+T, +E> = Success(value: T) | Failure(error: E)

  /** The value stored under a key, if any. */
  function Lookup<K, V>(m: map<K, V>, k: K): (r: Option<V>)
    ensures r.Some? <==> k in m
  {
    if k in m then Some(m[k]) else None
  }

  /** A list comprehension. */
  function MapSeq<T, U>(f: T -> U, xs: seq<T>): (ys: seq<U>)
    ensures |ys| == |xs|
    ensures forall i :: 0 <= i < |xs| ==> ys[i] == f(xs[i])
  {
    seq(|xs|, i requires 0 <= i < |xs| => f(xs[i]))
  }

  lemma {:induction false} UpperBound(s: set<nat>) returns (b: nat)
    ensures forall x :: x in s ==> x < b
  {
    if s == {} {
      b := 0;
    } else {
      var x :| x in s;
      var below := UpperBound(s - {x});
      b := if x < below then below else x + 1;
      forall y | y in s ensures y < b {
        assert y != x ==> y in s - {x};
      }
    }
  }

  /** There is always another identifier. */
  lemma UnusedKey<V>(m: map<nat, V>) returns (k: nat)
    ensures k !in m
  {
    k := UpperBound(m.Keys);
  }
}
