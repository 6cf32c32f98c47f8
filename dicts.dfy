/**
 * Python dicts as association lists: keys in insertion order, assignment to a present key
 * keeps its position.
 */
module Dicts {
  import opened Wrappers

  /** d.get(k) on a dict modelled as an association list. */
  function Get<V>(m: seq<(string, V)>, k: string): Option<V>
  {
    if m == [] then None else if m[0].0 == k then Some(m[0].1) else Get(m[1..], k)
  }

  function Keys<V>(m: seq<(string, V)>): set<string>
  {
    set i | 0 <= i < |m| :: m[i].0
  }

  predicate DistinctKeys<V>(m: seq<(string, V)>)
  {
    forall i, j :: 0 <= i < j < |m| ==> m[i].0 != m[j].0
  }

  lemma KeysCons<V>(x: (string, V), rest: seq<(string, V)>)
    ensures Keys([x] + rest) == {x.0} + Keys(rest)
  {
    var m := [x] + rest;
    forall k | k in Keys(m) ensures k in {x.0} + Keys(rest) {
      var i :| 0 <= i < |m| && m[i].0 == k;
      if i > 0 {
        assert rest[i - 1].0 == k;
      }
    }
    forall k | k in Keys(rest) ensures k in Keys(m) {
      var i :| 0 <= i < |rest| && rest[i].0 == k;
      assert m[i + 1].0 == k;
    }
    assert m[0].0 == x.0;
  }

  lemma DistinctKeysTail<V>(m: seq<(string, V)>)
    requires m != [] && DistinctKeys(m)
    ensures DistinctKeys(m[1..]) && m[0].0 !in Keys(m[1..])
  {
  }

  /** Dropping the last entry keeps the keys distinct, and the last key is not among the others. */
  lemma DistinctKeysInit<V>(m: seq<(string, V)>)
    requires m != [] && DistinctKeys(m)
    ensures DistinctKeys(m[..|m| - 1]) && m[|m| - 1].0 !in Keys(m[..|m| - 1])
  {
  }

  lemma ConsDistinct<V>(x: (string, V), rest: seq<(string, V)>)
    requires DistinctKeys(rest) && x.0 !in Keys(rest)
    ensures DistinctKeys([x] + rest)
  {
    var r := [x] + rest;
    forall i, j | 0 <= i < j < |r| ensures r[i].0 != r[j].0 {
      assert r[j] == rest[j - 1];
      if i > 0 { assert r[i] == rest[i - 1]; }
    }
  }

  lemma AppendAfterHead<T>(m: seq<T>, x: T)
    requires m != []
    ensures m + [x] == [m[0]] + (m[1..] + [x])
  {
  }

  /** d[k] = v: a present key keeps its position and takes the new value, a new key goes last. */
  function Put<V>(m: seq<(string, V)>, k: string, v: V): (r: seq<(string, V)>)
    ensures Get(r, k) == Some(v)
    ensures forall k' :: k' != k ==> Get(r, k') == Get(m, k')
    ensures Keys(r) == Keys(m) + {k}
    ensures forall e :: e in r ==> e == (k, v) || e in m
    ensures DistinctKeys(m) ==> DistinctKeys(r)
    ensures k !in Keys(m) ==> r == m + [(k, v)]
  {
    if m == [] then
      assert Keys([(k, v)]) == {k} by { KeysCons((k, v), []); }
      [(k, v)]
    else
      KeysCons(m[0], m[1..]);
      assert [m[0]] + m[1..] == m;
      if m[0].0 == k then
        KeysCons((k, v), m[1..]);
        var r := [(k, v)] + m[1..];
        assert DistinctKeys(m) ==> DistinctKeys(r) by {
          if DistinctKeys(m) {
            DistinctKeysTail(m);
            ConsDistinct((k, v), m[1..]);
          }
        }
        r
      else
        var rest := Put(m[1..], k, v);
        KeysCons(m[0], rest);
        AppendAfterHead(m, (k, v));
        assert DistinctKeys(m) ==> DistinctKeys([m[0]] + rest) by {
          if DistinctKeys(m) {
            DistinctKeysTail(m);
            ConsDistinct(m[0], rest);
          }
        }
        [m[0]] + rest
  }

  /** Assigning to a present key keeps the length and every position: only that key's entry changes. */
  lemma {:induction false} PutPresent<V>(m: seq<(string, V)>, k: string, v: V)
    requires DistinctKeys(m) && k in Keys(m)
    ensures |Put(m, k, v)| == |m|
    ensures forall i :: 0 <= i < |m| ==> Put(m, k, v)[i] == (if m[i].0 == k then (k, v) else m[i])
  {
    KeysCons(m[0], m[1..]);
    assert [m[0]] + m[1..] == m;
    DistinctKeysTail(m);
    if m[0].0 != k {
      PutPresent(m[1..], k, v);
      var rest := Put(m[1..], k, v);
      assert Put(m, k, v) == [m[0]] + rest;
      forall i | 0 <= i < |m|
        ensures Put(m, k, v)[i] == (if m[i].0 == k then (k, v) else m[i])
      {
        if i > 0 {
          assert m[i] == m[1..][i - 1];
        }
      }
    }
  }
}
