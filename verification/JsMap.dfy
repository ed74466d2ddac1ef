/**
 A JavaScript Map (or a plain object used as one): entries in insertion order, where setting an
 existing key keeps its position.
 */
module JsMap {
  import opened Strings

  type Entries<V> = seq<(string, V)>

  ghost predicate DistinctKeys<V>(m: Entries<V>) {
    forall i, j :: 0 <= i < j < |m| ==> m[i].0 != m[j].0
  }

  function Keys<V>(m: Entries<V>): (r: seq<string>)
    ensures |r| == |m| && forall i :: 0 <= i < |m| ==> r[i] == m[i].0
  {
    seq(|m|, i requires 0 <= i < |m| => m[i].0)
  }

  function Find<V>(m: Entries<V>, key: string): (i: nat)
    ensures i <= |m|
    ensures i < |m| ==> m[i].0 == key
    ensures forall j :: 0 <= j < i ==> m[j].0 != key
  {
    if m == [] || m[0].0 == key then 0 else 1 + Find(m[1..], key)
  }

  function Get<V>(m: Entries<V>, key: string): Option<V> {
    var i := Find(m, key);
    if i == |m| then None else Some(m[i].1)
  }

  function Set<V>(m: Entries<V>, key: string, value: V): Entries<V> {
    var i := Find(m, key);
    if i == |m| then m + [(key, value)] else m[i := (key, value)]
  }

  lemma GetAt<V>(m: Entries<V>, i: nat)
    requires DistinctKeys(m) && i < |m|
    ensures Find(m, m[i].0) == i && Get(m, m[i].0) == Some(m[i].1)
  {
  }

  /** Set changes one key's value and no other's, and adds at most one entry, at the end. */
  lemma SetMeaning<V>(m: Entries<V>, key: string, value: V)
    requires DistinctKeys(m)
    ensures var m' := Set(m, key, value);
      && DistinctKeys(m')
      && Keys(m') == (if key in Keys(m) then Keys(m) else Keys(m) + [key])
      && (forall k :: Get(m', k) == if k == key then Some(value) else Get(m, k))
  {
    var i, m' := Find(m, key), Set(m, key, value);
    forall k ensures Get(m', k) == if k == key then Some(value) else Get(m, k) {
      var j, j' := Find(m, k), Find(m', k);
      if k == key {
        assert m'[i].0 == key;
        assert i == j';
      } else if j < |m| {
        assert m'[j] == m[j];
        assert j == j';
      } else {
        assert forall n :: 0 <= n < |m'| ==> m'[n].0 == key || (n < |m| && m'[n] == m[n]);
      }
    }
  }
}
