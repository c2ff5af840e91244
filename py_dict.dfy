/** A Python dict as the list of its items in insertion order, with distinct
    keys. Assigning to an existing key keeps its position and replaces the
    value; assigning to a new key appends it. */
module PyDict {
  import opened PyCore

  type Dict<V> = seq<(string, V)>

  ghost predicate DistinctKeys<V>(d: Dict<V>) {
    forall i, j :: 0 <= i < j < |d| ==> d[i].0 != d[j].0
  }

  function Keys<V>(d: Dict<V>): (ks: set<string>)
    ensures forall i :: 0 <= i < |d| ==> d[i].0 in ks
    ensures forall k :: k in ks ==> exists i :: 0 <= i < |d| && d[i].0 == k
  {
    if d == [] then {} else {d[0].0} + Keys(d[1..])
  }

  /** `d.get(k)` */
  function Get<V>(d: Dict<V>, k: string): (r: Option<V>)
    ensures r.None? <==> k !in Keys(d)
    ensures r.Some? ==> exists i :: 0 <= i < |d| && d[i] == (k, r.value)
  {
    if d == [] then None
    else if d[0].0 == k then Some(d[0].1)
    else Get(d[1..], k)
  }

  /** `d[k] = v` */
  function Set<V>(d: Dict<V>, k: string, v: V): (r: Dict<V>)
    ensures Keys(r) == Keys(d) + {k}
    ensures |r| == if k in Keys(d) then |d| else |d| + 1
  {
    if d == [] then [(k, v)]
    else if d[0].0 == k then [(k, v)] + d[1..]
    else [d[0]] + Set(d[1..], k, v)
  }

  lemma {:induction false} SetKeepsDistinct<V>(d: Dict<V>, k: string, v: V)
    requires DistinctKeys(d)
    ensures DistinctKeys(Set(d, k, v))
  {
    if d != [] && d[0].0 != k {
      SetKeepsDistinct(d[1..], k, v);
      assert d[0].0 !in Keys(d[1..]);
    }
  }

  /** After `d[k] = v`, `d.get(k)` is `v` and every other key reads as before. */
  lemma {:induction false} GetAfterSet<V>(d: Dict<V>, k: string, v: V, k': string)
    ensures Get(Set(d, k, v), k') == if k' == k then Some(v) else Get(d, k')
  {
    if d != [] && d[0].0 != k {
      GetAfterSet(d[1..], k, v, k');
    }
  }

  /** A second assignment to the same key replaces the first: the last write wins. */
  lemma {:induction false} SetTwice<V>(d: Dict<V>, k: string, v1: V, v2: V)
    ensures Set(Set(d, k, v1), k, v2) == Set(d, k, v2)
  {
    if d != [] && d[0].0 != k {
      SetTwice(d[1..], k, v1, v2);
    }
  }
}
