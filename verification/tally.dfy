/**
 * A JavaScript `Map<K, number>` used as a counter, as the dashboard builds it with
 * adding an amount to a key's current value (0 when absent): entries in insertion
 * order, one per key.
 */
module Tally {

  import Seqs

  type Entries<K> = seq<(K, int)>

  function Keys<K>(t: Entries<K>): (ks: seq<K>)
    ensures |ks| == |t|
  {
    if t == [] then [] else [t[0].0] + Keys(t[1..])
  }

  /** `m.get(k) || 0`. */
  function Get<K(==)>(t: Entries<K>, k: K): int {
    if t == [] then 0 else if t[0].0 == k then t[0].1 else Get(t[1..], k)
  }

  /** The sum of all values. */
  function Sum<K>(t: Entries<K>): int {
    if t == [] then 0 else t[0].1 + Sum(t[1..])
  }

  lemma {:induction false} KeysIndex<K>(t: Entries<K>, i: nat)
    requires i < |t|
    ensures Keys(t)[i] == t[i].0
  {
    if i > 0 {
      KeysIndex(t[1..], i - 1);
    }
  }

  /** A key that is not in the map reads as 0. */
  lemma {:induction false} GetAbsent<K(!new)>(t: Entries<K>, k: K)
    requires k !in Keys(t)
    ensures Get(t, k) == 0
  {
    if t != [] {
      GetAbsent(t[1..], k);
    }
  }

  /** Add `d` under `k`: an existing key keeps its place, a new key goes last. */
  function Add<K(==,!new)>(t: Entries<K>, k: K, d: int): (r: Entries<K>)
    ensures Keys(r) == Seqs.AddKey(Keys(t), k)
    ensures forall k' :: Get(r, k') == Get(t, k') + (if k' == k then d else 0)
    ensures Sum(r) == Sum(t) + d
  {
    if t == [] then [(k, d)]
    else if t[0].0 == k then
      assert ([(k, t[0].1 + d)] + t[1..])[1..] == t[1..];
      [(k, t[0].1 + d)] + t[1..]
    else
      var rest := Add(t[1..], k, d);
      assert ([t[0]] + rest)[1..] == rest;
      [t[0]] + rest
  }
}
