/**
 * Python dicts as the engine uses them: key/value pairs kept in insertion order.
 * Assigning to a present key keeps its position, a new key goes to the end, and
 * `setdefault(k, []).extend(vs)` / `.append(v)` grow the list stored under `k`.
 */
module Dicts {
  import opened Wrappers
  import opened Dedupe

  type Dict<K, V> = seq<(K, V)>

  /** The keys, in iteration (insertion) order. */
  function Keys<K, V>(d: Dict<K, V>): (ks: seq<K>)
    ensures |ks| == |d|
    ensures forall i :: 0 <= i < |d| ==> ks[i] == d[i].0
  {
    if d == [] then [] else [d[0].0] + Keys(d[1..])
  }

  /** `d.get(k)`. */
  function Get<K(==), V>(d: Dict<K, V>, k: K): Option<V> {
    if d == [] then None
    else if d[0].0 == k then Some(d[0].1)
    else Get(d[1..], k)
  }

  /** `d.get(k, default)`. */
  function GetOr<K(==), V>(d: Dict<K, V>, k: K, default: V): V {
    Get(d, k).GetOr(default)
  }

  /** `d[k] = v`. */
  function Put<K(==), V>(d: Dict<K, V>, k: K, v: V): Dict<K, V> {
    if d == [] then [(k, v)]
    else if d[0].0 == k then [(k, v)] + d[1..]
    else [d[0]] + Put(d[1..], k, v)
  }

  /** `d.setdefault(k, []).extend(vs)`. */
  function Extend<K(==), V>(d: Dict<K, seq<V>>, k: K, vs: seq<V>): Dict<K, seq<V>> {
    Put(d, k, GetOr(d, k, []) + vs)
  }

  /** The keys of a sequence of pairs. */
  function Firsts<K, V>(ps: seq<(K, V)>): (ks: seq<K>)
    ensures |ks| == |ps|
    ensures forall i :: 0 <= i < |ps| ==> ks[i] == ps[i].0
  {
    if ps == [] then [] else Firsts(ps[..|ps| - 1]) + [ps[|ps| - 1].0]
  }

  /** The dict a loop of `setdefault(k, []).extend(vs)` over `ps` builds from `{}`. */
  function Grouped<K(==), V>(ps: seq<(K, seq<V>)>): Dict<K, seq<V>> {
    if ps == [] then []
    else
      var last := ps[|ps| - 1];
      Extend(Grouped(ps[..|ps| - 1]), last.0, last.1)
  }

  /** Reference definition: the lists paired with `k` in `ps`, concatenated in order. */
  function ConcatFor<K(==), V>(ps: seq<(K, seq<V>)>, k: K): seq<V> {
    if ps == [] then []
    else
      var last := ps[|ps| - 1];
      ConcatFor(ps[..|ps| - 1], k) + (if last.0 == k then last.1 else [])
  }

  /** The values' lists concatenated in key order (`for k in d: flat.extend(d[k])`). */
  function Flatten<K, V>(d: Dict<K, seq<V>>): seq<V> {
    if d == [] then [] else d[0].1 + Flatten(d[1..])
  }

  /** A key has a value exactly when it is one of the keys. */
  lemma {:induction false} GetSome<K, V>(d: Dict<K, V>, k: K)
    ensures Get(d, k).Some? <==> k in Keys(d)
  {
    if d != [] && d[0].0 != k {
      GetSome(d[1..], k);
    }
  }

  /** Assignment keeps the position of a present key and appends a new one. */
  lemma {:induction false} PutKeys<K, V>(d: Dict<K, V>, k: K, v: V)
    ensures Keys(Put(d, k, v)) == if k in Keys(d) then Keys(d) else Keys(d) + [k]
  {
    if d != [] && d[0].0 != k {
      PutKeys(d[1..], k, v);
      assert Keys(d) == [d[0].0] + Keys(d[1..]);
    }
  }

  /** After assignment the key reads back its new value and no other key changes. */
  lemma {:induction false} GetPut<K, V>(d: Dict<K, V>, k: K, v: V, k': K)
    ensures Get(Put(d, k, v), k') == if k' == k then Some(v) else Get(d, k')
  {
    if d != [] && d[0].0 != k {
      GetPut(d[1..], k, v, k');
    }
  }

  /** With distinct keys, each entry is what a lookup of its key returns. */
  lemma {:induction false} GetAt<K, V>(d: Dict<K, V>, i: int)
    requires NoDup(Keys(d)) && 0 <= i < |d|
    ensures Get(d, d[i].0) == Some(d[i].1)
  {
    if i > 0 {
      assert Keys(d)[0] != Keys(d)[i];
      assert NoDup(Keys(d[1..])) by {
        assert forall a, b :: 0 <= a < b < |d| - 1 ==> Keys(d[1..])[a] == Keys(d)[a + 1] && Keys(d[1..])[b] == Keys(d)[b + 1];
      }
      GetAt(d[1..], i - 1);
    }
  }

  /** Extending keeps a present key's position and appends a new one; only `k`'s list grows, by `vs`. */
  lemma ExtendFacts<K, V>(d: Dict<K, seq<V>>, k: K, vs: seq<V>, k': K)
    ensures Keys(Extend(d, k, vs)) == if k in Keys(d) then Keys(d) else Keys(d) + [k]
    ensures GetOr(Extend(d, k, vs), k', []) == GetOr(d, k', []) + (if k' == k then vs else [])
  {
    PutKeys(d, k, GetOr(d, k, []) + vs);
    GetPut(d, k, GetOr(d, k, []) + vs, k');
  }

  /** The grouped dict's keys are the distinct keys of `ps` in order of first appearance. */
  lemma {:induction false} GroupedKeys<K, V>(ps: seq<(K, seq<V>)>)
    ensures Keys(Grouped(ps)) == Deduped(Firsts(ps))
    ensures NoDup(Keys(Grouped(ps)))
  {
    if ps != [] {
      var p := ps[..|ps| - 1];
      var last := ps[|ps| - 1];
      GroupedKeys(p);
      ExtendFacts(Grouped(p), last.0, last.1, last.0);
      DedupedMembers(Firsts(p), last.0);
      assert Firsts(ps)[..|ps| - 1] == Firsts(p);
    }
    DedupedNoDup(Firsts(ps));
  }

  /** The grouped dict stores under `k` the concatenation of every list paired with `k`. */
  lemma {:induction false} GroupedGet<K, V>(ps: seq<(K, seq<V>)>, k: K)
    ensures GetOr(Grouped(ps), k, []) == ConcatFor(ps, k)
  {
    if ps != [] {
      var p := ps[..|ps| - 1];
      var last := ps[|ps| - 1];
      GroupedGet(p, k);
      ExtendFacts(Grouped(p), last.0, last.1, k);
    }
  }

  /** Every list paired with `k` contributes to the concatenation for `k`. */
  lemma {:induction false} ConcatForHas<K, V>(ps: seq<(K, seq<V>)>, i: nat, v: V)
    requires i < |ps| && v in ps[i].1
    ensures v in ConcatFor(ps, ps[i].0)
  {
    var n := |ps| - 1;
    if i < n {
      ConcatForHas(ps[..n], i, v);
    }
  }
}
