/** Python's insertion-ordered `dict`, modelled as an association list.
    Iteration order is the order of the entries; assigning to a key that is
    already present replaces its entry in place, a new key is appended. */
module Dicts {

  datatype Option<T> = None | Some(value: T)

  /** The entries of a dict, the first-inserted first. */
  datatype Dict<K, V> = Empty | Entry(key: K, value: V, rest: Dict<K, V>)

  /** The keys in iteration order. */
  function Keys<K, V>(d: Dict<K, V>): seq<K>
  {
    if d.Empty? then [] else [d.key] + Keys(d.rest)
  }

  /** `d[k]` when `k in d`, `None` where Python raises `KeyError`. */
  function Get<K(==), V>(d: Dict<K, V>, k: K): (r: Option<V>)
    ensures r.Some? <==> k in Keys(d)
  {
    if d.Empty? then None
    else if d.key == k then Some(d.value)
    else Get(d.rest, k)
  }

  /** `d[k] = v`: the entry for `k` is replaced where it stands, or appended. */
  function Put<K(==), V>(d: Dict<K, V>, k: K, v: V): Dict<K, V>
  {
    if d.Empty? then Entry(k, v, Empty)
    else if d.key == k then Entry(k, v, d.rest)
    else Entry(d.key, d.value, Put(d.rest, k, v))
  }

  /** After `d[k] = v`, `k` maps to `v`, every other key to what it did, and
      the keys keep their order, a new key coming last. */
  lemma {:induction false} PutEffect<K(!new), V>(d: Dict<K, V>, k: K, v: V)
    ensures Get(Put(d, k, v), k) == Some(v)
    ensures forall k' :: k' != k ==> Get(Put(d, k, v), k') == Get(d, k')
    ensures Keys(Put(d, k, v)) == if k in Keys(d) then Keys(d) else Keys(d) + [k]
  {
    if d.Entry? && d.key != k {
      PutEffect(d.rest, k, v);
    }
  }

  /** A Python dict never holds a key twice. */
  ghost predicate Unique<K, V>(d: Dict<K, V>) {
    d.Entry? ==> d.key !in Keys(d.rest) && Unique(d.rest)
  }

  /** Assignment keeps a dict free of repeated keys. */
  lemma {:induction false} PutUnique<K(!new), V>(d: Dict<K, V>, k: K, v: V)
    requires Unique(d)
    ensures Unique(Put(d, k, v))
  {
    if d.Entry? && d.key != k {
      PutEffect(d.rest, k, v);
      PutUnique(d.rest, k, v);
    }
  }

  /** `rest` is what is left of `d` after iterating over some of its first
      entries. */
  ghost predicate Suffix<K, V>(rest: Dict<K, V>, d: Dict<K, V>) {
    rest == d || (d.Entry? && Suffix(rest, d.rest))
  }

  /** The entry being visited is one of `d`'s, and the iteration goes on
      with a suffix of `d`. */
  lemma {:induction false} SuffixKey<K, V>(rest: Dict<K, V>, d: Dict<K, V>)
    requires Suffix(rest, d) && rest.Entry?
    ensures rest.key in Keys(d) && Suffix(rest.rest, d)
  {
    if rest != d {
      SuffixKey(rest, d.rest);
    }
  }

  /** The keys of a suffix are keys of the whole. */
  lemma {:induction false} SuffixKeys<K, V>(rest: Dict<K, V>, d: Dict<K, V>, k: K)
    requires Suffix(rest, d) && k in Keys(rest)
    ensures k in Keys(d)
  {
    if rest != d {
      SuffixKeys(rest, d.rest, k);
    }
  }
}
