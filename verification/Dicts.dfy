/** Python's insertion-ordered dictionaries and optional values, shared by all the models. */
module Dicts {

  datatype Option<+T> = None | Some(value: T)

  /** The exceptions of the modelled code: a text that is no number or no row, a refused allocation, a failed
      assertion, an element taken from an empty list. */
  datatype Error = ValueError | InvalidAllocations | AssertionError | IndexError

  datatype Result<+T> = Ok(value: T) | Failed(error: Error)

  /** True when no element of `s` occurs twice. */
  ghost predicate NoDup<T>(s: seq<T>) {
    forall i, j :: 0 <= i < j < |s| ==> s[i] != s[j]
  }

  /** A dictionary: its keys in insertion order together with the mapping. */
  datatype Dict<K, V> = Dict(keys: seq<K>, at: map<K, V>) {

    ghost predicate Valid() {
      && NoDup(keys)
      && (forall k :: k in keys ==> k in at)
      && (forall k :: k in at ==> k in keys)
    }

    /** `d[k] = v`: an existing key keeps its position, a new key goes last. */
    function Put(k: K, v: V): (r: Dict<K, V>)
      ensures Valid() ==> r.Valid()
    {
      if k in at then Dict(keys, at[k := v]) else Dict(keys + [k], at[k := v])
    }
  }

  function EmptyDict<K, V>(): (r: Dict<K, V>)
    ensures r.Valid()
  {
    Dict([], map[])
  }
}
