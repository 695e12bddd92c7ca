/** Small shared vocabulary: optional values, bytes and total map lookup. */
module Basics {

  datatype Option<+T> = None | Some(value: T)

  /** One octet. */
  type Byte = b: int | 0 <= b < 0x100

  /** One UTF-16 code unit. */
  type Wide = c: int | 0 <= c < 0x10000

  function Lookup<K, V>(m: map<K, V>, k: K): Option<V> {
    if k in m then Some(m[k]) else None
  }

  /** Maps with equal lookups are equal. */
  lemma SameLookups<K(!new), V>(a: map<K, V>, b: map<K, V>)
    requires forall k :: Lookup(a, k) == Lookup(b, k)
    ensures a == b
  {
    assert a.Keys == b.Keys by {
      forall k ensures k in a <==> k in b { assert Lookup(a, k) == Lookup(b, k); }
    }
    forall k | k in a ensures a[k] == b[k] { assert Lookup(a, k) == Lookup(b, k); }
  }

}
