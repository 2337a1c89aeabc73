/** Frame predicates over maps: what "every other key is untouched" means. */
module Maps {

  /** `m` and `m'` agree on key `x`: both lack it, or both map it to the same value. */
  ghost predicate EqualOnKey<K, V>(m: map<K, V>, m': map<K, V>, x: K) {
    (x !in m && x !in m') || (x in m && x in m' && m[x] == m'[x])
  }

  /** `m'` differs from `m` at most at key `k`. */
  ghost predicate AgreeExcept<K(!new), V>(m: map<K, V>, m': map<K, V>, k: K) {
    forall x {:trigger EqualOnKey(m, m', x)} :: x != k ==> EqualOnKey(m, m', x)
  }
}
