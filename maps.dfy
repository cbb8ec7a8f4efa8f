/** Equality of maps from their keys and values. */
module Maps {

  /** Two maps with the same keys and the same value at each key are equal. */
  lemma SameMaps<K, V>(a: map<K, V>, b: map<K, V>)
    requires a.Keys == b.Keys
    requires forall key :: key in a ==> a[key] == b[key]
    ensures a == b
  {
  }
}
