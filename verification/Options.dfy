/** An optional value and a table built key by key, shared by all parts of the model. */
module Options {
  datatype Option<+T> = None | Some(value: T)

  /** The table of a function on a set of keys, built by one update for each key. */
  ghost function Tabulate<K(!new), V>(keys: set<K>, f: K --> V): (m: map<K, V>)
    requires forall k :: k in keys ==> f.requires(k)
    ensures m.Keys == keys && forall k :: k in keys ==> m[k] == f(k)
    decreases |keys|
  {
    if keys == {} then map[]
    else
      var k :| k in keys;
      Tabulate(keys - {k}, f)[k := f(k)]
  }
}
