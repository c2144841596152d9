/**
 * What both variable services keep: a JavaScript `Map` from lower-cased
 * ids to handlers. A `Map` remembers the order in which keys were first
 * set, and setting an existing key replaces its value in place.
 */
module Registry {
  import opened JsString

  /** The keys of a `Map` in insertion order, each once, all lower-cased. */
  ghost predicate Ordered<V>(keys: seq<string>, entries: map<string, V>) {
    && (forall k :: 0 <= k < |keys| ==> keys[k] in entries)
    && (forall key :: key in entries ==> key in keys)
    && (forall k, l :: 0 <= k < l < |keys| ==> keys[k] != keys[l])
    && (forall key :: key in entries ==> LowerCase(key) == key)
  }

  /** The key order after `set(key, value)`: unchanged for a known key, `key` last for a new one. */
  function KeysAfterSet<V>(keys: seq<string>, entries: map<string, V>, key: string): seq<string> {
    if key in entries then keys else keys + [key]
  }

  /** `set` with a lower-cased key keeps the keys ordered, one per distinct key. */
  lemma SetKeepsOrdered<V>(keys: seq<string>, entries: map<string, V>, key: string, value: V)
    requires Ordered(keys, entries)
    requires LowerCase(key) == key
    ensures Ordered(KeysAfterSet(keys, entries, key), entries[key := value])
  {
    var after := KeysAfterSet(keys, entries, key);
    if key !in entries {
      assert key !in keys;
      forall k, l | 0 <= k < l < |after| ensures after[k] != after[l] {
        if l == |keys| {
          assert after[k] == keys[k];
        }
      }
    }
  }
}
