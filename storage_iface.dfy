/**
  The key-value storage port: the capability check every adapter must pass,
  and the in-memory adapter. The memory adapter is a map together with the
  insertion order of its keys, because a JavaScript `Map` lists its entries
  in that order. Values are immutable Dafny values, so no stored value shares
  state with anything outside the store. The adapter's `structuredClone`
  calls give that for `set`, `get` and `list`; its seed values are not
  cloned, which the model does not capture.
 */
module StorageIface {
  import opened Wrappers

  // ---------------------------------------------------------------------
  // assertStorage
  // ---------------------------------------------------------------------

  /** What an adapter offers: nothing at all (`null` / `undefined`), or an
      object whose members named in `functions` are functions. */
  datatype Adapter = Nullish | Members(functions: set<string>)

  predicate Implements(adapter: Adapter, name: string)
  {
    adapter.Members? && name in adapter.functions
  }

  /** The methods an adapter must have, in the order they are checked. */
  const RequiredMethods: seq<string> := ["get", "set", "del"]

  datatype Outcome = Pass | Fail(message: string)

  function MissingMethodMessage(name: string): string
  {
    "Storage adapter must implement " + name + "(...)"
  }

  /** `assertStorage`: passes exactly when `get`, `set` and `del` are all
      functions; otherwise fails naming the first one, in that order, that
      is not. */
  method AssertStorage(storage: Adapter) returns (result: Outcome)
    ensures result.Pass? <==> forall i :: 0 <= i < |RequiredMethods| ==> Implements(storage, RequiredMethods[i])
    ensures result.Fail? ==>
              exists i :: 0 <= i < |RequiredMethods| && !Implements(storage, RequiredMethods[i]) &&
                (forall j :: 0 <= j < i ==> Implements(storage, RequiredMethods[j])) &&
                result.message == MissingMethodMessage(RequiredMethods[i])
  {
    for i := 0 to |RequiredMethods|
      invariant forall j :: 0 <= j < i ==> Implements(storage, RequiredMethods[j])
    {
      if !Implements(storage, RequiredMethods[i]) {
        return Fail(MissingMethodMessage(RequiredMethods[i]));
      }
    }
    return Pass;
  }

  /** The members of the object `createMemoryStorage` returns. */
  const MemoryStorageMembers: set<string> := {"get", "set", "del", "list"}

  /** `list` is optional: an adapter with only the three required methods
      implements them all, and so does the memory adapter. */
  lemma RequiredMethodsSuffice(adapter: Adapter)
    requires adapter.Members? && {"get", "set", "del"} <= adapter.functions
    ensures forall i :: 0 <= i < |RequiredMethods| ==> Implements(adapter, RequiredMethods[i])
    ensures forall i :: 0 <= i < |RequiredMethods| ==> Implements(Members(MemoryStorageMembers), RequiredMethods[i])
  {
  }

  // ---------------------------------------------------------------------
  // The memory store as a value
  // ---------------------------------------------------------------------

  /** One result entry of `list`. */
  datatype Entry<V> = Entry(key: string, value: V)

  /** The state of a memory store: the stored values, and the keys in the
      order a `Map` iterates them (insertion order of their first `set`
      since they were last absent). */
  datatype Store<V> = Store(db: map<string, V>, order: seq<string>)

  ghost predicate NoDuplicates(s: seq<string>)
  {
    forall i, j :: 0 <= i < j < |s| ==> s[i] != s[j]
  }

  /** The order lists every stored key exactly once. */
  ghost predicate StoreValid<V>(st: Store<V>)
  {
    NoDuplicates(st.order) && forall k :: k in st.db <==> k in st.order
  }

  /** `get`: the stored value, or `None` (the adapter's `null`). */
  function StoreGet<V>(st: Store<V>, key: string): Option<V>
  {
    if key in st.db then Some(st.db[key]) else None
  }

  /** `set`: a new key goes to the end of the order, an existing key keeps
      its place and gets the new value. */
  function StoreSet<V>(st: Store<V>, key: string, value: V): Store<V>
  {
    Store(st.db[key := value], if key in st.db then st.order else st.order + [key])
  }

  /** `keys` without `key`. */
  function RemoveKey(keys: seq<string>, key: string): (r: seq<string>)
    ensures forall k :: k in r <==> k in keys && k != key
    decreases |keys|
  {
    if keys == [] then []
    else if keys[0] == key then RemoveKey(keys[1..], key)
    else [keys[0]] + RemoveKey(keys[1..], key)
  }

  /** `del`. */
  function StoreDel<V>(st: Store<V>, key: string): Store<V>
  {
    Store(st.db - {key}, RemoveKey(st.order, key))
  }

  /** `String.prototype.startsWith`. */
  predicate StartsWith(s: string, prefix: string)
  {
    |prefix| <= |s| && s[..|prefix|] == prefix
  }

  /** The entries of `keys`, in that order, whose key starts with `prefix`. */
  function ListEntries<V>(keys: seq<string>, db: map<string, V>, prefix: string): seq<Entry<V>>
    requires forall k :: k in keys ==> k in db
    decreases |keys|
  {
    if keys == [] then []
    else
      var rest := ListEntries(keys[..|keys| - 1], db, prefix);
      var key := keys[|keys| - 1];
      if StartsWith(key, prefix) then rest + [Entry(key, db[key])] else rest
  }

  /** `list(prefix)`: the entries in insertion order, filtered by prefix. */
  function StoreList<V>(st: Store<V>, prefix: string): seq<Entry<V>>
    requires StoreValid(st)
  {
    ListEntries(st.order, st.db, prefix)
  }

  /** `new Map(entries)`: the entries are set one after the other. */
  function SeedStore<V>(seed: seq<(string, V)>): Store<V>
    decreases |seed|
  {
    if seed == [] then Store(map[], [])
    else
      var last := seed[|seed| - 1];
      StoreSet(SeedStore(seed[..|seed| - 1]), last.0, last.1)
  }

  // ---------------------------------------------------------------------
  // Laws of the memory store
  // ---------------------------------------------------------------------

  /** Reading after writing gives the written value at the written key, and
      what was there before everywhere else. */
  lemma GetAfterSet<V>(st: Store<V>, key: string, value: V, other: string)
    ensures StoreGet(StoreSet(st, key, value), key) == Some(value)
    ensures other != key ==> StoreGet(StoreSet(st, key, value), other) == StoreGet(st, other)
  {
  }

  /** A deleted key reads as absent; every other key reads as before. */
  lemma GetAfterDel<V>(st: Store<V>, key: string, other: string)
    ensures StoreGet(StoreDel(st, key), key) == None
    ensures other != key ==> StoreGet(StoreDel(st, key), other) == StoreGet(st, other)
  {
  }

  lemma {:induction false} RemoveAbsentKey(keys: seq<string>, key: string)
    requires key !in keys
    ensures RemoveKey(keys, key) == keys
    decreases |keys|
  {
    if keys != [] {
      RemoveAbsentKey(keys[1..], key);
    }
  }

  lemma {:induction false} RemoveKeyNoDuplicates(keys: seq<string>, key: string)
    requires NoDuplicates(keys)
    ensures NoDuplicates(RemoveKey(keys, key))
    decreases |keys|
  {
    if keys != [] {
      assert NoDuplicates(keys[1..]) by {
        forall i, j | 0 <= i < j < |keys| - 1 ensures keys[1..][i] != keys[1..][j] {
          assert keys[1..][i] == keys[i + 1] && keys[1..][j] == keys[j + 1];
        }
      }
      RemoveKeyNoDuplicates(keys[1..], key);
      if keys[0] != key {
        var tail := RemoveKey(keys[1..], key);
        assert keys[0] !in keys[1..];
        assert keys[0] !in tail;
        var r := [keys[0]] + tail;
        forall i, j | 0 <= i < j < |r| ensures r[i] != r[j] {
          if i == 0 {
            assert r[j] == tail[j - 1];
          } else {
            assert r[i] == tail[i - 1] && r[j] == tail[j - 1];
          }
        }
      }
    }
  }

  /** Removing the key at position `p` of a duplicate-free order keeps every
      other key, in its order. */
  lemma {:induction false} RemoveKeyAt(keys: seq<string>, p: int)
    requires NoDuplicates(keys) && 0 <= p < |keys|
    ensures RemoveKey(keys, keys[p]) == keys[..p] + keys[p + 1..]
    decreases p
  {
    assert keys[p] !in keys[p + 1..];
    if p == 0 {
      RemoveAbsentKey(keys[1..], keys[0]);
    } else {
      assert NoDuplicates(keys[1..]) by {
        forall i, j | 0 <= i < j < |keys| - 1 ensures keys[1..][i] != keys[1..][j] {
          assert keys[1..][i] == keys[i + 1] && keys[1..][j] == keys[j + 1];
        }
      }
      assert keys[1..][p - 1] == keys[p];
      RemoveKeyAt(keys[1..], p - 1);
      assert keys[..p] == [keys[0]] + keys[1..][..p - 1];
      assert keys[p + 1..] == keys[1..][p..];
    }
  }

  /** `del` of a stored key removes it from the listing order and keeps the
      order of the remaining keys. */
  lemma DelKeepsOrder<V>(st: Store<V>, p: int)
    requires StoreValid(st) && 0 <= p < |st.order|
    ensures StoreDel(st, st.order[p]).order == st.order[..p] + st.order[p + 1..]
  {
    RemoveKeyAt(st.order, p);
  }

  /** Deleting a key that is not stored leaves the store as it was. */
  lemma DelAbsentIsNoop<V>(st: Store<V>, key: string)
    requires StoreValid(st) && key !in st.db
    ensures StoreDel(st, key) == st
  {
    RemoveAbsentKey(st.order, key);
  }

  /** `set` and `del` keep the order in step with the stored keys. */
  lemma SetDelKeepValid<V>(st: Store<V>, key: string, value: V)
    requires StoreValid(st)
    ensures StoreValid(StoreSet(st, key, value))
    ensures StoreValid(StoreDel(st, key))
  {
    RemoveKeyNoDuplicates(st.order, key);
  }

  /** A seeded store is well formed. */
  lemma {:induction false} SeedValid<V>(seed: seq<(string, V)>)
    ensures StoreValid(SeedStore(seed))
    decreases |seed|
  {
    if seed != [] {
      var last := seed[|seed| - 1];
      SeedValid(seed[..|seed| - 1]);
      SetDelKeepValid(SeedStore(seed[..|seed| - 1]), last.0, last.1);
    }
  }

  /** Every seed entry not overridden by a later entry with the same key is
      readable right after creation. */
  lemma {:induction false} SeedReadable<V>(seed: seq<(string, V)>, i: int)
    requires 0 <= i < |seed|
    requires forall j :: i < j < |seed| ==> seed[j].0 != seed[i].0
    ensures StoreGet(SeedStore(seed), seed[i].0) == Some(seed[i].1)
    decreases |seed|
  {
    if i < |seed| - 1 {
      SeedReadable(seed[..|seed| - 1], i);
    }
  }

  /** A key in no seed entry reads as absent right after creation. */
  lemma {:induction false} SeedAbsent<V>(seed: seq<(string, V)>, key: string)
    requires forall j :: 0 <= j < |seed| ==> seed[j].0 != key
    ensures StoreGet(SeedStore(seed), key) == None
    decreases |seed|
  {
    if seed != [] {
      SeedAbsent(seed[..|seed| - 1], key);
    }
  }

  /** `list(prefix)` returns exactly the stored entries whose key starts with
      `prefix`, each key once, with its stored value. */
  lemma {:induction false} ListExact<V>(keys: seq<string>, db: map<string, V>, prefix: string)
    requires NoDuplicates(keys) && forall k :: k in keys ==> k in db
    ensures forall e :: e in ListEntries(keys, db, prefix) ==>
              e.key in keys && StartsWith(e.key, prefix) && e.value == db[e.key]
    ensures forall k :: k in keys && StartsWith(k, prefix) ==> Entry(k, db[k]) in ListEntries(keys, db, prefix)
    ensures forall i, j :: 0 <= i < j < |ListEntries(keys, db, prefix)| ==>
              ListEntries(keys, db, prefix)[i].key != ListEntries(keys, db, prefix)[j].key
    decreases |keys|
  {
    if keys != [] {
      var n := |keys|;
      var prefixKeys := keys[..n - 1];
      assert NoDuplicates(prefixKeys);
      ListExact(prefixKeys, db, prefix);
      assert keys[n - 1] !in prefixKeys;
      assert forall k :: k in keys ==> k in prefixKeys || k == keys[n - 1];
    }
  }

  /** The store's `list` is exact for its own entries. */
  lemma StoreListExact<V>(st: Store<V>, prefix: string, key: string)
    requires StoreValid(st)
    ensures (exists i :: 0 <= i < |StoreList(st, prefix)| && StoreList(st, prefix)[i].key == key) <==>
            key in st.db && StartsWith(key, prefix)
    ensures forall e :: e in StoreList(st, prefix) ==> e.key in st.db && e.value == st.db[e.key]
  {
    ListExact(st.order, st.db, prefix);
    var l := StoreList(st, prefix);
    if key in st.db && StartsWith(key, prefix) {
      var e := Entry(key, st.db[key]);
      assert e in l;
      var i :| 0 <= i < |l| && l[i] == e;
      assert l[i].key == key;
    }
  }

  /** `list('')` (and `list()`) returns every entry, in insertion order. */
  lemma {:induction false} ListAll<V>(keys: seq<string>, db: map<string, V>)
    requires forall k :: k in keys ==> k in db
    ensures ListEntries(keys, db, "") ==
            seq(|keys|, i requires 0 <= i < |keys| => Entry(keys[i], db[keys[i]]))
    decreases |keys|
  {
    if keys != [] {
      ListAll(keys[..|keys| - 1], db);
      assert StartsWith(keys[|keys| - 1], "");
    }
  }

  // ---------------------------------------------------------------------
  // createMemoryStorage
  // ---------------------------------------------------------------------

  /** The adapter `createMemoryStorage` returns; `db` and `order` together
      are its `Map`. */
  class MemoryStorage<V> {
    var db: map<string, V>
    var order: seq<string>

    function State(): Store<V>
      reads this
    {
      Store(db, order)
    }

    ghost predicate Valid()
      reads this
    {
      StoreValid(State())
    }

    /** `createMemoryStorage(seed)`, with the seed object's entries in the
        order `Object.entries` lists them. */
    constructor (seed: seq<(string, V)>)
      ensures Valid() && State() == SeedStore(seed)
    {
      var st := SeedStore(seed);
      SeedValid(seed);
      db := st.db;
      order := st.order;
    }

    method Get(key: string) returns (value: Option<V>)
      requires Valid()
      ensures value == StoreGet(State(), key)
    {
      value := if key in db then Some(db[key]) else None;
    }

    method Set(key: string, value: V)
      requires Valid()
      modifies this
      ensures Valid() && State() == StoreSet(old(State()), key, value)
    {
      SetDelKeepValid(State(), key, value);
      if key !in db {
        order := order + [key];
      }
      db := db[key := value];
    }

    method Del(key: string)
      requires Valid()
      modifies this
      ensures Valid() && State() == StoreDel(old(State()), key)
    {
      RemoveKeyNoDuplicates(order, key);
      db := db - {key};
      order := RemoveKey(order, key);
    }

    /** `list(prefix)`; `list()` is `List("")`. */
    method List(prefix: string) returns (entries: seq<Entry<V>>)
      requires Valid()
      ensures entries == StoreList(State(), prefix)
    {
      entries := ListEntries(order, db, prefix);
    }
  }
}
