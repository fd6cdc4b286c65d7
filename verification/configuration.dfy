/**
 * The typed key-value configuration (Configuration.swift,
 * Configuration+Storage.swift). A key is a type with a default value; its
 * identity is its `ObjectIdentifier`, modelled as `id`. All values share one
 * value type `V`, so the `as? T.Value` cast of the getter always succeeds.
 */
module ConfigurationStore {

  type KeyId = nat

  /** A `ConfigurationKey` type: its identifier and its `default`. */
  datatype Key<V> = Key(id: KeyId, default: V)

  /** `Configuration._Storage`: the values set so far, by key identifier. */
  datatype Storage<V> = Storage(values: map<KeyId, V>)

  /** `_Storage.init()`. */
  function EmptyStorage<V(!new)>(): (r: Storage<V>)
    ensures forall key: Key<V> :: Get(r, key) == key.default
  {
    Storage(map[])
  }

  /** The getter of `_Storage[key]`: the stored value, or the key's default when none is stored. */
  function Get<V>(s: Storage<V>, key: Key<V>): (r: V)
    ensures key.id in s.values ==> r == s.values[key.id]
    ensures key.id !in s.values ==> r == key.default
  {
    if key.id in s.values then s.values[key.id] else key.default
  }

  /** The setter of `_Storage[key]`. */
  function Set<V>(s: Storage<V>, key: Key<V>, value: V): (r: Storage<V>)
    ensures r.values.Keys == s.values.Keys + {key.id}
  {
    Storage(s.values[key.id := value])
  }

  /** `String.Casification.Configuration`. */
  datatype Configuration<V> = Configuration(storage: Storage<V>)

  /** `Configuration.init()`. */
  function NewConfiguration<V(!new)>(): (r: Configuration<V>)
    ensures forall key: Key<V> :: Read(r, key) == key.default
    ensures forall c: Configuration<V>, key: Key<V> :: Read(Merging(c, r), key) == Read(c, key)
  {
    Configuration(EmptyStorage())
  }

  /** The key subscript: reads and writes go through the storage. */
  function Read<V>(c: Configuration<V>, key: Key<V>): V {
    Get(c.storage, key)
  }

  function Write<V>(c: Configuration<V>, key: Key<V>, value: V): Configuration<V> {
    Configuration(Set(c.storage, key, value))
  }

  /** `merging(_:)`: every value of `other` over the values of `c`. */
  function Merging<V>(c: Configuration<V>, other: Configuration<V>): (r: Configuration<V>)
    ensures r.storage.values.Keys == c.storage.values.Keys + other.storage.values.Keys
  {
    Configuration(Storage(c.storage.values + other.storage.values))
  }

  /** A fresh configuration reads every key's default. */
  lemma FreshReadsDefault<V(!new)>(key: Key<V>)
    ensures Read(NewConfiguration(), key) == key.default
  {
  }

  /** Reading after a write returns the written value. */
  lemma ReadAfterWrite<V>(c: Configuration<V>, key: Key<V>, value: V)
    ensures Read(Write(c, key, value), key) == value
  {
  }

  /** A write leaves every other key's value unchanged. */
  lemma WriteOtherKey<V>(c: Configuration<V>, key: Key<V>, other: Key<V>, value: V)
    requires other.id != key.id
    ensures Read(Write(c, key, value), other) == Read(c, other)
  {
  }

  /**
   * `a.merging(b)` reads `b`'s value for every key set in `b`, `a`'s for a
   * key set only in `a`, and the default for a key set in neither.
   */
  lemma MergingReads<V>(a: Configuration<V>, b: Configuration<V>, key: Key<V>)
    ensures key.id in b.storage.values ==> Read(Merging(a, b), key) == Read(b, key)
    ensures key.id !in b.storage.values ==> Read(Merging(a, b), key) == Read(a, key)
  {
  }

  /** Merging with a fresh configuration on either side changes nothing. */
  lemma MergingFresh<V(!new)>(a: Configuration<V>)
    ensures Merging(a, NewConfiguration()) == a
    ensures Merging(NewConfiguration(), a) == a
  {
    assert a.storage.values + map[] == a.storage.values;
    assert map[] + a.storage.values == a.storage.values;
  }
}
