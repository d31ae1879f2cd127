/**
 The versioned cache backend (cache/memory/memory.go): entries with an expiry and, per key, an
 invalidation watermark that only grows.
 */
module CacheBackend {
  import opened Wrappers

  type Key = string

  /** `expiresAt` is None for an entry that never expires. */
  datatype Entry<V> = Entry(value: V, expiresAt: Option<int>)

  datatype Backend<V> = Backend(entries: map<Key, Entry<V>>, versions: map<Key, nat>)

  datatype InvalidationState = Applied | Current | Stale

  function Watermark<V>(b: Backend<V>, key: Key): nat {
    if key in b.versions then b.versions[key] else 0
  }

  predicate Expired<V>(e: Entry<V>, now: int) {
    e.expiresAt.Some? && now >= e.expiresAt.value
  }

  function ExpiryOf(now: int, ttl: int): Option<int> {
    if ttl > 0 then Some(now + ttl) else None
  }

  function SetIfVersion<V>(b: Backend<V>, key: Key, entry: Entry<V>, expected: nat): Backend<V> {
    if Watermark(b, key) != expected then b else b.(entries := b.entries[key := entry])
  }

  function Verdict<V>(b: Backend<V>, key: Key, version: nat): InvalidationState {
    if version > Watermark(b, key) then Applied else if version == Watermark(b, key) then Current else Stale
  }

  function ApplyInvalidation<V>(b: Backend<V>, key: Key, version: nat): Backend<V> {
    if Verdict(b, key, version).Applied? then Backend(b.entries - {key}, b.versions[key := version]) else b
  }

  lemma RemovalSize<V>(entries: map<Key, V>, key: Key)
    requires key in entries
    ensures |entries - {key}| == |entries| - 1
  {
    assert (entries - {key}).Keys == entries.Keys - {key};
  }

  class Store<V(==)> {
    var entries: map<Key, Entry<V>>
    var versions: map<Key, nat>

    function View(): Backend<V>
      reads this
    {
      Backend(entries, versions)
    }

    constructor ()
      ensures View() == Backend(map[], map[])
    {
      entries, versions := map[], map[];
    }

    /** A live value, or a miss; an entry found expired is removed. */
    method Get(key: Key, now: int) returns (value: Option<V>)
      modifies this`entries
      ensures value.Some? <==>
        && key in old(entries)
        && (old(entries)[key].expiresAt.Some? ==> now < old(entries)[key].expiresAt.value)
      ensures value.Some? ==> value.value == old(entries)[key].value && entries == old(entries)
      ensures value.None? ==> entries == old(entries) - {key}
    {
      if key !in entries {
        return None;
      }
      if Expired(entries[key], now) {
        entries := entries - {key};
        return None;
      }
      return Some(entries[key].value);
    }

    method Set(key: Key, value: V, ttl: int, now: int)
      modifies this`entries
      ensures entries == old(entries)[key := Entry(value, if ttl > 0 then Some(now + ttl) else None)]
    {
      entries := entries[key := Entry(value, if ttl > 0 then Some(now + ttl) else None)];
    }

    /** Removes every listed key and counts those that were present, repeated keys once. */
    method Delete(keys: seq<Key>) returns (deleted: nat)
      modifies this`entries
      ensures forall k :: k in entries <==> k in old(entries) && k !in keys
      ensures forall k | k in entries :: entries[k] == old(entries)[k]
      ensures deleted == |old(entries)| - |entries|
    {
      deleted := 0;
      var i := 0;
      while i < |keys|
        invariant 0 <= i <= |keys|
        invariant forall k :: k in entries <==> k in old(entries) && k !in keys[..i]
        invariant forall k | k in entries :: entries[k] == old(entries)[k]
        invariant deleted == |old(entries)| - |entries|
      {
        if keys[i] in entries {
          RemovalSize(entries, keys[i]);
          entries := entries - {keys[i]};
          deleted := deleted + 1;
        }
        i := i + 1;
      }
    }

    method CurrentVersion(key: Key) returns (version: nat)
      ensures version == Watermark(View(), key)
    {
      version := if key in versions then versions[key] else 0;
    }

    method StoreIfVersion(key: Key, value: V, ttl: int, now: int, expected: nat) returns (stored: bool)
      modifies this`entries
      ensures View() == SetIfVersion(old(View()), key, Entry(value, ExpiryOf(now, ttl)), expected)
      ensures stored <==> (if key in versions then versions[key] else 0) == expected
      ensures stored ==> entries == old(entries)[key := Entry(value, if ttl > 0 then Some(now + ttl) else None)]
      ensures !stored ==> entries == old(entries)
    {
      var current := CurrentVersion(key);
      if current != expected {
        return false;
      }
      entries := entries[key := Entry(value, if ttl > 0 then Some(now + ttl) else None)];
      return true;
    }

    /** A newer version deletes the entry and becomes the watermark; an equal or older one changes nothing. */
    method Invalidate(key: Key, version: nat) returns (state: Option<InvalidationState>)
      modifies this
      ensures version == 0 ==> state.None? && View() == old(View())
      ensures version > 0 ==>
        state == Some(Verdict(old(View()), key, version)) && View() == ApplyInvalidation(old(View()), key, version)
      ensures var current := if key in old(versions) then old(versions)[key] else 0;
              && (state == Some(Applied) <==> version > current)
              && (state == Some(Current) <==> version == current && version > 0)
              && (state == Some(Stale) <==> 0 < version < current)
              && (version > current ==> versions == old(versions)[key := version] && entries == old(entries) - {key})
              && (version <= current ==> versions == old(versions) && entries == old(entries))
    {
      if version == 0 {
        return None;
      }
      var current := CurrentVersion(key);
      if version > current {
        versions := versions[key := version];
        entries := entries - {key};
        return Some(Applied);
      } else if version == current {
        return Some(Current);
      }
      return Some(Stale);
    }
  }
}
