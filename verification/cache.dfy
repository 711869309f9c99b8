/**
 * The plugin's cache wrapper over the WordPress transient store
 * (includes/class-ct-docs-cache.php).
 *
 * The transient store is a map from transient name to the stored value and
 * the lifetime it was stored with. Every key the wrapper is given reaches the
 * store with the plugin prefix in front. Expiry itself (time passing) is not
 * modelled.
 */
module Cache {
  import opened Php

  /** `CT_Docs_Cache::PREFIX` */
  const Prefix: string := "ct_docs_"

  /** `CT_Docs_Cache::DEFAULT_DURATION`, thirty minutes in seconds */
  const DefaultDuration: int := 1800

  /**
   * A PHP value as the transient API sees it: the boolean `false`, or any
   * other value. `get_transient` answers `false` for a missing transient, so
   * a stored `false` looks exactly like a miss.
   */
  datatype Mixed<+T> = False | Value(value: T)

  /** One stored transient: its value and the lifetime it was stored with. */
  datatype Entry<+T> = Entry(value: Mixed<T>, duration: int)

  type Store<T> = map<string, Entry<T>>

  /** `self::PREFIX . $key` */
  function TransientName(key: string): (r: string)
    ensures StartsWith(r, Prefix) && r[|Prefix|..] == key
  {
    Prefix + key
  }

  /** The lifetime `set` uses: the given one, or the default when it is `null`. */
  function DurationOf(duration: Option<int>): (d: int)
    ensures duration.None? ==> d == DefaultDuration
    ensures duration.Some? ==> d == duration.value
  {
    if duration.None? then DefaultDuration else duration.value
  }

  /** What `get( $key )` answers for a store. */
  function Lookup<T>(store: Store<T>, key: string): (r: Mixed<T>)
    ensures TransientName(key) !in store ==> r == False
  {
    if TransientName(key) in store then store[TransientName(key)].value else False
  }

  /** The store after `set( $key, $value, $duration )`. */
  function Stored<T>(store: Store<T>, key: string, value: Mixed<T>, duration: Option<int>): (r: Store<T>)
    ensures TransientName(key) in r && r[TransientName(key)] == Entry(value, DurationOf(duration))
    ensures forall k :: k != TransientName(key) ==> (k in r <==> k in store)
    ensures forall k :: k != TransientName(key) && k in store ==> r[k] == store[k]
  {
    store[TransientName(key) := Entry(value, DurationOf(duration))]
  }

  /** The store after `delete( $key )`: that one transient is gone, nothing else changes. */
  function Removed<T>(store: Store<T>, key: string): (r: Store<T>)
    ensures TransientName(key) !in r
    ensures forall k :: k != TransientName(key) ==> (k in r <==> k in store)
    ensures forall k :: k in r ==> r[k] == store[k]
  {
    store - {TransientName(key)}
  }

  /**
   * The store after `flush_all()`: every transient whose name starts with the
   * prefix is gone (its timeout with it), every other one is left as it was.
   */
  function Flushed<T>(store: Store<T>): (r: Store<T>)
    ensures forall k :: k in r <==> k in store && !StartsWith(k, Prefix)
    ensures forall k :: k in r ==> r[k] == store[k]
  {
    map k | k in store && !StartsWith(k, Prefix) :: store[k]
  }

  /**
   * What `remember( $key, $callback, $duration )` returns and leaves in the
   * store: the cached value when `get` finds one, otherwise the callback's
   * value, which is then stored.
   */
  function Remembered<T>(store: Store<T>, key: string, callback: () -> Mixed<T>, duration: Option<int>): (Mixed<T>, Store<T>)
  {
    var cached := Lookup(store, key);
    if cached.False? then
      var computed := callback();
      (computed, Stored(store, key, computed, duration))
    else
      (cached, store)
  }

  /** The shared transient store, with the wrapper's static methods as methods. */
  class TransientCache<T> {
    var store: Store<T>

    constructor ()
      ensures store == map[]
    {
      store := map[];
    }

    method Get(key: string) returns (r: Mixed<T>)
      ensures r == Lookup(store, key)
    {
      var name := Prefix + key;
      if name in store {
        r := store[name].value;
      } else {
        r := False;
      }
    }

    method Set(key: string, value: Mixed<T>, duration: Option<int>)
      modifies this
      ensures store == Stored(old(store), key, value, duration)
    {
      var d := duration;
      if d.None? {
        d := Some(DefaultDuration);
      }
      store := store[Prefix + key := Entry(value, d.value)];
    }

    method Delete(key: string)
      modifies this
      ensures store == Removed(old(store), key)
    {
      store := store - {Prefix + key};
    }

    method FlushAll()
      modifies this
      ensures store == Flushed(old(store))
    {
      store := map k | k in store && !StartsWith(k, Prefix) :: store[k];
    }

    method Remember(key: string, callback: () -> Mixed<T>, duration: Option<int>) returns (r: Mixed<T>)
      modifies this
      ensures (r, store) == Remembered(old(store), key, callback, duration)
    {
      var value := Get(key);
      if value.False? {
        value := callback();
        Set(key, value, duration);
      }
      r := value;
    }
  }

  /** A hit returns the stored value and writes nothing, whatever the callback is. */
  lemma RememberHit<T>(store: Store<T>, key: string, callback: () -> Mixed<T>, duration: Option<int>)
    requires TransientName(key) in store && store[TransientName(key)].value.Value?
    ensures Remembered(store, key, callback, duration) == (store[TransientName(key)].value, store)
  {
  }

  /** A miss stores the callback's value under the key, and a later `get` finds it. */
  lemma RememberMiss<T>(store: Store<T>, key: string, callback: () -> Mixed<T>, duration: Option<int>)
    requires Lookup(store, key).False?
    ensures Remembered(store, key, callback, duration).0 == callback()
    ensures Lookup(Remembered(store, key, callback, duration).1, key) == callback()
    ensures Remembered(store, key, callback, duration).1[TransientName(key)].duration == DurationOf(duration)
  {
  }

  /**
   * Once the callback produced a value other than `false`, remembering the
   * same key again is a hit: the same value comes back and the store stays.
   */
  lemma RememberTwice<T>(store: Store<T>, key: string, callback: () -> Mixed<T>, later: () -> Mixed<T>, duration: Option<int>)
    requires Lookup(store, key).Value? || callback().Value?
    ensures var (v, s) := Remembered(store, key, callback, duration);
            Remembered(s, key, later, duration) == (v, s)
  {
    var (v, s) := Remembered(store, key, callback, duration);
    assert Lookup(s, key) == v;
  }

  /**
   * A stored `false` cannot be told apart from a miss: `remember` computes
   * again, exactly as if nothing had been stored under the key.
   */
  lemma StoredFalseIsMiss<T>(store: Store<T>, key: string, d: Option<int>, callback: () -> Mixed<T>, duration: Option<int>)
    ensures Lookup(Stored(store, key, False, d), key) == Lookup(Removed(store, key), key) == False
    ensures Remembered(Stored(store, key, False, d), key, callback, duration)
         == Remembered(Removed(store, key), key, callback, duration)
  {
    assert Stored(Stored(store, key, False, d), key, callback(), duration)
        == Stored(Removed(store, key), key, callback(), duration);
  }

  /** After a flush no key of the plugin is found any more. */
  lemma FlushForgetsEveryKey<T>(store: Store<T>, key: string)
    ensures Lookup(Flushed(store), key) == False
  {
    assert StartsWith(TransientName(key), Prefix);
  }
}
