/**
 The best-effort read-through cache in front of the upstream API.

 The cache is a map from key to entry; an entry remembers the TTL it was
 written with, which is recorded but never expires anything here. A `Faults`
 value says whether the cache's `get` and `set` calls fail on this request:
 the service catches both failures and carries on, so a failed `get` reads as
 a miss and a failed `set` writes nothing.
 */
module Cache {

  import opened Results

  /** The TTL, in milliseconds, that the service passes with every `set`. */
  const TtlMillis: nat := 86400000

  datatype Entry<V> = Entry(value: V, ttlMillis: nat)

  type Store<V> = map<string, Entry<V>>

  datatype Faults = Faults(getFails: bool, setFails: bool)

  const NoFaults := Faults(false, false)

  /** What a `get` reports to the service. */
  datatype Lookup<V> = Hit(value: V) | Miss | GetFailed

  /**
   The computation the service performs on a miss: its outcome, and the URLs it
   requested from the upstream API on the way, in order.
   */
  datatype Attempt<V> = Attempt(result: Result<V>, requests: seq<string>)

  /** A served request: the cache afterwards, the response, and the upstream requests made. */
  datatype Served<V> = Served(store: Store<V>, result: Result<V>, requests: seq<string>)

  /**
   `cacheManager.get(key)`. A stored value is always a hit: the service tests it
   for truthiness, and every list or object, even an empty list, is truthy.
   */
  function Get<V>(store: Store<V>, key: string, faults: Faults): (r: Lookup<V>)
    ensures r.Hit? <==> !faults.getFails && key in store
    ensures r.Hit? ==> r.value == store[key].value
    ensures r.GetFailed? <==> faults.getFails
  {
    if faults.getFails then GetFailed
    else if key in store then Hit(store[key].value)
    else Miss
  }

  /** `cacheManager.set(key, value, ttl)`; a failed set leaves the cache as it was. */
  function Set<V>(store: Store<V>, key: string, value: V, ttl: nat, faults: Faults): (r: Store<V>)
    ensures faults.setFails ==> r == store
    ensures !faults.setFails ==> key in r && r[key] == Entry(value, ttl)
    ensures forall k :: k != key ==> (k in r <==> k in store) && (k in r ==> r[k] == store[k])
  {
    if faults.setFails then store else store[key := Entry(value, ttl)]
  }

  /**
   The read-through pattern both cached endpoints follow: serve a hit as it is
   and ask the upstream nothing; otherwise run the miss computation and, if it
   succeeded, write its value back under the same key with `TtlMillis`. A
   failed computation throws before the write, so the cache keeps its state.
   */
  function ReadThrough<V>(store: Store<V>, key: string, faults: Faults, onMiss: Attempt<V>): (s: Served<V>)
    ensures Get(store, key, faults).Hit? ==>
              s == Served(store, Ok(store[key].value), [])
    ensures !Get(store, key, faults).Hit? ==>
              s.result == onMiss.result && s.requests == onMiss.requests
    ensures !Get(store, key, faults).Hit? && onMiss.result.Ok? ==>
              s.store == Set(store, key, onMiss.result.value, TtlMillis, faults)
    ensures onMiss.result.Err? ==> s.store == store
  {
    match Get(store, key, faults)
    case Hit(v) => Served(store, Ok(v), [])
    case _ =>
      var store' := if onMiss.result.Ok? then Set(store, key, onMiss.result.value, TtlMillis, faults) else store;
      Served(store', onMiss.result, onMiss.requests)
  }

  /** A failing `get` serves what an empty cache would serve. */
  lemma GetFailureActsAsEmptyCache<V>(store: Store<V>, key: string, setFails: bool, onMiss: Attempt<V>)
    ensures var failed := ReadThrough(store, key, Faults(true, setFails), onMiss);
            var empty := ReadThrough(map[], key, Faults(false, setFails), onMiss);
            failed.result == empty.result && failed.requests == empty.requests
  {
  }

  /** A failing `set` changes nothing the caller sees, only what the cache keeps. */
  lemma SetFailureIsInvisible<V>(store: Store<V>, key: string, getFails: bool, onMiss: Attempt<V>)
    ensures var failed := ReadThrough(store, key, Faults(getFails, true), onMiss);
            var healthy := ReadThrough(store, key, Faults(getFails, false), onMiss);
            failed.result == healthy.result && failed.requests == healthy.requests && failed.store == store
  {
  }

  /**
   With a healthy cache, a successful miss is remembered: the next request for
   the same key is a hit that serves the same value without any upstream request,
   whatever the upstream would answer by then.
   */
  lemma MissThenHit<V>(store: Store<V>, key: string, first: Attempt<V>, later: Attempt<V>)
    requires first.result.Ok?
    ensures var s1 := ReadThrough(store, key, NoFaults, first);
            var s2 := ReadThrough(s1.store, key, NoFaults, later);
            s2.result == s1.result && s2.requests == [] && s2.store == s1.store
  {
  }
}
