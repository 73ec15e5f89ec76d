/**
 * The `usePuterStorage(key, initialValue)` hook: a piece of component state
 * mirrored into a module-wide in-memory cache and, after a debounce, into the
 * user's remote key-value store.
 *
 * The hook is driven by events that the browser delivers asynchronously; each
 * event is one method here:
 *  - the constructor is the mount (lazy initial state from the cache),
 *  - `LoadCompletes` is the end of the initial fetch,
 *  - `LoadNotReady` is the fetch finding the SDK not loaded yet,
 *  - `Write`/`Update` are calls of the returned setter,
 *  - `Flush` is the 500 ms debounce timer firing,
 *  - `Unmount` runs the effect clean-ups.
 * Whether the user is signed in and whether the SDK answered are parameters.
 */
module Storage {
  import opened Common

  /** A string-keyed store: the module-level `cache` map, or the remote `puter.kv`. */
  class Store<T> {
    var entries: map<string, T>

    constructor ()
      ensures entries == map[]
    {
      entries := map[];
    }
  }

  /** What the SDK answers when the hook talks to the remote store. */
  datatype Connection =
    | SignedIn      // the SDK is loaded and reports a signed-in user
    | SignedOut     // the SDK is loaded but nobody is signed in
    | Unavailable   // the SDK is loaded but the call threw (network error, SDK failure)

  /** The value the initial fetch settles on: the remote value when signed in and one is stored, else the default. */
  function LoadedValue<T>(conn: Connection, remote: map<string, T>, key: string, initialValue: T): (r: T)
    ensures conn.SignedIn? && key in remote ==> r == remote[key]
    ensures !(conn.SignedIn? && key in remote) ==> r == initialValue
  {
    match conn
    case SignedIn => if key in remote then remote[key] else initialValue
    case SignedOut => initialValue
    case Unavailable => initialValue
  }

  class PersistentValue<T(==)> {
    const key: string
    const initialValue: T
    const cache: Store<T>
    const remote: Store<T>

    /** The React state returned by the hook. */
    var value: T
    /** Whether the initial value is settled (from the cache or from the fetch). */
    var isInitialized: bool
    /** False once the component has unmounted; late results are then ignored. */
    var isMounted: bool
    /** The value a scheduled (debounced) remote save will write, if a timer is pending. */
    var pending: Option<T>

    /**
     * While mounted and settled, the cache holds the current value, and a
     * pending save always carries the current value.
     */
    predicate Valid()
      reads this, cache
    {
      cache != remote
      && (isInitialized && isMounted ==> key in cache.entries && cache.entries[key] == value)
      && (pending.Some? ==> isInitialized && isMounted && pending.value == value)
    }

    /**
     * Mount: the state starts from the cache when the key is there (and is then
     * already settled, so the save effect schedules a save right away), else from
     * the default, waiting for the fetch.
     */
    constructor (key: string, initialValue: T, cache: Store<T>, remote: Store<T>)
      requires cache != remote
      ensures this.key == key && this.initialValue == initialValue
      ensures this.cache == cache && this.remote == remote
      ensures isMounted
      ensures isInitialized <==> key in cache.entries
      ensures value == if key in cache.entries then cache.entries[key] else initialValue
      ensures pending == if key in cache.entries then Some(value) else None
      ensures Valid()
    {
      this.key := key;
      this.initialValue := initialValue;
      this.cache := cache;
      this.remote := remote;
      isMounted := true;
      var cached := key in cache.entries;
      var start := if cached then cache.entries[key] else initialValue;
      value := start;
      isInitialized := cached;
      pending := if cached then Some(start) else None;
    }

    /**
     * The initial fetch ends. A result that arrives after unmount is dropped;
     * otherwise the state and the cache take the loaded value, the hook is
     * settled and the save effect schedules a save of that value.
     */
    method LoadCompletes(conn: Connection)
      requires Valid() && !isInitialized
      modifies this, cache
      ensures Valid()
      ensures !old(isMounted) ==> unchanged(this) && unchanged(cache)
      ensures old(isMounted) ==>
        && value == LoadedValue(conn, remote.entries, key, initialValue)
        && cache.entries == old(cache.entries)[key := value]
        && isInitialized && isMounted
        && pending == Some(value)
    {
      if isMounted {
        var result := LoadedValue(conn, remote.entries, key, initialValue);
        value := result;
        cache.entries := cache.entries[key := result];
        isInitialized := true;
        pending := Some(result);
      }
    }

    /**
     * The initial fetch finds the SDK not loaded yet. It schedules a retry and
     * returns, but the `finally` block still runs: the hook is marked settled
     * with the state it has. Settling re-runs the load effect, whose clean-up
     * cancels the retry, so nothing is ever fetched; the save effect then puts
     * the current state in the cache and schedules a save of it.
     */
    method LoadNotReady()
      requires Valid() && !isInitialized
      modifies this, cache
      ensures Valid()
      ensures !old(isMounted) ==> unchanged(this) && unchanged(cache)
      ensures old(isMounted) ==>
        && value == old(value)
        && cache.entries == old(cache.entries)[key := value]
        && isInitialized && isMounted
        && pending == Some(value)
    {
      if isMounted {
        cache.entries := cache.entries[key := value];
        isInitialized := true;
        pending := Some(value);
      }
    }

    /**
     * The setter. React ignores a value equal to the current one and a call
     * after unmount. Before the hook is settled only the state changes; after,
     * the cache is updated at once and the debounce timer restarts with the new value.
     */
    method Write(v: T)
      requires Valid()
      modifies this, cache
      ensures Valid()
      ensures !old(isMounted) || v == old(value) ==> unchanged(this) && unchanged(cache)
      ensures old(isMounted) && v != old(value) ==>
        && value == v
        && isMounted && isInitialized == old(isInitialized)
        && (old(isInitialized) ==> cache.entries == old(cache.entries)[key := v] && pending == Some(v))
        && (!old(isInitialized) ==> cache.entries == old(cache.entries) && pending == None)
    {
      if isMounted && v != value {
        value := v;
        if isInitialized {
          cache.entries := cache.entries[key := v];
          pending := Some(v);
        }
      }
    }

    /** The functional form of the setter, `setValue(prev => f(prev))`. */
    method Update(f: T -> T)
      requires Valid()
      modifies this, cache
      ensures Valid()
      ensures !old(isMounted) || f(old(value)) == old(value) ==> unchanged(this) && unchanged(cache)
      ensures old(isMounted) && f(old(value)) != old(value) ==>
        && value == f(old(value))
        && isMounted && isInitialized == old(isInitialized)
        && (old(isInitialized) ==> cache.entries == old(cache.entries)[key := value] && pending == Some(value))
        && (!old(isInitialized) ==> cache.entries == old(cache.entries) && pending == None)
    {
      Write(f(value));
    }

    /**
     * The debounce timer fires: when signed in, the remote store receives the
     * value the timer was scheduled with; when signed out or on an error nothing
     * is written. Either way no save is pending any more and the cache is untouched.
     */
    method Flush(conn: Connection)
      requires Valid() && pending.Some?
      modifies this, remote
      ensures Valid()
      ensures pending == None
      ensures value == old(value) && isInitialized == old(isInitialized) && isMounted == old(isMounted)
      ensures remote.entries == if conn.SignedIn? then old(remote.entries)[key := old(pending).value] else old(remote.entries)
    {
      if conn.SignedIn? {
        remote.entries := remote.entries[key := pending.value];
      }
      pending := None;
    }

    /** Unmount: late fetch results are ignored from now on and a pending save is cancelled. */
    method Unmount()
      requires Valid()
      modifies this
      ensures Valid()
      ensures !isMounted && pending == None
      ensures value == old(value) && isInitialized == old(isInitialized)
    {
      isMounted := false;
      pending := None;
    }
  }

  /**
   * A value written while signed in and flushed is what the next session
   * (a fresh cache, the same remote store) loads.
   */
  method PersistsAcrossSessions<T(==)>(key: string, initialValue: T, v: T) returns (loaded: T)
    ensures loaded == v
  {
    var remote := new Store<T>();
    var cache := new Store<T>();
    var first := new PersistentValue(key, initialValue, cache, remote);
    first.LoadCompletes(SignedIn);
    first.Write(v);
    first.Flush(SignedIn);
    first.Unmount();

    var nextCache := new Store<T>();
    var second := new PersistentValue(key, initialValue, nextCache, remote);
    second.LoadCompletes(SignedIn);
    loaded := second.value;
  }

  /** Two writes inside one debounce window reach the remote store as a single save of the last value. */
  method DebounceKeepsLast<T(==)>(key: string, initialValue: T, v1: T, v2: T) returns (stored: T)
    ensures stored == v2
  {
    var remote := new Store<T>();
    var cache := new Store<T>();
    var h := new PersistentValue(key, initialValue, cache, remote);
    h.LoadCompletes(SignedOut);
    h.Write(v1);
    h.Write(v2);
    h.Flush(SignedIn);
    stored := remote.entries[key];
  }

  /** A write made before the initial fetch ends is overwritten by the fetched value. */
  method WriteBeforeLoadIsLost<T(==)>(key: string, initialValue: T, saved: T, v: T) returns (settled: T, cached: T)
    ensures settled == saved && cached == saved
  {
    var remote := new Store<T>();
    remote.entries := map[key := saved];
    var cache := new Store<T>();
    var h := new PersistentValue(key, initialValue, cache, remote);
    h.Write(v);
    h.LoadCompletes(SignedIn);
    settled := h.value;
    cached := cache.entries[key];
  }

  /**
   * A mount that finds the SDK not loaded settles on the default; when the SDK
   * is ready by the time the debounce timer fires and the user is signed in,
   * the default overwrites the value saved in an earlier session.
   */
  method NotReadyLoadOverwritesRemote<T(==)>(key: string, initialValue: T, saved: T) returns (shown: T, remoteAfter: map<string, T>)
    ensures shown == initialValue
    ensures remoteAfter == map[key := initialValue]
  {
    var remote := new Store<T>();
    remote.entries := map[key := saved];
    var cache := new Store<T>();
    var h := new PersistentValue(key, initialValue, cache, remote);
    h.LoadNotReady();
    shown := h.value;
    h.Flush(SignedIn);
    remoteAfter := remote.entries;
  }

  /**
   * Unmounting inside the debounce window cancels the remote save, but the
   * cache already holds the value, so a remount in the same page shows it
   * without fetching and schedules the save again.
   */
  method RemountReschedulesSave<T(==)>(key: string, initialValue: T, v: T) returns (shown: T, remoteBefore: map<string, T>, remoteAfter: map<string, T>)
    ensures shown == v
    ensures remoteBefore == map[]
    ensures remoteAfter == map[key := v]
  {
    var remote := new Store<T>();
    var cache := new Store<T>();
    var first := new PersistentValue(key, initialValue, cache, remote);
    first.LoadCompletes(SignedOut);
    first.Write(v);
    first.Unmount();
    remoteBefore := remote.entries;

    var second := new PersistentValue(key, initialValue, cache, remote);
    shown := second.value;
    second.Flush(SignedIn);
    remoteAfter := remote.entries;
  }
}
