/** The memo cache keyed on a path's modification time (`CacheOnModifiedDate`):
    a decorated call is answered from the cache while the path's mtime is the
    one recorded with the stored result, and recomputed otherwise. */
module MtimeCache {
  import opened Wrappers

  /** The first argument of a decorated call: a string path, or anything else. */
  datatype PathArg = Str(s: string) | NotStr

  /** `(path, args, frozenset(kwargs.items()))`; `A` stands for the remaining
      positional and keyword arguments together. */
  datatype CallKey<A> = CallKey(path: string, args: A)

  /** The two dictionaries of a decorator instance, as a value. */
  datatype CacheState<A(==), R> = CacheState(cache: map<CallKey<A>, R>, mtimes: map<CallKey<A>, int>)

  /** The invariant the decorator maintains: both dictionaries have the same keys. */
  predicate Consistent<A(==), R>(st: CacheState<A, R>) {
    st.cache.Keys == st.mtimes.Keys
  }

  /** What one call does: the dictionaries afterwards, what it returns or
      raises, and whether the wrapped function ran. */
  datatype Outcome<A(==), R> = Outcome(state: CacheState<A, R>, result: Result<R>, invoked: bool)

  /** The stored result for `key` is current when the key has an entry in
      both dictionaries and the recorded mtime is `mtime`. */
  predicate Hit<A(==), R>(st: CacheState<A, R>, key: CallKey<A>, mtime: int) {
    key in st.cache && key in st.mtimes && st.mtimes[key] == mtime
  }

  /** One call of the wrapper around `f`, with `mtime` what
      `os.path.getmtime(path)` gives (OSError when it fails). */
  function CallSpec<A(==), R>(st: CacheState<A, R>, path: PathArg, args: A, mtime: Result<int>,
                               f: CallKey<A> -> Result<R>): (o: Outcome<A, R>)
    // a non-string path is rejected before anything else happens
    ensures path.NotStr? ==> o == Outcome(st, Err(TypeError), false)
    // without an mtime the call bypasses the cache entirely
    ensures path.Str? && mtime.Err? ==> o == Outcome(st, f(CallKey(path.s, args)), true)
    // a current entry answers the call without running `f`
    ensures path.Str? && mtime.Ok? && Hit(st, CallKey(path.s, args), mtime.value) ==>
              o == Outcome(st, Ok(st.cache[CallKey(path.s, args)]), false)
    // otherwise `f` runs; its result is returned and, when it is a value,
    // stored with the current mtime
    ensures path.Str? && mtime.Ok? && !Hit(st, CallKey(path.s, args), mtime.value) && Consistent(st) ==>
              o.invoked && o.result == f(CallKey(path.s, args))
              && (o.result.Ok? ==> o.state.cache == st.cache[CallKey(path.s, args) := o.result.value]
                                   && o.state.mtimes == st.mtimes[CallKey(path.s, args) := mtime.value])
              && (o.result.Err? ==> CallKey(path.s, args) !in o.state.cache
                                    && CallKey(path.s, args) !in o.state.mtimes)
  {
    if path.NotStr? then Outcome(st, Err(TypeError), false)
    else
      var key := CallKey(path.s, args);
      if mtime.Err? then Outcome(st, f(key), true)
      else if Hit(st, key, mtime.value) then Outcome(st, Ok(st.cache[key]), false)
      else if key in st.cache && key !in st.mtimes then
        // `del self.mtimes[cache_key]` on a missing key
        Outcome(CacheState(st.cache - {key}, st.mtimes), Err(KeyError), false)
      else
        var cleared := if key in st.cache then CacheState(st.cache - {key}, st.mtimes - {key}) else st;
        var r := f(key);
        if r.Err? then Outcome(cleared, r, true)
        else Outcome(CacheState(cleared.cache[key := r.value], cleared.mtimes[key := mtime.value]), r, true)
  }

  /** A call keeps the two key sets equal, and leaves every other key's
      entries as they were. */
  lemma CallFrame<A, R>(st: CacheState<A, R>, path: PathArg, args: A, mtime: Result<int>,
                            f: CallKey<A> -> Result<R>)
    requires Consistent(st)
    ensures Consistent(CallSpec(st, path, args, mtime, f).state)
    ensures forall k :: (path.NotStr? || k != CallKey(path.s, args)) ==>
              var st' := CallSpec(st, path, args, mtime, f).state;
              (k in st'.cache <==> k in st.cache) && (k in st'.mtimes <==> k in st.mtimes)
              && (k in st.cache ==> st'.cache[k] == st.cache[k])
              && (k in st.mtimes ==> st'.mtimes[k] == st.mtimes[k])
  {
  }

  /** Two consecutive calls with the same key and an unchanged mtime run
      the wrapped function at most once: when the first returns a value, the
      second is answered from the cache with that same value. */
  lemma ConsecutiveCalls<A, R>(st: CacheState<A, R>, path: string, args: A, mtime: Result<int>,
                                   f: CallKey<A> -> Result<R>, g: CallKey<A> -> Result<R>)
    requires Consistent(st)
    requires mtime.Ok?
    ensures var o1 := CallSpec(st, Str(path), args, mtime, f);
            var o2 := CallSpec(o1.state, Str(path), args, mtime, g);
            o1.result.Ok? ==> !o2.invoked && o2.result == o1.result && o2.state == o1.state
  {
  }

  /** The cache agrees with `f`: every stored result is what `f` gives now. */
  ghost predicate Agrees<A, R>(st: CacheState<A, R>, f: CallKey<A> -> Result<R>) {
    forall k | k in st.cache :: f(k) == Ok(st.cache[k])
  }

  /** While the cache agrees with `f`, a call on a string path returns
      exactly what `f` returns, and the cache still agrees afterwards: the
      cache is then invisible.  (It is not when the files a result was
      computed from change without the path's mtime changing.) */
  lemma AgreeingCacheIsTransparent<A, R>(st: CacheState<A, R>, path: string, args: A,
                                             mtime: Result<int>, f: CallKey<A> -> Result<R>)
    requires Consistent(st) && Agrees(st, f)
    ensures CallSpec(st, Str(path), args, mtime, f).result == f(CallKey(path, args))
    ensures Agrees(CallSpec(st, Str(path), args, mtime, f).state, f)
  {
  }

  /** A decorator instance: the two dictionaries it updates on each call. */
  class Cache<A(==), R> {
    var cache: map<CallKey<A>, R>
    var mtimes: map<CallKey<A>, int>

    function State(): CacheState<A, R>
      reads this
    {
      CacheState(cache, mtimes)
    }

    /** `CacheOnModifiedDate()`: both dictionaries start empty. */
    constructor ()
      ensures cache == map[] && mtimes == map[]
      ensures Consistent(State())
    {
      cache := map[];
      mtimes := map[];
    }

    /** The `wrapper` built by `__call__`, around `f`. */
    method Call(path: PathArg, args: A, mtime: Result<int>, f: CallKey<A> -> Result<R>)
      returns (r: Result<R>, ghost invoked: bool)
      modifies this
      ensures Outcome(State(), r, invoked) == CallSpec(old(State()), path, args, mtime, f)
    {
      if path.NotStr? {
        return Err(TypeError), false;
      }
      if mtime.Err? {
        return f(CallKey(path.s, args)), true;
      }
      var key := CallKey(path.s, args);
      if key in cache && key in mtimes && mtimes[key] == mtime.value {
        return Ok(cache[key]), false;
      }
      if key in cache {
        cache := cache - {key};
        if key !in mtimes {
          return Err(KeyError), false;
        }
        mtimes := mtimes - {key};
      }
      r := f(key);
      invoked := true;
      if r.Ok? {
        cache := cache[key := r.value];
        mtimes := mtimes[key := mtime.value];
      }
    }
  }
}
