/** The compilation cache: compiled functions keyed by the structural hash
    of their expression, each stamped with the time it was last used, and
    the time-window sweep that evicts stale ones. Time is a parameter, in
    nanoseconds. */
module Cache {
  import opened Ast
  import opened Lowering

  type FunctionCache = map<U64, CompiledFunction>

  /** Entries unused for this long are evicted: 300 seconds. */
  const RetentionWindow: nat := 300 * 1_000_000_000

  /** `Instant::duration_since`: the time from `t` to `now`, zero when `t`
      lies in the future. */
  function Age(now: nat, t: nat): (d: nat)
    ensures d <= now
    ensures t <= now ==> d + t == now
  {
    if now >= t then now - t else 0
  }

  predicate Fresh(now: nat, f: CompiledFunction) {
    Age(now, f.lastUsed) < RetentionWindow
  }

  /** A cache hit: `CompiledFunction::update` stamps the entry with `now`. */
  function Touch(c: FunctionCache, key: U64, now: nat): (r: FunctionCache)
    requires key in c
    ensures r.Keys == c.Keys
    ensures r[key].code == c[key].code && r[key].lastUsed == now
    ensures forall k :: k in c && k != key ==> r[k] == c[k]
  {
    c[key := c[key].(lastUsed := now)]
  }

  /** A miss: the freshly compiled function is stored under its key. */
  function Insert(c: FunctionCache, key: U64, f: CompiledFunction): (r: FunctionCache)
    ensures r.Keys == c.Keys + {key}
    ensures r[key] == f
    ensures forall k :: k in c && k != key ==> r[k] == c[k]
  {
    c[key := f]
  }

  /** The sweep of `cleanup_cache`, as intended: keep the entries used less
      than the retention window before `now`. */
  function Sweep(c: FunctionCache, now: nat): (r: FunctionCache)
    ensures r.Keys <= c.Keys
    ensures forall k :: k in r ==> r[k] == c[k]
    ensures forall k :: k in c ==> (k in r <==> Age(now, c[k].lastUsed) < RetentionWindow)
  {
    map k | k in c && Fresh(now, c[k]) :: c[k]
  }

  /** Sweeping twice at one time removes nothing more. */
  lemma SweepIdempotent(c: FunctionCache, now: nat)
    ensures Sweep(Sweep(c, now), now) == Sweep(c, now)
  {
  }

  /** An entry used at `t` survives every sweep earlier than `t` plus the
      window, and is evicted by every sweep from then on. */
  lemma SweepWindow(c: FunctionCache, key: U64, now: nat)
    requires key in c && c[key].lastUsed <= now
    ensures now < c[key].lastUsed + RetentionWindow ==> key in Sweep(c, now)
    ensures now >= c[key].lastUsed + RetentionWindow ==> key !in Sweep(c, now)
  {
  }

  /** An entry hit within the window before a sweep is never evicted by it. */
  lemma HitEntrySurvives(c: FunctionCache, key: U64, hit: nat, now: nat)
    requires key in c && hit <= now < hit + RetentionWindow
    ensures key in Sweep(Touch(c, key, hit), now)
    ensures Sweep(Touch(c, key, hit), now)[key].code == c[key].code
  {
  }

  /** `cleanup_cache` as written: the background task runs `retain` on
      `function_cache.clone()`, and cloning a `DashMap` copies its shards,
      so the sweep filters a private copy that is then dropped. The
      calculator's own cache comes out unchanged. */
  function CleanupAsWritten(c: FunctionCache, now: nat): (r: FunctionCache)
    ensures r == c
  {
    var copy := c;
    var swept := Sweep(copy, now);
    c
  }

  /** The counterexample: an entry stored at time 0 and never used again is
      still cached after a miss-triggered cleanup at 301 seconds, although
      the sweep evicts it. */
  lemma CleanupAsWrittenKeepsStaleEntry(f: CompiledFunction)
    requires f.lastUsed == 0
    ensures 7 in CleanupAsWritten(map[7 := f], 301 * 1_000_000_000)
    ensures 7 !in Sweep(map[7 := f], 301 * 1_000_000_000)
  {
  }
}
