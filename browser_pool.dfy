/**
 * The bookkeeping of `BrowserContextPool`: a lazily started browser, a FIFO
 * queue of idle contexts and a counter of the contexts created, capped by
 * `max_contexts`. The browser driver is abstract: each step is told what the
 * driver answers (`Driver`, and the contexts it hands out). Steps are taken
 * one at a time; the lock only matters where re-taking it would never return.
 */
module BrowserPool {
  import opened Common

  /** An opaque handle on a browser context. */
  type Context = nat

  /** What the driver answers during one step: whether Playwright starts, Chromium launches, and the browser is connected. */
  datatype Driver = Driver(starts: bool, launches: bool, connected: bool)

  /** The fields of the pool: `_initialized`, whether `_playwright`/`_browser` are set, `_available_contexts`, `_active_count`, `_max_contexts`. */
  datatype Pool = Pool(initialized: bool, hasPlaywright: bool, hasBrowser: bool,
                       available: seq<Context>, activeCount: int, maxContexts: int)

  /** How `_ensure_browser` ends: it returns the browser, raises, or waits forever on the lock its caller holds. */
  datatype Readiness = Ready | Unavailable | Deadlocked

  datatype Ensure = Ensure(after: Pool, outcome: Readiness)

  /** How acquiring a page ends before the caller's body runs. */
  datatype Acquire = Leased(context: Context) | Failed | Blocked | Stuck

  const DefaultUserAgent: string :=
    "Mozilla/5.0 (Windows NT 10.0; Win64; x64) AppleWebKit/537.36 (KHTML, like Gecko) Chrome/120.0.0.0 Safari/537.36"

  /** The pool a constructor starts from. */
  function Fresh(maxContexts: int): Pool
  {
    Pool(false, false, false, [], 0, maxContexts)
  }

  /**
   * The count never passes the cap, except that a pool whose cap is not
   * positive still holds the count 0 it started with.
   */
  predicate Bounded(p: Pool)
  {
    0 <= p.activeCount && (p.activeCount <= p.maxContexts || p.activeCount == 0)
  }

  /** Every counted context is either idle in the queue or leased out (`leased` of them). */
  predicate Accounted(p: Pool, leased: nat)
  {
    |p.available| + leased == p.activeCount
  }

  /**
   * `_ensure_browser`: start the driver and launch the browser when not yet
   * initialised, then fail unless a connected browser is there. `lockHeld`
   * says whether the caller already holds `_lock`, which the initialisation
   * has to take.
   */
  function Ensured(p: Pool, d: Driver, lockHeld: bool): (r: Ensure)
    ensures r.outcome == Deadlocked <==> !p.initialized && lockHeld
    ensures r.outcome == Ready <==> r.after.initialized && r.after.hasBrowser && d.connected && r.outcome != Deadlocked
    ensures (p.initialized || r.outcome == Deadlocked) ==> r.after == p
    ensures r.after.initialized == (p.initialized || (!lockHeld && d.starts && d.launches))
    ensures r.after.available == p.available && r.after.activeCount == p.activeCount
    ensures r.after.maxContexts == p.maxContexts
  {
    if p.initialized then Ensure(p, if p.hasBrowser && d.connected then Ready else Unavailable)
    else if lockHeld then Ensure(p, Deadlocked)
    else if !d.starts then Ensure(p, Unavailable)
    else if !d.launches then Ensure(p.(hasPlaywright := true), Unavailable)
    else Ensure(p.(initialized := true, hasPlaywright := true, hasBrowser := true),
                if d.connected then Ready else Unavailable)
  }

  /**
   * `acquire_page` up to the `yield`: make sure of the browser (outside the
   * lock), then reuse the first idle context, or create one while under the
   * cap, or wait for a release. `created` is what `new_context` hands out;
   * `None` means it raised.
   */
  function Acquired(p: Pool, d: Driver, created: Option<Context>): (Pool, Acquire)
  {
    var e := Ensured(p, d, false);
    if e.outcome != Ready then (e.after, Failed)
    else
      var q := e.after;
      if q.available != [] then (q.(available := q.available[1..]), Leased(q.available[0]))
      else if q.activeCount < q.maxContexts then
        var inner := Ensured(q, d, true);
        if inner.outcome == Deadlocked then (q, Stuck)
        else if inner.outcome == Unavailable || created.None? then (q, Failed)
        else (q.(activeCount := q.activeCount + 1), Leased(created.value))
      else (q, Blocked)
  }

  /**
   * The `finally` block of `acquire_page`: put the context back on the
   * queue, or, when that fails, drop it and decrement the count, floored at 0.
   */
  function Released(p: Pool, c: Context, requeued: bool): Pool
  {
    if requeued then p.(available := p.available + [c])
    else p.(activeCount := Max(0, p.activeCount - 1))
  }

  /**
   * The loop of `warmup` from attempt `i` to `n`: while under the cap, create
   * a context under the lock and queue it; the first failure ends the loop.
   * `created(i)` is what `new_context` hands out on attempt `i`. The Boolean
   * is true when an attempt waits forever for the lock.
   */
  function WarmLoop(p: Pool, d: Driver, created: nat -> Option<Context>, i: nat, n: int): (Pool, bool)
    decreases n - i
  {
    if i >= n then (p, false)
    else if p.activeCount < p.maxContexts then
      var e := Ensured(p, d, true);
      if e.outcome == Deadlocked then (p, true)
      else if e.outcome == Unavailable || created(i).None? then (p, false)
      else WarmLoop(p.(activeCount := p.activeCount + 1, available := p.available + [created(i).value]),
                    d, created, i + 1, n)
    else WarmLoop(p, d, created, i + 1, n)
  }

  /** `warmup(count)` as written: the loop runs min(count, max_contexts) times, starting on whatever state the pool is in. */
  function WarmupAsWritten(p: Pool, d: Driver, count: int, created: nat -> Option<Context>): (Pool, bool)
  {
    WarmLoop(p, d, created, 0, Min(count, p.maxContexts))
  }

  /**
   * `warmup(count)` made safe the way `acquire_page` is: when an attempt is
   * due (a positive count and room under the cap), the browser is made sure
   * of before the lock is taken; when that fails, nothing is created.
   */
  function Warmed(p: Pool, d: Driver, count: int, created: nat -> Option<Context>): Pool
  {
    var n := Min(count, p.maxContexts);
    if n <= 0 || p.activeCount >= p.maxContexts then p
    else
      var e := Ensured(p, d, false);
      if e.outcome != Ready then e.after
      else WarmLoop(e.after, d, created, 0, n).0
  }

  /**
   * `close`: the queue drained, the browser closed when it is connected (a
   * disconnected one stays referenced), the driver stopped, the flag and the
   * count reset.
   */
  function Closed(p: Pool, connected: bool): Pool
  {
    Pool(false, false, p.hasBrowser && !connected, [], 0, p.maxContexts)
  }

  /** Acquiring never waits on the lock it is itself holding: the browser is initialised before the lock is taken. */
  lemma AcquireNeverDeadlocks(p: Pool, d: Driver, created: Option<Context>)
    ensures Acquired(p, d, created).1 != Stuck
  {
    var e := Ensured(p, d, false);
    if e.outcome == Ready && e.after.available == [] && e.after.activeCount < e.after.maxContexts {
      assert e.after.initialized;
    }
  }

  /**
   * Acquiring reuses the head of the queue whenever there is one, leaving the
   * count alone; the count grows by one only when the queue was empty and the
   * count was under the cap, and nothing else changes the count.
   */
  lemma AcquireReusesBeforeCreating(p: Pool, d: Driver, created: Option<Context>)
    ensures var (q, r) := Acquired(p, d, created);
      && q.maxContexts == p.maxContexts
      && (p.available != [] && r.Leased? ==>
            r.context == p.available[0] && q.available == p.available[1..] && q.activeCount == p.activeCount)
      && (q.activeCount != p.activeCount ==>
            p.available == [] && p.activeCount < p.maxContexts && q.activeCount == p.activeCount + 1
            && r == Leased(created.value) && q.available == [])
      && (!r.Leased? ==> q.available == p.available && q.activeCount == p.activeCount)
  {
  }

  /** Every step keeps the count within the cap. */
  lemma StepsStayBounded(p: Pool, d: Driver, created: Option<Context>, c: Context, requeued: bool,
                         connected: bool)
    requires Bounded(p)
    ensures Bounded(Acquired(p, d, created).0)
    ensures Bounded(Released(p, c, requeued))
    ensures Bounded(Closed(p, connected))
  {
  }

  /** The warmup loop keeps the count within the cap, only appends to the queue, and adds to the count what it queues. */
  lemma {:induction false} WarmLoopKeeps(p: Pool, d: Driver, created: nat -> Option<Context>, i: nat, n: int, leased: nat)
    requires Bounded(p)
    ensures var q := WarmLoop(p, d, created, i, n).0;
      && Bounded(q)
      && q.maxContexts == p.maxContexts
      && q.initialized == p.initialized && q.hasBrowser == p.hasBrowser
      && |p.available| <= |q.available| && q.available[..|p.available|] == p.available
      && q.activeCount - p.activeCount == |q.available| - |p.available|
      && q.activeCount - p.activeCount <= Max(0, n - i)
      && (Accounted(p, leased) ==> Accounted(q, leased))
    decreases n - i
  {
    if i < n && p.activeCount < p.maxContexts {
      var e := Ensured(p, d, true);
      if e.outcome == Ready && created(i).Some? {
        var next := p.(activeCount := p.activeCount + 1, available := p.available + [created(i).value]);
        WarmLoopKeeps(next, d, created, i + 1, n, leased);
        var q := WarmLoop(next, d, created, i + 1, n).0;
        assert q.available[..|next.available|][..|p.available|] == q.available[..|p.available|];
        assert next.available[..|p.available|] == p.available;
      }
    } else if i < n {
      WarmLoopKeeps(p, d, created, i + 1, n, leased);
    }
  }

  /**
   * When every attempt succeeds on a connected, initialised pool, the loop
   * fills the pool: it creates one context per attempt until the cap is
   * reached.
   */
  lemma {:induction false} WarmLoopFills(p: Pool, d: Driver, created: nat -> Option<Context>, i: nat, n: int)
    requires p.initialized && p.hasBrowser && d.connected && i <= n
    requires 0 <= p.activeCount <= p.maxContexts
    requires forall j :: i <= j < n ==> created(j).Some?
    ensures WarmLoop(p, d, created, i, n).0.activeCount == p.activeCount + Min(n - i, p.maxContexts - p.activeCount)
    ensures !WarmLoop(p, d, created, i, n).1
    decreases n - i
  {
    if i < n {
      if p.activeCount < p.maxContexts {
        var next := p.(activeCount := p.activeCount + 1, available := p.available + [created(i).value]);
        assert WarmLoop(p, d, created, i, n) == WarmLoop(next, d, created, i + 1, n);
        WarmLoopFills(next, d, created, i + 1, n);
      } else {
        WarmLoopFills(p, d, created, i + 1, n);
      }
    }
  }

  /** An attempt that fails ends the loop: no context is created from that attempt on. */
  lemma {:induction false} WarmLoopStopsAtFailure(p: Pool, d: Driver, created: nat -> Option<Context>, i: nat, n: int, j: nat)
    requires Bounded(p) && i <= j && forall k :: i <= k < j ==> created(k).Some?
    requires created(j).None?
    ensures WarmLoop(p, d, created, i, n).0.activeCount - p.activeCount <= j - i
    decreases j - i
  {
    if i < n && p.activeCount < p.maxContexts {
      var e := Ensured(p, d, true);
      if e.outcome == Ready && created(i).Some? {
        var next := p.(activeCount := p.activeCount + 1, available := p.available + [created(i).value]);
        WarmLoopStopsAtFailure(next, d, created, i + 1, n, j);
      }
    } else if i < n {
      if i < j {
        WarmLoopStopsAtFailure(p, d, created, i + 1, n, j);
      } else {
        WarmLoopKeeps(p, d, created, i + 1, n, 0);
        WarmLoopIdleAtCap(p, d, created, i + 1, n);
      }
    }
  }

  /** At the cap the loop does nothing. */
  lemma {:induction false} WarmLoopIdleAtCap(p: Pool, d: Driver, created: nat -> Option<Context>, i: nat, n: int)
    requires p.activeCount >= p.maxContexts
    ensures WarmLoop(p, d, created, i, n) == (p, false)
    decreases n - i
  {
    if i < n {
      WarmLoopIdleAtCap(p, d, created, i + 1, n);
    }
  }

  /**
   * As written, `warmup` deadlocks exactly on a pool that was never
   * initialised when an attempt is due: it holds `_lock` while
   * `_create_context` calls `_ensure_browser`, which waits for that same lock
   * (an `asyncio.Lock` is not reentrant).
   */
  lemma WarmupAsWrittenDeadlocks(p: Pool, d: Driver, count: int, created: nat -> Option<Context>)
    ensures WarmupAsWritten(p, d, count, created).1 <==>
      !p.initialized && Min(count, p.maxContexts) >= 1 && p.activeCount < p.maxContexts
  {
    var n := Min(count, p.maxContexts);
    if p.initialized {
      WarmLoopNoDeadlock(p, d, created, 0, n);
    } else if n >= 1 && p.activeCount >= p.maxContexts {
      WarmLoopIdleAtCap(p, d, created, 0, n);
    }
  }

  /**
   * Made sure of the browser first, `warmup` never waits on its own lock,
   * does what the code as written does on every pool where that one does not
   * hang, and keeps the count within the cap and every context accounted for.
   */
  lemma WarmedIsSafe(p: Pool, d: Driver, count: int, created: nat -> Option<Context>, leased: nat)
    requires Bounded(p)
    ensures var e := Ensured(p, d, false);
      e.outcome == Ready ==> !WarmLoop(e.after, d, created, 0, Min(count, p.maxContexts)).1
    ensures !WarmupAsWritten(p, d, count, created).1 ==>
      Warmed(p, d, count, created) == WarmupAsWritten(p, d, count, created).0
    ensures Bounded(Warmed(p, d, count, created))
    ensures Accounted(p, leased) ==> Accounted(Warmed(p, d, count, created), leased)
  {
    var e := Ensured(p, d, false);
    var n := Min(count, p.maxContexts);
    WarmupAsWrittenDeadlocks(p, d, count, created);
    if e.outcome == Ready {
      WarmLoopNoDeadlock(e.after, d, created, 0, n);
    }
    if n <= 0 || p.activeCount >= p.maxContexts {
      if n > 0 {
        WarmLoopIdleAtCap(p, d, created, 0, n);
      }
    } else {
      WarmLoopKeeps(e.after, d, created, 0, n, leased);
      if e.outcome != Ready && p.initialized {
        assert WarmupAsWritten(p, d, count, created) == (p, false);
      }
    }
  }

  /** On an initialised pool no attempt of the loop waits on the lock. */
  lemma {:induction false} WarmLoopNoDeadlock(p: Pool, d: Driver, created: nat -> Option<Context>, i: nat, n: int)
    requires p.initialized
    ensures !WarmLoop(p, d, created, i, n).1
    decreases n - i
  {
    if i < n && p.activeCount < p.maxContexts {
      var e := Ensured(p, d, true);
      if e.outcome == Ready && created(i).Some? {
        WarmLoopNoDeadlock(p.(activeCount := p.activeCount + 1, available := p.available + [created(i).value]),
                           d, created, i + 1, n);
      }
    } else if i < n {
      WarmLoopNoDeadlock(p, d, created, i + 1, n);
    }
  }

  lemma WarmedFillsFreshPool(maxContexts: int, count: int, d: Driver, created: nat -> Option<Context>)
    requires d.starts && d.launches && d.connected && count >= 0 && maxContexts >= 0
    requires forall j :: 0 <= j < count ==> created(j).Some?
    ensures Warmed(Fresh(maxContexts), d, count, created).activeCount == Min(count, maxContexts)
    ensures |Warmed(Fresh(maxContexts), d, count, created).available| == Min(count, maxContexts)
  {
    var e := Ensured(Fresh(maxContexts), d, false);
    WarmLoopFills(e.after, d, created, 0, Min(count, maxContexts));
    WarmLoopKeeps(e.after, d, created, 0, Min(count, maxContexts), 0);
  }

  /** Leasing and releasing keep every counted context accounted for. */
  lemma LeasesAreAccounted(p: Pool, d: Driver, created: Option<Context>, c: Context, requeued: bool, leased: nat)
    requires Bounded(p)
    ensures Accounted(p, leased) ==>
      Accounted(Acquired(p, d, created).0, if Acquired(p, d, created).1.Leased? then leased + 1 else leased)
    ensures Accounted(p, leased + 1) ==> Accounted(Released(p, c, requeued), leased)
    ensures Accounted(p, leased) ==> |p.available| <= p.activeCount
  {
  }

  /**
   * `close` empties the queue and zeroes the count, so accounting survives it
   * exactly when no lease is outstanding; closing twice is closing once.
   */
  lemma CloseResets(p: Pool, connected: bool, leased: nat)
    ensures var q := Closed(p, connected);
      && !q.initialized && q.available == [] && q.activeCount == 0
      && (Accounted(q, leased) <==> leased == 0)
      && Closed(q, connected) == q
  {
  }

  /**
   * A lease released after `close` goes back on the queue while the count is
   * 0: the queue then holds a context that no count covers.
   */
  lemma ReleaseAfterCloseOvercounts(p: Pool, connected: bool, c: Context)
    ensures var q := Released(Closed(p, connected), c, true);
      q.available == [c] && q.activeCount == 0 && !Accounted(q, 0)
  {
  }

  class BrowserContextPool {
    var initialized: bool
    var hasPlaywright: bool
    var hasBrowser: bool
    /** `_available_contexts`, head first. */
    var available: seq<Context>
    var activeCount: int
    const maxContexts: int
    /** Kept but never consulted, as in the source. */
    const ttl: int
    const headless: bool
    const userAgent: string
    /** The number of contexts handed out by `acquire_page` and not yet released. */
    ghost var leased: nat

    function State(): Pool
      reads this
    {
      Pool(initialized, hasPlaywright, hasBrowser, available, activeCount, maxContexts)
    }

    ghost predicate Valid()
      reads this
    {
      Bounded(State())
    }

    constructor (maxContexts: int, contextTtlSeconds: int, headless: bool, userAgent: Option<string>)
      ensures Valid() && State() == Fresh(maxContexts) && leased == 0 && Accounted(State(), leased)
      ensures this.userAgent == (if userAgent.Some? && userAgent.value != "" then userAgent.value else DefaultUserAgent)
      ensures ttl == contextTtlSeconds && this.headless == headless
    {
      this.maxContexts := maxContexts;
      ttl := contextTtlSeconds;
      this.headless := headless;
      this.userAgent := if userAgent.Some? && userAgent.value != "" then userAgent.value else DefaultUserAgent;
      initialized := false;
      hasPlaywright := false;
      hasBrowser := false;
      available := [];
      activeCount := 0;
      leased := 0;
    }

    /** `_ensure_browser`, called without the lock held; `ready` is false where the source raises. */
    method EnsureBrowser(d: Driver) returns (ready: bool)
      modifies this
      ensures State() == Ensured(old(State()), d, false).after
      ensures ready <==> Ensured(old(State()), d, false).outcome == Ready
      ensures leased == old(leased)
    {
      if !initialized {
        if !d.starts {
          return false;
        }
        hasPlaywright := true;
        if !d.launches {
          return false;
        }
        hasBrowser := true;
        initialized := true;
      }
      ready := hasBrowser && d.connected;
    }

    /**
     * `acquire_page` up to the `yield`. A `Leased` result must be released
     * with `ReleasePage`, whatever the caller's body does.
     */
    method AcquirePage(d: Driver, created: Option<Context>) returns (r: Acquire)
      requires Valid()
      modifies this
      ensures Valid()
      ensures (State(), r) == Acquired(old(State()), d, created)
      ensures leased == if r.Leased? then old(leased) + 1 else old(leased)
      ensures Accounted(old(State()), old(leased)) ==> Accounted(State(), leased)
    {
      LeasesAreAccounted(State(), d, created, 0, true, leased);
      StepsStayBounded(State(), d, created, 0, true, false);
      var ready := EnsureBrowser(d);
      if !ready {
        return Failed;
      }
      if available != [] {
        r := Leased(available[0]);
        available := available[1..];
        leased := leased + 1;
        return;
      }
      if activeCount < maxContexts {
        if !hasBrowser || !d.connected || created.None? {
          return Failed;
        }
        activeCount := activeCount + 1;
        leased := leased + 1;
        return Leased(created.value);
      }
      return Blocked;
    }

    /** The `finally` block of `acquire_page` for a leased context. */
    method ReleasePage(c: Context, requeued: bool)
      requires Valid() && leased > 0
      modifies this
      ensures Valid()
      ensures State() == Released(old(State()), c, requeued) && leased == old(leased) - 1
      ensures Accounted(old(State()), old(leased)) ==> Accounted(State(), leased)
    {
      LeasesAreAccounted(State(), Driver(false, false, false), None, c, requeued, leased - 1);
      StepsStayBounded(State(), Driver(false, false, false), None, c, requeued, false);
      if requeued {
        available := available + [c];
      } else {
        activeCount := Max(0, activeCount - 1);
      }
      leased := leased - 1;
    }

    /** `warmup(count)`, with the browser made sure of before the loop takes the lock. */
    method Warmup(d: Driver, count: int, created: nat -> Option<Context>)
      requires Valid()
      modifies this
      ensures Valid()
      ensures State() == Warmed(old(State()), d, count, created) && leased == old(leased)
      ensures Accounted(old(State()), old(leased)) ==> Accounted(State(), leased)
    {
      WarmedIsSafe(State(), d, count, created, leased);
      var n := Min(count, maxContexts);
      if n <= 0 || activeCount >= maxContexts {
        return;
      }
      var ready := EnsureBrowser(d);
      if !ready {
        return;
      }
      var i := 0;
      while i < n
        invariant 0 <= i && initialized && hasBrowser && d.connected && leased == old(leased)
        invariant WarmLoop(State(), d, created, i, n) == WarmLoop(Ensured(old(State()), d, false).after, d, created, 0, n)
        decreases n - i
      {
        if activeCount < maxContexts {
          if created(i).None? {
            break;
          }
          activeCount := activeCount + 1;
          available := available + [created(i).value];
        }
        i := i + 1;
      }
    }

    /** `close`: drain the queue, close what is open, reset the flag and the count. */
    method Close(connected: bool)
      requires Valid()
      modifies this
      ensures Valid()
      ensures State() == Closed(old(State()), connected) && leased == old(leased)
    {
      while available != []
        invariant initialized == old(initialized) && hasPlaywright == old(hasPlaywright)
        invariant hasBrowser == old(hasBrowser) && activeCount == old(activeCount) && leased == old(leased)
        decreases |available|
      {
        available := available[1..];
      }
      if hasBrowser && connected {
        hasBrowser := false;
      }
      hasPlaywright := false;
      initialized := false;
      activeCount := 0;
    }
  }

  /** `BrowserManager`: a pool of `pool_size` contexts with the default lifetime, used through delegation. */
  class BrowserManager {
    const pool: BrowserContextPool

    ghost predicate Valid()
      reads this, pool
    {
      pool.Valid()
    }

    constructor (headless: bool, poolSize: int, userAgent: Option<string>)
      ensures Valid() && fresh(pool) && pool.State() == Fresh(poolSize) && pool.leased == 0
      ensures pool.headless == headless && pool.ttl == 300
    {
      pool := new BrowserContextPool(poolSize, 300, headless, userAgent);
    }

    /** `get_page` up to the `yield`. */
    method GetPage(d: Driver, created: Option<Context>) returns (r: Acquire)
      requires Valid()
      modifies pool
      ensures Valid() && (pool.State(), r) == Acquired(old(pool.State()), d, created)
      ensures pool.leased == if r.Leased? then old(pool.leased) + 1 else old(pool.leased)
      ensures Accounted(old(pool.State()), old(pool.leased)) ==> Accounted(pool.State(), pool.leased)
    {
      r := pool.AcquirePage(d, created);
    }

    /** The end of the `get_page` block. */
    method ReleasePage(c: Context, requeued: bool)
      requires Valid() && pool.leased > 0
      modifies pool
      ensures Valid() && pool.State() == Released(old(pool.State()), c, requeued)
      ensures pool.leased == old(pool.leased) - 1
      ensures Accounted(old(pool.State()), old(pool.leased)) ==> Accounted(pool.State(), pool.leased)
    {
      pool.ReleasePage(c, requeued);
    }

    method Warmup(d: Driver, count: int, created: nat -> Option<Context>)
      requires Valid()
      modifies pool
      ensures Valid() && pool.State() == Warmed(old(pool.State()), d, count, created)
      ensures pool.leased == old(pool.leased)
      ensures Accounted(old(pool.State()), old(pool.leased)) ==> Accounted(pool.State(), pool.leased)
    {
      pool.Warmup(d, count, created);
    }

    method Close(connected: bool)
      requires Valid()
      modifies pool
      ensures Valid() && pool.State() == Closed(old(pool.State()), connected)
      ensures pool.leased == old(pool.leased)
    {
      pool.Close(connected);
    }
  }
}
