/**
 * `RateLimiter`: one `RollingCounter` per client key, kept in a
 * `CacheDict`, and a verdict "over the limit" per event.
 *
 * The limiter's cache is built as `CacheDict(capacity=capacity)`. The
 * keyword is not `cache_len`, so it is passed on to the ordered dict as an
 * initial entry: the cache keeps its default length 128 and starts out
 * holding the key "capacity" bound to an int. Asking the limiter about the
 * key "capacity" therefore calls `increment` on an int. The model keeps
 * this: a cache entry is a `Slot`, either a counter or an int.
 */
module Limiter {
  import opened Wrappers
  import opened Text
  import opened Cache
  import opened Counters

  /** The default `cache_len` of `CacheDict`. */
  const CacheLen: nat := 128
  /** `RollingCounter(self.interval_ms, bins=4)` */
  const Bins: nat := 4

  /** A value of the limiter's cache: a counter object, or the stray int. */
  datatype Slot = CounterSlot(c: RollingCounter) | IntSlot(n: int)

  /** What a slot holds, as a value. */
  datatype SlotView = CounterView(st: CounterState) | IntView(n: int)

  /**
   * The exceptions `insert` can raise: KeyError from the cache lookup (it
   * cannot happen, see `InsertNeverKeyError`), AttributeError when the
   * entry is an int, and what `increment` raises.
   */
  datatype LimiterError = KeyError | AttributeError | Raised(e: CounterError)

  /** The limiter's cache as a value: every counter in it is one `increment` can produce. */
  ghost predicate Coherent(st: CacheState<string, SlotView>) {
    && WellFormed(st, CacheLen)
    && (forall x :: x in st.store && st.store[x].CounterView? ==> Reachable(st.store[x].st, Bins))
  }

  /** The cache a new limiter starts with. */
  function Initial(capacity: int): CacheState<string, SlotView> {
    CacheState(["capacity"], map["capacity" := IntView(capacity)])
  }

  /** `if k not in self.counter: self.counter[k] = RollingCounter(...)` */
  function Admit(st: CacheState<string, SlotView>, k: string): CacheState<string, SlotView> {
    if k in st.store then st else SetSpec(st, k, CounterView(Fresh), CacheLen)
  }

  /** `.increment()` on the entry of `k`, and the comparison with `limit`. */
  function Bump(st: CacheState<string, SlotView>, k: string, index: nat, limit: int)
    : (Result<bool, LimiterError>, CacheState<string, SlotView>)
    requires k in st.store
  {
    match st.store[k]
    case IntView(_) => (Failure(AttributeError), st)
    case CounterView(cs) =>
      match Tick(cs, Bins, index)
      case None => (Failure(Raised(IndexError)), st)
      case Some(cs') => (Success(cs'.count > limit), CacheState(st.keys, st.store[k := CounterView(cs')]))
  }

  /**
   * `insert(k)` at clock reading `ms`: the verdict (or the exception) and
   * the new cache. An unseen key first gets a fresh counter (which may
   * evict the oldest key); the lookup `self.counter[k]` then makes `k`
   * newest; its counter counts the event in window
   * `ms // (interval_ms // 4)`.
   */
  function InsertSpec(st: CacheState<string, SlotView>, k: string, ms: nat, limit: int, intervalMs: nat)
    : (Result<bool, LimiterError>, CacheState<string, SlotView>)
    requires intervalMs >= Bins
  {
    var (got, st2) := GetSpec(Admit(st, k), k);
    if got.None? then (Failure(KeyError), st2)
    else Bump(st2, k, ms / (intervalMs / Bins), limit)
  }

  // ---------------------------------------------------------------- the stages

  lemma AdmitFacts(st: CacheState<string, SlotView>, k: string)
    requires Coherent(st)
    ensures var st1 := Admit(st, k);
      && Coherent(st1) && k in st1.store
      && (forall x :: x in st1.store && x != k ==> x in st.store && st1.store[x] == st.store[x])
      && (k in st.store ==> st1 == st)
      && (k !in st.store ==> st1.store[k] == CounterView(Fresh))
  {
    if k !in st.store {
      SetKeepsBound(st, k, CounterView(Fresh), CacheLen);
    }
  }

  lemma BumpFacts(st: CacheState<string, SlotView>, k: string, index: nat, limit: int)
    requires Coherent(st) && k in st.store
    ensures var (r, st') := Bump(st, k, index, limit);
      && Coherent(st') && st'.keys == st.keys
      && (forall x :: x in st'.store <==> x in st.store)
      && (forall x :: x in st.store && x != k ==> st'.store[x] == st.store[x])
      && (st.store[k].IntView? ==> r == Failure(AttributeError) && st' == st)
      && (r.Success? ==>
            && st'.store[k].CounterView?
            && st'.store[k].st.count == Sum(st'.store[k].st.counts) >= 1
            && (r.value <==> st'.store[k].st.count > limit))
  {
    if st.store[k].CounterView? {
      TickBounds(st.store[k].st, Bins, index);
    }
  }

  /** The lookup after the admission never fails: `insert` is admission, lookup and bump. */
  lemma InsertStages(st: CacheState<string, SlotView>, k: string, ms: nat, limit: int, intervalMs: nat)
    requires intervalMs >= Bins && Coherent(st)
    ensures var st2 := GetSpec(Admit(st, k), k).1;
      && Coherent(st2) && k in st2.store && st2.keys != [] && st2.keys[|st2.keys| - 1] == k
      && st2.store == Admit(st, k).store
      && InsertSpec(st, k, ms, limit, intervalMs) == Bump(st2, k, ms / (intervalMs / Bins), limit)
  {
    AdmitFacts(st, k);
    GetMovesToEnd(Admit(st, k), k, CacheLen);
  }

  // ---------------------------------------------------------------- what insert promises

  /** `self.counter[k]` never raises KeyError, and `k` ends up newest. */
  lemma InsertNeverKeyError(st: CacheState<string, SlotView>, k: string, ms: nat, limit: int, intervalMs: nat)
    requires intervalMs >= Bins && Coherent(st)
    ensures var (r, st') := InsertSpec(st, k, ms, limit, intervalMs);
      && r != Failure(KeyError)
      && k in st'.store && st'.keys != [] && st'.keys[|st'.keys| - 1] == k
  {
    InsertStages(st, k, ms, limit, intervalMs);
    BumpFacts(GetSpec(Admit(st, k), k).1, k, ms / (intervalMs / Bins), limit);
  }

  /** Every insert keeps the cache coherent. */
  lemma InsertKeepsCoherent(st: CacheState<string, SlotView>, k: string, ms: nat, limit: int, intervalMs: nat)
    requires intervalMs >= Bins && Coherent(st)
    ensures Coherent(InsertSpec(st, k, ms, limit, intervalMs).1)
  {
    InsertStages(st, k, ms, limit, intervalMs);
    BumpFacts(GetSpec(Admit(st, k), k).1, k, ms / (intervalMs / Bins), limit);
  }

  /**
   * A key already present gets no new counter: the keys stay the same and
   * every other entry keeps its value.
   */
  lemma InsertSeen(st: CacheState<string, SlotView>, k: string, ms: nat, limit: int, intervalMs: nat)
    requires intervalMs >= Bins && Coherent(st) && k in st.store
    ensures var st' := InsertSpec(st, k, ms, limit, intervalMs).1;
      && |st'.keys| == |st.keys|
      && (forall x :: x in st'.store <==> x in st.store)
      && (forall x :: x in st.store && x != k ==> st'.store[x] == st.store[x])
  {
    InsertStages(st, k, ms, limit, intervalMs);
    GetMovesToEnd(st, k, CacheLen);
    BumpFacts(GetSpec(st, k).1, k, ms / (intervalMs / Bins), limit);
  }

  /**
   * An unseen key gets a fresh counter: its first event counts one (or
   * raises IndexError in window 0), the other entries keep their values,
   * and when the cache was full its oldest key is evicted.
   */
  lemma InsertUnseen(st: CacheState<string, SlotView>, k: string, ms: nat, limit: int, intervalMs: nat)
    requires intervalMs >= Bins && Coherent(st) && k !in st.store
    ensures var (r, st') := InsertSpec(st, k, ms, limit, intervalMs);
      var index := ms / (intervalMs / Bins);
      && (index == 0 ==> r == Failure(Raised(IndexError)))
      && (index > 0 ==> r == Success(1 > limit) && st'.store[k] == CounterView(CounterState(if index > Bins then 0 else index, [1], 1)))
      && (forall x :: x in st'.store && x != k ==> x in st.store && st'.store[x] == st.store[x])
      && (|st.keys| == CacheLen ==> st.keys[0] !in st'.store)
  {
    var st2 := UnseenStages(st, k, ms, limit, intervalMs);
    BumpFresh(st2, k, ms / (intervalMs / Bins), limit);
  }

  /** For an unseen key the bump meets a fresh counter in a cache that kept the other entries. */
  lemma UnseenStages(st: CacheState<string, SlotView>, k: string, ms: nat, limit: int, intervalMs: nat)
    returns (st2: CacheState<string, SlotView>)
    requires intervalMs >= Bins && Coherent(st) && k !in st.store
    ensures k in st2.store && st2.store[k] == CounterView(Fresh)
    ensures InsertSpec(st, k, ms, limit, intervalMs) == Bump(st2, k, ms / (intervalMs / Bins), limit)
    ensures forall x :: x in st2.store && x != k ==> x in st.store && st2.store[x] == st.store[x]
    ensures |st.keys| == CacheLen ==> st.keys[0] !in st2.store
  {
    InsertStages(st, k, ms, limit, intervalMs);
    AdmitFacts(st, k);
    st2 := GetSpec(Admit(st, k), k).1;
    if |st.keys| == CacheLen {
      EvictsFirst(st, k);
    }
  }

  /** Bumping a fresh counter: IndexError in window 0, else a first count of one. */
  lemma BumpFresh(st: CacheState<string, SlotView>, k: string, index: nat, limit: int)
    requires k in st.store && st.store[k] == CounterView(Fresh)
    ensures Bump(st, k, index, limit)
      == if index == 0 then (Failure(Raised(IndexError)), st)
         else (Success(1 > limit), CacheState(st.keys, st.store[k := CounterView(CounterState(if index > Bins then 0 else index, [1], 1))]))
  {
    FirstTick(index);
  }

  /** A fresh counter's first event: IndexError in window 0, else a count of one. */
  lemma FirstTick(index: nat)
    ensures index == 0 ==> Tick(Fresh, Bins, index).None?
    ensures index > 0 ==> Tick(Fresh, Bins, index) == Some(CounterState(if index > Bins then 0 else index, [1], 1))
  {
    if index > Bins {
      LongPause(Fresh, Bins, index);
    } else if index > 0 {
      NextWindow(Fresh, Bins, index);
      assert BumpLast([0]) == [1];
    }
  }

  /** Admitting a new key into a full cache evicts the oldest key. */
  lemma EvictsFirst(st: CacheState<string, SlotView>, k: string)
    requires Coherent(st) && k !in st.store && |st.keys| == CacheLen
    ensures st.keys[0] !in Admit(st, k).store
  {
    var st1 := SetSpec(st, k, CounterView(Fresh), CacheLen);
    MoveToEndFacts(st.keys, k);
    RemoveDistinct(st.keys, k);
    var m := MoveToEnd(st.keys, k);
    assert m[0] == st.keys[0];
    assert st1.keys == m[1..];
    forall i | 0 <= i < |st1.keys| ensures st1.keys[i] != m[0] {
      assert st1.keys[i] == m[i + 1];
    }
  }

  /** An int entry (the stray "capacity") raises AttributeError and only moves the key to the end. */
  lemma InsertOnInt(st: CacheState<string, SlotView>, k: string, ms: nat, limit: int, intervalMs: nat)
    requires intervalMs >= Bins && k in st.store && st.store[k].IntView?
    ensures var (r, st') := InsertSpec(st, k, ms, limit, intervalMs);
      r == Failure(AttributeError) && st'.store == st.store
  {
  }

  /** A new limiter raises AttributeError for the key "capacity". */
  lemma CapacityKeyRaises(capacity: int, ms: nat, limit: int, intervalMs: nat)
    requires intervalMs >= Bins
    ensures InsertSpec(Initial(capacity), "capacity", ms, limit, intervalMs).0 == Failure(AttributeError)
  {
  }

  /**
   * The verdict is "blocked" exactly when the key's new count, the sum of
   * its bins, is greater than `limit`.
   */
  lemma InsertVerdict(st: CacheState<string, SlotView>, k: string, ms: nat, limit: int, intervalMs: nat)
    requires intervalMs >= Bins && Coherent(st)
    ensures var (r, st') := InsertSpec(st, k, ms, limit, intervalMs);
      r.Success? ==>
        && k in st'.store && st'.store[k].CounterView?
        && st'.store[k].st.count == Sum(st'.store[k].st.counts) >= 1
        && (r.value <==> st'.store[k].st.count > limit)
  {
    InsertStages(st, k, ms, limit, intervalMs);
    BumpFacts(GetSpec(Admit(st, k), k).1, k, ms / (intervalMs / Bins), limit);
  }

  // ---------------------------------------------------------------- the as-written reset branch

  /** Every counter in the cache still has `_current_index` 0 and at most one bin. */
  ghost predicate Stuck(st: CacheState<string, SlotView>) {
    forall x :: x in st.store && st.store[x].CounterView? ==>
      st.store[x].st.currentIndex == 0 && |st.store[x].st.counts| <= 1
  }

  /**
   * Once the clock is past the fifth window, no call moves a counter off
   * index 0: each event resets its counter to `[1]`, so with a limit of at
   * least one the verdict is never "blocked".
   */
  lemma NeverBlocksPastFourthWindow(st: CacheState<string, SlotView>, k: string, ms: nat, limit: int, intervalMs: nat)
    requires intervalMs >= Bins && Coherent(st) && Stuck(st)
    requires ms / (intervalMs / Bins) > Bins && limit >= 1
    ensures var (r, st') := InsertSpec(st, k, ms, limit, intervalMs);
      && (r == Success(false) || r == Failure(AttributeError))
      && Stuck(st')
  {
    InsertStages(st, k, ms, limit, intervalMs);
    var st2 := GetSpec(Admit(st, k), k).1;
    assert Stuck(st2) by {
      AdmitFacts(st, k);
    }
    BumpStuck(st2, k, ms / (intervalMs / Bins), limit);
  }

  /** Past the fifth window a stuck counter resets to `[1]` and stays stuck. */
  lemma BumpStuck(st: CacheState<string, SlotView>, k: string, index: nat, limit: int)
    requires Coherent(st) && Stuck(st) && k in st.store && index > Bins && limit >= 1
    ensures var (r, st') := Bump(st, k, index, limit);
      && (r == Success(false) || r == Failure(AttributeError))
      && Stuck(st')
  {
    BumpFacts(st, k, index, limit);
    if st.store[k].CounterView? {
      LongPause(st.store[k].st, Bins, index);
    }
  }

  /** `insert` called once per pair, in order; the verdicts, or the first exception. */
  function InsertAll(st: CacheState<string, SlotView>, calls: seq<(string, nat)>, limit: int, intervalMs: nat)
    : (Result<seq<bool>, LimiterError>, CacheState<string, SlotView>)
    requires intervalMs >= Bins
    decreases |calls|
  {
    if calls == [] then (Success([]), st)
    else
      var (r, st') := InsertSpec(st, calls[0].0, calls[0].1, limit, intervalMs);
      match r
      case Failure(e) => (Failure(e), st')
      case Success(b) =>
        var (rest, st'') := InsertAll(st', calls[1..], limit, intervalMs);
        match rest
        case Failure(e) => (Failure(e), st'')
        case Success(bs) => (Success([b] + bs), st'')
  }

  /**
   * A limiter whose counters are all still at index 0, driven by a clock
   * past the fifth window, never blocks anybody.
   */
  lemma {:induction false} NeverBlocks(st: CacheState<string, SlotView>, calls: seq<(string, nat)>, limit: int, intervalMs: nat)
    requires intervalMs >= Bins && Coherent(st) && Stuck(st) && limit >= 1
    requires forall i :: 0 <= i < |calls| ==> calls[i].1 / (intervalMs / Bins) > Bins
    ensures var (r, _) := InsertAll(st, calls, limit, intervalMs);
      r.Success? ==> forall i :: 0 <= i < |r.value| ==> !r.value[i]
    decreases |calls|
  {
    if calls != [] {
      var next := InsertSpec(st, calls[0].0, calls[0].1, limit, intervalMs).1;
      StuckStep(st, calls[0].0, calls[0].1, limit, intervalMs);
      NeverBlocks(next, calls[1..], limit, intervalMs);
      InsertAllCons(st, calls, limit, intervalMs);
      NoneBlocked(InsertAll(next, calls[1..], limit, intervalMs).0);
    }
  }

  lemma NoneBlocked(rest: Result<seq<bool>, LimiterError>)
    requires rest.Success? ==> forall i :: 0 <= i < |rest.value| ==> !rest.value[i]
    ensures rest.Success? ==> forall i :: 0 <= i < |[false] + rest.value| ==> !([false] + rest.value)[i]
  {
  }

  /** The verdicts of a run: the first call's, then the rest's, or the first exception. */
  lemma InsertAllCons(st: CacheState<string, SlotView>, calls: seq<(string, nat)>, limit: int, intervalMs: nat)
    requires intervalMs >= Bins && calls != []
    ensures var (r, st') := InsertSpec(st, calls[0].0, calls[0].1, limit, intervalMs);
      var rest := InsertAll(st', calls[1..], limit, intervalMs).0;
      InsertAll(st, calls, limit, intervalMs).0
        == if r.Failure? then Failure(r.error)
           else if rest.Failure? then Failure(rest.error)
           else Success([r.value] + rest.value)
  {
  }

  /** One call on a stuck cache past the fifth window: no block, and still stuck and coherent. */
  lemma StuckStep(st: CacheState<string, SlotView>, k: string, ms: nat, limit: int, intervalMs: nat)
    requires intervalMs >= Bins && Coherent(st) && Stuck(st)
    requires ms / (intervalMs / Bins) > Bins && limit >= 1
    ensures var (r, st') := InsertSpec(st, k, ms, limit, intervalMs);
      && (r == Success(false) || r.Failure?)
      && Coherent(st') && Stuck(st')
  {
    NeverBlocksPastFourthWindow(st, k, ms, limit, intervalMs);
    InsertKeepsCoherent(st, k, ms, limit, intervalMs);
  }

  // ---------------------------------------------------------------- the object

  /** The counter objects a cache holds. */
  ghost function Objects(store: map<string, Slot>): set<RollingCounter> {
    set x | x in store && store[x].CounterSlot? :: store[x].c
  }

  /** No two keys share a counter object. */
  ghost predicate Separate(store: map<string, Slot>) {
    forall x, y | x in store && y in store && store[x].CounterSlot? && store[y].CounterSlot?
      && store[x].c == store[y].c :: x == y
  }

  /** Every counter is a valid `RollingCounter(interval_ms, bins=4)`. */
  ghost predicate CountersOk(store: map<string, Slot>, interval: nat)
    reads Objects(store)
  {
    forall x | x in store && store[x].CounterSlot? ::
      store[x].c.Valid() && store[x].c.bins == Bins && store[x].c.interval == interval
  }

  ghost function ViewOf(s: Slot): SlotView
    reads if s.CounterSlot? then {s.c} else {}
  {
    match s
    case CounterSlot(c) => CounterView(c.State())
    case IntSlot(n) => IntView(n)
  }

  /** The entries of a cache with each counter object replaced by its state. */
  ghost function Views(store: map<string, Slot>): map<string, SlotView>
    reads Objects(store)
  {
    map x | x in store :: ViewOf(store[x])
  }

  /** Admitting a fresh counter object keeps the objects separate. */
  lemma AdmitSeparate(st: CacheState<string, Slot>, k: string, rc: RollingCounter)
    requires WellFormed(st, CacheLen) && Separate(st.store) && rc !in Objects(st.store) && k !in st.store
    ensures var st1 := SetSpec(st, k, CounterSlot(rc), CacheLen);
      && Separate(st1.store)
      && Objects(st1.store) <= Objects(st.store) + {rc}
  {
    SetKeepsBound(st, k, CounterSlot(rc), CacheLen);
    var st1 := SetSpec(st, k, CounterSlot(rc), CacheLen);
    forall x | x in st1.store && st1.store[x].CounterSlot? ensures st1.store[x].c in Objects(st.store) + {rc} {
      if x != k {
        assert st.store[x].c in Objects(st.store);
      }
    }
    forall x, y | x in st1.store && y in st1.store && st1.store[x].CounterSlot? && st1.store[y].CounterSlot?
      && st1.store[x].c == st1.store[y].c
      ensures x == y
    {
    }
  }

  /** The counter object of `k` belongs to no other key. */
  lemma OthersApart(store: map<string, Slot>, k: string, c: RollingCounter)
    requires Separate(store) && k in store && store[k] == CounterSlot(c)
    ensures forall x :: x in store && x != k && store[x].CounterSlot? ==> store[x].c != c
  {
  }

  /** Viewing commutes with setting one entry and keeping the listed keys. */
  lemma ViewsOfSet(m: map<string, Slot>, k: string, s: Slot, ks: seq<string>)
    ensures Views(Restrict(m[k := s], ks)) == Restrict(Views(m)[k := ViewOf(s)], ks)
  {
  }

  /**
   * What setting a fresh counter object for an unseen key does to the
   * objects, their validity and the view of the cache.
   */
  lemma AdmitStep(s0: CacheState<string, Slot>, v0: CacheState<string, SlotView>, k: string, rc: RollingCounter, interval: nat)
    requires WellFormed(s0, CacheLen) && Separate(s0.store) && CountersOk(s0.store, interval)
    requires rc !in Objects(s0.store) && k !in s0.store
    requires rc.Valid() && rc.bins == Bins && rc.interval == interval && rc.State() == Fresh
    requires v0 == CacheState(s0.keys, Views(s0.store))
    ensures var s1 := SetSpec(s0, k, CounterSlot(rc), CacheLen);
      && Separate(s1.store) && CountersOk(s1.store, interval)
      && Objects(s1.store) <= Objects(s0.store) + {rc}
      && CacheState(s1.keys, Views(s1.store)) == Admit(v0, k)
  {
    AdmitSeparate(s0, k, rc);
    ViewsOfSet(s0.store, k, CounterSlot(rc), SetSpec(s0, k, CounterSlot(rc), CacheLen).keys);
  }

  class RateLimiter {
    const limit: int
    const intervalMs: nat
    const counter: CacheDict<string, Slot>
    ghost var Repr: set<object>

    ghost predicate Valid()
      reads this, Repr
    {
      && this !in Repr
      && counter in Repr && counter.Valid() && counter.cacheLen == CacheLen && intervalMs >= Bins
      && Objects(counter.store) <= Repr
      && Separate(counter.store)
      && CountersOk(counter.store, intervalMs / Bins)
    }

    /** The cache as a value. */
    ghost function View(): (v: CacheState<string, SlotView>)
      requires Valid()
      reads this, Repr
      ensures Coherent(v) && v.keys == counter.keys
      ensures forall x :: x in v.store <==> x in counter.store
    {
      CacheState(counter.keys, Views(counter.store))
    }

    /** `RateLimiter(limit, interval_ms, capacity)`; a smaller `interval_ms` makes `increment` divide by zero. */
    constructor (limit: int, intervalMs: nat, capacity: int)
      requires intervalMs >= Bins
      ensures Valid() && fresh(Repr)
      ensures this.limit == limit && this.intervalMs == intervalMs
      ensures View() == Initial(capacity)
    {
      this.limit := limit;
      this.intervalMs := intervalMs;
      var c := new CacheDict([("capacity", IntSlot(capacity))], CacheLen);
      assert [("capacity", IntSlot(capacity))][..0] == [];
      counter := c;
      Repr := {c};
    }

    /** `if k not in self.counter: self.counter[k] = RollingCounter(self.interval_ms, bins=4)` */
    method AdmitKey(k: string)
      requires Valid()
      modifies this, Repr
      ensures Valid() && fresh(Repr - old(Repr))
      ensures View() == Admit(old(View()), k)
    {
      if !counter.Contains(k) {
        AddCounter(k);
      }
    }

    /** `self.counter[k] = RollingCounter(self.interval_ms, bins=4)` for an unseen `k`. */
    method AddCounter(k: string)
      requires Valid() && k !in counter.store
      modifies this, Repr
      ensures Valid() && fresh(Repr - old(Repr))
      ensures View() == SetSpec(old(View()), k, CounterView(Fresh), CacheLen)
    {
      var rc := new RollingCounter(intervalMs, Bins);
      Install(k, rc);
    }

    /** Stores the new counter object `rc` under `k`. */
    method Install(k: string, rc: RollingCounter)
      requires Valid() && k !in counter.store && rc !in Repr
      requires rc.Valid() && rc.bins == Bins && rc.interval == intervalMs / Bins && rc.State() == Fresh
      modifies this, counter
      ensures Valid() && Repr == old(Repr) + {rc}
      ensures View() == SetSpec(old(View()), k, CounterView(Fresh), CacheLen)
    {
      ghost var v0 := View();
      ghost var s0 := counter.State();
      counter.Set(k, CounterSlot(rc));
      assert Views(s0.store) == v0.store && CountersOk(s0.store, intervalMs / Bins);
      Repr := Repr + {rc};
      AdmitStep(s0, v0, k, rc, intervalMs / Bins);
    }

    /** `.increment()` on the counter object of `k`, compared with `limit`. */
    method BumpCounter(k: string, c: RollingCounter, ms: nat) returns (r: Result<bool, LimiterError>)
      requires Valid() && k in counter.store && counter.store[k] == CounterSlot(c)
      modifies c
      ensures Valid()
      ensures (r, View()) == Bump(old(View()), k, ms / (intervalMs / Bins), limit)
    {
      ghost var v := View();
      ghost var store := counter.store;
      OthersApart(store, k, c);
      var n := c.Increment(ms);
      forall x | x in store && x != k
        ensures Views(store)[x] == v.store[x]
        ensures store[x].CounterSlot? ==> store[x].c.Valid()
      {
      }
      assert Views(store) == v.store[k := CounterView(c.State())];
      match n {
        case Failure(e) =>
          r := Failure(Raised(e));
          assert View() == v;
        case Success(count) =>
          r := Success(count > limit);
      }
    }

    /** `self.counter[k].increment()` on a present key, compared with `limit`. */
    method CountKey(k: string, ms: nat) returns (r: Result<bool, LimiterError>)
      requires Valid() && k in counter.store
      modifies Repr
      ensures Valid()
      ensures (r, View()) == Bump(GetSpec(old(View()), k).1, k, ms / (intervalMs / Bins), limit)
    {
      ghost var v1 := View();
      var got := counter.Get(k);
      assert View() == GetSpec(v1, k).1;
      match got.value {
        case IntSlot(_) =>
          r := Failure(AttributeError);
        case CounterSlot(c) =>
          r := BumpCounter(k, c, ms);
      }
    }

    /** `insert(k)` at clock reading `ms`. */
    method Insert(k: string, ms: nat) returns (r: Result<bool, LimiterError>)
      requires Valid()
      modifies this, Repr
      ensures Valid() && fresh(Repr - old(Repr))
      ensures (r, View()) == InsertSpec(old(View()), k, ms, limit, intervalMs)
    {
      ghost var v0 := View();
      InsertStages(v0, k, ms, limit, intervalMs);
      AdmitFacts(v0, k);
      AdmitKey(k);
      r := CountKey(k, ms);
    }
  }
}
