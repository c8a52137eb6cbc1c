/**
 * `RollingCounter`: counts events in up to `bins` consecutive windows of
 * `interval` milliseconds each and reports the total.
 *
 * The clock is a parameter: `ms` is the value `int(time.time()*1000)` had
 * at the call. The branch taken after a long pause (more than `bins`
 * windows) starts over from one empty window but leaves `_current_index`
 * where it was; `Tick` keeps that behaviour, and the lemmas at the end
 * show what it leads to.
 */
module Counters {
  import opened Wrappers
  import opened Text

  /** The exception `increment` can raise: `_counts[-1]` on an empty list. */
  datatype CounterError = IndexError

  /** `_current_index`, `_counts` and `_count`. */
  datatype CounterState = CounterState(currentIndex: nat, counts: seq<int>, count: int)

  const Fresh := CounterState(0, [], 0)

  /** `sum(xs)` */
  function Sum(xs: seq<int>): int {
    if xs == [] then 0 else Sum(xs[..|xs| - 1]) + xs[|xs| - 1]
  }

  predicate NonNegative(xs: seq<int>) {
    forall i :: 0 <= i < |xs| ==> xs[i] >= 0
  }

  /** The states `increment` can reach from a fresh counter. */
  predicate Reachable(st: CounterState, bins: nat) {
    |st.counts| <= bins && NonNegative(st.counts)
  }

  /** `_counts[-1] += 1` */
  function BumpLast(xs: seq<int>): (r: seq<int>)
    requires xs != []
    ensures |r| == |xs| && r[..|r| - 1] == xs[..|xs| - 1] && r[|r| - 1] == xs[|xs| - 1] + 1
  {
    xs[..|xs| - 1] + [xs[|xs| - 1] + 1]
  }

  /**
   * One `increment()` in window `index` (= `ms // interval`): the new
   * state and the returned count, or None where Python raises IndexError.
   */
  function Tick(st: CounterState, bins: nat, index: nat): Option<CounterState> {
    var (cur, counts) :=
      if index == st.currentIndex then (st.currentIndex, st.counts)
      else if index - st.currentIndex > bins then (st.currentIndex, [0])
      else (index, LastN(st.counts + [0], bins));
    if counts == [] then None
    else
      var bumped := BumpLast(counts);
      Some(CounterState(cur, bumped, Sum(bumped)))
  }

  // ---------------------------------------------------------------- properties of one call

  lemma {:induction false} SumNonNegative(xs: seq<int>)
    requires NonNegative(xs)
    ensures Sum(xs) >= 0
    decreases |xs|
  {
    if xs != [] {
      SumNonNegative(xs[..|xs| - 1]);
    }
  }

  /**
   * `increment` raises only on an empty list in the unchanged window;
   * otherwise it returns `sum(_counts)`, which is at least one, and keeps
   * at most `bins` non-negative counts.
   */
  lemma TickBounds(st: CounterState, bins: nat, index: nat)
    requires bins >= 1 && Reachable(st, bins)
    ensures Tick(st, bins, index).None? <==> index == st.currentIndex && st.counts == []
    ensures Tick(st, bins, index).Some? ==>
      var st' := Tick(st, bins, index).value;
      Reachable(st', bins) && st'.count == Sum(st'.counts) && st'.count >= 1
  {
    var counts :=
      if index == st.currentIndex then st.counts
      else if index - st.currentIndex > bins then [0]
      else LastN(st.counts + [0], bins);
    assert |counts| <= bins && NonNegative(counts) by {
      if index != st.currentIndex && index - st.currentIndex <= bins {
        ShiftKeepsNonNegative(st.counts, bins);
      }
    }
    if counts != [] {
      BumpLastPositive(counts);
    }
  }

  /** Opening a new window keeps the counts non-negative. */
  lemma ShiftKeepsNonNegative(counts: seq<int>, bins: nat)
    requires NonNegative(counts)
    ensures NonNegative(LastN(counts + [0], bins))
  {
    var all := counts + [0];
    assert NonNegative(all);
    if |all| > bins {
      forall i | 0 <= i < |LastN(all, bins)| ensures LastN(all, bins)[i] >= 0 {
        assert LastN(all, bins)[i] == all[i + |all| - bins];
      }
    }
  }

  /** Bumping the newest of non-negative counts gives non-negative counts summing to at least one. */
  lemma BumpLastPositive(xs: seq<int>)
    requires xs != [] && NonNegative(xs)
    ensures NonNegative(BumpLast(xs)) && Sum(BumpLast(xs)) >= 1
  {
    var r := BumpLast(xs);
    var n := |r|;
    assert NonNegative(r[..n - 1]) by {
      assert r[..n - 1] == xs[..n - 1];
    }
    SumNonNegative(r[..n - 1]);
  }

  /** In the same window only the newest count grows, by one. */
  lemma SameWindow(st: CounterState, bins: nat)
    requires st.counts != []
    ensures var r := Tick(st, bins, st.currentIndex);
      && r.Some?
      && r.value.currentIndex == st.currentIndex
      && |r.value.counts| == |st.counts|
      && (forall i :: 0 <= i < |st.counts| - 1 ==> r.value.counts[i] == st.counts[i])
      && r.value.counts[|st.counts| - 1] == st.counts[|st.counts| - 1] + 1
  {
    var r := Tick(st, bins, st.currentIndex).value;
    forall i | 0 <= i < |st.counts| - 1 ensures r.counts[i] == st.counts[i] {
      assert r.counts[..|r.counts| - 1][i] == st.counts[..|st.counts| - 1][i];
    }
  }

  /**
   * A move forward by at most `bins` windows opens one new window holding
   * this event and keeps the newest `bins - 1` older ones.
   */
  lemma NextWindow(st: CounterState, bins: nat, index: nat)
    requires bins >= 1 && index != st.currentIndex && index - st.currentIndex <= bins
    ensures var r := Tick(st, bins, index);
      && r.Some?
      && r.value.currentIndex == index
      && r.value.counts[|r.value.counts| - 1] == 1
      && r.value.counts[..|r.value.counts| - 1] == LastN(st.counts, bins - 1)
  {
    var all := st.counts + [0];
    var kept := LastN(all, bins);
    assert kept[..|kept| - 1] == LastN(st.counts, bins - 1) by {
      if |all| > bins {
        assert kept[..|kept| - 1] == st.counts[|st.counts| - (bins - 1)..];
      } else {
        assert kept[..|kept| - 1] == st.counts;
      }
    }
  }

  /**
   * A pause of more than `bins` windows starts over from a single count of
   * one, and `_current_index` keeps its old value.
   */
  lemma LongPause(st: CounterState, bins: nat, index: nat)
    requires index - st.currentIndex > bins
    ensures Tick(st, bins, index) == Some(CounterState(st.currentIndex, [1], 1))
  {
    assert BumpLast([0]) == [1];
  }

  /** A fresh counter's first event in window 0 raises IndexError, and so does every later one there. */
  lemma FirstWindowRaises(bins: nat)
    ensures Tick(Fresh, bins, 0).None?
  {
  }

  // ---------------------------------------------------------------- the object

  class RollingCounter {
    /** `interval_ms // bins` */
    const interval: nat
    const bins: nat
    var currentIndex: nat
    var counts: seq<int>
    var count: int

    function State(): CounterState
      reads this
    {
      CounterState(currentIndex, counts, count)
    }

    ghost predicate Valid()
      reads this
    {
      interval >= 1 && bins >= 1 && Reachable(State(), bins)
    }

    /** `RollingCounter(interval_ms, bins)`; a smaller `interval_ms` would divide by zero. */
    constructor (intervalMs: nat, bins: nat)
      requires bins >= 1 && intervalMs >= bins
      ensures Valid()
      ensures interval == intervalMs / bins && this.bins == bins
      ensures State() == Fresh
    {
      interval := intervalMs / bins;
      this.bins := bins;
      currentIndex := 0;
      counts := [];
      count := 0;
    }

    /** `increment()` at clock reading `ms`. */
    method Increment(ms: nat) returns (r: Result<int, CounterError>)
      requires Valid()
      modifies this
      ensures Valid()
      ensures match Tick(old(State()), bins, ms / interval)
        case None => r == Failure(IndexError) && State() == old(State())
        case Some(st) => r == Success(st.count) && State() == st
    {
      TickBounds(State(), bins, ms / interval);
      var index := ms / interval;
      if index != currentIndex {
        if index - currentIndex > bins {
          counts := [0];
        } else {
          counts := counts + [0];
          ghost var grown := counts;
          while |counts| > bins
            invariant counts == grown[|grown| - |counts|..]
            invariant |counts| < |grown| ==> |counts| >= bins
            decreases |counts|
          {
            counts := counts[1..];
          }
          assert counts == LastN(grown, bins);
          currentIndex := index;
        }
      }
      if counts == [] {
        return Failure(IndexError);
      }
      counts := BumpLast(counts);
      count := Sum(counts);
      return Success(count);
    }
  }
}
