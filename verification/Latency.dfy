/** The latency window of the preview and the percentile the acceptance gate looks at
    (apps/ovayra-spike/src/preview_app.rs). */
module Latency {
  import opened Prelude

  const LATENCY_SAMPLE_LIMIT: nat := 4096

  /** The samples still there after all of `history` was recorded. */
  function Window(history: seq<nat>): seq<nat> {
    if |history| <= LATENCY_SAMPLE_LIMIT then history else history[|history| - LATENCY_SAMPLE_LIMIT..]
  }

  function Insert(x: nat, s: seq<nat>): (r: seq<nat>)
    ensures |r| == |s| + 1
  {
    if s == [] || s[|s| - 1] <= x then s + [x] else Insert(x, s[..|s| - 1]) + [s[|s| - 1]]
  }

  /** `sort_unstable`: equal samples cannot be told apart. */
  function Sort(s: seq<nat>): (r: seq<nat>)
    ensures |r| == |s|
  {
    if s == [] then [] else Insert(s[|s| - 1], Sort(s[..|s| - 1]))
  }

  /** Which of the sorted samples a percentile is. */
  function Rank(n: nat, percentile: nat): nat
    requires n > 0
  {
    (n - 1) * percentile / 100
  }

  /** The percentile can be looked up: there is nothing to look up, or its rank is in range. */
  predicate InRange(n: nat, percentile: nat) { n > 0 ==> Rank(n, percentile) < n }

  lemma PercentilesAreInRange(n: nat, percentile: nat)
    ensures percentile <= 100 || n <= 1 ==> InRange(n, percentile)
    ensures percentile >= 200 ==> (InRange(n, percentile) <==> n <= 1)
  {
    if n > 1 {
      Hundredths(n - 1, percentile);
    }
  }

  lemma Hundredths(m: nat, percentile: nat)
    ensures percentile <= 100 ==> m * percentile / 100 <= m
    ensures percentile >= 200 ==> m * percentile / 100 >= 2 * m
  {
    if percentile <= 100 {
      Grows(m, percentile, 100);
      Quotient(m * percentile, m);
    } else if percentile >= 200 {
      Grows(m, 200, percentile);
      Quotient(m * percentile, 2 * m);
    }
  }

  lemma {:induction false} Grows(m: nat, a: nat, b: nat)
    requires a <= b
    ensures m * a <= m * b
    decreases b - a
  {
    if a < b {
      Grows(m, a, b - 1);
    }
  }

  lemma Quotient(x: nat, q: nat)
    ensures x <= 100 * q ==> x / 100 <= q
    ensures x >= 100 * q ==> x / 100 >= q
  {
  }

  function Percentile(samples: seq<nat>, percentile: nat): nat
    requires InRange(|samples|, percentile)
  {
    if samples == [] then 0 else Sort(samples)[Rank(|samples|, percentile)]
  }

  class Metrics {
    var framesApplied: u64
    var latencies: seq<nat>
    ghost var history: seq<nat>

    ghost predicate Valid()
      reads this
    {
      latencies == Window(history) && framesApplied == Min(|history|, U64_MAX)
    }

    constructor ()
      ensures Valid() && history == []
    {
      framesApplied, latencies, history := 0, [], [];
    }

    /** `record_applied`. */
    method RecordApplied(latency: nat)
      requires Valid()
      modifies this
      ensures Valid() && history == old(history) + [latency]
      ensures |latencies| <= LATENCY_SAMPLE_LIMIT
    {
      framesApplied := Min(framesApplied + 1, U64_MAX);
      if |latencies| == LATENCY_SAMPLE_LIMIT {
        latencies := latencies[1..];
      }
      latencies := latencies + [latency];
      history := history + [latency];
    }

    /** `percentile_millis`; out of range, it panics. */
    method PercentileMillis(percentile: nat) returns (millis: nat)
      requires Valid() && InRange(|latencies|, percentile)
      ensures millis == Percentile(Window(history), percentile)
    {
      if latencies == [] {
        return 0;
      }
      var samples := Sort(latencies);
      var index := Rank(|samples|, percentile);
      return samples[index];
    }
  }

  // ---- what the percentile means ---------------------------------------------------------

  ghost predicate Sorted(s: seq<nat>) { forall i, j :: 0 <= i < j < |s| ==> s[i] <= s[j] }

  /** How many samples are at most `t`. */
  function CountAtMost(s: seq<nat>, t: nat): nat {
    if s == [] then 0 else CountAtMost(s[..|s| - 1], t) + if s[|s| - 1] <= t then 1 else 0
  }

  lemma {:induction false} InsertCounts(x: nat, s: seq<nat>, t: nat)
    ensures CountAtMost(Insert(x, s), t) == CountAtMost(s, t) + if x <= t then 1 else 0
    decreases |s|
  {
    if s == [] || s[|s| - 1] <= x {
      assert (s + [x])[..|s|] == s;
    } else {
      var r := Insert(x, s[..|s| - 1]);
      InsertCounts(x, s[..|s| - 1], t);
      assert (r + [s[|s| - 1]])[..|r|] == r;
    }
  }

  lemma {:induction false} InsertStaysBelow(x: nat, s: seq<nat>, bound: nat)
    requires x <= bound && forall i :: 0 <= i < |s| ==> s[i] <= bound
    ensures forall i :: 0 <= i < |Insert(x, s)| ==> Insert(x, s)[i] <= bound
    decreases |s|
  {
    if s != [] && s[|s| - 1] > x {
      InsertStaysBelow(x, s[..|s| - 1], bound);
    }
  }

  lemma {:induction false} InsertSorts(x: nat, s: seq<nat>)
    requires Sorted(s)
    ensures Sorted(Insert(x, s))
    decreases |s|
  {
    if s != [] && s[|s| - 1] > x {
      InsertSorts(x, s[..|s| - 1]);
      InsertStaysBelow(x, s[..|s| - 1], s[|s| - 1]);
    }
  }

  lemma {:induction false} SortSorts(s: seq<nat>, t: nat)
    ensures Sorted(Sort(s)) && CountAtMost(Sort(s), t) == CountAtMost(s, t)
    decreases |s|
  {
    hide Insert;
    if s != [] {
      SortSorts(s[..|s| - 1], t);
      InsertSorts(s[|s| - 1], Sort(s[..|s| - 1]));
      InsertCounts(s[|s| - 1], Sort(s[..|s| - 1]), t);
    }
  }

  lemma {:induction false} CountInSorted(s: seq<nat>, t: nat)
    requires Sorted(s)
    ensures CountAtMost(s, t) <= |s|
    ensures forall k :: 0 <= k < |s| ==> (s[k] <= t <==> k < CountAtMost(s, t))
    decreases |s|
  {
    if s != [] {
      var init := s[..|s| - 1];
      CountInSorted(init, t);
      assert forall k :: 0 <= k < |init| ==> s[k] == init[k] <= s[|s| - 1];
      if s[|s| - 1] <= t && init != [] {
        assert init[|init| - 1] <= t;
      }
    }
  }

  /** A percentile is at most `t` exactly when more samples than its rank are: the gate's
      limit on the percentile is a statement about how many of the last 4096 frames were slow. */
  lemma PercentileIsCount(history: seq<nat>, percentile: nat, t: nat)
    requires history != [] && InRange(|Window(history)|, percentile)
    ensures var samples := Window(history);
            |samples| == Min(|history|, 4096) &&
            (Percentile(samples, percentile) <= t <==> CountAtMost(samples, t) > Rank(|samples|, percentile)) &&
            (Percentile(samples, percentile) <= t <==>
             100 * CountAtMost(samples, t) > (|samples| - 1) * percentile)
  {
    var samples := Window(history);
    SortSorts(samples, t);
    hide Sort, Sorted;
    CountInSorted(Sort(samples), t);
  }
}
