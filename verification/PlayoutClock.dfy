/**
 The playout clock of one received video stream: it unwraps the sender's 32-bit capture
 clock, keeps a window of transit times, and delays each frame by a percentile of the
 jitter in that window, raised at once and lowered slowly.
 */
module PlayoutClock {
  import opened Basics
  import opened SequenceNumbers

  datatype Config = Config(maxDelayMs: nat, windowMs: nat, percentile: real, decayMsPerS: nat)

  datatype Sample = Sample(at: int, transit: int)

  datatype Clock = Clock(haveTs: bool, lastTs: Seq32, ext: int, delay: int, lastUpdate: int, samples: seq<Sample>)

  function Fresh(): Clock {
    Clock(false, 0, 0, 0, 0, [])
  }

  /** The percentile names a sample of the window. */
  ghost predicate Sane(c: Config) { 0.0 <= c.percentile <= 1.0 }

  /** Integer division that rounds toward zero. */
  function Truncated(x: int, d: int): int
    requires d > 0
  {
    if x >= 0 then x / d else -((-x) / d)
  }

  // ---- the pieces of one observation ----

  function Unwrap(s: Clock, ts: Seq32): int {
    if s.haveTs then s.ext + Distance(ts, s.lastTs) else ts
  }

  function Prune(samples: seq<Sample>, arrival: int, windowUs: int): seq<Sample>
    decreases |samples|
  {
    if samples != [] && arrival - samples[0].at > windowUs then Prune(samples[1..], arrival, windowUs) else samples
  }

  function Least(samples: seq<Sample>, start: int): (m: int)
    ensures m <= start
    ensures forall i :: 0 <= i < |samples| ==> m <= samples[i].transit
    ensures m == start || exists i :: 0 <= i < |samples| && samples[i].transit == m
    decreases |samples|
  {
    if samples == [] then start
    else
      var n := |samples| - 1;
      var m := Least(samples[..n], start);
      assert forall i :: 0 <= i < n ==> samples[..n][i] == samples[i];
      if samples[n].transit < m then samples[n].transit else m
  }

  function Excess(samples: seq<Sample>, base: int): (r: seq<int>)
    ensures |r| == |samples|
    ensures forall i :: 0 <= i < |r| ==> r[i] == samples[i].transit - base
    decreases |samples|
  {
    if samples == [] then []
    else Excess(samples[..|samples| - 1], base) + [samples[|samples| - 1].transit - base]
  }

  /** The percentile's share of a window of `n` samples. */
  function Share(c: Config, n: nat): real
    requires n > 0
  {
    c.percentile * ((n - 1) as real)
  }

  function Rank(c: Config, n: nat): int
    requires n > 0
  {
    Share(c, n).Floor
  }

  lemma {:induction false} RankInRange(c: Config, n: nat)
    requires Sane(c) && n > 0
    ensures 0 <= Rank(c, n) < n
  {
    var x := (n - 1) as real;
    ProductOfNonNegatives(c.percentile, x);
    ProductOfNonNegatives(1.0 - c.percentile, x);
    assert (1.0 - c.percentile) * x == x - c.percentile * x;
  }

  lemma {:induction false} RankIsBelowTheShare(x: real, m: int)
    ensures m as real > x <==> m > x.Floor
  {
  }

  // ---- the k-th smallest ----

  function AtMost(xs: seq<int>, v: int): nat
    decreases |xs|
  {
    if xs == [] then 0 else AtMost(xs[..|xs| - 1], v) + if xs[|xs| - 1] <= v then 1 else 0
  }

  /** What std::nth_element leaves at position `k`. */
  ghost predicate IsKth(xs: seq<int>, k: int, v: int) {
    v in xs && AtMost(xs, v) > k && AtMost(xs, v - 1) <= k
  }

  lemma {:induction false} AtMostMonotone(xs: seq<int>, v: int, w: int)
    requires v <= w
    ensures AtMost(xs, v) <= AtMost(xs, w) <= |xs|
    decreases |xs|
  {
    if xs == [] {
    } else {
      AtMostMonotone(xs[..|xs| - 1], v, w);
    }
  }

  /** There is only one. */
  lemma {:induction false} KthIsUnique(xs: seq<int>, k: int, v: int, w: int)
    requires IsKth(xs, k, v) && IsKth(xs, k, w)
    ensures v == w
  {
    if v < w { AtMostMonotone(xs, v, w - 1); }
    if w < v { AtMostMonotone(xs, w, v - 1); }
  }

  lemma {:induction false} AtMostSnoc(xs: seq<int>, x: int, v: int)
    ensures AtMost(xs + [x], v) == AtMost(xs, v) + if x <= v then 1 else 0
  {
    assert (xs + [x])[..|xs|] == xs;
  }

  /** Moving an element changes no count. */
  lemma {:induction false} AtMostInsert(a: seq<int>, x: int, b: seq<int>, v: int)
    ensures AtMost(a + [x] + b, v) == AtMost(a + b, v) + if x <= v then 1 else 0
    decreases |b|
  {
    if b == [] {
      assert a + [x] + b == a + [x] && a + b == a;
      AtMostSnoc(a, x, v);
    } else {
      var n := |b| - 1;
      AtMostInsert(a, x, b[..n], v);
      assert a + [x] + b == (a + [x] + b[..n]) + [b[n]];
      assert a + b == (a + b[..n]) + [b[n]];
      AtMostSnoc(a + [x] + b[..n], b[n], v);
      AtMostSnoc(a + b[..n], b[n], v);
    }
  }

  ghost predicate Sorted(s: seq<int>) {
    forall i, j :: 0 <= i < j < |s| ==> s[i] <= s[j]
  }

  /** `s` holds the elements of `xs`, in order. */
  ghost predicate SortOf(s: seq<int>, xs: seq<int>) {
    Sorted(s) && |s| == |xs| && (forall v :: AtMost(s, v) == AtMost(xs, v)) && (forall x :: x in s ==> x in xs)
  }

  lemma {:induction false} InsertedSortOf(s: seq<int>, x: int, xs: seq<int>, i: nat)
    requires SortOf(s, xs) && i <= |s|
    requires i > 0 ==> s[i - 1] <= x
    requires forall j :: i <= j < |s| ==> s[j] > x
    ensures SortOf(s[..i] + [x] + s[i..], xs + [x])
  {
    var r := s[..i] + [x] + s[i..];
    assert s == s[..i] + s[i..];
    forall v
      ensures AtMost(r, v) == AtMost(xs + [x], v)
    {
      AtMostInsert(s[..i], x, s[i..], v);
      AtMostSnoc(xs, x, v);
    }
    InsertedSorted(s, x, i);
  }

  lemma {:induction false} InsertedSorted(s: seq<int>, x: int, i: nat)
    requires Sorted(s) && i <= |s| && (i > 0 ==> s[i - 1] <= x)
    requires forall j :: i <= j < |s| ==> s[j] > x
    ensures Sorted(s[..i] + [x] + s[i..])
  {
    var r := s[..i] + [x] + s[i..];
    forall a, b | 0 <= a < b < |r|
      ensures r[a] <= r[b]
    {
      assert r[a] == if a < i then s[a] else if a == i then x else s[a - 1];
      assert r[b] == if b < i then s[b] else if b == i then x else s[b - 1];
      assert a < i ==> s[a] <= s[i - 1];
    }
  }

  method InsertSorted(s: seq<int>, x: int, ghost xs: seq<int>) returns (r: seq<int>)
    requires SortOf(s, xs)
    ensures SortOf(r, xs + [x])
  {
    var i := |s|;
    while i > 0 && s[i - 1] > x
      invariant 0 <= i <= |s|
      invariant forall j :: i <= j < |s| ==> s[j] > x
    {
      i := i - 1;
    }
    InsertedSortOf(s, x, xs, i);
    r := s[..i] + [x] + s[i..];
  }

  /** In a sorted sequence, how many elements are at most the one at `k`. */
  lemma {:induction false} SortedCounts(s: seq<int>, k: nat)
    requires Sorted(s) && k < |s|
    ensures AtMost(s, s[k]) > k && AtMost(s, s[k] - 1) <= k
    decreases |s|
  {
    var n := |s| - 1;
    var t := s[..n];
    if k < n {
      SortedCounts(t, k);
    } else {
      AllAtMost(t, s[k]);
      AtMostMonotone(t, s[k] - 1, s[k]);
    }
  }

  lemma {:induction false} AllAtMost(s: seq<int>, v: int)
    requires forall i :: 0 <= i < |s| ==> s[i] <= v
    ensures AtMost(s, v) == |s|
    decreases |s|
  {
    if s == [] {
    } else {
      AllAtMost(s[..|s| - 1], v);
    }
  }

  method NthElement(xs: seq<int>, k: nat) returns (v: int)
    requires k < |xs|
    ensures IsKth(xs, k, v)
  {
    var s: seq<int> := [];
    assert xs[..0] == [];
    for i := 0 to |xs|
      invariant SortOf(s, xs[..i])
    {
      s := InsertSorted(s, xs[i], xs[..i]);
      assert xs[..i] + [xs[i]] == xs[..i + 1];
    }
    assert xs[..|xs|] == xs;
    SortedCounts(s, k);
    v := s[k];
  }

  // ---- one observation ----

  function Transit(s: Clock, ts: Seq32, arrival: int): int {
    arrival - Unwrap(s, ts) * 1000
  }

  /** The window once a frame stamped `ts` has arrived. */
  function Window(c: Config, s: Clock, ts: Seq32, arrival: int): seq<Sample> {
    Prune(s.samples + [Sample(arrival, Transit(s, ts, arrival))], arrival, c.windowMs * 1000)
  }

  function Base(c: Config, s: Clock, ts: Seq32, arrival: int): int {
    Least(Window(c, s, ts, arrival), Transit(s, ts, arrival))
  }

  /** `kth` is the excess transit at the configured percentile of that window. */
  ghost predicate AtPercentile(c: Config, s: Clock, ts: Seq32, arrival: int, kth: int) {
    var w := Window(c, s, ts, arrival);
    w != [] && IsKth(Excess(w, Base(c, s, ts, arrival)), Rank(c, |w|), kth)
  }

  /** The clock afterwards, and the time computed for the frame. */
  datatype Shown = Shown(clock: Clock, at: int)

  function Observe(c: Config, s: Clock, ts: Seq32, arrival: int, kth: int): Shown {
    var delay := Delayed(c, s, arrival, Min(kth, c.maxDelayMs * 1000));
    Shown(Clock(true, ts, Unwrap(s, ts), delay, arrival, Window(c, s, ts, arrival)),
          Unwrap(s, ts) * 1000 + Base(c, s, ts, arrival) + delay)
  }

  /** Up at once, down slowly. */
  function Delayed(c: Config, s: Clock, arrival: int, target: int): int {
    if target >= s.delay then target
    else if s.lastUpdate != 0 then Max(target, s.delay - Truncated((arrival - s.lastUpdate) * c.decayMsPerS, 1000))
    else s.delay
  }

  function Clamp(x: int, lo: int, hi: int): int {
    if x < lo then lo else if hi < x then hi else x
  }

  class VideoPlayoutClock {
    const cfg: Config
    var haveTs: bool
    var lastTs: Seq32
    var lastExtMs: int
    var delayUs: int
    var lastUpdateUs: int
    var samples: seq<Sample>

    ghost function Abs(): Clock
      reads this
    {
      Clock(haveTs, lastTs, lastExtMs, delayUs, lastUpdateUs, samples)
    }

    constructor (c: Config)
      ensures cfg == c && Abs() == Fresh()
    {
      cfg := c;
      haveTs, lastTs, lastExtMs, delayUs, lastUpdateUs, samples := false, 0, 0, 0, 0, [];
    }

    /** The window without the samples that have left it. */
    static method PruneWindow(all: seq<Sample>, arrival: int, windowUs: int) returns (w: seq<Sample>)
      ensures w == Prune(all, arrival, windowUs)
    {
      w := all;
      while w != [] && arrival - w[0].at > windowUs
        invariant Prune(w, arrival, windowUs) == Prune(all, arrival, windowUs)
        decreases |w|
      {
        w := w[1..];
      }
    }

    /** The smallest transit of the window. */
    static method SmallestTransit(w: seq<Sample>, transit: int) returns (base: int)
      ensures base == Least(w, transit)
    {
      base := transit;
      assert w[..0] == [];
      for i := 0 to |w|
        invariant base == Least(w[..i], transit)
      {
        assert w[..i + 1][..i] == w[..i];
        base := Min(base, w[i].transit);
      }
      assert w[..|w|] == w;
    }

    /** How far each sample of the window lies above the base. */
    static method ExcessOf(w: seq<Sample>, base: int) returns (excess: seq<int>)
      ensures excess == Excess(w, base)
    {
      excess := [];
      for i := 0 to |w|
        invariant excess == Excess(w[..i], base)
      {
        assert w[..i + 1][..i] == w[..i];
        excess := excess + [w[i].transit - base];
      }
      assert w[..|w|] == w;
    }

    /** Takes the sample into the window and finds the base and the excess at the percentile. */
    method Measure(ts: Seq32, arrival: int) returns (base: int, kth: int)
      requires Sane(cfg)
      modifies `haveTs, `lastTs, `lastExtMs, `samples
      ensures base == Base(cfg, old(Abs()), ts, arrival) && AtPercentile(cfg, old(Abs()), ts, arrival, kth)
      ensures Abs() == old(Abs()).(haveTs := true, lastTs := ts, ext := Unwrap(old(Abs()), ts),
                                   samples := Window(cfg, old(Abs()), ts, arrival))
    {
      ghost var s := Abs();
      var transit := Advance(ts, arrival);
      NewestStays(s.samples, Sample(arrival, transit), cfg.windowMs * 1000);
      samples := PruneWindow(samples + [Sample(arrival, transit)], arrival, cfg.windowMs * 1000);
      assert samples == Window(cfg, s, ts, arrival);
      base, kth := Analyze(cfg, samples, transit);
    }

    /** Unwraps the capture clock; the transit time of the frame. */
    method Advance(ts: Seq32, arrival: int) returns (transit: int)
      modifies `haveTs, `lastTs, `lastExtMs
      ensures transit == Transit(old(Abs()), ts, arrival)
      ensures Abs() == old(Abs()).(haveTs := true, lastTs := ts, ext := Unwrap(old(Abs()), ts))
    {
      if !haveTs {
        haveTs := true;
        lastExtMs := ts;
      } else {
        lastExtMs := lastExtMs + Distance(ts, lastTs);
      }
      lastTs := ts;
      transit := arrival - lastExtMs * 1000;
    }

    static method Analyze(c: Config, w: seq<Sample>, transit: int) returns (base: int, kth: int)
      requires Sane(c) && w != []
      ensures base == Least(w, transit) && IsKth(Excess(w, base), Rank(c, |w|), kth)
    {
      base := SmallestTransit(w, transit);
      var excess := ExcessOf(w, base);
      RankInRange(c, |w|);
      kth := NthElement(excess, Rank(c, |w|));
    }

    method PlayoutTime(ts: Seq32, stamped: bool, arrival: int) returns (play: int, ghost kth: int)
      requires Sane(cfg)
      modifies this
      ensures !stamped ==> play == arrival && Abs() == old(Abs())
      ensures stamped ==> AtPercentile(cfg, old(Abs()), ts, arrival, kth)
      ensures stamped ==>
        var r := Observe(cfg, old(Abs()), ts, arrival, kth);
        Abs() == r.clock && play == Clamp(r.at, arrival, arrival + cfg.maxDelayMs * 1000)
    {
      if !stamped { return arrival, 0; }
      var base, excessAtK := Measure(ts, arrival);
      kth := excessAtK;
      var target := Min(excessAtK, cfg.maxDelayMs * 1000);
      if target >= delayUs {
        delayUs := target;
      } else if lastUpdateUs != 0 {
        var step := Truncated((arrival - lastUpdateUs) * cfg.decayMsPerS, 1000);
        delayUs := Max(target, delayUs - step);
      }
      lastUpdateUs := arrival;
      play := Clamp(lastExtMs * 1000 + base + delayUs, arrival, arrival + cfg.maxDelayMs * 1000);
    }
  }

  /** The sample just taken never leaves the window. */
  lemma {:induction false} NewestStays(samples: seq<Sample>, x: Sample, windowUs: int)
    requires windowUs >= 0
    ensures var w := Prune(samples + [x], x.at, windowUs); w != [] && w[|w| - 1] == x
    decreases |samples|
  {
    if samples == [] || x.at - samples[0].at <= windowUs {
    } else {
      assert (samples + [x])[1..] == samples[1..] + [x];
      NewestStays(samples[1..], x, windowUs);
    }
  }

  // ---- what every observation guarantees ----

  ghost predicate Good(c: Config, s: Clock) {
    && (s.haveTs ==> (s.ext - s.lastTs) % TWO32 == 0)
    && 0 <= s.delay <= c.maxDelayMs * 1000
  }

  lemma {:induction false} UnwrapCongruent(s: Clock, ts: Seq32)
    requires s.haveTs ==> (s.ext - s.lastTs) % TWO32 == 0
    ensures (Unwrap(s, ts) - ts) % TWO32 == 0
  {
    if s.haveTs {
      var d := Distance(ts, s.lastTs);
      DistanceIsTheWrappedDifference(ts, s.lastTs, d);
      CongruenceAdds(s.ext - s.lastTs, ts - s.lastTs - d);
      assert s.ext - s.lastTs - (ts - s.lastTs - d) == s.ext + d - ts;
    }
  }

  lemma {:induction false} CongruenceAdds(x: int, y: int)
    requires x % TWO32 == 0 && y % TWO32 == 0
    ensures (x - y) % TWO32 == 0
  {
  }

  lemma {:induction false} StepIsForward(elapsed: int, decay: nat)
    requires elapsed >= 0
    ensures Truncated(elapsed * decay, 1000) >= 0
  {
  }

  /** How many window samples travelled no longer than `limit`. */
  function WithinTransit(samples: seq<Sample>, limit: int): nat
    decreases |samples|
  {
    if samples == [] then 0
    else WithinTransit(samples[..|samples| - 1], limit) + if samples[|samples| - 1].transit <= limit then 1 else 0
  }

  lemma {:induction false} ExcessCounts(samples: seq<Sample>, base: int, v: int)
    ensures AtMost(Excess(samples, base), v) == WithinTransit(samples, base + v)
    decreases |samples|
  {
    if samples == [] {
    } else {
      ExcessCounts(samples[..|samples| - 1], base, v);
      AtMostSnoc(Excess(samples[..|samples| - 1], base), samples[|samples| - 1].transit - base, v);
    }
  }

  lemma {:induction false} WithinMonotone(samples: seq<Sample>, a: int, b: int)
    requires a <= b
    ensures WithinTransit(samples, a) <= WithinTransit(samples, b)
    decreases |samples|
  {
    if samples == [] {
    } else {
      WithinMonotone(samples[..|samples| - 1], a, b);
    }
  }

  lemma {:induction false} DelayedInRange(c: Config, s: Clock, arrival: int, target: int)
    requires 0 <= s.delay <= c.maxDelayMs * 1000 && 0 <= target <= c.maxDelayMs * 1000
    requires s.lastUpdate == 0 || s.lastUpdate <= arrival
    ensures target <= Delayed(c, s, arrival, target) <= Max(target, s.delay)
  {
    if s.lastUpdate <= arrival { StepIsForward(arrival - s.lastUpdate, c.decayMsPerS); }
  }

  lemma {:induction false} KthIsNotNegative(w: seq<Sample>, start: int, k: int, kth: int)
    requires IsKth(Excess(w, Least(w, start)), k, kth)
    ensures kth >= 0
  {
  }

  /** More than the percentile's share of the window travelled no longer than `limit`. */
  ghost predicate Covers(c: Config, samples: seq<Sample>, limit: int) {
    samples != [] && WithinTransit(samples, limit) as real > Share(c, |samples|)
  }

  /** `least` is the smallest limit that covers the percentile. */
  ghost predicate SmallestCover(c: Config, samples: seq<Sample>, least: int) {
    forall limit :: Covers(c, samples, limit) <==> limit >= least
  }

  /** `base` is the shortest transit of the window. */
  ghost predicate IsShortest(samples: seq<Sample>, base: int) {
    && (forall i :: 0 <= i < |samples| ==> base <= samples[i].transit)
    && (exists i :: 0 <= i < |samples| && samples[i].transit == base)
  }

  lemma {:induction false} CountDecides(c: Config, w: seq<Sample>, limit: int)
    requires w != []
    ensures Covers(c, w, limit) <==> WithinTransit(w, limit) > Rank(c, |w|)
  {
    RankIsBelowTheShare(Share(c, |w|), WithinTransit(w, limit));
  }

  lemma {:induction false} CountSteps(w: seq<Sample>, least: int, rank: int, limit: int)
    requires WithinTransit(w, least) > rank >= WithinTransit(w, least - 1)
    ensures WithinTransit(w, limit) > rank <==> limit >= least
  {
    if limit >= least { WithinMonotone(w, least, limit); } else { WithinMonotone(w, limit, least - 1); }
  }

  lemma {:induction false} PercentileCovers(c: Config, w: seq<Sample>, base: int, kth: int)
    requires w != [] && IsKth(Excess(w, base), Rank(c, |w|), kth)
    ensures SmallestCover(c, w, base + kth)
  {
    ExcessCounts(w, base, kth);
    ExcessCounts(w, base, kth - 1);
    var rank := Rank(c, |w|);
    forall limit
      ensures Covers(c, w, limit) <==> limit >= base + kth
    {
      CountDecides(c, w, limit);
      CountSteps(w, base + kth, rank, limit);
    }
  }

  /** Up at once; down by what the decay allows in the time since the last frame, to the microsecond, and no further than the target. */
  ghost predicate Follows(c: Config, s: Clock, arrival: int, target: int, delay: int) {
    if target >= s.delay then delay == target
    else if s.lastUpdate == 0 then delay == s.delay
    else
      && target <= delay <= s.delay
      && 1000 * (s.delay - delay) <= (arrival - s.lastUpdate) * c.decayMsPerS
      && (delay > target ==> (arrival - s.lastUpdate) * c.decayMsPerS < 1000 * (s.delay - delay) + 1000)
  }

  lemma {:induction false} DelayFollows(c: Config, s: Clock, arrival: int, target: int)
    requires s.lastUpdate == 0 || s.lastUpdate <= arrival
    ensures Follows(c, s, arrival, target, Delayed(c, s, arrival, target))
  {
    if s.lastUpdate <= arrival { StepIsExact((arrival - s.lastUpdate) * c.decayMsPerS, arrival - s.lastUpdate, c.decayMsPerS); }
  }

  lemma {:induction false} StepIsExact(x: int, elapsed: int, decay: nat)
    requires elapsed >= 0 && x == elapsed * decay
    ensures var step := Truncated(x, 1000); step >= 0 && 1000 * step <= x < 1000 * step + 1000
  {
    assert x >= 0;
  }

  /** A frame is due a fixed time after its capture: the shortest transit of the window, and the delay; never past the limit. */
  ghost predicate DueOnTime(c: Config, r: Shown, base: int, arrival: int) {
    && IsShortest(r.clock.samples, base)
    && r.at == r.clock.ext * 1000 + base + r.clock.delay <= arrival + c.maxDelayMs * 1000
  }

  /** What one frame gets from a clock in state `s`. */
  ghost predicate Guaranteed(c: Config, s: Clock, ts: Seq32, arrival: int, kth: int) {
    var r := Observe(c, s, ts, arrival, kth);
    var base := Base(c, s, ts, arrival);
    && Good(c, r.clock)
    && DueOnTime(c, r, base, arrival)
    // the delay follows the smallest cushion that covers the percentile, as far as the limit lets it
    && SmallestCover(c, r.clock.samples, base + kth)
    && Follows(c, s, arrival, Min(kth, c.maxDelayMs * 1000), r.clock.delay)
  }

  /**
   One observation with an arrival that does not go back: the unwrapped clock stays
   congruent to the stamp, the delay stays in its limits, the computed time needs no upper
   clamp, and unless the percentile is capped the delay covers more than `Rank` samples.
   */
  lemma {:induction false} ObservationGuarantees(c: Config, s: Clock, ts: Seq32, arrival: int, kth: int)
    requires Sane(c) && Good(c, s) && (s.lastUpdate == 0 || s.lastUpdate <= arrival)
    requires AtPercentile(c, s, ts, arrival, kth)
    ensures Guaranteed(c, s, ts, arrival, kth)
  {
    var w := Window(c, s, ts, arrival);
    UnwrapCongruent(s, ts);
    BaseIsShortest(c, s, ts, arrival);
    KthIsNotNegative(w, Transit(s, ts, arrival), Rank(c, |w|), kth);
    DelayedInRange(c, s, arrival, Min(kth, c.maxDelayMs * 1000));
    DelayFollows(c, s, arrival, Min(kth, c.maxDelayMs * 1000));
    PercentileCovers(c, w, Base(c, s, ts, arrival), kth);
  }

  lemma {:induction false} BaseIsShortest(c: Config, s: Clock, ts: Seq32, arrival: int)
    ensures IsShortest(Window(c, s, ts, arrival), Base(c, s, ts, arrival))
    ensures Base(c, s, ts, arrival) <= Transit(s, ts, arrival)
  {
    var x := Sample(arrival, Transit(s, ts, arrival));
    NewestStays(s.samples, x, c.windowMs * 1000);
    var w := Window(c, s, ts, arrival);
    assert w[|w| - 1].transit == x.transit;
  }

  // ---- whole runs ----

  /** A stamped frame, its arrival, and the excess found for it. */
  datatype Seen = Seen(ts: Seq32, arrival: int, kth: int)

  function Run(c: Config, frames: seq<Seen>): Clock
    decreases |frames|
  {
    if frames == [] then Fresh()
    else
      var f := frames[|frames| - 1];
      Observe(c, Run(c, frames[..|frames| - 1]), f.ts, f.arrival, f.kth).clock
  }

  /** Frame `i` does not arrive before the one before it, and its excess is its window's percentile. */
  ghost predicate HonestAt(c: Config, frames: seq<Seen>, i: nat)
    requires i < |frames|
  {
    && (i > 0 ==> frames[i - 1].arrival <= frames[i].arrival)
    && AtPercentile(c, Run(c, frames[..i]), frames[i].ts, frames[i].arrival, frames[i].kth)
  }

  ghost predicate Honest(c: Config, frames: seq<Seen>) {
    forall i :: 0 <= i < |frames| ==> HonestAt(c, frames, i)
  }

  lemma {:induction false} HonestBefore(c: Config, frames: seq<Seen>, n: nat)
    requires Honest(c, frames) && n <= |frames|
    ensures Honest(c, frames[..n])
  {
    forall i | 0 <= i < n
      ensures HonestAt(c, frames[..n], i)
    {
      assert HonestAt(c, frames, i);
      assert frames[..n][..i] == frames[..i];
    }
  }

  ghost predicate GuaranteedAt(c: Config, frames: seq<Seen>, i: nat)
    requires i < |frames|
  {
    Guaranteed(c, Run(c, frames[..i]), frames[i].ts, frames[i].arrival, frames[i].kth)
  }

  /**
   Over every run with arrivals that never go back, every frame of it gets the guarantees:
   a congruent clock, a delay within its limits, a time that needs no upper clamp, and a
   delay that covers the percentile unless the limit caps it.
   */
  lemma {:induction false} EveryRunIsGood(c: Config, frames: seq<Seen>)
    requires Sane(c) && Honest(c, frames)
    ensures forall i :: 0 <= i < |frames| ==> GuaranteedAt(c, frames, i)
    ensures Good(c, Run(c, frames))
    ensures Run(c, frames).lastUpdate == if frames == [] then 0 else frames[|frames| - 1].arrival
    decreases |frames|
  {
    if frames == [] {
    } else {
      var n := |frames| - 1;
      HonestBefore(c, frames, n);
      EveryRunIsGood(c, frames[..n]);
      assert HonestAt(c, frames, n);
      LastIsGuaranteed(c, frames, n);
      GuaranteesExtend(c, frames, n);
    }
  }

  lemma {:induction false} LastIsGuaranteed(c: Config, frames: seq<Seen>, n: nat)
    requires Sane(c) && n + 1 == |frames| && HonestAt(c, frames, n)
    requires Good(c, Run(c, frames[..n]))
    requires Run(c, frames[..n]).lastUpdate == if n == 0 then 0 else frames[n - 1].arrival
    ensures GuaranteedAt(c, frames, n)
    ensures Good(c, Run(c, frames)) && Run(c, frames).lastUpdate == frames[n].arrival
  {
    var s, f := Run(c, frames[..n]), frames[n];
    ObservationGuarantees(c, s, f.ts, f.arrival, f.kth);
    assert Run(c, frames) == Observe(c, s, f.ts, f.arrival, f.kth).clock;
  }

  lemma {:induction false} GuaranteesExtend(c: Config, frames: seq<Seen>, n: nat)
    requires n + 1 == |frames| && GuaranteedAt(c, frames, n)
    requires forall i :: 0 <= i < n ==> GuaranteedAt(c, frames[..n], i)
    ensures forall i :: 0 <= i < |frames| ==> GuaranteedAt(c, frames, i)
  {
    forall i | 0 <= i < n
      ensures GuaranteedAt(c, frames, i)
    {
      assert GuaranteedAt(c, frames[..n], i);
      assert frames[..n][..i] == frames[..i];
    }
  }

  // ---- the window ----

  /** Every sample ever taken, in order: the arrival of each frame and its transit on the unwrapped clock. */
  function AllSamples(c: Config, frames: seq<Seen>): (all: seq<Sample>)
    ensures |all| == |frames|
    ensures forall i :: 0 <= i < |all| ==> all[i].at == frames[i].arrival
    decreases |frames|
  {
    if frames == [] then []
    else
      var n := |frames| - 1;
      var front := AllSamples(c, frames[..n]);
      assert forall i :: 0 <= i < n ==> frames[..n][i] == frames[i];
      front + [Sample(frames[n].arrival, frames[n].arrival - Run(c, frames).ext * 1000)]
  }

  ghost predicate InOrder(samples: seq<Sample>) {
    forall i, j :: 0 <= i < j < |samples| ==> samples[i].at <= samples[j].at
  }

  /** `window` is exactly the samples of `all` taken at most `windowUs` before `newest`. */
  ghost predicate IsRecent(all: seq<Sample>, window: seq<Sample>, newest: int, windowUs: int) {
    var k := |all| - |window|;
    && k >= 0 && window == all[k..]
    && (forall i :: 0 <= i < k ==> newest - all[i].at > windowUs)
    && (forall i :: k <= i < |all| ==> newest - all[i].at <= windowUs)
  }

  /** Pruning drops the old samples and no other. */
  lemma {:induction false} PruneKeepsTheRecent(samples: seq<Sample>, arrival: int, windowUs: int)
    requires InOrder(samples)
    ensures IsRecent(samples, Prune(samples, arrival, windowUs), arrival, windowUs)
    decreases |samples|
  {
    if samples == [] || arrival - samples[0].at <= windowUs {
      assert samples[0..] == samples;
    } else {
      var rest := samples[1..];
      assert forall i :: 0 <= i < |rest| ==> rest[i] == samples[i + 1];
      PruneKeepsTheRecent(rest, arrival, windowUs);
      var k := |rest| - |Prune(rest, arrival, windowUs)|;
      assert rest[k..] == samples[k + 1..];
      assert forall i :: 0 < i < |samples| ==> samples[i] == rest[i - 1];
    }
  }

  /** The recent ones among the candidates are the recent ones of all, if everything before the candidates is old. */
  lemma {:induction false} RecentOfTheRest(all: seq<Sample>, k: nat, window: seq<Sample>, newest: int, windowUs: int)
    requires k <= |all| && forall i :: 0 <= i < k ==> newest - all[i].at > windowUs
    requires IsRecent(all[k..], window, newest, windowUs)
    ensures IsRecent(all, window, newest, windowUs)
  {
    var m := |all[k..]| - |window|;
    assert all[k..][m..] == all[k + m..];
    forall i | k <= i < |all|
      ensures all[i] == all[k..][i - k]
    {
    }
  }

  /** What was too old stays too old, so pruning the window is pruning everything. */
  lemma {:induction false} RecentMovesOn(all: seq<Sample>, window: seq<Sample>, newest: int, x: Sample, windowUs: int)
    requires IsRecent(all, window, newest, windowUs) && newest <= x.at && InOrder(all + [x])
    ensures IsRecent(all + [x], Prune(window + [x], x.at, windowUs), x.at, windowUs)
  {
    var k := |all| - |window|;
    var more := all + [x];
    assert more[k..] == window + [x];
    assert forall i :: 0 <= i < |more[k..]| ==> more[k..][i] == more[i + k];
    PruneKeepsTheRecent(more[k..], x.at, windowUs);
    RecentOfTheRest(more, k, Prune(window + [x], x.at, windowUs), x.at, windowUs);
  }

  /** Arrivals never go back. */
  ghost predicate Nondecreasing(frames: seq<Seen>) {
    forall i, j :: 0 <= i < j < |frames| ==> frames[i].arrival <= frames[j].arrival
  }

  lemma {:induction false} SamplesAreInOrder(c: Config, frames: seq<Seen>)
    requires Nondecreasing(frames)
    ensures InOrder(AllSamples(c, frames))
  {
  }

  lemma {:induction false} SamplesSnoc(c: Config, frames: seq<Seen>, n: nat)
    requires n + 1 == |frames|
    ensures var f := frames[n]; var s := Run(c, frames[..n]); var x := Sample(f.arrival, Transit(s, f.ts, f.arrival));
      && AllSamples(c, frames) == AllSamples(c, frames[..n]) + [x]
      && Run(c, frames).samples == Prune(s.samples + [x], f.arrival, c.windowMs * 1000)
  {
  }

  /** The window after a run is the recent past of its newest frame. */
  ghost predicate WindowIsRecent(c: Config, frames: seq<Seen>) {
    frames == [] ||
    IsRecent(AllSamples(c, frames), Run(c, frames).samples, frames[|frames| - 1].arrival, c.windowMs * 1000)
  }

  lemma {:induction false} WindowMovesOn(c: Config, frames: seq<Seen>, n: nat)
    requires n + 1 == |frames| && Nondecreasing(frames) && WindowIsRecent(c, frames[..n])
    ensures WindowIsRecent(c, frames)
  {
    SamplesAreInOrder(c, frames);
    SamplesSnoc(c, frames, n);
    var x := AllSamples(c, frames)[n];
    if n == 0 {
      RecentMovesOn([], [], x.at, x, c.windowMs * 1000);
    } else {
      RecentMovesOn(AllSamples(c, frames[..n]), Run(c, frames[..n]).samples, frames[n - 1].arrival, x, c.windowMs * 1000);
    }
  }

  /**
   After every run with arrivals that never go back, the window holds exactly the samples of
   the frames that arrived at most `windowMs` before the newest, in order.
   */
  lemma {:induction false} WindowIsTheRecentPast(c: Config, frames: seq<Seen>)
    requires Nondecreasing(frames)
    ensures WindowIsRecent(c, frames)
    decreases |frames|
  {
    if frames == [] {
    } else {
      var n := |frames| - 1;
      assert Nondecreasing(frames[..n]);
      WindowIsTheRecentPast(c, frames[..n]);
      WindowMovesOn(c, frames, n);
    }
  }

  // ---- the unwrapped clock is the true one ----

  /** If the true capture clock never jumps by half its 32-bit range, its differences are recovered exactly. */
  lemma {:induction false} UnwrapsTheTrueClock(c: Config, frames: seq<Seen>, times: seq<int>)
    requires |times| == |frames| > 0
    requires forall i :: 0 <= i < |times| ==> frames[i].ts == times[i] % TWO32
    requires forall i :: 0 <= i < |times| - 1 ==> -HALF32 <= times[i + 1] - times[i] < HALF32
    ensures Run(c, frames).ext - frames[0].ts == times[|times| - 1] - times[0]
    ensures Run(c, frames).haveTs && Run(c, frames).lastTs == frames[|frames| - 1].ts
    decreases |times|
  {
    var n := |times| - 1;
    if n > 0 {
      UnwrapsTheTrueClock(c, frames[..n], times[..n]);
      SameJump(times[n - 1], times[n]);
    } else {
      assert frames[..0] == [];
    }
  }

  lemma {:induction false} SameJump(t: int, u: int)
    requires -HALF32 <= u - t < HALF32
    ensures Distance(u % TWO32, t % TWO32) == u - t
  {
    var a, b := t / TWO32, u / TWO32;
    assert t == a * TWO32 + t % TWO32 && u == b * TWO32 + u % TWO32;
    assert (u % TWO32) - (t % TWO32) - (u - t) == (a - b) * TWO32;
    DistanceIsTheWrappedDifference(u % TWO32, t % TWO32, u - t);
  }
}
