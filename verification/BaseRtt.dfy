/**
 The base round-trip time of the sharer's connection: the minimum of the samples of the
 current block of about five seconds and of the block before it. It ignores queueing
 spikes, and follows a path that got longer once both blocks are past the change.
 */
module BaseRtt {
  import opened Basics

  const BLOCK_US: int := 5_000_000

  /** `blockMin` and `prevMin` are 0 while there is no sample; so is `blockStart`. */
  datatype Path = Path(rtt: nat, blockMin: nat, prevMin: nat, blockStart: int)

  function Unmeasured(rtt: nat): Path { Path(rtt, 0, 0, 0) }

  function Lower(least: nat, rtt: nat): nat { if least == 0 || rtt < least then rtt else least }

  function Measured(p: Path, now: int, rtt: nat): Path {
    if rtt == 0 then p
    else
      var start := if p.blockStart == 0 then now else p.blockStart;
      var over := now - start >= BLOCK_US;
      var prev := if over then p.blockMin else p.prevMin;
      var least := Lower(if over then 0 else p.blockMin, rtt);
      Path(if prev == 0 then least else Min(least, prev), least, prev, if over then now else start)
  }

  // ---- what the samples were ----

  datatype Sample = Sample(at: int, rtt: nat)

  /** Every sample so far; the current block is `samples[cur..]`, the one before it `samples[prev..cur]`. */
  datatype History = History(path: Path, samples: seq<Sample>, prev: nat, cur: nat)

  function Take(h: History, x: Sample): History {
    var path := Measured(h.path, x.at, x.rtt);
    if h.samples != [] && path.blockStart != h.path.blockStart
    then History(path, h.samples + [x], h.cur, |h.samples|)
    else History(path, h.samples + [x], h.prev, h.cur)
  }

  function Run(rtt: nat, samples: seq<Sample>): History
    decreases |samples|
  {
    if samples == [] then History(Unmeasured(rtt), [], 0, 0)
    else Take(Run(rtt, samples[..|samples| - 1]), samples[|samples| - 1])
  }

  /** Positive samples under a positive clock that never goes back. */
  ghost predicate Steady(samples: seq<Sample>) {
    && (forall i :: 0 <= i < |samples| ==> samples[i].rtt > 0 && samples[i].at > 0)
    && (forall i, j :: 0 <= i < j < |samples| ==> samples[i].at <= samples[j].at)
  }

  /** `m` is the smallest of the samples from `a` up to `b`, 0 if there is none. */
  ghost predicate IsLeast(samples: seq<Sample>, a: nat, b: nat, m: nat)
    requires a <= b <= |samples|
  {
    && (forall i :: a <= i < b ==> 0 < m <= samples[i].rtt)
    && (if a == b then m == 0 else exists i :: a <= i < b && samples[i].rtt == m)
  }

  lemma {:induction false} LeastExtends(samples: seq<Sample>, a: nat, m: nat, x: Sample)
    requires a <= |samples| && x.rtt > 0 && IsLeast(samples, a, |samples|, m)
    ensures IsLeast(samples + [x], a, |samples| + 1, Lower(m, x.rtt))
  {
    var more := samples + [x];
    assert more[|samples|] == x;
    assert forall i :: 0 <= i < |samples| ==> more[i] == samples[i];
    if a < |samples| {
      var i :| a <= i < |samples| && samples[i].rtt == m;
      assert more[i].rtt == m;
    }
  }

  lemma {:induction false} LeastStays(samples: seq<Sample>, a: nat, b: nat, m: nat, x: Sample)
    requires a <= b <= |samples| && IsLeast(samples, a, b, m)
    ensures IsLeast(samples + [x], a, b, m)
  {
    assert forall i :: 0 <= i < |samples| ==> (samples + [x])[i] == samples[i];
    if a < b {
      var i :| a <= i < b && samples[i].rtt == m;
      assert (samples + [x])[i].rtt == m;
    }
  }

  /** The two minima are those of the two blocks; the current block began with its first sample. */
  ghost predicate BlocksExact(h: History) {
    && h.prev <= h.cur <= |h.samples|
    && (h.samples != [] ==> h.cur < |h.samples| && h.path.blockStart == h.samples[h.cur].at)
    && (h.samples == [] ==> h.path.blockStart == 0)
    && IsLeast(h.samples, h.prev, h.cur, h.path.prevMin)
    && IsLeast(h.samples, h.cur, |h.samples|, h.path.blockMin)
    && (h.samples != [] ==>
          h.path.rtt == if h.path.prevMin == 0 then h.path.blockMin else Min(h.path.blockMin, h.path.prevMin))
  }

  /** A block lasts less than BLOCK_US; the sample that is later begins the next. */
  ghost predicate BlocksTimed(h: History) {
    && h.prev <= h.cur <= |h.samples|
    && (forall i :: h.cur <= i < |h.samples| ==> h.samples[i].at - h.path.blockStart < BLOCK_US)
    && (forall i :: h.prev <= i < h.cur ==> h.samples[i].at - h.samples[h.prev].at < BLOCK_US)
    && (h.prev < h.cur < |h.samples| ==> h.samples[h.cur].at - h.samples[h.prev].at >= BLOCK_US)
    && (h.prev > 0 ==> h.prev < h.cur)
  }

  /** Does this sample begin a new block? */
  predicate Rolls(h: History, x: Sample) {
    h.samples != [] && x.at - h.path.blockStart >= BLOCK_US
  }

  lemma {:induction false} TakeByCase(h: History, x: Sample)
    requires BlocksExact(h) && Steady(h.samples + [x])
    ensures var t := Take(h, x); var least := Lower(if Rolls(h, x) then 0 else h.path.blockMin, x.rtt);
      && t.samples == h.samples + [x]
      && t.prev == (if Rolls(h, x) then h.cur else h.prev)
      && t.cur == (if Rolls(h, x) then |h.samples| else h.cur)
      && t.path.blockMin == least
      && t.path.prevMin == (if Rolls(h, x) then h.path.blockMin else h.path.prevMin)
      && t.path.blockStart == (if Rolls(h, x) || h.samples == [] then x.at else h.path.blockStart)
      && t.path.rtt == if t.path.prevMin == 0 then least else Min(least, t.path.prevMin)
  {
    var more := h.samples + [x];
    assert more[|h.samples|] == x;
    if h.samples != [] { assert more[h.cur] == h.samples[h.cur]; }
  }

  lemma {:induction false} TakeIsExact(h: History, x: Sample)
    requires BlocksExact(h) && Steady(h.samples + [x])
    ensures BlocksExact(Take(h, x))
  {
    var n := |h.samples|;
    assert (h.samples + [x])[n] == x;
    TakeByCase(h, x);
    if Rolls(h, x) {
      LeastExtends(h.samples, n, 0, x);
      LeastStays(h.samples, h.cur, n, h.path.blockMin, x);
    } else {
      LeastExtends(h.samples, h.cur, h.path.blockMin, x);
      LeastStays(h.samples, h.prev, h.cur, h.path.prevMin, x);
      if n > 0 { assert (h.samples + [x])[h.cur] == h.samples[h.cur]; }
    }
  }

  lemma {:induction false} TakeIsTimed(h: History, x: Sample)
    requires BlocksExact(h) && BlocksTimed(h) && Steady(h.samples + [x])
    ensures BlocksTimed(Take(h, x))
  {
    TakeByCase(h, x);
    var more := h.samples + [x];
    assert more[|h.samples|] == x;
    assert forall i :: 0 <= i < |h.samples| ==> more[i] == h.samples[i];
  }

  lemma {:induction false} SteadyBefore(samples: seq<Sample>, n: nat)
    requires Steady(samples) && n <= |samples|
    ensures Steady(samples[..n])
  {
    assert forall i :: 0 <= i < n ==> samples[..n][i] == samples[i];
  }

  /** The history keeps every sample, with exact blocks. */
  ghost predicate Exact(h: History, samples: seq<Sample>) {
    h.samples == samples && BlocksExact(h) && BlocksTimed(h)
  }

  lemma {:induction false} StepIsExact(h: History, before: seq<Sample>, x: Sample)
    requires Exact(h, before) && Steady(before + [x])
    ensures Exact(Take(h, x), before + [x])
  {
    TakeIsExact(h, x);
    TakeIsTimed(h, x);
  }

  lemma {:induction false} NothingIsExact(rtt: nat)
    ensures Exact(History(Unmeasured(rtt), [], 0, 0), [])
  {
  }

  lemma {:induction false} RunSnoc(rtt: nat, samples: seq<Sample>, x: Sample)
    ensures Run(rtt, samples + [x]) == Take(Run(rtt, samples), x)
  {
    assert (samples + [x])[..|samples|] == samples;
  }

  lemma {:induction false} RunIsExact(rtt: nat, samples: seq<Sample>)
    requires Steady(samples)
    ensures Exact(Run(rtt, samples), samples)
    decreases |samples|
  {
    if samples == [] {
      NothingIsExact(rtt);
    } else {
      var n := |samples| - 1;
      var before, x := samples[..n], samples[n];
      assert before + [x] == samples;
      SteadyBefore(samples, n);
      RunIsExact(rtt, before);
      StepIsExact(Run(rtt, before), before, x);
      RunSnoc(rtt, before, x);
    }
  }

  /** What the base round-trip time is after a run, as of its newest sample. */
  ghost predicate IsWindowedMinimum(samples: seq<Sample>, rtt: nat, gap: int)
    requires samples != []
  {
    var newest := samples[|samples| - 1].at;
    // no sample of the last block's length is below it
    && (forall i :: 0 <= i < |samples| && newest - samples[i].at < BLOCK_US ==> rtt <= samples[i].rtt)
    // and it was measured at most two blocks and one pause between samples ago
    && (exists i :: 0 <= i < |samples| && samples[i].rtt == rtt && newest - samples[i].at < 2 * BLOCK_US + gap)
  }

  ghost predicate Spaced(samples: seq<Sample>, gap: int) {
    forall i :: 0 < i < |samples| ==> SpacedAt(samples, i, gap)
  }

  ghost predicate SpacedAt(samples: seq<Sample>, i: nat, gap: int)
    requires 0 < i < |samples|
  {
    samples[i].at - samples[i - 1].at <= gap
  }

  /** A sample of the last block's length lies in one of the two blocks. */
  lemma {:induction false} RecentIsKept(h: History, i: nat)
    requires BlocksExact(h) && BlocksTimed(h) && Steady(h.samples) && i < |h.samples|
    requires h.samples[|h.samples| - 1].at - h.samples[i].at < BLOCK_US
    ensures h.prev <= i && h.path.rtt <= h.samples[i].rtt
  {
    if h.prev > 0 {
      assert h.samples[h.cur].at <= h.samples[|h.samples| - 1].at;
      assert h.samples[h.prev].at < h.samples[i].at;
    }
  }

  /** Whatever is kept is young enough. */
  lemma {:induction false} KeptIsYoung(h: History, i: nat, gap: int)
    requires BlocksExact(h) && BlocksTimed(h) && Steady(h.samples) && Spaced(h.samples, gap) && gap >= 0
    requires h.prev <= i < |h.samples|
    ensures h.samples[|h.samples| - 1].at - h.samples[i].at < 2 * BLOCK_US + gap
  {
    var last := h.samples[|h.samples| - 1].at;
    assert last - h.path.blockStart < BLOCK_US;
    if i < h.cur {
      assert SpacedAt(h.samples, h.cur, gap);
      assert h.samples[h.cur - 1].at - h.samples[h.prev].at < BLOCK_US;
      assert h.samples[h.prev].at <= h.samples[i].at;
    } else {
      assert h.samples[h.cur].at <= h.samples[i].at;
    }
  }

  /**
   Over every run of samples under a clock that never goes back: the base round-trip time is
   at most every sample of the last five seconds, and is itself a sample at most ten seconds
   and one pause between samples old. So a spike never raises it, and a longer path does.
   */
  lemma {:induction false} BaseRttIsAWindowedMinimum(rtt: nat, samples: seq<Sample>, gap: int)
    requires samples != [] && Steady(samples) && Spaced(samples, gap) && gap >= 0
    ensures IsWindowedMinimum(samples, Run(rtt, samples).path.rtt, gap)
  {
    RunIsExact(rtt, samples);
    ExactIsAWindowedMinimum(Run(rtt, samples), gap);
  }

  lemma {:induction false} ExactIsAWindowedMinimum(h: History, gap: int)
    requires h.samples != [] && BlocksExact(h) && BlocksTimed(h)
    requires Steady(h.samples) && Spaced(h.samples, gap) && gap >= 0
    ensures IsWindowedMinimum(h.samples, h.path.rtt, gap)
  {
    forall i | 0 <= i < |h.samples| && h.samples[|h.samples| - 1].at - h.samples[i].at < BLOCK_US
      ensures h.path.rtt <= h.samples[i].rtt
    {
      RecentIsKept(h, i);
    }
    var i :| h.prev <= i < |h.samples| && h.samples[i].rtt == h.path.rtt;
    KeptIsYoung(h, i, gap);
  }
}
