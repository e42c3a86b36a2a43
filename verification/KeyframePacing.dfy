/**
 Pacing of keyframe requests. Whoever asks (a loss report, an abort, the decoder or the
 periodic tick) goes through one gate per stream: a request goes out at most once per
 backoff, which doubles up to a limit while the stream stays broken and drops back when a
 keyframe is delivered.
 */
module KeyframePacing {
  import opened Basics

  /** Backoffs in microseconds, as the constructor leaves them. */
  datatype Limits = Limits(base: int, max: int)

  function Normalize(baseMs: nat, maxMs: nat): (l: Limits)
    ensures 0 < l.base <= l.max
  {
    var b := if baseMs == 0 then 1 else baseMs;
    Limits(b * 1000, (if maxMs < b then b else maxMs) * 1000)
  }

  ghost predicate Sane(l: Limits) { 0 < l.base <= l.max }

  datatype Pacing = Pacing(next: int, backoff: int)

  /** Requests since the stream was opened. */
  datatype Stats = Stats(sent: nat, paced: nat)

  /** A stream's gate: absent until the stream is opened at a known time or first asks. */
  datatype Gate = Absent | Present(pacing: Pacing)

  datatype Entry = Entry(gate: Gate, stats: Stats)

  function Opened(l: Limits, now: int): Entry {
    Entry(if now != 0 then Present(Pacing(now + l.base, l.base)) else Absent, Stats(0, 0))
  }

  function KeyArrived(l: Limits, e: Entry): Entry {
    if e.gate.Absent? then e else e.(gate := Present(Pacing(0, l.base)))
  }

  /** A request: the entry after it, and whether it goes out. */
  function Asked(l: Limits, e: Entry, now: int): (Entry, bool) {
    var p := if e.gate.Present? then e.gate.pacing else Pacing(0, 0);
    var b := if p.backoff == 0 then l.base else p.backoff;
    if now < p.next then (Entry(Present(Pacing(p.next, b)), e.stats.(paced := e.stats.paced + 1)), false)
    else (Entry(Present(Pacing(now + b, Min(b * 2, l.max))), e.stats.(sent := e.stats.sent + 1)), true)
  }

  // ---- the gate as the router keeps it ----

  class Pacer {
    const limits: Limits
    var pacing: map<nat, Pacing>
    var stats: map<nat, Stats>

    constructor (baseMs: nat, maxMs: nat)
      ensures limits == Normalize(baseMs, maxMs) && pacing == map[] && stats == map[]
    {
      limits := Normalize(baseMs, maxMs);
      pacing, stats := map[], map[];
    }

    /** What is kept for one stream; counters of a stream that never asked read as zero. */
    ghost function At(id: nat): Entry
      reads this
    {
      Entry(if id in pacing then Present(pacing[id]) else Absent, if id in stats then stats[id] else Stats(0, 0))
    }

    method Open(id: nat, now: int)
      modifies this
      ensures At(id) == Opened(limits, now)
      ensures forall other :: other != id ==> At(other) == old(At(other))
    {
      pacing, stats := pacing - {id}, stats - {id};
      if now != 0 {
        pacing := pacing[id := Pacing(now + limits.base, limits.base)];
      }
    }

    method Close(id: nat)
      modifies this
      ensures At(id) == Entry(Absent, Stats(0, 0))
      ensures forall other :: other != id ==> At(other) == old(At(other))
    {
      pacing, stats := pacing - {id}, stats - {id};
    }

    method RequestKeyframe(id: nat, now: int) returns (send: bool)
      modifies this
      ensures (At(id), send) == Asked(limits, old(At(id)), now)
      ensures forall other :: other != id ==> At(other) == old(At(other))
    {
      var p := if id in pacing then pacing[id] else Pacing(0, 0);
      var s := if id in stats then stats[id] else Stats(0, 0);
      if p.backoff == 0 { p := p.(backoff := limits.base); }
      send := now >= p.next;
      if !send {
        s := s.(paced := s.paced + 1);
      } else {
        p := Pacing(now + p.backoff, Min(p.backoff * 2, limits.max));
        s := s.(sent := s.sent + 1);
      }
      pacing, stats := pacing[id := p], stats[id := s];
    }

    method KeyframeArrived(id: nat)
      modifies this
      ensures At(id) == KeyArrived(limits, old(At(id)))
      ensures forall other :: other != id ==> At(other) == old(At(other))
    {
      if id !in pacing { return; }
      pacing := pacing[id := Pacing(0, limits.base)];
    }
  }

  // ---- runs ----

  datatype Event = Reopen(now: int) | Key | Ask(now: int)

  /**
   `times` are the requests sent since the stream was opened or last delivered a keyframe;
   `sent` and `asks` count requests and calls since it was opened; `held` is the earliest
   time the first request may go out: one backoff after an opening at a known time, none
   after a keyframe.
   */
  datatype History = History(entry: Entry, times: seq<int>, sent: nat, asks: nat, held: Option<int>)

  function Apply(l: Limits, h: History, e: Event): History {
    match e
    case Reopen(now) => History(Opened(l, now), [], 0, 0, if now != 0 then Some(now + l.base) else None)
    case Key => h.(entry := KeyArrived(l, h.entry), times := [], held := None)
    case Ask(now) =>
      var (entry, sent) := Asked(l, h.entry, now);
      History(entry, h.times + (if sent then [now] else []), h.sent + (if sent then 1 else 0), h.asks + 1, h.held)
  }

  function Run(l: Limits, events: seq<Event>): History
    decreases |events|
  {
    if events == [] then History(Entry(Absent, Stats(0, 0)), [], 0, 0, None)
    else Apply(l, Run(l, events[..|events| - 1]), events[|events| - 1])
  }

  function Pow2(n: nat): int {
    if n == 0 then 1 else 2 * Pow2(n - 1)
  }

  /** The backoff in force after `n` requests. */
  function Backoff(l: Limits, n: nat): int {
    Min(l.base * Pow2(n), l.max)
  }

  lemma {:induction false} Doubles(base: int, n: nat)
    ensures base * Pow2(n + 1) == 2 * (base * Pow2(n))
  {
    assert base * (2 * Pow2(n)) == 2 * (base * Pow2(n));
  }

  lemma {:induction false} BackoffStart(l: Limits)
    requires Sane(l)
    ensures Backoff(l, 0) == l.base
  {
    assert l.base * Pow2(0) == l.base;
  }

  /** The uncapped backoff never falls below where it starts. */
  lemma {:induction false} BackoffGrows(base: int, n: nat)
    requires base > 0
    ensures base * Pow2(n) >= base
    decreases n
  {
    if n == 0 {
      assert base * Pow2(0) == base;
    } else {
      BackoffGrows(base, n - 1);
      Doubles(base, n - 1);
    }
  }

  lemma {:induction false} BackoffDoubles(l: Limits, n: nat)
    requires Sane(l)
    ensures Min(Backoff(l, n) * 2, l.max) == Backoff(l, n + 1)
    ensures l.base <= Backoff(l, n) <= l.max
  {
    Doubles(l.base, n);
    BackoffGrows(l.base, n);
  }

  ghost predicate SpacedAt(l: Limits, times: seq<int>, i: nat)
    requires 0 < i < |times|
  {
    times[i] - times[i - 1] >= Backoff(l, i - 1)
  }

  /** The (i+1)-th request follows the i-th by at least min(base * 2^(i-1), max). */
  ghost predicate Spaced(l: Limits, times: seq<int>) {
    forall i :: 0 < i < |times| ==> SpacedAt(l, times, i)
  }

  ghost predicate Good(l: Limits, h: History) {
    && Spaced(l, h.times)
    && h.entry.stats.sent == h.sent && h.entry.stats.sent + h.entry.stats.paced == h.asks
    && (h.entry.gate.Absent? ==> h.times == [] && h.held.None?)
    && (h.entry.gate.Present? ==>
          && h.entry.gate.pacing.backoff == Backoff(l, |h.times|)
          && (h.times != [] ==> h.entry.gate.pacing.next == h.times[|h.times| - 1] + Backoff(l, |h.times| - 1))
          && (h.times == [] ==> h.entry.gate.pacing.next == if h.held.Some? then h.held.value else 0))
    && (h.times != [] && h.held.Some? ==> h.times[0] >= h.held.value)
  }

  lemma {:induction false} SpacedExtends(l: Limits, times: seq<int>, now: int)
    requires Spaced(l, times)
    requires times != [] ==> now - times[|times| - 1] >= Backoff(l, |times| - 1)
    ensures Spaced(l, times + [now])
  {
    forall i | 0 < i < |times| + 1
      ensures SpacedAt(l, times + [now], i)
    {
      if i < |times| { assert SpacedAt(l, times, i); }
    }
  }

  lemma {:induction false} AskKeeps(l: Limits, h: History, now: int)
    requires Sane(l) && Good(l, h)
    ensures Good(l, Apply(l, h, Ask(now)))
  {
    var (entry, sent) := Asked(l, h.entry, now);
    BackoffDoubles(l, |h.times|);
    BackoffStart(l);
    if sent {
      SpacedExtends(l, h.times, now);
    } else {
      assert h.times + [] == h.times;
    }
  }

  lemma {:induction false} ApplyKeeps(l: Limits, h: History, e: Event)
    requires Sane(l) && Good(l, h)
    ensures Good(l, Apply(l, h, e))
  {
    BackoffStart(l);
    if e.Ask? { AskKeeps(l, h, e.now); }
  }

  lemma {:induction false} RunKeeps(l: Limits, events: seq<Event>)
    requires Sane(l)
    ensures Good(l, Run(l, events))
    decreases |events|
  {
    if events == [] {
    } else {
      RunKeeps(l, events[..|events| - 1]);
      ApplyKeeps(l, Run(l, events[..|events| - 1]), events[|events| - 1]);
    }
  }

  /**
   For every run of opens, delivered keyframes and requests, whoever makes them: between
   two keyframes the requests sent are spaced by the doubling backoff, the backoff stays in
   its limits, and every call since the open was either sent or held back.
   */
  lemma {:induction false} RequestsArePaced(l: Limits, events: seq<Event>)
    requires Sane(l)
    ensures var h := Run(l, events);
      && Spaced(l, h.times)
      && h.entry.stats.sent == h.sent && h.entry.stats.sent + h.entry.stats.paced == h.asks
      && (h.entry.gate.Present? ==> l.base <= h.entry.gate.pacing.backoff <= l.max)
      && (h.times != [] && h.held.Some? ==> h.times[0] >= h.held.value)
  {
    RunKeeps(l, events);
    BackoffDoubles(l, |Run(l, events).times|);
  }

  /**
   Pacing never starves a stream: a call goes out exactly if the backoff in force since the
   last request sent is over; before any, if the time fixed by opening has come. After a
   delivered keyframe the next call goes out at once.
   */
  lemma {:induction false} RequestIsSentExactlyWhenDue(l: Limits, events: seq<Event>, now: int)
    requires Sane(l)
    ensures var h := Run(l, events);
      Asked(l, h.entry, now).1 <==>
        now >= if h.times != [] then h.times[|h.times| - 1] + Backoff(l, |h.times| - 1)
               else if h.held.Some? then h.held.value else 0
  {
    RunKeeps(l, events);
  }
}
