/**
 What every tick of the bitrate controller does, told from the history of ticks alone: when
 windows open and close, which rounds of congested or clean ones they complete, how far the
 bitrate moves then, and when the encoder hears of it.
 */
module BitrateRuns {
  import opened Basics
  import opened CongestionWindow
  import opened BitrateControl

  // ---- scaling ----

  /** Scaling rounds to the nearest integer and stays within 32 bits. */
  lemma {:induction false} ScaleIsNearest(bps: Bps, factor: real)
    ensures var x := (bps as real) * factor;
      && (x <= 0.0 ==> Scale(bps, factor) == 0)
      && (x >= 4294967295.0 ==> Scale(bps, factor) == MAX_U32)
      && (0.0 <= x <= 4294967295.0 ==> -0.5 <= Scale(bps, factor) as real - x <= 0.5)
  {
    var x := (bps as real) * factor;
    if 0.0 <= x <= 4294967295.0 { ScaledIsNearest(x); }
  }

  lemma {:induction false} ScaledIsNearest(x: real)
    requires 0.0 <= x <= 4294967295.0
    ensures var r := if x <= 0.0 then 0 else if x >= 4294967295.0 then MAX_U32 else Min((x + 0.5).Floor, MAX_U32);
      -0.5 <= r as real - x <= 0.5
  {
  }

  // ---- the windows of a run ----

  /** When the open window began, and how each closed one was judged. */
  datatype Log = Log(since: Option<int>, closed: seq<bool>)

  function Windows(c: Config, events: seq<BitrateControl.Event>): Log
    decreases |events|
  {
    if events == [] then Log(None, [])
    else
      var w := Windows(c, events[..|events| - 1]);
      match events[|events| - 1]
      case Ticked(now, v) => Ticks(c, w, now, v.congested)
      case _ => w
  }

  /** A window opens with the first tick, and closes with the first one a whole window later, which opens the next. */
  function Ticks(c: Config, w: Log, now: int, congested: bool): Log {
    if w.since.None? then Log(Some(now), w.closed)
    else if now - w.since.value >= c.windowMs * 1000 then Log(Some(now), w.closed + [congested])
    else w
  }

  /** How many of the last windows in a row were judged so. */
  function InARow(closed: seq<bool>, judged: bool): nat
    decreases |closed|
  {
    if closed == [] || closed[|closed| - 1] != judged then 0 else 1 + InARow(closed[..|closed| - 1], judged)
  }

  lemma {:induction false} InARowSnoc(closed: seq<bool>, b: bool)
    ensures InARow(closed + [b], b) == InARow(closed, b) + 1
    ensures InARow(closed + [b], !b) == 0
  {
    assert (closed + [b])[..|closed|] == closed;
  }

  /** The counters count rounds: how far the current run of windows is into one. */
  ghost predicate Counted(c: Config, s: State, w: Log)
    requires Sane(c)
  {
    && s.windowStart == w.since
    && s.congested == InARow(w.closed, true) % c.congestedWindows
    && s.clean == InARow(w.closed, false) % c.cleanWindows
  }

  lemma {:induction false} NextInRound(r: nat, n: nat)
    requires n >= 1
    ensures (r + 1) % n == if r % n + 1 >= n then 0 else r % n + 1
  {
    var q := r / n;
    assert r == n * q + r % n;
    if r % n + 1 >= n {
      assert r + 1 == n * (q + 1) + 0;
      RemainderIsUnique(r + 1, n, q + 1, 0);
    } else {
      RemainderIsUnique(r + 1, n, q, r % n + 1);
    }
  }

  // ---- one tick ----

  /** The goal of a completed congested round: the scaled bitrate, or what the link delivered if that is lower. */
  function LowerGoal(c: Config, s: State, goodput: Bps): int {
    if goodput > 0 then Min(Scale(s.bitrate, c.decrease), Scale(goodput, c.goodputFactor)) else Scale(s.bitrate, c.decrease)
  }

  /** How a window that closes moves the bitrate: only at the end of a round, down to the goal or up by the factor, within the bounds. */
  function Adapted(c: Config, s: State, w: Log, congested: bool, goodput: Bps): int
    requires Sane(c)
  {
    if congested then
      if InARow(w.closed, true) % c.congestedWindows == 0
      then Min(s.bitrate, Max(Min(c.minBps, s.target), LowerGoal(c, s, goodput))) else s.bitrate
    else
      if InARow(w.closed, false) % c.cleanWindows == 0
      then Min(s.target, Max(s.bitrate + 1, Scale(s.bitrate, c.increase))) else s.bitrate
  }

  lemma {:induction false} CongestedCounts(c: Config, s: State, w: Log, goodput: Bps)
    requires Sane(c) && Counted(c, s, w)
    ensures var t := Congested(c, s, goodput); var w' := Log(w.since, w.closed + [true]);
      Counted(c, t, w') && t.bitrate == Adapted(c, s, w', true, goodput)
  {
    InARowSnoc(w.closed, true);
    NextInRound(InARow(w.closed, true), c.congestedWindows);
  }

  lemma {:induction false} CleanCounts(c: Config, s: State, w: Log)
    requires Sane(c) && Counted(c, s, w) && s.bitrate <= s.target
    ensures var t := Clean(c, s); var w' := Log(w.since, w.closed + [false]);
      Counted(c, t, w') && t.bitrate == Adapted(c, s, w', false, 0)
  {
    InARowSnoc(w.closed, false);
    NextInRound(InARow(w.closed, false), c.cleanWindows);
  }

  /** A tick closes a window exactly when one is over, and then moves the bitrate as the round says. */
  ghost predicate TickAdapts(c: Config, s: State, w: Log, now: int, v: Verdict, t: State)
    requires Sane(c)
  {
    var w' := Ticks(c, w, now, v.congested);
    && Counted(c, t, w')
    && t.target == s.target
    && t.bitrate == if |w'.closed| == |w.closed| then s.bitrate else Adapted(c, s, w', v.congested, v.goodput)
  }

  lemma {:induction false} AdvanceAdapts(c: Config, s: State, w: Log, now: int, v: Verdict)
    requires Sane(c) && Counted(c, s, w) && s.bitrate <= s.target
    ensures TickAdapts(c, s, w, now, v, Advance(c, s, now, v))
  {
    var s1 := s.(windowStart := Some(Start(s.windowStart, now)));
    var w1 := Log(s1.windowStart, w.closed);
    if Closes(c, s1, now) {
      CongestedCounts(c, s1, w1, v.goodput);
      CleanCounts(c, s1, w1);
    }
  }

  // ---- publishing ----

  /** A change the encoder should hear of: onto a bound, from nothing, or at least the smallest share of the published value. */
  ghost predicate WorthPublishing(c: Config, s: State) {
    s.bitrate != s.published &&
    (s.published == 0 || s.bitrate == s.target || s.bitrate == Min(c.minBps, s.target) ||
     Magnitude(s.bitrate as real - s.published as real) >= c.minDelta * s.published as real)
  }

  lemma {:induction false} QuotientIsProduct(a: real, p: real, d: real)
    requires p > 0.0
    ensures a / p >= d <==> a >= d * p
  {
    var q := a / p;
    assert q * p == a;
    if q >= d { ProductOfNonNegatives(q - d, p); } else { ProductOfPositives(d - q, p); }
    assert (q - d) * p == q * p - d * p;
  }

  lemma {:induction false} GateOpensWhenWorth(c: Config, s: State, now: int)
    ensures PublishNow(c, s, now) <==> WorthPublishing(c, s) && now - s.lastPublish >= c.minReconfigureMs * 1000
  {
    if s.published > 0 {
      QuotientIsProduct(Magnitude(s.bitrate as real - s.published as real), s.published as real, c.minDelta);
    }
  }

  /** A tick publishes exactly the bitrate it leaves, exactly if that is worth it and the last publication is long enough ago. */
  ghost predicate TickPublishes(c: Config, s: State, now: int, t: State) {
    var u := t.(published := s.published);
    if WorthPublishing(c, u) && now - s.lastPublish >= c.minReconfigureMs * 1000
    then t.published == t.bitrate && t.pending == t.bitrate && t.lastPublish == now
    else t.published == s.published && t.pending == s.pending && t.lastPublish == s.lastPublish
  }

  lemma {:induction false} PublishIsAccounted(c: Config, s: State, u: State, now: int)
    requires u.published == s.published && u.pending == s.pending && u.lastPublish == s.lastPublish
    ensures TickPublishes(c, s, now, Publish(c, u, now, false))
  {
    GateOpensWhenWorth(c, u, now);
    var t := Publish(c, u, now, false);
    assert WorthPublishing(c, t.(published := s.published)) <==> WorthPublishing(c, u);
  }

  lemma {:induction false} PublishAdaptsNothing(c: Config, s: State, w: Log, u: State, now: int, v: Verdict)
    requires Sane(c) && TickAdapts(c, s, w, now, v, u)
    ensures TickAdapts(c, s, w, now, v, Publish(c, u, now, false))
  {
  }

  lemma {:induction false} TickIsAccounted(c: Config, s: State, w: Log, now: int, v: Verdict)
    requires Sane(c) && Counted(c, s, w) && s.bitrate <= s.target
    ensures var t := Tick(c, s, now, v); TickAdapts(c, s, w, now, v, t) && TickPublishes(c, s, now, t)
  {
    AdvanceAdapts(c, s, w, now, v);
    AdvancePublishesNothing(c, s, now, v);
    PublishIsAccounted(c, s, Advance(c, s, now, v), now);
    PublishAdaptsNothing(c, s, w, Advance(c, s, now, v), now, v);
  }

  lemma {:induction false} AdvancePublishesNothing(c: Config, s: State, now: int, v: Verdict)
    ensures var u := Advance(c, s, now, v);
      u.published == s.published && u.pending == s.pending && u.lastPublish == s.lastPublish
  {
  }

  // ---- every run ----

  lemma {:induction false} WindowsSnoc(c: Config, events: seq<BitrateControl.Event>, e: BitrateControl.Event)
    ensures Windows(c, events + [e]) ==
      if e.Ticked? then Ticks(c, Windows(c, events), e.now, e.verdict.congested) else Windows(c, events)
  {
    assert (events + [e])[..|events|] == events;
  }

  lemma {:induction false} StepIsCounted(c: Config, h: History, w: Log, e: BitrateControl.Event)
    requires Sane(c) && Counted(c, h.state, w) && h.state.bitrate <= h.state.target
    ensures Counted(c, Apply(c, h, e).state, if e.Ticked? then Ticks(c, w, e.now, e.verdict.congested) else w)
  {
    match e
    case Ticked(now, v) => TickIsAccounted(c, h.state, w, now, v);
    case Target(_) =>
    case Taken =>
  }

  /** After every run the counters are exactly how far the last windows in a row are into a round. */
  lemma {:induction false} RoundsAreCounted(c: Config, target: Bps, events: seq<BitrateControl.Event>)
    requires Sane(c)
    ensures Counted(c, Run(c, target, events).state, Windows(c, events))
    decreases |events|
  {
    if events == [] {
    } else {
      var n := |events| - 1;
      var before, e := events[..n], events[n];
      assert before + [e] == events;
      RoundsAreCounted(c, target, before);
      EveryRunIsBounded(c, target, before);
      StepIsCounted(c, Run(c, target, before), Windows(c, before), e);
      WindowsSnoc(c, before, e);
      RunSnoc(c, target, before, e);
    }
  }

  /**
   After every run, a tick does exactly this. It closes the window if that has lasted long
   enough. A window that completes a round of congested ones in a row lowers the bitrate to
   the goal, one that completes a round of clean ones raises it by the factor or at least by
   one, within floor and ceiling; no other tick moves it. The encoder is told the new value
   exactly if it sits on a bound or is far enough from what it was told last, and that is
   long enough ago.
   */
  lemma {:induction false} EveryTickIsAccountedFor(c: Config, target: Bps, events: seq<BitrateControl.Event>, now: int, v: Verdict)
    requires Sane(c)
    ensures var s := Run(c, target, events).state; var t := Tick(c, s, now, v);
      TickAdapts(c, s, Windows(c, events), now, v, t) && TickPublishes(c, s, now, t)
  {
    RoundsAreCounted(c, target, events);
    EveryRunIsBounded(c, target, events);
    TickIsAccounted(c, Run(c, target, events).state, Windows(c, events), now, v);
  }
}
